# Map/reduce diagram engine and precompiled-header Makefile patcher, in Dafny

This project models two small pieces of logic from a personal website
repository and proves properties of them.

**The map/reduce diagram** (`assets/2048/map_reduce.js`) animates a
map/reduce computation as columns of rectangles. The array `LAYERS` holds one
layer per even value of a counter `sum`; layer `sum` sits at index `sum / 2`.
Each layer holds an ordered list of pieces. A piece has a `done` flag, an
`offset` (its vertical position), a `size` and an optional `parent` (the
piece it was mapped from). Five operations rewrite the lists:

- `split` cuts the first piece of a layer into `PIECE_SIZE` chunks plus a
  remainder.
- `map` pushes a copy of every piece, scaled by `GROWTH`, onto the layers two
  and four steps ahead.
- `join` collapses a layer into one done piece.
- `reduce` replaces a layer with one done piece scaled by `SHRINKAGE`.
- `tidyUp` moves the last piece to offset 0.

The `run` driver chains five callbacks (`runPreMap`, `runMap`, `runPostMap`,
`runReduce`, `runPostReduce`) and moves `sum` on by 2 per cycle until
`MAX_SUM`, then starts over from `reset()`.

The model has these parts:

- `Pieces` (pieces.dfy): pieces as values, `Piece.split`, and what `map`
  pushes.
- `Layers` (layers.dfy): the `Layer` class, whose methods reassign its
  `pieces` field. Each method is proved against a function on values.
- `Driver` (control.dfy): the callback chain as an explicit state
  `Control(sum, next)`.
- `Diagrams` (diagram.dfy): the whole `LAYERS` array as a value. It carries
  the invariant that every callback keeps. It also proves that `Piece.key`
  never gives two drawn pieces the same key.
- `Engine` (engine.dfy): the class `MapReduce`. It holds the array of layer
  objects, `sum`, and the callback due next. `Step` runs that callback.

**The Makefile patcher** (`cdtgch.rb`) edits the makefile that Eclipse CDT
generates so that the build uses a precompiled header, `src/stdafx.h`. The
makefile and `src/subdir.mk` are taken as lists of lines. The script makes
four guarded edits:

- insert the dependency line `CPP_DEPS += …` after `-include objects.mk`;
- append the `$(OBJS)` rule;
- append the rule that builds the `.gch` file, with a g++ command taken from
  subdir.mk;
- insert an `rm -f` line under `clean:`.

It raises when an anchor line is missing. It writes the makefile back only
if some edit fired.

- `Lines` (lines.dfy): line search (equal, prefix, substring), insertion, and
  the "subsequence" order.
- `Options` (options.dfy): the `gsub!` that rewrites `-MF"…"` and `-MT"…"`.
- `Makefile` (makefile.dfy): the four edits as functions, and the script as
  methods proved equal to them.
- `MakefileLemmas` (makefile_lemmas.dfy): error cases, preservation of the
  original lines, the meaning of `rewrite_makefile`, and idempotence.
- `MakefileText` (makefile_text.dfy): reading and writing the makefile as
  text. It proves that a second run on the written file writes nothing.

Sizes and offsets are exact `real`s, so `0.8` is exactly 4/5.

Three details of the code that the model keeps as written:

- `split` replaces the layer with the split of its *first* piece and drops
  any further pieces (map_reduce.js:59-63).
- `tidyUp` sets the offset of the layer's *last* piece to 0
  (map_reduce.js:94-98).
- The remainder chunk is `size - floor(size / c) * c`, which is what JS `%`
  gives for non-negative sizes (map_reduce.js:118).

The main results are:

- `Diagrams.NextWellFormed`: every callback of the driver keeps the diagram
  well formed (each layer packed and positive, the right number of layers).
- `Diagrams.KeysDistinct`: no two pieces drawn in one frame share a
  `Piece.key`.
- `Driver.Cycles` and `Driver.RunRestarts`: the counter climbs by 2 per cycle
  and the run starts over once it reaches `MAX_SUM`.
- `Engine.PushMapped`: the `forEach` loop of `map` pushes exactly what
  `Pieces.MapInto` describes.
- `MakefileLemmas.PatchOutcome` and `MakefileLemmas.Idempotent`: the script
  rewrites the makefile exactly when one of its checks fails, keeps every
  original line in order, and a second run changes nothing.
- `MakefileText.RerunWritesNothing`: a second run on the file the script wrote
  writes nothing.
- `MakefileLemmas.RewriteCommandSetsBoth`: the copied g++ command names the
  header's dependency file in every `-MF"…"` and every `-MT"…"`.

## Model

| member | source | states |
|---|---|---|
| `Pieces.ChunkCount` | assets/2048/map_reduce.js:113 | `Math.floor(size / pieceSize)` chunks fit, and what remains after them is at least 0 and less than one chunk |
| `Pieces.SplitPiece` | assets/2048/map_reduce.js:112-124 | the split has floor(s/c) chunks, plus one more exactly when the remainder is positive; every chunk keeps `done`, has no parent and has a positive size of at most c; all chunks but the last have size c |
| `Pieces.SplitPieceChunks` | assets/2048/map_reduce.js:113-122 | chunk i (i < floor(s/c)) is `Piece(done, i*c, c, None)`; a remainder chunk exists iff s − floor(s/c)·c > 0; it sits at offset floor(s/c)·c with exactly that size |
| `Pieces.SplitPieceConserves` | assets/2048/map_reduce.js:112-124 | the chunks add up to the piece's size and lie end to end from offset 0 |
| `Pieces.TotalSize` | assets/2048/map_reduce.js:69-71 | `getTotalSize`, the sum of the piece sizes, added from the left; `TotalSizePositive` and `TotalSizeConcat` state its properties |
| `Pieces.Key` | assets/2048/map_reduce.js:126-128 | `Piece.key`: the layer's sum, the offset and the size; `Diagrams.KeysDistinct` shows no two drawn pieces share one |
| `Pieces.TotalSizePositive` | assets/2048/map_reduce.js:69-71 | the total of positive pieces is non-negative, and it is zero exactly for the empty layer |
| `Pieces.TotalSizeConcat` | assets/2048/map_reduce.js:28-30 | the sum over two lists put together is the sum of their sums |
| `Pieces.PackedPush` | assets/2048/map_reduce.js:55-57 | a piece pushed at offset equal to the current total keeps every offset equal to the running sum of the sizes before it, and adds its size to the total |
| `Pieces.PackedOffsetsIncrease` | assets/2048/map_reduce.js:55-57 | in a packed layer of positive pieces, offsets strictly increase |
| `Pieces.ChunksPacked` | assets/2048/map_reduce.js:114-117 | the whole chunks lie end to end and total n·c |
| `Pieces.MapInto` | assets/2048/map_reduce.js:82-86 | the downstream layer grows by exactly one piece per source piece |
| `Pieces.MapIntoPieces` | assets/2048/map_reduce.js:79-87 | the downstream pieces already there are unchanged; the copy of source piece j is not done, has size GROWTH·size_j and parent (sum, j), and sits at the old total plus GROWTH times the total of the source pieces before j |
| `Pieces.MapIntoTotal` | assets/2048/map_reduce.js:79-87 | mapping adds GROWTH times the source total to the downstream total |
| `Pieces.MapIntoPacked` | assets/2048/map_reduce.js:82-86 | mapping onto a packed layer leaves it packed |
| `Pieces.MapIntoPositive` | assets/2048/map_reduce.js:83 | mapping positive pieces keeps every downstream size positive |
| `Layers.SplitLayer` | assets/2048/map_reduce.js:59-63 | `split` on a layer's pieces: the split of the first piece, an empty layer left empty; its properties are `SplitLayerConserves` |
| `Layers.SplitLayerConserves` | assets/2048/map_reduce.js:59-63 | splitting a layer whose first piece is positive gives a non-empty, packed list of positive chunks that total that piece's size |
| `Layers.JoinLayer` | assets/2048/map_reduce.js:73-77 | `join` on a layer's pieces: one done piece at offset 0 of the old total; its properties are `JoinLayerConserves` |
| `Layers.JoinLayerConserves` | assets/2048/map_reduce.js:73-77 | after `join` the total is unchanged, the layer is packed, and positive stays positive |
| `Layers.ReduceLayer` | assets/2048/map_reduce.js:89-92 | `reduce` on a layer's pieces: the pushed done piece of SHRINKAGE × the total, at offset the total, is the one piece kept; its properties are `ReduceLayerShrinks` |
| `Layers.ReduceLayerShrinks` | assets/2048/map_reduce.js:89-92 | after `reduce` the total is SHRINKAGE times the old total, and positive stays positive |
| `Layers.TidyLayer` | assets/2048/map_reduce.js:94-98 | `tidyUp` on a layer's pieces: the last piece moves to offset 0; its properties are `TidyLayerPacks` |
| `Layers.TidyLayerPacks` | assets/2048/map_reduce.js:94-98 | `tidyUp` keeps the length, changes only the last piece's offset (to 0), is a no-op on an empty layer, and packs a one-piece layer |
| `Layers.Layer.PushPiece` | assets/2048/map_reduce.js:55-57 | appends exactly one piece, whose offset is the total before the call; the existing pieces are untouched |
| `Layers.Layer.Split` | assets/2048/map_reduce.js:59-63 | the pieces become the split of the first piece; an empty layer is left alone |
| `Layers.Layer.Join` | assets/2048/map_reduce.js:73-77 | the pieces become one done piece at offset 0 holding the previous total |
| `Layers.Layer.Reduce` | assets/2048/map_reduce.js:89-92 | the pieces become one done piece of size SHRINKAGE × previous total, at offset equal to the previous total |
| `Layers.Layer.TidyUp` | assets/2048/map_reduce.js:94-98 | the last piece's offset becomes 0 and nothing else changes |
| `Driver.Advance` | assets/2048/map_reduce.js:307-341 | one callback keeps `sum` even and within [0, MAX_SUM]; only `runPostReduce` changes `sum`, by exactly +2, except that `loop` at MAX_SUM restarts from `start` |
| `Driver.AdvanceByInRange` | assets/2048/map_reduce.js:307-348 | any number of callbacks from a state in range stays in range |
| `Driver.AdvanceByAdd` | assets/2048/map_reduce.js:307-341 | a+b callbacks in a row are a callbacks followed by b more |
| `Driver.OneCycle` | assets/2048/map_reduce.js:307-334 | below MAX_SUM, the five callbacks from `loop` back to `loop` move `sum` on by exactly 2 |
| `Driver.Cycles` | assets/2048/map_reduce.js:307-348 | k cycles after `start` reach `sum` = 2k |
| `Driver.RunRestarts` | assets/2048/map_reduce.js:336-348 | from `start`, MAX_SUM/2 cycles reach `sum` = MAX_SUM, and the next callback is `start` again |
| `Diagrams.InitialSplit` | assets/2048/map_reduce.js:208-214 | `reset` splits the piece of START_SIZE × GROWTH = 48 into a piece of 30 at offset 0 and one of 18 at offset 30 |
| `Diagrams.Grow` | assets/2048/map_reduce.js:42-48 | `getLayer` extends the array with empty layers only past its end; existing layers are never replaced |
| `Diagrams.MapStep` | assets/2048/map_reduce.js:79-87 | `map` on the whole diagram: `getLayer` grows it, then both layers ahead get `MapInto` of the source layer; its properties are `MapStepLayers`, `MapTotals` and `MapStepTwice` |
| `Diagrams.MapStepLayers` | assets/2048/map_reduce.js:79-87 | on a diagram ending at layer s+2, `map` leaves layers up to s unchanged, maps onto layer s+2 and creates layer s+4 |
| `Diagrams.MapStepTwice` | assets/2048/map_reduce.js:79-87 | `map` leaves its own layer unchanged; a second call grows both downstream layers again by the source count, so it is not idempotent |
| `Diagrams.MapTotals` | assets/2048/map_reduce.js:79-87 | `map` adds GROWTH × the source layer's total to each of the two layers ahead, and changes no other layer |
| `Diagrams.InitialWellFormed` | assets/2048/map_reduce.js:208-214 | the diagram after `reset` satisfies the driver's invariant with `sum` = 0 |
| `Diagrams.PreMapWellFormed` | assets/2048/map_reduce.js:308-312 | `runPreMap` keeps the invariant and the current layer's total |
| `Diagrams.MapWellFormed` | assets/2048/map_reduce.js:314-317 | `runMap` keeps the invariant, adds one layer and leaves the layers up to the current one unchanged |
| `Diagrams.PostMapWellFormed` | assets/2048/map_reduce.js:319-322 | `runPostMap` keeps the invariant and the current layer's total |
| `Diagrams.ReduceWellFormed` | assets/2048/map_reduce.js:324-328 | `runReduce` keeps the invariant and scales the next layer's total by SHRINKAGE |
| `Diagrams.PostReduceWellFormed` | assets/2048/map_reduce.js:330-334 | `runPostReduce` keeps the invariant |
| `Diagrams.Next` | assets/2048/map_reduce.js:304-348 | what each of the five callbacks does to the diagram, and `start`/`reset` once MAX_SUM is reached; `NextWellFormed` shows each keeps the invariant |
| `Diagrams.NextWellFormed` | assets/2048/map_reduce.js:304-348 | every callback of the driver keeps the invariant: layers 0 … sum/2+2 (or +3), all pieces positive, every layer packed except the one reduced and not yet tidied |
| `Diagrams.AllPieces` | assets/2048/map_reduce.js:162-164 | `getAllPieces` holds every piece of every layer and nothing else |
| `Diagrams.LayerKeys` | assets/2048/map_reduce.js:126-128 | key j of a layer is `(sum, offset, size)` of its piece j |
| `Diagrams.AllKeysOfAllPieces` | assets/2048/map_reduce.js:298-300 | the keys handed to the data join line up one to one with `getAllPieces` |
| `Diagrams.WellFormedOffsetsApart` | assets/2048/map_reduce.js:126-128 | in a diagram satisfying the invariant, no two pieces of a layer share an offset |
| `Diagrams.AllKeysDistinct` | assets/2048/map_reduce.js:126-128 | when each layer's offsets are distinct, all keys of the frame are distinct |
| `Diagrams.KeysDistinct` | assets/2048/map_reduce.js:126-128 | in every frame the driver draws, `Piece.key` gives each piece a different key |
| `Engine.MapReduce.constructor` | assets/2048/map_reduce.js:350-351 | `run` starts with `sum` = 0, `loop` due next and the layers of `reset` |
| `Engine.MapReduce.GetLayer` | assets/2048/map_reduce.js:42-48 | returns the layer at index sum/2 (tagged sum); a new empty layer is appended only when the index equals the length; existing layers are never replaced |
| `Engine.MapReduce.MapLayer` | assets/2048/map_reduce.js:79-87 | `Layer.map` on the layer objects changes the diagram as `MapStep` says |
| `Engine.MapReduce.LayersAhead` | assets/2048/map_reduce.js:80-81 | the two `getLayer` calls yield the layers at indices i+1 and i+2, growing the array as needed |
| `Engine.MapReduce.MapOnto` | assets/2048/map_reduce.js:82-86 | the pushes reach exactly the two downstream layer objects, and every other layer keeps its pieces |
| `Engine.PushMapped` | assets/2048/map_reduce.js:82-86 | the `forEach` loop leaves each downstream layer as `MapInto` of its old pieces |
| `Engine.MapReduce.Reset` | assets/2048/map_reduce.js:208-214 | layer 0 is one done piece of 60 at offset 0; layer 2 is two pieces that are not done, 30 at offset 0 and 18 at offset 30 |
| `Engine.MapReduce.Start` | assets/2048/map_reduce.js:343-348 | `sum` is 0, the layers are reset and `loop` is due next |
| `Engine.MapReduce.RunPreMap` | assets/2048/map_reduce.js:308-312 | splits layer `sum` and hands over to `runMap` |
| `Engine.MapReduce.RunMap` | assets/2048/map_reduce.js:314-317 | maps layer `sum` and hands over to `runPostMap` |
| `Engine.MapReduce.RunPostMap` | assets/2048/map_reduce.js:319-322 | joins layer `sum` and hands over to `runReduce` |
| `Engine.MapReduce.RunReduce` | assets/2048/map_reduce.js:324-328 | reduces layer `sum + 2` and hands over to `runPostReduce` |
| `Engine.MapReduce.RunPostReduce` | assets/2048/map_reduce.js:330-334 | tidies layer `sum + 2`, increments `sum` by 2 and hands over to `loop` |
| `Engine.MapReduce.SplitAt` | assets/2048/map_reduce.js:309 | `split` on one layer object changes only that layer of the diagram |
| `Engine.MapReduce.JoinAt` | assets/2048/map_reduce.js:320 | `join` on one layer object changes only that layer of the diagram |
| `Engine.MapReduce.ReduceAt` | assets/2048/map_reduce.js:325 | `reduce` on one layer object changes only that layer of the diagram |
| `Engine.MapReduce.TidyAt` | assets/2048/map_reduce.js:331 | `tidyUp` on one layer object changes only that layer of the diagram |
| `Engine.MapReduce.RunLoop` | assets/2048/map_reduce.js:336-340 | below MAX_SUM it runs the pre-map step, otherwise it calls `start` |
| `Engine.MapReduce.Step` | assets/2048/map_reduce.js:304-348 | runs the callback that is due: the state advances as `Advance` says, the diagram as `Next` says, and the invariant is kept |
| `Lines.Find` | cdtgch.rb:84 | the index returned is the first line that matches; `None` means no line matches |
| `Lines.Insert` | cdtgch.rb:44 | `insert(i, x)` puts x at index i, keeps the lines before it and shifts the rest up by one |
| `Lines.FindInsert` | cdtgch.rb:87-88 | inserting a line that does not match keeps the first match, shifted by one if it lay at or after the insertion point |
| `Lines.FindInsertNone` | cdtgch.rb:87-88 | inserting a line that does not match creates no match |
| `Lines.FindAppend` | cdtgch.rb:52-54 | after appending, the first match is the old one, or else the first match among the appended lines |
| `Lines.AnyAppend` | cdtgch.rb:76-78 | some line of an extended list matches iff one of either part does |
| `Lines.AnyInsert` | cdtgch.rb:87-88 | some line matches after an insertion iff one did before or the inserted line does |
| `Lines.SubsequenceInsert` | cdtgch.rb:44 | an insertion keeps every original line in order |
| `Lines.SubsequenceAppend` | cdtgch.rb:52-54 | an append keeps every original line in order |
| `Lines.SubsequenceTrans` | cdtgch.rb:44-88 | keeping the lines in order composes over successive edits |
| `Options.RewriteOption` | cdtgch.rb:72-73 | one `gsub!` pass: each `opt"…"` with a closing quote gets the new argument, scanning on after it; its properties are `RewriteStep`, `RewriteSetsValue` and the lemmas after it |
| `Options.CloseQuote` | cdtgch.rb:72 | finds the first `"`, the end of `[^"]*"` |
| `Options.RewriteSetsValue` | cdtgch.rb:72-73 | after the `gsub!`, every `-MF"…"` (or `-MT"…"`) in the command carries the header's dependency file, and the replacement creates no other |
| `Options.RewriteNoOption` | cdtgch.rb:72-73 | a command with no `-MF"…"` is left exactly as it was |
| `Options.RewriteCopies` | cdtgch.rb:72-73 | every character before the first match is kept: when no `opt"…"` match starts inside u, the rewrite of u + v is u followed by the rewrite of v, whatever else u holds |
| `Options.RewriteKeeps` | cdtgch.rb:72-73 | the special case of `RewriteCopies` where the text contains no `-`, used for the fixed texts the script adds |
| `Options.Unterminated` | cdtgch.rb:72-73 | an option whose quote never closes is not a match and is copied unchanged |
| `Options.RewriteStep` | cdtgch.rb:72-73 | one match: text in which no match starts is copied as it is, the quoted argument becomes the new value, and the rest is rewritten on from after the closing quote |
| `Options.RewriteMatch` | cdtgch.rb:72-73 | a match at the start of the text is replaced, whatever its argument, and nothing before the closing quote survives |
| `Options.QuoteBack` | cdtgch.rb:72-73 | the rewrite adds no quote that was not in the command |
| `Options.RewriteKeepsValues` | cdtgch.rb:72-73 | the `-MT` pass keeps every `-MF"…"` argument the `-MF` pass set, and creates no new `-MF"…"` |
| `Makefile.RewriteCommand` | cdtgch.rb:72-73 | the copied g++ command after both passes, `-MF` then `-MT`; `MakefileLemmas.RewriteCommandSetsBoth` states what it guarantees |
| `Makefile.Patch` | cdtgch.rb:34-90 | the four guarded edits in the script's order, stopping at the first `raise`; `MakefileLemmas.PatchOutcome`, `Idempotent` and the `FailsWithout…` lemmas characterise it |
| `Makefile.PatchMakefile` | cdtgch.rb:34-90 | the script's result (error, or edited lines and `rewrite_makefile`) is `Patch` of its inputs |
| `Makefile.InsertDepLine` | cdtgch.rb:40-46 | raises when no line equals `-include objects.mk`; otherwise inserts the dependency line right after the first one unless it is already there |
| `Makefile.AppendObjsRule` | cdtgch.rb:50-57 | appends `""`, the `$(OBJS)` rule, `""` when no line equals that rule |
| `Makefile.AppendGchRule` | cdtgch.rb:64-81 | when no line starts with the gch rule: raises if subdir.mk has no line starting with tab + `g++`, otherwise appends `""`, the rule and the first such command, rewritten |
| `Makefile.InsertCleanLine` | cdtgch.rb:84-90 | raises when no line starts with `clean:`; otherwise inserts the `rm -f` line after the first one unless that next line mentions the header |
| `MakefileLemmas.DepLineEdit` | cdtgch.rb:40-46 | afterwards the dependency line follows the first include line; the edit fires iff it did not already, only inserts, and otherwise changes nothing |
| `MakefileLemmas.ObjsRuleEdit` | cdtgch.rb:50-57 | afterwards the `$(OBJS)` rule is present; the edit fires iff it was missing, only appends, and otherwise changes nothing |
| `MakefileLemmas.GchRuleEdit` | cdtgch.rb:64-81 | afterwards a line starts with the gch rule; the edit fires iff none did, and then appends exactly `""`, the rule and a rewritten g++ command of subdir.mk |
| `MakefileLemmas.CleanLineEdit` | cdtgch.rb:84-90 | afterwards the line after the first `clean:` mentions the header; the edit fires iff it did not, only inserts, and otherwise changes nothing |
| `MakefileLemmas.DepGuardAppend` | cdtgch.rb:52-54 | appending keeps the dependency line after the include line |
| `MakefileLemmas.DepGuardCleanInsert` | cdtgch.rb:87-88 | inserting the `rm -f` line under `clean:` keeps the dependency line after the include line |
| `MakefileLemmas.RulesKeptByEdits` | cdtgch.rb:76-88 | later appends and insertions keep the `$(OBJS)` rule and the gch rule present |
| `MakefileLemmas.GchRuleKeeps` | cdtgch.rb:64-81 | the gch-rule edit keeps the dependency line and the `$(OBJS)` rule |
| `MakefileLemmas.CleanLineKeeps` | cdtgch.rb:84-90 | the clean edit keeps the three earlier edits' results |
| `MakefileLemmas.CommandKeepsStart` | cdtgch.rb:68-73 | the rewritten command still starts with tab + `g++` |
| `MakefileLemmas.RewriteCommandSetsBoth` | cdtgch.rb:72-73 | after both `gsub!` passes, every `-MF"…"` and every `-MT"…"` in the copied command names `src/stdafx.h.gch.d` |
| `MakefileLemmas.CommandNotAnchor` | cdtgch.rb:68-78 | the appended command does not start with `clean:` or with the gch rule |
| `MakefileLemmas.PatchedUnchanged` | cdtgch.rb:43-90 | a makefile passing all four checks is returned unchanged with `rewrite_makefile` false, whatever subdir.mk holds |
| `MakefileLemmas.PatchEstablishes` | cdtgch.rb:40-90 | a successful run leaves a makefile that passes all four checks |
| `MakefileLemmas.PatchKeepsLines` | cdtgch.rb:44-88 | all original lines survive in their original relative order; `rewrite_makefile` false means no line changed |
| `MakefileLemmas.UneditedWasPatched` | cdtgch.rb:34-90 | a run that edits nothing was given a makefile that already passed all four checks |
| `MakefileLemmas.PatchOutcome` | cdtgch.rb:32-90 | `rewrite_makefile` is true iff the lines changed, iff the input failed one of the four checks; the output passes them all and keeps the original lines in order |
| `MakefileLemmas.Idempotent` | cdtgch.rb:32-33 | running the edits on their own output edits nothing and leaves `rewrite_makefile` false, for any subdir.mk |
| `MakefileLemmas.FirstEditsAddNoAnchor` | cdtgch.rb:40-57 | the first two edits add no line starting with the gch rule or with `clean:` |
| `MakefileLemmas.GchRuleAddsNoClean` | cdtgch.rb:64-81 | the gch-rule edit adds no line starting with `clean:` |
| `MakefileLemmas.FailsWithoutInclude` | cdtgch.rb:41-42 | the script raises "cannot find subdir.mk include line" iff no line equals `-include objects.mk` |
| `MakefileLemmas.FailsWithoutCommand` | cdtgch.rb:65-68 | it raises "cannot find g++ command" iff the include line exists, no line starts with the gch rule, and subdir.mk has no line starting with tab + `g++` |
| `MakefileLemmas.FailsWithoutClean` | cdtgch.rb:84-85 | it raises "couldn't find clean: line" iff the earlier checks pass and no line of the makefile starts with `clean:` |
| `MakefileText.ReadLines` | cdtgch.rb:35-36 | `readlines` then `chomp!`: the text cut at each newline |
| `MakefileText.ReadLinesSingle` | cdtgch.rb:35-36 | no line read holds a newline |
| `MakefileText.JoinLines` | cdtgch.rb:95 | `join("\n")`: the lines with one newline between each two; `ReadJoin` reads it back |
| `MakefileText.ReadJoin` | cdtgch.rb:35-36 | reading back lines joined by `"\n"` gives the same lines, less a final empty line |
| `MakefileText.Written` | cdtgch.rb:93-97 | what the script writes: the lines joined by `"\n"` when `rewrite_makefile` is set, nothing otherwise; its properties are `WrittenIffUnpatched` and `WrittenReadsBack` |
| `MakefileText.WrittenIffUnpatched` | cdtgch.rb:93-97 | the makefile is written exactly when the run succeeds on a makefile that fails one of the four checks |
| `MakefileText.WrittenReadsBack` | cdtgch.rb:93-97 | the file written reads back as the edited lines, less a final empty line |
| `MakefileText.PatchSingleLines` | cdtgch.rb:40-90 | no edit introduces a newline inside a line |
| `MakefileText.PatchedDropBlank` | cdtgch.rb:95 | losing a final empty line on reading back keeps all four checks passing |
| `MakefileText.RerunWritesNothing` | cdtgch.rb:32-33 | once the script has written the makefile, a second run on the written file edits nothing and writes nothing |

## Left out

- All D3/SVG rendering in `assets/2048/map_reduce.js` is UI and not modelled: `drawLabels`, `setLabel` and its "Map"/"Reduce" text, `drawPiece`, the `animate*` functions, `update`, transitions, `setTimeout`, `console.log` and the `DOMContentLoaded` hook.
- The pixel geometry helpers are also left out: `Piece.x`, `Piece.splitOffset` and `Layer.getPieceIndex`, `Piece.parentX`/`parentOffset`/`parentSize`, `Piece.fill`, `PAD`, `PIECE_WIDTH` and `HEIGHT`.
- Timing of `run`: each callback waits for an animation to end. `Engine.MapReduce.Step` runs the callback that is due, so the end-of-transition event becomes one call. There is no concurrency.
- Floating point: sizes are exact reals, so `0.8` is 4/5 and products are not rounded. JS `%` is modelled as `size - floor(size / c) * c`. This agrees with JS for the non-negative sizes the diagram uses.
- `Piece.layer` back references: a piece belongs to the layer that holds it, and keys take that layer's `sum`. `parent` is a `(sum, index)` identifier, not a live reference.
- Engine.MapReduce.GetLayer: requires an even `sum` whose index is at most the array's length. The source only ever calls it so. A larger index would leave holes in the JS array, and these are not modelled.
- Layers.Layer.Split: requires `pieceSize > 0` and a first piece of non-negative size. The source passes the positive `PIECE_SIZE`. With a negative size, `Array(n)` throws, and that exception is not modelled.
- Diagrams.WellFormed: the invariant assumes the positive sizes that the constants `START_SIZE`, `GROWTH` and `SHRINKAGE` produce.
- cdtgch.rb I/O is left out: `IO.readlines`, reading `src/subdir.mk` with `File.new`, writing the makefile, and `exec "make"` with `ARGV`. The makefile and subdir.mk arrive as lists of lines. `MakefileText.ReadLines` and `JoinLines` model only the line splitting and joining.
- MakefileText.ReadLines: `chomp!` also strips a trailing carriage return (CRLF files). This is not modelled; lines are split at `\n` only.
- Ruby regular expressions are simplified. `/^clean:/` and `/^#{gch_rule}/` are literal prefix tests, and `/#{PCH}\.gch/` is a literal substring test, so the unescaped dots in the header path are not wildcards here. On subdir.mk, `/^(\tg\+\+.*)$/` becomes the first line starting with tab + `g++`.
- etherpad_demo/Rakefile.rb is not part of this model. It fetches a pad over HTTP, compares it with a cached file and shells out to the LaTeX toolchain, and all of that is I/O.
