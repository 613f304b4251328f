/**
 * The whole map/reduce diagram as a value: the pieces of every layer, the layer
 * for sum s at index s / 2, together with the driver's counter. Each callback
 * of `run` is a step on this value; the lemmas show that every step keeps the
 * diagram well formed, so that `Piece.key` always tells its pieces apart.
 */
module Diagrams {
  import opened Wrappers
  import opened Pieces
  import opened Layers
  import opened Driver

  type Diagram = seq<seq<Piece>>

  /** The diagram `reset` draws: a done piece of START_SIZE, and its mapped copy split into chunks. */
  const Initial: Diagram := [
    [Piece(true, 0.0, START_SIZE, None)],
    [Piece(false, 0.0, PIECE_SIZE, None), Piece(false, PIECE_SIZE, 18.0, None)]
  ]

  /** `reset` splits the piece of START_SIZE * GROWTH = 48 into a chunk of 30 and one of 18. */
  lemma InitialSplit()
    ensures Initial[1] == SplitLayer([Piece(false, 0.0, START_SIZE * GROWTH, None)], PIECE_SIZE)
  {
    assert (48.0 / 30.0).Floor == 1;
    assert ChunkCount(48.0, 30.0) == 1;
    assert Chunks(false, 1, 30.0) == [Piece(false, 0.0, 30.0, None)];
  }

  /** The diagram extended with empty layers up to n layers, as `getLayer` does one at a time. */
  function Grow(d: Diagram, n: nat): (r: Diagram)
    ensures |r| == if |d| < n then n else |d|
    ensures forall k :: 0 <= k < |d| ==> r[k] == d[k]
    ensures forall k :: |d| <= k < |r| ==> r[k] == []
    decreases n - |d|
  {
    if |d| < n then Grow(d + [[]], n) else d
  }

  /** Growing to m layers and then to n >= m is growing to n at once. */
  lemma GrowGrow(d: Diagram, m: nat, n: nat)
    requires m <= n
    ensures Grow(Grow(d, m), n) == Grow(d, n)
  {
  }

  /** `Layer.map` on the layer for sum s: its pieces mapped onto the layers for s + 2 and s + 4. */
  function MapStep(d: Diagram, s: nat): (r: Diagram)
    requires s / 2 < |d|
  {
    var g := Grow(d, s / 2 + 3);
    g[s / 2 + 1 := MapInto(g[s / 2 + 1], g[s / 2], s)][s / 2 + 2 := MapInto(g[s / 2 + 2], g[s / 2], s)]
  }

  /** `split` on the layer for sum s. */
  function SplitStep(d: Diagram, s: nat): Diagram
    requires s / 2 < |d| && (d[s / 2] != [] ==> d[s / 2][0].size >= 0.0)
  {
    d[s / 2 := SplitLayer(d[s / 2], PIECE_SIZE)]
  }

  /** `join` on the layer for sum s. */
  function JoinStep(d: Diagram, s: nat): Diagram
    requires s / 2 < |d|
  {
    d[s / 2 := JoinLayer(d[s / 2])]
  }

  /** `reduce` on the layer for sum s. */
  function ReduceStep(d: Diagram, s: nat): Diagram
    requires s / 2 < |d|
  {
    d[s / 2 := ReduceLayer(d[s / 2])]
  }

  /** `tidyUp` on the layer for sum s. */
  function TidyStep(d: Diagram, s: nat): Diagram
    requires s / 2 < |d|
  {
    d[s / 2 := TidyLayer(d[s / 2])]
  }

  /**
   * Between two callbacks: the layers run from sum 0 up to two (before `runMap`)
   * or four (after it) beyond the counter; every piece is positive; every layer
   * is packed except the one just reduced, which holds a single piece until
   * `runPostReduce` tidies it; and the layers the next callbacks work on are
   * not empty.
   */
  ghost predicate WellFormed(d: Diagram, c: Control) {
    var a := c.sum / 2;
    && InRange(c)
    && |d| == a + (if c.next == Loop || c.next == Map then 2 else 3)
    && (forall k :: 0 <= k < |d| ==> Positive(d[k]))
    && (forall k :: 0 <= k < |d| && !(c.next == PostReduce && k == a + 1) ==> Packed(d[k]))
    && (c.next == PostReduce ==> |d[a + 1]| == 1)
    && (c.next == Loop || c.next == Map || c.next == PostMap ==> d[a] != [])
    && (c.next == PostMap || c.next == Reduce ==> d[a + 1] != [])
  }

  /** What the callback due in c does to the diagram. */
  function Next(d: Diagram, c: Control): Diagram
    requires WellFormed(d, c)
  {
    match c.next
    case Loop => if c.sum < MAX_SUM then SplitStep(d, c.sum) else Initial
    case Map => MapStep(d, c.sum)
    case PostMap => JoinStep(d, c.sum)
    case Reduce => ReduceStep(d, c.sum + 2)
    case PostReduce => TidyStep(d, c.sum + 2)
  }

  lemma InitialWellFormed()
    ensures WellFormed(Initial, Started)
  {
    var ps := Initial[1];
    assert Initial[0][..0] == [];
    assert ps[..0] == [];
    assert ps[..1] == [ps[0]] && [ps[0]][..0] == [];
    assert Packed(Initial[0]) && Packed(ps);
  }

  /** `runPreMap` splits the current layer into chunks with the same total, and stays well formed. */
  lemma PreMapWellFormed(d: Diagram, c: Control)
    requires WellFormed(d, c) && c.next == Loop && c.sum < MAX_SUM
    ensures WellFormed(SplitStep(d, c.sum), Advance(c))
    ensures TotalSize(SplitStep(d, c.sum)[c.sum / 2]) == d[c.sum / 2][0].size
  {
    SplitLayerConserves(d[c.sum / 2], PIECE_SIZE);
  }

  /**
   * `runMap` leaves the layers up to the current one as they were, adds one
   * layer, and stays well formed.
   */
  lemma MapWellFormed(d: Diagram, c: Control)
    requires WellFormed(d, c) && c.next == Map
    ensures WellFormed(MapStep(d, c.sum), Advance(c))
    ensures |MapStep(d, c.sum)| == |d| + 1
    ensures forall k :: 0 <= k <= c.sum / 2 ==> MapStep(d, c.sum)[k] == d[k]
  {
    MapStepLayers(d, c.sum);
    MapKeepsLayersSound(d, c.sum);
  }

  /** Mapping a layer of packed positive layers keeps every layer packed and positive. */
  lemma MapKeepsLayersSound(d: Diagram, s: nat)
    requires |d| == s / 2 + 2
    requires forall k :: 0 <= k < |d| ==> Positive(d[k]) && Packed(d[k])
    ensures forall k :: 0 <= k < |MapStep(d, s)| ==> Positive(MapStep(d, s)[k]) && Packed(MapStep(d, s)[k])
  {
    var a := s / 2;
    var src := d[a];
    var r := MapStep(d, s);
    MapStepLayers(d, s);
    MapIntoPositive(d[a + 1], src, s);
    MapIntoPacked(d[a + 1], src, s);
    MapIntoPositive([], src, s);
    MapIntoPacked([], src, s);
    forall k | 0 <= k < |r|
      ensures Positive(r[k]) && Packed(r[k])
    {
      if k <= a {
        assert r[k] == d[k];
      }
    }
  }

  /**
   * `Layer.map` is not idempotent: it leaves its own layer as it was, and a
   * second call appends the mapped pieces to both layers ahead once more.
   */
  lemma {:induction false} MapStepTwice(d: Diagram, s: nat)
    requires s / 2 < |d|
    ensures var once := MapStep(d, s);
      var twice := MapStep(once, s);
      && once[s / 2] == d[s / 2]
      && |twice| == |once|
      && |twice[s / 2 + 1]| == |once[s / 2 + 1]| + |d[s / 2]|
      && |twice[s / 2 + 2]| == |once[s / 2 + 2]| + |d[s / 2]|
      && (d[s / 2] != [] ==> twice != once)
  {
    var once := MapStep(d, s);
    var g := Grow(d, s / 2 + 3);
    assert once[s / 2] == g[s / 2] == d[s / 2];
    assert Grow(once, s / 2 + 3) == once;
  }

  /** `Layer.map` adds GROWTH times the source layer's total to each of the two layers ahead, and changes no other layer. */
  lemma MapTotals(d: Diagram, s: nat)
    requires s / 2 < |d|
    ensures var g := Grow(d, s / 2 + 3); var r := MapStep(d, s);
      && TotalSize(r[s / 2 + 1]) == TotalSize(g[s / 2 + 1]) + TotalSize(d[s / 2]) * GROWTH
      && TotalSize(r[s / 2 + 2]) == TotalSize(g[s / 2 + 2]) + TotalSize(d[s / 2]) * GROWTH
      && (forall k :: 0 <= k < |r| && k != s / 2 + 1 && k != s / 2 + 2 ==> r[k] == g[k])
  {
    var g := Grow(d, s / 2 + 3);
    var a := s / 2;
    assert g[a] == d[a];
    var r := MapStep(d, s);
    assert r == g[a + 1 := MapInto(g[a + 1], d[a], s)][a + 2 := MapInto(g[a + 2], d[a], s)];
    MapIntoTotal(g[a + 1], d[a], s);
    MapIntoTotal(g[a + 2], d[a], s);
  }

  /** `Layer.map` on layer s, as `getLayer` and the pushes perform it: grow to s / 2 + 3 layers, then map. */
  lemma MapStepGrown(d: Diagram, s: nat, g: Diagram, p2: seq<Piece>, p4: seq<Piece>)
    requires s / 2 < |d| && g == Grow(d, s / 2 + 3)
    requires p2 == MapInto(g[s / 2 + 1], g[s / 2], s) && p4 == MapInto(g[s / 2 + 2], g[s / 2], s)
    ensures MapStep(d, s) == g[s / 2 + 1 := p2][s / 2 + 2 := p4]
  {
  }

  /** On a diagram whose last layer is for s + 2, mapping layer s changes the last layer and appends one. */
  lemma MapStepLayers(d: Diagram, s: nat)
    requires |d| == s / 2 + 2
    ensures var r := MapStep(d, s);
      && |r| == |d| + 1
      && (forall k :: 0 <= k <= s / 2 ==> r[k] == d[k])
      && r[s / 2 + 1] == MapInto(d[s / 2 + 1], d[s / 2], s)
      && r[s / 2 + 2] == MapInto([], d[s / 2], s)
  {
    var g := Grow(d, s / 2 + 3);
    assert g[s / 2 + 1] == d[s / 2 + 1] && g[s / 2 + 2] == [];
  }

  /** `runPostMap` joins the current layer into one piece with the same total, and stays well formed. */
  lemma PostMapWellFormed(d: Diagram, c: Control)
    requires WellFormed(d, c) && c.next == PostMap
    ensures WellFormed(JoinStep(d, c.sum), Advance(c))
    ensures TotalSize(JoinStep(d, c.sum)[c.sum / 2]) == TotalSize(d[c.sum / 2])
  {
    JoinLayerConserves(d[c.sum / 2]);
  }

  /** `runReduce` shrinks the layer ahead to one piece of SHRINKAGE times its total, and stays well formed. */
  lemma ReduceWellFormed(d: Diagram, c: Control)
    requires WellFormed(d, c) && c.next == Reduce
    ensures WellFormed(ReduceStep(d, c.sum + 2), Advance(c))
    ensures TotalSize(ReduceStep(d, c.sum + 2)[c.sum / 2 + 1]) == TotalSize(d[c.sum / 2 + 1]) * SHRINKAGE
  {
    ReduceLayerShrinks(d[c.sum / 2 + 1]);
  }

  /** `runPostReduce` moves the reduced piece to offset 0, packing its layer again, and stays well formed. */
  lemma PostReduceWellFormed(d: Diagram, c: Control)
    requires WellFormed(d, c) && c.next == PostReduce
    ensures WellFormed(TidyStep(d, c.sum + 2), Advance(c))
  {
    TidyLayerPacks(d[c.sum / 2 + 1]);
  }

  /** Every callback keeps the diagram well formed. */
  lemma NextWellFormed(d: Diagram, c: Control)
    requires WellFormed(d, c)
    ensures WellFormed(Next(d, c), Advance(c))
  {
    match c.next
    case Loop =>
      if c.sum < MAX_SUM {
        PreMapWellFormed(d, c);
      } else {
        InitialWellFormed();
      }
    case Map => MapWellFormed(d, c);
    case PostMap => PostMapWellFormed(d, c);
    case Reduce => ReduceWellFormed(d, c);
    case PostReduce => PostReduceWellFormed(d, c);
  }

  /** `getAllPieces`: the pieces of every layer, layer by layer, in order. */
  function AllPieces(d: Diagram): (r: seq<Piece>)
    ensures forall k, j :: 0 <= k < |d| && 0 <= j < |d[k]| ==> d[k][j] in r
    ensures forall p :: p in r ==> exists k :: 0 <= k < |d| && p in d[k]
  {
    if d == [] then [] else AllPieces(d[..|d| - 1]) + d[|d| - 1]
  }

  /** `Piece.key` of each piece of one layer, the layer for sum s. */
  function LayerKeys(s: nat, ps: seq<Piece>): (r: seq<PieceKey>)
    ensures |r| == |ps|
    ensures forall j :: 0 <= j < |ps| ==> r[j] == Key(s, ps[j])
  {
    if ps == [] then [] else LayerKeys(s, ps[..|ps| - 1]) + [Key(s, ps[|ps| - 1])]
  }

  /** The keys `update` hands to the data join: `Piece.key` over `getAllPieces`. */
  function AllKeys(d: Diagram): (r: seq<PieceKey>)
    ensures forall x :: 0 <= x < |r| ==> r[x].sum < 2 * |d|
  {
    if d == [] then [] else AllKeys(d[..|d| - 1]) + LayerKeys(2 * (|d| - 1), d[|d| - 1])
  }

  /** The keys line up with the pieces: key x names piece x of `getAllPieces`. */
  lemma {:induction false} AllKeysOfAllPieces(d: Diagram)
    ensures |AllKeys(d)| == |AllPieces(d)|
    ensures forall x :: 0 <= x < |AllKeys(d)| ==>
      AllKeys(d)[x].offset == AllPieces(d)[x].offset && AllKeys(d)[x].size == AllPieces(d)[x].size
  {
    if d != [] {
      AllKeysOfAllPieces(d[..|d| - 1]);
    }
  }

  /** No two pieces of a layer sit at the same offset. */
  ghost predicate OffsetsApart(ps: seq<Piece>) {
    forall i, j :: 0 <= i < j < |ps| ==> ps[i].offset != ps[j].offset
  }

  /**
   * In a well-formed diagram the pieces of each layer sit at distinct offsets:
   * the layers are packed and positive, except the reduced one, which holds a
   * single piece.
   */
  lemma WellFormedOffsetsApart(d: Diagram, c: Control)
    requires WellFormed(d, c)
    ensures forall k :: 0 <= k < |d| ==> OffsetsApart(d[k])
  {
    forall k, i, j | 0 <= k < |d| && 0 <= i < j < |d[k]|
      ensures d[k][i].offset != d[k][j].offset
    {
      PackedOffsetsIncrease(d[k], i, j);
    }
  }

  /** When every layer keeps its offsets apart, the keys of all pieces are distinct. */
  lemma {:induction false} AllKeysDistinct(d: Diagram)
    requires forall k :: 0 <= k < |d| ==> OffsetsApart(d[k])
    ensures forall x, y :: 0 <= x < y < |AllKeys(d)| ==> AllKeys(d)[x] != AllKeys(d)[y]
  {
    if d != [] {
      var d' := d[..|d| - 1];
      var last := d[|d| - 1];
      AllKeysDistinct(d');
      var a: seq<PieceKey> := AllKeys(d');
      var b: seq<PieceKey> := LayerKeys(2 * (|d| - 1), last);
      assert AllKeys(d) == a + b;
      forall x, y | 0 <= x < y < |a + b|
        ensures (a + b)[x] != (a + b)[y]
      {
        if x < |a| && y >= |a| {
          assert (a + b)[x].sum < 2 * (|d| - 1);
        } else if x >= |a| {
          assert OffsetsApart(last);
          assert last[x - |a|].offset != last[y - |a|].offset;
        }
      }
    }
  }

  /**
   * `Piece.key` tells apart every piece `update` draws: in a well-formed
   * diagram no two pieces share their layer's sum, offset and size.
   */
  lemma KeysDistinct(d: Diagram, c: Control)
    requires WellFormed(d, c)
    ensures forall x, y :: 0 <= x < y < |AllKeys(d)| ==> AllKeys(d)[x] != AllKeys(d)[y]
  {
    WellFormedOffsetsApart(d, c);
    AllKeysDistinct(d);
  }
}
