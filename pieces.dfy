/**
 * The pieces of the map/reduce diagram (assets/2048/map_reduce.js) as values,
 * and the list functions the layers are built on. Sizes and offsets are exact
 * reals, so the diagram's factor 0.8 is exactly 4/5 here.
 */
module Pieces {
  import opened Wrappers

  const START_SIZE: real := 60.0
  const PIECE_SIZE: real := 30.0
  const GROWTH: real := 0.8     // growth of each output of a map step
  const SHRINKAGE: real := 0.8  // shrinkage of a reduce step
  const MAX_SUM: nat := 12

  /** The piece a mapped piece was made from: the sum of its layer and its index there. */
  datatype PieceId = PieceId(sum: nat, index: nat)

  /** A piece of a layer: `offset` is its vertical position, `size` the number of elements it stands for. */
  datatype Piece = Piece(done: bool, offset: real, size: real, parent: Option<PieceId>)

  /** The identity of a piece across animation frames: its layer's sum, its offset and its size. */
  datatype PieceKey = PieceKey(sum: nat, offset: real, size: real)

  function Key(sum: nat, p: Piece): PieceKey {
    PieceKey(sum, p.offset, p.size)
  }

  predicate Positive(ps: seq<Piece>) {
    forall i :: 0 <= i < |ps| ==> ps[i].size > 0.0
  }

  /** The total size of a list of pieces, summed from the left. */
  function TotalSize(ps: seq<Piece>): real {
    if ps == [] then 0.0 else TotalSize(ps[..|ps| - 1]) + ps[|ps| - 1].size
  }

  /** A list of positive pieces has a total of zero exactly when it is empty, and positive otherwise. */
  lemma {:induction false} TotalSizePositive(ps: seq<Piece>)
    requires Positive(ps)
    ensures TotalSize(ps) >= 0.0
    ensures TotalSize(ps) == 0.0 <==> ps == []
  {
    if ps != [] {
      var ps' := ps[..|ps| - 1];
      assert Positive(ps');
      TotalSizePositive(ps');
    }
  }

  /** Every piece sits right after the ones before it: its offset is their total size. */
  ghost predicate Packed(ps: seq<Piece>) {
    forall i :: 0 <= i < |ps| ==> ps[i].offset == TotalSize(ps[..i])
  }

  lemma {:induction false} TotalSizeConcat(a: seq<Piece>, b: seq<Piece>)
    ensures TotalSize(a + b) == TotalSize(a) + TotalSize(b)
    decreases |b|
  {
    if b == [] {
      assert a + b == a;
    } else {
      var b' := b[..|b| - 1];
      assert (a + b)[..|a + b| - 1] == a + b';
      TotalSizeConcat(a, b');
    }
  }

  /** In a packed list of positive pieces the offsets strictly increase, so no two keys collide. */
  lemma PackedOffsetsIncrease(ps: seq<Piece>, i: nat, j: nat)
    requires Packed(ps) && Positive(ps)
    requires i < j < |ps|
    ensures ps[i].offset < ps[j].offset
  {
    assert ps[..j] == ps[..i + 1] + ps[i + 1..j];
    TotalSizeConcat(ps[..i + 1], ps[i + 1..j]);
    assert ps[..i + 1][..i] == ps[..i];
    assert Positive(ps[i + 1..j]);
    TotalSizePositive(ps[i + 1..j]);
  }

  /** `i * pieceSize`: where chunk i of a split starts. */
  function ChunkOffset(i: int, pieceSize: real): real {
    i as real * pieceSize
  }

  /** `times(n, …)` in `Piece.split`: n chunks of one size laid end to end from offset 0. */
  function Chunks(done: bool, n: nat, pieceSize: real): seq<Piece> {
    seq(n, i => Piece(done, ChunkOffset(i, pieceSize), pieceSize, None))
  }

  lemma {:induction false} ChunksTotal(done: bool, n: nat, pieceSize: real, k: nat)
    requires k <= n
    ensures TotalSize(Chunks(done, n, pieceSize)[..k]) == ChunkOffset(k, pieceSize)
  {
    if k > 0 {
      var cs := Chunks(done, n, pieceSize);
      assert cs[..k][..k - 1] == cs[..k - 1];
      ChunksTotal(done, n, pieceSize, k - 1);
    }
  }

  lemma FloorBounds(s: real, c: real)
    requires s >= 0.0 && c > 0.0
    ensures var n := (s / c).Floor;
      0 <= n && 0.0 <= s - n as real * c < c
  {
    var q := s / c;
    var n := q.Floor;
    var m := n as real;
    var d := q - m;
    assert 0.0 <= d < 1.0;
    DivisionRemainder(s, c, q, m);
    FractionBelow(d, c);
    var r := s - m * c;
    assert r == d * c;
    assert r < c;
  }

  lemma DivisionRemainder(s: real, c: real, q: real, m: real)
    requires c > 0.0 && q == s / c
    ensures s - m * c == (q - m) * c
  {
  }

  lemma FractionBelow(d: real, c: real)
    requires 0.0 <= d < 1.0 && c > 0.0
    ensures 0.0 <= d * c < c
  {
  }

  /** Pushing a piece at the end of a packed list, at offset equal to the list's total, keeps it packed. */
  lemma PackedPush(ps: seq<Piece>, x: Piece)
    requires Packed(ps) && x.offset == TotalSize(ps)
    ensures Packed(ps + [x])
    ensures TotalSize(ps + [x]) == TotalSize(ps) + x.size
  {
    var r := ps + [x];
    assert r[..|ps|] == ps;
    assert forall i :: 0 <= i <= |ps| ==> r[..i] == ps[..i];
  }

  lemma ChunksPacked(done: bool, n: nat, pieceSize: real)
    ensures Packed(Chunks(done, n, pieceSize))
    ensures TotalSize(Chunks(done, n, pieceSize)) == ChunkOffset(n, pieceSize)
  {
    var cs := Chunks(done, n, pieceSize);
    forall i | 0 <= i < n ensures cs[i].offset == TotalSize(cs[..i]) {
      ChunksTotal(done, n, pieceSize, i);
    }
    ChunksTotal(done, n, pieceSize, n);
    assert cs[..n] == cs;
  }

  /** `Math.floor(size / pieceSize)`: how many whole chunks fit, leaving a remainder below one chunk. */
  function ChunkCount(s: real, c: real): (n: nat)
    requires s >= 0.0 && c > 0.0
    ensures n == (s / c).Floor
    ensures 0.0 <= s - ChunkOffset(n, c) < c
  {
    FloorBounds(s, c);
    (s / c).Floor
  }

  /**
   * `Piece.split`: cuts a piece into floor(size / pieceSize) chunks of pieceSize,
   * then one chunk for the remainder when it is positive. The chunks keep the
   * piece's `done` flag and have no parent.
   */
  function SplitPiece(p: Piece, pieceSize: real): (r: seq<Piece>)
    requires pieceSize > 0.0 && p.size >= 0.0
    ensures var n := (p.size / pieceSize).Floor;
      |r| == if p.size > ChunkOffset(n, pieceSize) then n + 1 else n
    ensures forall i :: 0 <= i < |r| ==>
      r[i].done == p.done && r[i].parent == None && 0.0 < r[i].size <= pieceSize
    ensures forall i :: 0 <= i < |r| - 1 ==> r[i].size == pieceSize
  {
    var n := ChunkCount(p.size, pieceSize);
    var chunks := Chunks(p.done, n, pieceSize);
    var remainder := p.size - ChunkOffset(n, pieceSize);
    if remainder > 0.0 then
      chunks + [Piece(p.done, ChunkOffset(n, pieceSize), remainder, None)]
    else
      chunks
  }

  /**
   * The split of a piece of size s into chunks of c: chunk i, for i below
   * floor(s / c), has size c at offset i * c; one more chunk, for the
   * remainder, follows exactly when the remainder is positive.
   */
  lemma SplitPieceChunks(p: Piece, pieceSize: real)
    requires pieceSize > 0.0 && p.size >= 0.0
    ensures var n := (p.size / pieceSize).Floor;
      var r := SplitPiece(p, pieceSize);
      var rest := p.size - n as real * pieceSize;
      && n <= |r|
      && (forall i :: 0 <= i < n ==> r[i] == Piece(p.done, i as real * pieceSize, pieceSize, None))
      && (|r| == n + 1 <==> rest > 0.0)
      && (|r| == n + 1 ==> r[n] == Piece(p.done, n as real * pieceSize, rest, None))
  {
    var n := ChunkCount(p.size, pieceSize);
    var r := SplitPiece(p, pieceSize);
    forall i | 0 <= i < n
      ensures r[i] == Piece(p.done, i as real * pieceSize, pieceSize, None)
    {
      assert r[i] == Chunks(p.done, n, pieceSize)[i];
    }
  }

  /** The chunks of a split add up to the piece and lie end to end from offset 0. */
  lemma SplitPieceConserves(p: Piece, pieceSize: real)
    requires pieceSize > 0.0 && p.size >= 0.0
    ensures TotalSize(SplitPiece(p, pieceSize)) == p.size
    ensures Packed(SplitPiece(p, pieceSize))
  {
    var n := ChunkCount(p.size, pieceSize);
    var chunks := Chunks(p.done, n, pieceSize);
    ChunksPacked(p.done, n, pieceSize);
    var remainder := p.size - ChunkOffset(n, pieceSize);
    var r := SplitPiece(p, pieceSize);
    if remainder > 0.0 {
      var last := Piece(p.done, ChunkOffset(n, pieceSize), remainder, None);
      assert r == chunks + [last];
      PackedPush(chunks, last);
    } else {
      assert r == chunks;
    }
  }

  /**
   * What `Layer.map` pushes onto a downstream layer that holds dst: for each
   * source piece in order, a not-done piece GROWTH times its size, placed after
   * everything already there and naming the source piece as its parent.
   */
  function MapInto(dst: seq<Piece>, src: seq<Piece>, srcSum: nat): (r: seq<Piece>)
    ensures |r| == |dst| + |src|
    decreases |src|
  {
    if src == [] then
      dst
    else
      var prev := MapInto(dst, src[..|src| - 1], srcSum);
      prev + [Piece(false, TotalSize(prev), src[|src| - 1].size * GROWTH, Some(PieceId(srcSum, |src| - 1)))]
  }

  /** Mapping adds GROWTH times the source's total to the downstream total. */
  lemma {:induction false} MapIntoTotal(dst: seq<Piece>, src: seq<Piece>, srcSum: nat)
    ensures TotalSize(MapInto(dst, src, srcSum)) == TotalSize(dst) + TotalSize(src) * GROWTH
    decreases |src|
  {
    if src != [] {
      var src' := src[..|src| - 1];
      var prev := MapInto(dst, src', srcSum);
      var r := MapInto(dst, src, srcSum);
      assert r[..|r| - 1] == prev;
      MapIntoTotal(dst, src', srcSum);
    }
  }

  /**
   * The pieces already in the downstream layer stay where they are, and the
   * mapped copy of source piece j sits at index |dst| + j, at offset the old
   * total plus GROWTH times the total of the source pieces before it.
   */
  lemma {:induction false} MapIntoPieces(dst: seq<Piece>, src: seq<Piece>, srcSum: nat)
    ensures var r := MapInto(dst, src, srcSum);
      && r[..|dst|] == dst
      && forall j :: 0 <= j < |src| ==>
        r[|dst| + j] == Piece(false, TotalSize(dst) + TotalSize(src[..j]) * GROWTH, src[j].size * GROWTH, Some(PieceId(srcSum, j)))
    decreases |src|
  {
    var r := MapInto(dst, src, srcSum);
    if src == [] {
      assert r[..|dst|] == dst;
    } else {
      var src' := src[..|src| - 1];
      var prev := MapInto(dst, src', srcSum);
      MapIntoPieces(dst, src', srcSum);
      MapIntoTotal(dst, src', srcSum);
      assert r[..|dst|] == prev[..|dst|];
      forall j | 0 <= j < |src|
        ensures r[|dst| + j] == Piece(false, TotalSize(dst) + TotalSize(src[..j]) * GROWTH, src[j].size * GROWTH, Some(PieceId(srcSum, j)))
      {
        if j < |src'| {
          assert src'[..j] == src[..j];
        }
      }
    }
  }

  /** Mapping onto a packed layer leaves it packed. */
  lemma {:induction false} MapIntoPacked(dst: seq<Piece>, src: seq<Piece>, srcSum: nat)
    requires Packed(dst)
    ensures Packed(MapInto(dst, src, srcSum))
    decreases |src|
  {
    if src != [] {
      var src' := src[..|src| - 1];
      var prev := MapInto(dst, src', srcSum);
      MapIntoPacked(dst, src', srcSum);
      PackedPush(prev, Piece(false, TotalSize(prev), src[|src| - 1].size * GROWTH, Some(PieceId(srcSum, |src| - 1))));
    }
  }

  /** Mapping positive pieces onto a layer of positive pieces leaves every size positive. */
  lemma {:induction false} MapIntoPositive(dst: seq<Piece>, src: seq<Piece>, srcSum: nat)
    requires Positive(dst) && Positive(src)
    ensures Positive(MapInto(dst, src, srcSum))
    decreases |src|
  {
    if src != [] {
      var src' := src[..|src| - 1];
      assert Positive(src');
      MapIntoPositive(dst, src', srcSum);
    }
  }
}
