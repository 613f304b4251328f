/**
 * A layer of the map/reduce diagram: the column for one value of `sum`, holding
 * an ordered list of pieces that its methods replace or extend in place. The
 * functions before the class say, on values, what each method leaves behind.
 */
module Layers {
  import opened Wrappers
  import opened Pieces

  /** What `split` leaves: the chunks of the first piece, or nothing for an empty layer. */
  function SplitLayer(ps: seq<Piece>, pieceSize: real): (r: seq<Piece>)
    requires pieceSize > 0.0 && (ps != [] ==> ps[0].size >= 0.0)
  {
    if ps == [] then [] else SplitPiece(ps[0], pieceSize)
  }

  /**
   * Splitting a layer whose first piece is positive gives a packed, non-empty
   * list of positive chunks with the same total as that piece.
   */
  lemma SplitLayerConserves(ps: seq<Piece>, pieceSize: real)
    requires pieceSize > 0.0 && ps != [] && ps[0].size > 0.0
    ensures var r := SplitLayer(ps, pieceSize);
      TotalSize(r) == ps[0].size && Packed(r) && Positive(r) && r != []
  {
    SplitPieceConserves(ps[0], pieceSize);
  }

  /** What `join` leaves: one done piece at offset 0 holding the whole total. */
  function JoinLayer(ps: seq<Piece>): seq<Piece> {
    [Piece(true, 0.0, TotalSize(ps), None)]
  }

  /** Joining keeps the total, packs the layer, and keeps it positive when it was positive and non-empty. */
  lemma JoinLayerConserves(ps: seq<Piece>)
    ensures TotalSize(JoinLayer(ps)) == TotalSize(ps) && Packed(JoinLayer(ps))
    ensures Positive(ps) && ps != [] ==> Positive(JoinLayer(ps))
  {
    var r := JoinLayer(ps);
    assert r[..0] == [];
    assert r[..|r| - 1] == [];
    if Positive(ps) {
      TotalSizePositive(ps);
    }
  }

  /** What `reduce` leaves: one done piece, SHRINKAGE times the total, placed after the old total. */
  function ReduceLayer(ps: seq<Piece>): seq<Piece> {
    [Piece(true, TotalSize(ps), TotalSize(ps) * SHRINKAGE, None)]
  }

  /** Reducing shrinks the total by SHRINKAGE and keeps a positive non-empty layer positive. */
  lemma ReduceLayerShrinks(ps: seq<Piece>)
    ensures TotalSize(ReduceLayer(ps)) == TotalSize(ps) * SHRINKAGE
    ensures Positive(ps) && ps != [] ==> Positive(ReduceLayer(ps))
  {
    var r := ReduceLayer(ps);
    assert r[..|r| - 1] == [];
    if Positive(ps) {
      TotalSizePositive(ps);
    }
  }

  /** What `tidyUp` leaves: the last piece moved to offset 0. */
  function TidyLayer(ps: seq<Piece>): seq<Piece> {
    if ps == [] then [] else ps[|ps| - 1 := ps[|ps| - 1].(offset := 0.0)]
  }

  /**
   * Tidying changes only the last piece's offset; a layer holding a single
   * piece, as after `reduce`, comes out packed.
   */
  lemma TidyLayerPacks(ps: seq<Piece>)
    ensures |TidyLayer(ps)| == |ps|
    ensures forall i :: 0 <= i < |ps| ==> TidyLayer(ps)[i] == ps[i].(offset := TidyLayer(ps)[i].offset)
    ensures forall i :: 0 <= i < |ps| - 1 ==> TidyLayer(ps)[i] == ps[i]
    ensures ps != [] ==> TidyLayer(ps)[|ps| - 1].offset == 0.0
    ensures Positive(ps) ==> Positive(TidyLayer(ps))
    ensures |ps| == 1 ==> Packed(TidyLayer(ps))
  {
    var r := TidyLayer(ps);
    if |ps| == 1 {
      assert r[..0] == [];
    }
  }

  class Layer {
    const sum: nat
    var pieces: seq<Piece>

    constructor (sum: nat, pieces: seq<Piece>)
      ensures this.sum == sum && this.pieces == pieces
    {
      this.sum := sum;
      this.pieces := pieces;
    }

    /** `pushPiece`: appends one piece placed right after everything already in the layer. */
    method PushPiece(done: bool, size: real, parent: Option<PieceId>)
      modifies this
      ensures pieces == old(pieces) + [Piece(done, TotalSize(old(pieces)), size, parent)]
    {
      pieces := pieces + [Piece(done, TotalSize(pieces), size, parent)];
    }

    /** `split`: replaces the pieces by the split of the first one; a layer without pieces is left alone. */
    method Split(pieceSize: real)
      requires pieceSize > 0.0
      requires pieces != [] ==> pieces[0].size >= 0.0
      modifies this
      ensures pieces == SplitLayer(old(pieces), pieceSize)
    {
      if |pieces| > 0 {
        pieces := SplitPiece(pieces[0], pieceSize);
      }
    }

    /** `join`: empties the layer, then pushes one done piece holding the old total. */
    method Join()
      modifies this
      ensures pieces == JoinLayer(old(pieces))
    {
      var totalSize := TotalSize(pieces);
      pieces := [];
      PushPiece(true, totalSize, None);
    }

    /** `reduce`: pushes one done piece SHRINKAGE times the total, then keeps only that piece. */
    method Reduce()
      modifies this
      ensures pieces == ReduceLayer(old(pieces))
    {
      PushPiece(true, TotalSize(pieces) * SHRINKAGE, None);
      pieces := [pieces[|pieces| - 1]];
    }

    /** `tidyUp`: sets the last piece's offset to 0 in place. */
    method TidyUp()
      modifies this
      ensures pieces == TidyLayer(old(pieces))
    {
      if |pieces| > 0 {
        var last := |pieces| - 1;
        pieces := pieces[last := pieces[last].(offset := 0.0)];
      }
    }
  }
}
