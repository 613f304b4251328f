/**
 * The state of one map/reduce diagram in assets/2048/map_reduce.js: the array
 * LAYERS of layer objects, the layer for sum s at index s / 2, and the `run`
 * driver's counter with the callback due next. The ghost field `diagram` is
 * the value the layers draw; each method is one function of the source and is
 * proved to change that value as the matching step on diagrams says. `Step`
 * runs whichever callback is due, standing for the animation's
 * end-of-transition events.
 */
module Engine {
  import opened Wrappers
  import opened Pieces
  import opened Layers
  import opened Driver
  import opened Diagrams

  class MapReduce {
    var layers: seq<Layer>
    var sum: nat
    var next: Stage
    ghost var diagram: Diagram

    /** Layer i is the one for sum 2 * i; in particular no layer object appears twice. */
    ghost predicate Indexed()
      reads this
    {
      forall i :: 0 <= i < |layers| ==> layers[i].sum == 2 * i
    }

    /** The layers hold the pieces of `diagram`, layer by layer. */
    ghost predicate Draws()
      reads this, layers
    {
      |layers| == |diagram| && forall k :: 0 <= k < |layers| ==> layers[k].pieces == diagram[k]
    }

    function State(): Control
      reads this
    {
      Control(sum, next)
    }

    ghost predicate Valid()
      reads this, layers
    {
      Indexed() && Draws() && WellFormed(diagram, State())
    }

    /** `run`: draws the labels (not modelled) and calls `start`. */
    constructor ()
      ensures Valid() && State() == Started && diagram == Initial
    {
      layers := [];
      sum := 0;
      next := Loop;
      diagram := [];
      new;
      Start();
    }

    /**
     * `getLayer`: the layer for sum s, made empty and appended when the array
     * has no layer at index s / 2 yet; an existing layer is never replaced, so
     * the diagram only grows.
     */
    method GetLayer(s: nat) returns (l: Layer)
      requires Indexed() && Draws() && s % 2 == 0 && s / 2 <= |layers|
      modifies this`layers, this`diagram
      ensures Indexed() && Draws() && diagram == Grow(old(diagram), s / 2 + 1)
      ensures s / 2 < |layers| && l == layers[s / 2] && l.sum == s
      ensures old(s / 2 < |layers|) ==> layers == old(layers)
      ensures old(s / 2 == |layers|) ==> layers == old(layers) + [l] && fresh(l)
    {
      var index := s / 2;
      if index >= |layers| {
        var layer := new Layer(s, []);
        layers := layers + [layer];
        diagram := diagram + [[]];
      }
      l := layers[index];
    }

    /**
     * `Layer.map` on src: maps its pieces onto the layers for src.sum + 2 and
     * src.sum + 4, creating them when missing; every other layer keeps its pieces.
     */
    method MapLayer(src: Layer, ghost i: nat)
      requires Indexed() && Draws() && i < |layers| && layers[i] == src
      modifies this`layers, this`diagram, layers
      ensures Indexed() && Draws() && i < |old(diagram)|
      ensures diagram == MapStep(old(diagram), src.sum)
    {
      ghost var d := diagram;
      var layer2, layer4 := LayersAhead(src, i);
      MapOnto(src, layer2, layer4, i, d);
    }

    /** The two `getLayer` calls of `Layer.map`: the layers for the sums 2 and 4 above layer i. */
    method LayersAhead(src: Layer, ghost i: nat) returns (layer2: Layer, layer4: Layer)
      requires Indexed() && Draws() && i < |layers| && layers[i] == src
      modifies this`layers, this`diagram
      ensures Indexed() && Draws() && diagram == Grow(old(diagram), i + 3)
      ensures i + 2 < |layers| && layers[i] == src && layers[i + 1] == layer2 && layers[i + 2] == layer4
      ensures (layer2 in old(layers) || fresh(layer2)) && (layer4 in old(layers) || fresh(layer4))
    {
      assert src.sum == 2 * i && (src.sum + 2) / 2 == i + 1 && (src.sum + 4) / 2 == i + 2;
      ghost var d := diagram;
      layer2 := GetLayer(src.sum + 2);
      layer4 := GetLayer(src.sum + 4);
      GrowGrow(d, i + 2, i + 3);
    }

    /** The loop of `Layer.map` on layer a, with the layers ahead of it already in place. */
    method MapOnto(src: Layer, layer2: Layer, layer4: Layer, ghost a: nat, ghost d: Diagram)
      requires Indexed() && Draws() && a + 2 < |layers| && a < |d| && diagram == Grow(d, a + 3)
      requires layers[a] == src && layers[a + 1] == layer2 && layers[a + 2] == layer4
      modifies this`diagram, layer2, layer4
      ensures Draws() && diagram == MapStep(d, src.sum)
    {
      ghost var g := diagram;
      assert src.sum == 2 * a && src.sum / 2 == a && layer2.sum == 2 * a + 2 && layer4.sum == 2 * a + 4;
      PushMapped(layer2, layer4, src.pieces, src.sum);
      MapStepGrown(d, src.sum, g, layer2.pieces, layer4.pieces);
      diagram := g[a + 1 := layer2.pieces][a + 2 := layer4.pieces];
      forall k | 0 <= k < |layers|
        ensures layers[k].pieces == diagram[k]
      {
        if k != a + 1 && k != a + 2 {
          assert layers[k].sum == 2 * k;
        }
      }
    }

    /**
     * `reset`: drops every layer, then gives layer 0 one done piece of
     * START_SIZE and layer 2 one piece of START_SIZE * GROWTH, split into chunks.
     */
    method Reset()
      modifies this`layers, this`diagram
      ensures Indexed() && Draws() && diagram == Initial
    {
      layers := [];
      diagram := [];
      var layer0 := GetLayer(0);
      layer0.PushPiece(true, START_SIZE, None);
      assert layer0.pieces == [Piece(true, 0.0, START_SIZE, None)];
      diagram := [layer0.pieces];
      var layer2 := GetLayer(2);
      layer2.PushPiece(false, START_SIZE * GROWTH, None);
      assert layer2.pieces == [Piece(false, 0.0, START_SIZE * GROWTH, None)];
      diagram := diagram[1 := layer2.pieces];
      layer2 := GetLayer(2);
      SplitAt(layer2, 1);
      InitialSplit();
    }

    /** `start`: sum back to 0, the layers reset, and `loop` due next. */
    method Start()
      modifies this`layers, this`sum, this`next, this`diagram
      ensures Valid() && State() == Started && diagram == Initial
    {
      sum := 0;
      Reset();
      next := Loop;
      InitialWellFormed();
    }

    /** `loop` below MAX_SUM, that is `runPreMap`: splits the current layer into PIECE_SIZE chunks. */
    method RunPreMap()
      requires Valid() && next == Loop && sum < MAX_SUM
      modifies this`layers, this`next, this`diagram, layers
      ensures Valid() && State() == Advance(old(State())) && diagram == old(SplitStep(diagram, sum))
    {
      ghost var d := diagram;
      PreMapWellFormed(d, State());
      var layer := GetLayer(sum);
      assert layers == old(layers) && diagram == d;
      SplitAt(layer, sum / 2);
      next := Map;
    }

    /** `runMap`: maps the current layer onto the two layers ahead of it, creating the farther one. */
    method RunMap()
      requires Valid() && next == Map
      modifies this`layers, this`next, this`diagram, layers
      ensures Valid() && State() == Advance(old(State())) && diagram == old(MapStep(diagram, sum))
    {
      MapWellFormed(diagram, State());
      var layer := GetLayer(sum);
      MapLayer(layer, sum / 2);
      next := PostMap;
    }

    /** `runPostMap`: joins the current layer into one done piece. */
    method RunPostMap()
      requires Valid() && next == PostMap
      modifies this`layers, this`next, this`diagram, layers
      ensures Valid() && State() == Advance(old(State())) && diagram == old(JoinStep(diagram, sum))
    {
      ghost var d := diagram;
      PostMapWellFormed(d, State());
      var layer := GetLayer(sum);
      assert layers == old(layers) && diagram == d;
      JoinAt(layer, sum / 2);
      next := Reduce;
    }

    /** `runReduce`: reduces the layer for sum + 2 to one done piece. */
    method RunReduce()
      requires Valid() && next == Reduce
      modifies this`layers, this`next, this`diagram, layers
      ensures Valid() && State() == Advance(old(State())) && diagram == old(ReduceStep(diagram, sum + 2))
    {
      ghost var d := diagram;
      ReduceWellFormed(d, State());
      var layer := GetLayer(sum + 2);
      assert layers == old(layers) && diagram == d;
      ReduceAt(layer, sum / 2 + 1);
      next := PostReduce;
    }

    /** `runPostReduce`: tidies the reduced layer and moves sum on by 2. */
    method RunPostReduce()
      requires Valid() && next == PostReduce
      modifies this`layers, this`sum, this`next, this`diagram, layers
      ensures Valid() && State() == Advance(old(State())) && diagram == old(TidyStep(diagram, sum + 2))
    {
      ghost var d := diagram;
      PostReduceWellFormed(d, State());
      var layer := GetLayer(sum + 2);
      assert layers == old(layers) && diagram == d;
      TidyAt(layer, sum / 2 + 1);
      sum := sum + 2;
      next := Loop;
    }

    /** `Layer.split` on layer k, seen on the diagram. */
    method SplitAt(l: Layer, ghost k: nat)
      requires Indexed() && Draws() && k < |layers| && layers[k] == l
      requires diagram[k] != [] ==> diagram[k][0].size >= 0.0
      modifies this`diagram, l
      ensures Draws() && diagram == old(diagram)[k := SplitLayer(old(diagram)[k], PIECE_SIZE)]
    {
      ghost var d := diagram;
      l.Split(PIECE_SIZE);
      diagram := d[k := l.pieces];
      forall j | 0 <= j < |layers|
        ensures layers[j].pieces == diagram[j]
      {
        if j != k {
          assert layers[j].sum == 2 * j;
        }
      }
    }

    /** `Layer.join` on layer k, seen on the diagram. */
    method JoinAt(l: Layer, ghost k: nat)
      requires Indexed() && Draws() && k < |layers| && layers[k] == l
      modifies this`diagram, l
      ensures Draws() && diagram == old(diagram)[k := JoinLayer(old(diagram)[k])]
    {
      ghost var d := diagram;
      l.Join();
      diagram := d[k := l.pieces];
      forall j | 0 <= j < |layers|
        ensures layers[j].pieces == diagram[j]
      {
        if j != k {
          assert layers[j].sum == 2 * j;
        }
      }
    }

    /** `Layer.reduce` on layer k, seen on the diagram. */
    method ReduceAt(l: Layer, ghost k: nat)
      requires Indexed() && Draws() && k < |layers| && layers[k] == l
      modifies this`diagram, l
      ensures Draws() && diagram == old(diagram)[k := ReduceLayer(old(diagram)[k])]
    {
      ghost var d := diagram;
      l.Reduce();
      diagram := d[k := l.pieces];
      forall j | 0 <= j < |layers|
        ensures layers[j].pieces == diagram[j]
      {
        if j != k {
          assert layers[j].sum == 2 * j;
        }
      }
    }

    /** `Layer.tidyUp` on layer k, seen on the diagram. */
    method TidyAt(l: Layer, ghost k: nat)
      requires Indexed() && Draws() && k < |layers| && layers[k] == l
      modifies this`diagram, l
      ensures Draws() && diagram == old(diagram)[k := TidyLayer(old(diagram)[k])]
    {
      ghost var d := diagram;
      l.TidyUp();
      diagram := d[k := l.pieces];
      forall j | 0 <= j < |layers|
        ensures layers[j].pieces == diagram[j]
      {
        if j != k {
          assert layers[j].sum == 2 * j;
        }
      }
    }

    /** `loop`: below MAX_SUM runs the pre-map step, otherwise starts over. */
    method RunLoop()
      requires Valid() && next == Loop
      modifies this, layers
      ensures Valid() && State() == Advance(old(State())) && diagram == old(Next(diagram, State()))
    {
      if sum < MAX_SUM {
        RunPreMap();
      } else {
        Start();
      }
    }

    /** Runs the callback that is due; the diagram changes as `Next` says. */
    method Step()
      requires Valid()
      modifies this, layers
      ensures Valid() && State() == Advance(old(State())) && diagram == old(Next(diagram, State()))
    {
      match next
      case Loop => RunLoop();
      case Map => RunMap();
      case PostMap => RunPostMap();
      case Reduce => RunReduce();
      case PostReduce => RunPostReduce();
    }
  }

  /**
   * The loop of `Layer.map`: for each piece of ps in order, pushes its mapped
   * copy onto both downstream layers.
   */
  method PushMapped(layer2: Layer, layer4: Layer, ps: seq<Piece>, srcSum: nat)
    requires layer2 != layer4
    modifies layer2, layer4
    ensures layer2.pieces == MapInto(old(layer2.pieces), ps, srcSum)
    ensures layer4.pieces == MapInto(old(layer4.pieces), ps, srcSum)
  {
    var i := 0;
    while i < |ps|
      invariant 0 <= i <= |ps|
      invariant layer2.pieces == MapInto(old(layer2.pieces), ps[..i], srcSum)
      invariant layer4.pieces == MapInto(old(layer4.pieces), ps[..i], srcSum)
    {
      var pieceSize := ps[i].size * GROWTH;
      layer2.PushPiece(false, pieceSize, Some(PieceId(srcSum, i)));
      layer4.PushPiece(false, pieceSize, Some(PieceId(srcSum, i)));
      assert ps[..i + 1][..i] == ps[..i];
      i := i + 1;
    }
    assert ps[..|ps|] == ps;
  }
}
