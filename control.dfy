/**
 * The callback chain of `run` in assets/2048/map_reduce.js as an explicit state
 * machine: the `sum` counter and the callback that runs next. `loop` either runs
 * the pre-map step or calls `start`; every other callback runs one step and
 * hands over to the next one when its animation ends.
 */
module Driver {
  import opened Pieces

  /** The callback that runs next: `loop`, `runMap`, `runPostMap`, `runReduce` or `runPostReduce`. */
  datatype Stage = Loop | Map | PostMap | Reduce | PostReduce

  datatype Control = Control(sum: nat, next: Stage)

  /** The state `start` leaves behind: sum is 0 and `loop` runs next. */
  const Started: Control := Control(0, Loop)

  /** sum is even and at most MAX_SUM, and below MAX_SUM while a cycle is under way. */
  predicate InRange(c: Control) {
    c.sum % 2 == 0 && c.sum <= MAX_SUM && (c.next != Loop ==> c.sum < MAX_SUM)
  }

  /**
   * One callback. Only `runPostReduce` moves sum, by exactly 2; `loop` at or
   * beyond MAX_SUM restarts from `start`.
   */
  function Advance(c: Control): (r: Control)
    ensures InRange(c) ==> InRange(r)
    ensures r.sum != c.sum ==>
      (c.next == PostReduce && r.sum == c.sum + 2) || (c.next == Loop && c.sum >= MAX_SUM && r == Started)
  {
    match c.next
    case Loop => if c.sum < MAX_SUM then Control(c.sum, Map) else Started
    case Map => Control(c.sum, PostMap)
    case PostMap => Control(c.sum, Reduce)
    case Reduce => Control(c.sum, PostReduce)
    case PostReduce => Control(c.sum + 2, Loop)
  }

  /** n callbacks in a row. */
  function AdvanceBy(c: Control, n: nat): Control
    decreases n
  {
    if n == 0 then c else AdvanceBy(Advance(c), n - 1)
  }

  lemma {:induction false} AdvanceByAdd(c: Control, a: nat, b: nat)
    ensures AdvanceBy(c, a + b) == AdvanceBy(AdvanceBy(c, a), b)
    decreases a
  {
    if a > 0 {
      AdvanceByAdd(Advance(c), a - 1, b);
    }
  }

  /** Every state reached from an in-range state is in range. */
  lemma {:induction false} AdvanceByInRange(c: Control, n: nat)
    requires InRange(c)
    ensures InRange(AdvanceBy(c, n))
    decreases n
  {
    if n > 0 {
      AdvanceByInRange(Advance(c), n - 1);
    }
  }

  /** A cycle of five callbacks, from `loop` back to `loop`, moves sum on by 2. */
  lemma OneCycle(s: nat)
    requires s < MAX_SUM
    ensures AdvanceBy(Control(s, Loop), 5) == Control(s + 2, Loop)
  {
    var c0 := Control(s, Loop);
    var c1 := Advance(c0);
    var c2 := Advance(c1);
    var c3 := Advance(c2);
    var c4 := Advance(c3);
    assert AdvanceBy(c0, 5) == AdvanceBy(c1, 4) == AdvanceBy(c2, 3) == AdvanceBy(c3, 2) == AdvanceBy(c4, 1);
  }

  lemma {:induction false} Cycles(k: nat)
    requires 2 * k <= MAX_SUM
    ensures AdvanceBy(Started, 5 * k) == Control(2 * k, Loop)
  {
    if k > 0 {
      Cycles(k - 1);
      AdvanceByAdd(Started, 5 * (k - 1), 5);
      OneCycle(2 * (k - 1));
    }
  }

  /**
   * From `start`, MAX_SUM / 2 cycles bring sum to MAX_SUM, and the callback
   * after them starts the run over: the driver repeats with period 31.
   */
  lemma RunRestarts()
    ensures AdvanceBy(Started, 5 * (MAX_SUM / 2)) == Control(MAX_SUM, Loop)
    ensures AdvanceBy(Started, 5 * (MAX_SUM / 2) + 1) == Started
  {
    Cycles(MAX_SUM / 2);
    AdvanceByAdd(Started, 5 * (MAX_SUM / 2), 1);
  }
}
