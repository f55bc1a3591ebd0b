/** The tick counter (`Counter` in modules/counter.py).

    Its process `count` is declared `@always(clk)`: it wakes on every committed
    change of the clock, rising or falling, and stages `cnt + 1`. The counter
    signal is either an `intbv`, for which a value reaching `max` is a range
    error, or a `modbv`, which wraps. */
module Counters {
  import opened Signals
  import opened Clock

  /** The value staged by one activation, as committed, or None when the
      `intbv` range check fails. */
  function Increment(kind: BvKind, cnt: int, lo: int, hi: int): (r: Option<int>)
    requires lo < hi
    ensures InRange(cnt + 1, lo, hi) ==> r == Some(cnt + 1)
    ensures kind == IntBv ==> (r.Some? <==> InRange(cnt + 1, lo, hi))
    ensures kind == ModBv && InRange(cnt, lo, hi) ==>
      r.Some? && r.value == (if cnt + 1 == hi then lo else cnt + 1)
  {
    assert kind == ModBv && cnt + 1 == hi ==> (hi - lo) % (hi - lo) == 0;
    Assign(kind, cnt + 1, lo, hi)
  }

  /** The counter register. */
  class Counter {
    const kind: BvKind
    const lo: int
    const hi: int
    var cnt: int

    ghost predicate Valid()
      reads this
    {
      lo < hi && InRange(cnt, lo, hi)
    }

    /** Takes the caller's counter signal, already holding `init`. */
    constructor (kind: BvKind, lo: int, hi: int, init: int)
      requires lo < hi && InRange(init, lo, hi)
      ensures Valid()
      ensures this.kind == kind && this.lo == lo && this.hi == hi && cnt == init
    {
      this.kind, this.lo, this.hi := kind, lo, hi;
      cnt := init;
    }

    /** One activation of `count`: the value read is the committed one, the
        value committed is one more (wrapped for `modbv`). A range error aborts
        the step and leaves the register as it was. */
    method Count() returns (ok: bool)
      requires Valid()
      modifies this
      ensures Valid()
      ensures ok <==> Increment(kind, old(cnt), lo, hi).Some?
      ensures ok ==> cnt == Increment(kind, old(cnt), lo, hi).value
      ensures !ok ==> cnt == old(cnt)
      ensures kind == IntBv && ok ==> cnt == old(cnt) + 1
    {
      var next := Increment(kind, cnt, lo, hi);
      if next.None? {
        return false;
      }
      cnt := next.value;
      ok := true;
    }
  }

  /** The counter after n activations from `start`, or None if one of them
      raised a range error. */
  function CountN(kind: BvKind, lo: int, hi: int, start: int, n: nat): Option<int>
    requires lo < hi
  {
    if n == 0 then Some(start)
    else match CountN(kind, lo, hi, start, n - 1)
      case None => None
      case Some(c) => Increment(kind, c, lo, hi)
  }

  /** An `intbv` counter never decrements or skips: after n activations it
      holds start + n, and it fails exactly when that would reach `max`. */
  lemma {:induction false} IntBvCountsActivations(lo: int, hi: int, start: int, n: nat)
    requires lo < hi && InRange(start, lo, hi)
    ensures CountN(IntBv, lo, hi, start, n).Some? <==> start + n < hi
    ensures start + n < hi ==> CountN(IntBv, lo, hi, start, n) == Some(start + n)
  {
    if n > 0 {
      IntBvCountsActivations(lo, hi, start, n - 1);
    }
  }

  /** A `modbv` counter holds the number of activations modulo the range
      width: with min = 0, (start + n) mod max. */
  lemma {:induction false} ModBvWraps(lo: int, hi: int, start: int, n: nat)
    requires lo < hi && InRange(start, lo, hi)
    ensures CountN(ModBv, lo, hi, start, n) == Assign(ModBv, start + n, lo, hi)
    ensures lo == 0 ==> CountN(ModBv, lo, hi, start, n) == Some((start + n) % hi)
  {
    if n > 0 {
      ModBvWraps(lo, hi, start, n - 1);
      ModBvIncrement(start + n - 1, lo, hi);
    }
  }

  /** Driven by the clock source from a clock at False, the counter makes
      one activation per write to `clk`, rising and falling alike, so after
      `cycles` clock cycles an `intbv` counter started at 0 holds
      2 * cycles, twice the number of rising edges. */
  lemma CountsClockTransitions(writes: seq<ClkWrite>, cycles: nat, hi: int)
    requires |writes| == 2 * cycles
    requires forall i :: 0 <= i < |writes| ==> writes[i].level == (i % 2 == 0)
    requires 2 * cycles < hi
    ensures CountN(IntBv, 0, hi, 0, Changes(false, Levels(writes))) == Some(2 * cycles)
    ensures Changes(false, Levels(writes)) == 2 * RisingEdges(false, Levels(writes))
  {
    DriveClkEvents(writes, cycles);
    IntBvCountsActivations(0, hi, 0, 2 * cycles);
  }
}
