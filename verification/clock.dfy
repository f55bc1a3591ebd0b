/** The clock source (`ClkDriver` in modules/clkdriver.py).

    It splits `period` into `lowTime = int(period/2)` and
    `highTime = period - lowTime`, then forever stages True, waits `lowTime`,
    stages False and waits `highTime`. The phase written True lasts `lowTime`
    and the phase written False lasts `highTime`: the names are the other way
    round from the levels. */
module Clock {
  import opened Signals

  /** `int(period/2)`: division rounded toward zero, as Python's `int()`
      truncates the float quotient. */
  function LowTime(period: int): (t: int)
    ensures 0 <= period ==> 0 <= period - 2 * t <= 1
    ensures period < 0 ==> -1 <= period - 2 * t <= 0
  {
    if period >= 0 then period / 2 else -((-period) / 2)
  }

  function HighTime(period: int): int {
    period - LowTime(period)
  }

  /** The two phases add up to one period; for a non-negative period they
      differ by at most one, the longer one being `highTime`. */
  lemma PhaseSplit(period: int)
    ensures LowTime(period) + HighTime(period) == period
    ensures 0 <= period ==> LowTime(period) == period / 2
    ensures 0 <= period ==> 0 <= HighTime(period) - LowTime(period) <= 1
    ensures 0 <= period ==> (HighTime(period) == LowTime(period) <==> period % 2 == 0)
  {
  }

  /** A period of 1 gives the True phase zero duration. */
  lemma UnitPeriod()
    ensures LowTime(1) == 0 && HighTime(1) == 1
  {
  }

  /** One staged write to `clk`: the time it is staged and the level. */
  datatype ClkWrite = ClkWrite(time: int, level: bool)

  /** The levels of a list of writes, in order. */
  function Levels(writes: seq<ClkWrite>): seq<bool> {
    seq(|writes|, i requires 0 <= i < |writes| => writes[i].level)
  }

  /** `driveClk` for its first `cycles` turns of the endless loop, starting at
      time 0: the writes it stages, in order. They alternate True, False, ...
      starting with True; each True write is followed `lowTime` later by a
      False write, which is followed `highTime` later by the next True write,
      so consecutive True writes are one period apart. */
  method DriveClk(period: int, cycles: nat) returns (writes: seq<ClkWrite>)
    ensures |writes| == 2 * cycles
    ensures forall i :: 0 <= i < |writes| ==> writes[i].level == (i % 2 == 0)
    ensures cycles > 0 ==> writes[0].time == 0
    ensures forall c :: 0 <= c < cycles ==>
      writes[2 * c + 1].time == writes[2 * c].time + LowTime(period)
    ensures forall c :: 0 <= c < cycles - 1 ==>
      writes[2 * c + 2].time == writes[2 * c + 1].time + HighTime(period) &&
      writes[2 * c + 2].time == writes[2 * c].time + period
  {
    var lowTime := LowTime(period);
    var highTime := period - lowTime;
    var now := 0;
    writes := [];
    var c := 0;
    while c < cycles
      invariant 0 <= c <= cycles
      invariant |writes| == 2 * c
      invariant c == 0 ==> now == 0
      invariant c > 0 ==> now == writes[2 * c - 1].time + highTime
      invariant forall i :: 0 <= i < |writes| ==> writes[i].level == (i % 2 == 0)
      invariant c > 0 ==> writes[0].time == 0
      invariant forall k :: 0 <= k < c ==> writes[2 * k + 1].time == writes[2 * k].time + lowTime
      invariant forall k :: 0 <= k < c - 1 ==> writes[2 * k + 2].time == writes[2 * k + 1].time + highTime
    {
      writes := writes + [ClkWrite(now, true)];
      now := now + lowTime;
      writes := writes + [ClkWrite(now, false)];
      now := now + highTime;
      c := c + 1;
    }
  }

  /** Starting from a clock signal at False, every write of `driveClk` is a
      change, so an `@always(clk)` process wakes on each of them, and every
      True write is a rising edge, so a `@always(clk.posedge)` process wakes
      once per cycle. */
  lemma {:induction false} DriveClkEvents(writes: seq<ClkWrite>, cycles: nat)
    requires |writes| == 2 * cycles
    requires forall i :: 0 <= i < |writes| ==> writes[i].level == (i % 2 == 0)
    ensures Changes(false, Levels(writes)) == 2 * cycles
    ensures RisingEdges(false, Levels(writes)) == cycles
  {
    var ls := Levels(writes);
    AlternatingEvents(false, ls);
  }
}
