/** Value semantics of the hardware signals the blocks are built from.

    A signal holds a bounded integer (`intbv`/`modbv`) or a boolean. Writes are
    two-phase: a process stages a value with `.next = v`, and every staged
    value is committed together after the processes woken by an event have
    run. The blocks in this project are therefore modelled as step functions
    from the committed (pre-edge) values to the next committed values; this
    module holds what they share: the range check or wrap-around applied when a
    value is staged, and which committed transitions of a clock wake a process. */
module Signals {

  datatype Option<+T> = None | Some(value: T)

  datatype Result<+T, +E> = Ok(value: T) | Err(error: E)

  /** `intbv` rejects a value outside its range; `modbv` wraps it into range. */
  datatype BvKind = IntBv | ModBv

  predicate InRange(v: int, lo: int, hi: int) {
    lo <= v < hi
  }

  /** The value a signal of kind `kind` with range [lo, hi) takes when `v` is
      staged into it, or None when staging raises a range error. */
  function Assign(kind: BvKind, v: int, lo: int, hi: int): (r: Option<int>)
    requires lo < hi
    ensures r.Some? ==> InRange(r.value, lo, hi)
    ensures kind == IntBv ==> (r.Some? <==> InRange(v, lo, hi))
    ensures kind == ModBv ==> r.Some?
    ensures r.Some? && InRange(v, lo, hi) ==> r.value == v
  {
    match kind
    case IntBv => if lo <= v < hi then Some(v) else None
    case ModBv => Some(lo + (v - lo) % (hi - lo))
  }

  /** A wrapped value differs from the staged one by a whole number of range
      widths, so `modbv` is arithmetic modulo hi - lo. */
  lemma ModBvCongruent(v: int, lo: int, hi: int)
    requires lo < hi
    ensures (Assign(ModBv, v, lo, hi).value - v) % (hi - lo) == 0
  {
    var m := hi - lo;
    var q := (v - lo) / m;
    assert Assign(ModBv, v, lo, hi).value - v == (-q) * m + 0;
    ModUnique(Assign(ModBv, v, lo, hi).value - v, m, -q, 0);
  }

  /** Wrapping and then adding one, then wrapping again, is the same as adding
      one and wrapping once: a `modbv` register incremented step by step holds
      the wrapped total. */
  lemma {:induction false} ModBvIncrement(v: int, lo: int, hi: int)
    requires lo < hi
    ensures Assign(ModBv, Assign(ModBv, v, lo, hi).value + 1, lo, hi) == Assign(ModBv, v + 1, lo, hi)
  {
    var m := hi - lo;
    var q := (v - lo) / m;
    var w := Assign(ModBv, v, lo, hi).value;
    assert w + 1 - lo == (v + 1 - lo) + (-q) * m;
    ModShift(v + 1 - lo, -q, m);
  }

  /** Shifting by a multiple of m does not change the Euclidean remainder. */
  lemma ModShift(x: int, k: int, m: int)
    requires m > 0
    ensures (x + k * m) % m == x % m
  {
    var q, r := x / m, x % m;
    assert x + k * m == (q + k) * m + r;
    ModUnique(x + k * m, m, q + k, r);
  }

  /** Euclidean division is unique: quotient and remainder are determined. */
  lemma ModUnique(a: int, m: int, q: int, r: int)
    requires m > 0 && 0 <= r < m && a == q * m + r
    ensures a % m == r && a / m == q
  {
    var q', r' := a / m, a % m;
    assert a == q' * m + r';
    if q' > q {
      assert (q' - q) * m == q' * m - q * m;
      MulAtLeast(q' - q, m);
      assert false;
    } else if q' < q {
      assert (q - q') * m == q * m - q' * m;
      MulAtLeast(q - q', m);
      assert false;
    }
  }

  lemma MulAtLeast(k: int, m: int)
    requires k >= 1 && m > 0
    ensures k * m >= m
  {
  }

  /** Number of committed values of a boolean signal, starting from `initial`,
      that differ from the value before them: the activations of a process
      declared `@always(clk)`, which wakes on every transition. */
  function Changes(initial: bool, levels: seq<bool>): (n: nat)
    ensures n <= |levels|
    decreases |levels|
  {
    if levels == [] then 0
    else (if levels[0] != initial then 1 else 0) + Changes(levels[0], levels[1..])
  }

  /** Number of committed False-to-True transitions: the activations of a
      process declared `@always(clk.posedge)`. Every rising edge is a change. */
  function RisingEdges(initial: bool, levels: seq<bool>): (n: nat)
    ensures n <= Changes(initial, levels)
    decreases |levels|
  {
    if levels == [] then 0
    else (if !initial && levels[0] then 1 else 0) + RisingEdges(levels[0], levels[1..])
  }

  /** Changes and rising edges of a level sequence that flips on every write. */
  lemma {:induction false} AlternatingEvents(initial: bool, levels: seq<bool>)
    requires forall i :: 0 <= i < |levels| ==> levels[i] == (if i % 2 == 0 then !initial else initial)
    ensures Changes(initial, levels) == |levels|
    ensures !initial ==> RisingEdges(initial, levels) == (|levels| + 1) / 2
    ensures initial ==> RisingEdges(initial, levels) == |levels| / 2
    decreases |levels|
  {
    if levels != [] {
      var rest := levels[1..];
      forall i | 0 <= i < |rest|
        ensures rest[i] == (if i % 2 == 0 then !levels[0] else levels[0])
      {
        assert rest[i] == levels[i + 1];
      }
      AlternatingEvents(levels[0], rest);
    }
  }
}
