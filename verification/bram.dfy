/** The block-RAM memory controller (`MemController` in modules/bram.py) and
    the write-then-read-back scenario of its testbench.

    The controller owns `mem_size` word signals bounded to [min_val, max_val).
    On every rising edge of `clk` it stages `data_i` into the addressed word if
    `write_enable` is set, and in every case stages the addressed word's
    pre-edge value into `data_o` ("read old, then write"). */
module Bram {
  import opened Signals

  /** The construction-time assertions, in the order the source checks them. */
  datatype ConfigError =
    | MaxNotAboveMin   // max_val > min_val fails
    | NonPositiveSize  // mem_size > 0 fails
    | ZeroOutOfRange   // intbv(0, min=min_val, max=max_val) rejects its initial value

  /** What aborts a rising-edge step: an address the word list cannot be
      indexed with, or a `data_i` outside the words' range. */
  datatype EdgeError = IndexError | RangeError

  datatype Config = Config(minVal: int, maxVal: int, memSize: int)

  predicate ValidConfig(cfg: Config) {
    cfg.minVal < cfg.maxVal && cfg.memSize > 0 && InRange(0, cfg.minVal, cfg.maxVal)
  }

  /** Parameter checks and word construction of `MemController`. */
  function Elaborate(minVal: int, maxVal: int, memSize: int): (r: Result<Config, ConfigError>)
    ensures r.Ok? <==> maxVal > minVal && memSize > 0 && minVal <= 0 < maxVal
    ensures r.Ok? ==> ValidConfig(r.value) && r.value == Config(minVal, maxVal, memSize)
    ensures maxVal <= minVal ==> r == Err(MaxNotAboveMin)
    ensures maxVal > minVal && memSize <= 0 ==> r == Err(NonPositiveSize)
    ensures maxVal > minVal && memSize > 0 && !InRange(0, minVal, maxVal) ==> r == Err(ZeroOutOfRange)
  {
    if !(maxVal > minVal) then Err(MaxNotAboveMin)
    else if !(memSize > 0) then Err(NonPositiveSize)
    else if !InRange(0, minVal, maxVal) then Err(ZeroOutOfRange)
    else Ok(Config(minVal, maxVal, memSize))
  }

  /** The committed values the controller reads and writes. */
  datatype State = State(mem: seq<int>, dataO: int)

  /** The input signals as committed when the edge process runs. */
  datatype Inputs = Inputs(address: int, dataI: int, writeEnable: bool)

  predicate AllInRange(mem: seq<int>, lo: int, hi: int) {
    forall i :: 0 <= i < |mem| ==> InRange(mem[i], lo, hi)
  }

  /** Indexing a Python list: -size <= a < 0 counts from the end. */
  function ListIndex(address: int, size: nat): (r: Option<nat>)
    ensures r.Some? <==> -(size as int) <= address < size
    ensures r.Some? ==> r.value < size
    ensures 0 <= address < size ==> r == Some(address)
    ensures -(size as int) <= address < 0 ==> r == Some(address + size)
  {
    if 0 <= address < size then Some(address)
    else if -(size as int) <= address < 0 then Some(address + size)
    else None
  }

  /** One rising edge of `readwrite`: the post-edge state from the pre-edge
      state and the committed inputs. */
  function Edge(st: State, inp: Inputs, lo: int, hi: int): (r: Result<State, EdgeError>)
    requires lo < hi
    ensures r == Err(IndexError) <==> ListIndex(inp.address, |st.mem|).None?
    ensures r == Err(RangeError) <==>
      ListIndex(inp.address, |st.mem|).Some? && inp.writeEnable && !InRange(inp.dataI, lo, hi)
    ensures r.Ok? ==>
      var i := ListIndex(inp.address, |st.mem|).value;
      && |r.value.mem| == |st.mem|
      // the hazard policy: data_o gets the word as it was before this edge
      && r.value.dataO == st.mem[i]
      && (inp.writeEnable ==> r.value.mem[i] == inp.dataI)
      && (forall j :: 0 <= j < |st.mem| && j != i ==> r.value.mem[j] == st.mem[j])
      && (!inp.writeEnable ==> r.value.mem == st.mem)
    ensures r.Ok? && AllInRange(st.mem, lo, hi) ==>
      AllInRange(r.value.mem, lo, hi) && InRange(r.value.dataO, lo, hi)
  {
    match ListIndex(inp.address, |st.mem|)
    case None => Err(IndexError)
    case Some(i) =>
      if inp.writeEnable then
        match Assign(IntBv, inp.dataI, lo, hi)
        case None => Err(RangeError)
        case Some(v) => Ok(State(st.mem[i := v], st.mem[i]))
      else
        Ok(State(st.mem, st.mem[i]))
  }

  /** A memory controller instance: its owned words and the `data_o` port. */
  class MemController {
    const minVal: int
    const maxVal: int
    const mem: array<int>
    var dataO: int

    ghost predicate Valid()
      reads this, mem
    {
      minVal < maxVal && mem.Length > 0 &&
      AllInRange(mem[..], minVal, maxVal) && InRange(dataO, minVal, maxVal)
    }

    /** The committed values, for comparison with `Edge`. */
    function Snapshot(): State
      reads this, mem
    {
      State(mem[..], dataO)
    }

    /** Builds the word list of an elaborated configuration: `mem_size` words,
        all 0. `dataO0` is the initial value of the caller's `data_o` signal. */
    constructor (cfg: Config, dataO0: int)
      requires ValidConfig(cfg)
      requires InRange(dataO0, cfg.minVal, cfg.maxVal)
      ensures Valid() && fresh(mem)
      ensures minVal == cfg.minVal && maxVal == cfg.maxVal
      ensures mem.Length == cfg.memSize && forall i :: 0 <= i < mem.Length ==> mem[i] == 0
      ensures dataO == dataO0
    {
      minVal, maxVal := cfg.minVal, cfg.maxVal;
      mem := new int[cfg.memSize](_ => 0);
      dataO := dataO0;
    }

    /** The `readwrite` process on one rising edge. The addressed word is read
        before anything is written, which is what the two-phase commit gives
        the source. On an error nothing is committed. */
    method ReadWrite(address: int, dataI: int, writeEnable: bool) returns (err: Option<EdgeError>)
      requires Valid()
      modifies this, mem
      ensures Valid()
      ensures match Edge(old(Snapshot()), Inputs(address, dataI, writeEnable), minVal, maxVal)
              case Ok(s) => err == None && Snapshot() == s
              case Err(e) => err == Some(e) && Snapshot() == old(Snapshot())
    {
      var idx := ListIndex(address, mem.Length);
      if idx.None? {
        return Some(IndexError);
      }
      var i := idx.value;
      var before := mem[i];
      if writeEnable {
        if !InRange(dataI, minVal, maxVal) {
          return Some(RangeError);
        }
        mem[i] := dataI;
      }
      dataO := before;
      err := None;
    }
  }

  /** A run of consecutive rising edges: the post-edge state after each one,
      or the first error. */
  function Run(st: State, inputs: seq<Inputs>, lo: int, hi: int): (r: Result<seq<State>, EdgeError>)
    requires lo < hi
    ensures r.Ok? ==> |r.value| == |inputs|
    decreases |inputs|
  {
    if inputs == [] then Ok([])
    else
      match Edge(st, inputs[0], lo, hi)
      case Err(e) => Err(e)
      case Ok(s) =>
        match Run(s, inputs[1..], lo, hi)
        case Err(e) => Err(e)
        case Ok(rest) => Ok([s] + rest)
  }

  /** The state a run ends in: the last post-edge state, or the start. */
  function Final(st: State, states: seq<State>): State {
    if states == [] then st else states[|states| - 1]
  }

  /** The states of a first run followed by the result of a second one. */
  function Then(first: seq<State>, second: Result<seq<State>, EdgeError>): Result<seq<State>, EdgeError> {
    match second
    case Ok(states) => Ok(first + states)
    case Err(e) => Err(e)
  }

  /** Running two input sequences back to back is running the second from the
      state the first one ends in. */
  lemma {:induction false} RunAppend(st: State, a: seq<Inputs>, b: seq<Inputs>, lo: int, hi: int)
    requires lo < hi
    requires Run(st, a, lo, hi).Ok?
    ensures var first := Run(st, a, lo, hi).value;
      Run(st, a + b, lo, hi) == Then(first, Run(Final(st, first), b, lo, hi))
    decreases |a|
  {
    if a == [] {
      assert a + b == b;
      match Run(st, b, lo, hi)
      case Ok(y) => assert [] + y == y;
      case Err(e) =>
    } else {
      var s := Edge(st, a[0], lo, hi).value;
      var rest := Run(s, a[1..], lo, hi).value;
      assert Run(st, a, lo, hi).value == [s] + rest;
      assert Final(st, [s] + rest) == Final(s, rest);
      assert (a + b)[0] == a[0];
      assert (a + b)[1..] == a[1..] + b;
      RunAppend(s, a[1..], b, lo, hi);
      match Run(Final(s, rest), b, lo, hi)
      case Ok(y) =>
        assert [s] + (rest + y) == ([s] + rest) + y;
      case Err(e) =>
    }
  }

  /** A run fails exactly at its first failing edge: every edge before j
      succeeds, and edge j, from the state they leave, reports the run's
      error. */
  lemma {:induction false} RunFailsAtFirstError(st: State, inputs: seq<Inputs>, lo: int, hi: int)
    requires lo < hi && Run(st, inputs, lo, hi).Err?
    ensures exists j ::
      && 0 <= j < |inputs|
      && Run(st, inputs[..j], lo, hi).Ok?
      && Edge(Final(st, Run(st, inputs[..j], lo, hi).value), inputs[j], lo, hi) == Err(Run(st, inputs, lo, hi).error)
    decreases |inputs|
  {
    var e := Run(st, inputs, lo, hi).error;
    match Edge(st, inputs[0], lo, hi)
    case Err(_) =>
      assert inputs[..0] == [];
      assert Run(st, inputs[..0], lo, hi) == Ok([]);
    case Ok(s) =>
      var tail := inputs[1..];
      RunFailsAtFirstError(s, tail, lo, hi);
      var j :| 0 <= j < |tail| && Run(s, tail[..j], lo, hi).Ok? &&
        Edge(Final(s, Run(s, tail[..j], lo, hi).value), tail[j], lo, hi) == Err(e);
      var rest := Run(s, tail[..j], lo, hi).value;
      var prefix := inputs[..j + 1];
      assert prefix[0] == inputs[0] && prefix[1..] == tail[..j];
      assert Run(st, prefix, lo, hi) == Ok([s] + rest);
      assert Final(st, [s] + rest) == Final(s, rest);
      assert inputs[j + 1] == tail[j];
  }

  /** The state edge j of a run starts from: the run's start, or the state
      the previous edge left. */
  function Before(st: State, states: seq<State>, j: int): State
    requires 0 <= j <= |states|
  {
    if j == 0 then st else states[j - 1]
  }

  /** Each post-edge state of a successful run is one `Edge` from the state
      before it. */
  lemma {:induction false} RunStep(st: State, inputs: seq<Inputs>, lo: int, hi: int, j: int)
    requires lo < hi && Run(st, inputs, lo, hi).Ok? && 0 <= j < |inputs|
    ensures var states := Run(st, inputs, lo, hi).value;
      Edge(Before(st, states, j), inputs[j], lo, hi) == Ok(states[j])
    decreases |inputs|
  {
    if j > 0 {
      var s := Edge(st, inputs[0], lo, hi).value;
      var rest := Run(s, inputs[1..], lo, hi).value;
      assert Run(st, inputs, lo, hi).value == [s] + rest;
      RunStep(s, inputs[1..], lo, hi, j - 1);
    }
  }

  /** No edge of a run changes the number of words. */
  lemma {:induction false} RunKeepsSize(st: State, inputs: seq<Inputs>, lo: int, hi: int, j: int)
    requires lo < hi && Run(st, inputs, lo, hi).Ok? && 0 <= j < |inputs|
    ensures |Run(st, inputs, lo, hi).value[j].mem| == |st.mem|
    decreases j
  {
    RunStep(st, inputs, lo, hi, j);
    if j > 0 {
      RunKeepsSize(st, inputs, lo, hi, j - 1);
    }
  }

  /** Read after write: a value written to word `a` on edge k comes back on
      `data_o` at the next edge k' that presents an address selecting `a`,
      provided no edge in between writes to `a`. */
  lemma {:induction false} ReadAfterWrite(st: State, inputs: seq<Inputs>, lo: int, hi: int, a: nat, k: int, k': int)
    requires lo < hi && Run(st, inputs, lo, hi).Ok?
    requires 0 <= k < k' < |inputs|
    requires inputs[k].writeEnable
    requires ListIndex(inputs[k].address, |st.mem|) == Some(a)
    requires ListIndex(inputs[k'].address, |st.mem|) == Some(a)
    requires forall j :: k < j < k' && inputs[j].writeEnable ==>
      ListIndex(inputs[j].address, |st.mem|) != Some(a)
    ensures Run(st, inputs, lo, hi).value[k'].dataO == inputs[k].dataI
  {
    var states := Run(st, inputs, lo, hi).value;
    WordHolds(st, inputs, lo, hi, a, k, k' - 1, k');
    RunStep(st, inputs, lo, hi, k');
    RunKeepsSize(st, inputs, lo, hi, k' - 1);
    assert Before(st, states, k') == states[k' - 1];
  }

  /** Between the write on edge k and edge k', word `a` keeps the value
      written. */
  lemma {:induction false} WordHolds(st: State, inputs: seq<Inputs>, lo: int, hi: int, a: nat, k: int, j: int, k': int)
    requires lo < hi && Run(st, inputs, lo, hi).Ok?
    requires 0 <= k <= j < k' <= |inputs|
    requires inputs[k].writeEnable
    requires ListIndex(inputs[k].address, |st.mem|) == Some(a)
    requires forall i :: k < i < k' && inputs[i].writeEnable ==>
      ListIndex(inputs[i].address, |st.mem|) != Some(a)
    ensures var states := Run(st, inputs, lo, hi).value;
      a < |states[j].mem| && states[j].mem[a] == inputs[k].dataI
    decreases j - k
  {
    var states := Run(st, inputs, lo, hi).value;
    RunStep(st, inputs, lo, hi, j);
    RunKeepsSize(st, inputs, lo, hi, j);
    if j == k {
      if k > 0 {
        RunKeepsSize(st, inputs, lo, hi, k - 1);
      }
    } else {
      WordHolds(st, inputs, lo, hi, a, k, j - 1, k');
      RunKeepsSize(st, inputs, lo, hi, j - 1);
      assert Before(st, states, j) == states[j - 1];
    }
  }

  // ---------------------------------------------------------------------------
  // The testbench scenario: write min_val, min_val+1, ... to addresses 0, 1, ...,
  // then clear write_enable and present the addresses again in order.

  /** The number of values the testbench writes: range(min_val, max_val). */
  function ValueCount(cfg: Config): int {
    cfg.maxVal - cfg.minVal
  }

  /** The testbench applies to a fresh, elaborated controller whose words can
      hold every value written, each at its own address. */
  predicate ScenarioFits(cfg: Config) {
    ValidConfig(cfg) && ValueCount(cfg) <= cfg.memSize
  }

  /** The value of the `modbv` address signal after `address.next = index`. */
  function AddressFor(cfg: Config, index: int): int
    requires cfg.memSize > 0
  {
    Assign(ModBv, index, 0, cfg.memSize).value
  }

  /** One write edge per value: address index, data_i = min_val + index. */
  function WritePhase(cfg: Config): seq<Inputs>
    requires ScenarioFits(cfg)
  {
    seq(ValueCount(cfg), k => Inputs(AddressFor(cfg, k), cfg.minVal + k, true))
  }

  /** One read edge per address; data_i keeps the last value written. */
  function ReadPhase(cfg: Config): seq<Inputs>
    requires ScenarioFits(cfg)
  {
    seq(ValueCount(cfg), k => Inputs(AddressFor(cfg, k), cfg.maxVal - 1, false))
  }

  /** The words after the first k write edges. */
  function Written(cfg: Config, k: int): seq<int>
    requires cfg.memSize >= 0
  {
    seq(cfg.memSize, j => if j < k then cfg.minVal + j else 0)
  }

  /** The state the controller starts in: all words 0, data_o 0. */
  function Initial(cfg: Config): State
    requires cfg.memSize >= 0
  {
    State(Written(cfg, 0), 0)
  }

  /** From the state after k write edges, the remaining write edges go through
      the states after k+1, k+2, ... writes, with data_o at 0 throughout. */
  lemma {:induction false} WritePhaseFrom(cfg: Config, k: int)
    requires ScenarioFits(cfg) && 0 <= k <= ValueCount(cfg)
    ensures Run(State(Written(cfg, k), 0), WritePhase(cfg)[k..], cfg.minVal, cfg.maxVal)
      == Ok(seq(ValueCount(cfg) - k, j => State(Written(cfg, k + j + 1), 0)))
    decreases ValueCount(cfg) - k
  {
    var lo, hi, n := cfg.minVal, cfg.maxVal, ValueCount(cfg);
    var inputs := WritePhase(cfg)[k..];
    var expected := seq(n - k, j => State(Written(cfg, k + j + 1), 0));
    if k == n {
      assert inputs == [];
    } else {
      var st := State(Written(cfg, k), 0);
      assert inputs[0] == Inputs(k, lo + k, true);
      var next := State(Written(cfg, k + 1), 0);
      assert Written(cfg, k)[k := lo + k] == Written(cfg, k + 1);
      assert Edge(st, inputs[0], lo, hi) == Ok(next);
      assert inputs[1..] == WritePhase(cfg)[k + 1..];
      WritePhaseFrom(cfg, k + 1);
      assert [next] + seq(n - (k + 1), j => State(Written(cfg, k + 1 + j + 1), 0)) == expected;
    }
  }

  /** After the write edges, presenting address k returns the value written
      there; data_o starts at 0 and then trails the addresses by one edge. */
  lemma {:induction false} ReadPhaseFrom(cfg: Config, k: int)
    requires ScenarioFits(cfg) && 0 <= k <= ValueCount(cfg)
    ensures var mem := Written(cfg, ValueCount(cfg));
      Run(State(mem, if k == 0 then 0 else cfg.minVal + k - 1), ReadPhase(cfg)[k..], cfg.minVal, cfg.maxVal)
        == Ok(seq(ValueCount(cfg) - k, j => State(mem, cfg.minVal + k + j)))
    decreases ValueCount(cfg) - k
  {
    var lo, hi, n := cfg.minVal, cfg.maxVal, ValueCount(cfg);
    var mem := Written(cfg, n);
    var inputs := ReadPhase(cfg)[k..];
    if k < n {
      var st := State(mem, if k == 0 then 0 else lo + k - 1);
      assert inputs[0] == Inputs(k, hi - 1, false);
      var next := State(mem, lo + k);
      assert Edge(st, inputs[0], lo, hi) == Ok(next);
      assert inputs[1..] == ReadPhase(cfg)[k + 1..];
      ReadPhaseFrom(cfg, k + 1);
      assert [next] + seq(n - (k + 1), j => State(mem, lo + k + 1 + j)) ==
        seq(n - k, j => State(mem, lo + k + j));
    } else {
      assert inputs == [];
      assert seq(ValueCount(cfg) - k, j => State(mem, cfg.minVal + k + j)) == [];
    }
  }

  /** The testbench's assertions hold: on each write edge data_o is 0 (the
      word's previous value) and afterwards the addressed word equals data_i;
      on each read edge data_o is the value written at the presented address. */
  lemma TestBenchScenario(cfg: Config)
    requires ScenarioFits(cfg)
    ensures var n := ValueCount(cfg);
      var inputs := WritePhase(cfg) + ReadPhase(cfg);
      var r := Run(Initial(cfg), inputs, cfg.minVal, cfg.maxVal);
      && r.Ok? && |r.value| == 2 * n
      && (forall k :: 0 <= k < n ==>
            && inputs[k].address == k && |r.value[k].mem| == cfg.memSize
            && r.value[k].dataO == 0 && r.value[k].mem[k] == inputs[k].dataI)
      && (forall k :: n <= k < 2 * n ==>
            inputs[k].address == k - n && r.value[k].dataO == cfg.minVal + inputs[k].address)
  {
    var lo, hi, n := cfg.minVal, cfg.maxVal, ValueCount(cfg);
    var w, rd := WritePhase(cfg), ReadPhase(cfg);
    var writes := seq(n, j => State(Written(cfg, j + 1), 0));
    var readStates := seq(n, j => State(Written(cfg, n), lo + j));
    assert w[0..] == w;
    WritePhaseFrom(cfg, 0);
    assert seq(n - 0, j => State(Written(cfg, 0 + j + 1), 0)) == writes;
    assert Run(Initial(cfg), w, lo, hi) == Ok(writes);
    assert Final(Initial(cfg), writes) == State(Written(cfg, n), 0);
    assert rd[0..] == rd;
    ReadPhaseFrom(cfg, 0);
    RunAppend(Initial(cfg), w, rd, lo, hi);
    assert Run(Initial(cfg), w + rd, lo, hi) == Ok(writes + readStates);
  }

  /** The testbench's own parameters: word_size 3 gives max_val 4, min_val -4,
      and mem_size 8 holds exactly the eight values written. */
  lemma DefaultTestBench()
    ensures ScenarioFits(Config(-4, 4, 8))
    ensures Elaborate(-4, 4, 8) == Ok(Config(-4, 4, 8))
  {
  }
}
