# Verified model of the NCM-Forest-FPGA MyHDL blocks

This project models, in Dafny, the clock-edge behaviour of the small synchronous
blocks of the repository and proves properties of them:

- the block-RAM **memory controller** `MemController` (modules/bram.py): `mem_size`
  word signals bounded to `[min_val, max_val)`; on each rising edge of `clk` it writes
  `data_i` to the addressed word when `write_enable` is set and always publishes the
  word's pre-edge value on `data_o` ("read old, then write"), together with the
  write-then-read-back scenario of its `TestBench`;
- the **counter** `Counter` (modules/counter.py), which stages `cnt + 1` on every change
  of `clk`, with `intbv` (range error at `max`) or `modbv` (wrap-around) semantics;
- the **clock driver** `ClkDriver` (modules/clkdriver.py), which splits `period` into
  `lowTime = int(period/2)` and `highTime = period - lowTime` and alternates True/False;
- the **LFSR experiment** (tests-and-ideas/lfsr.py): the `coefs` tap table, the `xnor`
  fold, the little-endian `vec_to_int`, and the shift-register step of `lfsr`.

MyHDL's `.next` assignment is two-phase: every read in a process sees the value from
before the event, and staged writes become visible together afterwards. Each process is
therefore modelled as a step from the committed pre-event values to the committed
post-event values (`Bram.Edge`, `Counters.Increment`), and the stateful ones also as a
class whose method reads the old value before writing (`Bram.MemController.ReadWrite`,
`Counters.Counter.Count`), proved equal to that step.

Files: `signals.dfy` (module `Signals`: `intbv`/`modbv` staging, which clock transitions
wake `@always(clk)` and `@always(clk.posedge)` processes), `bram.dfy` (module `Bram`),
`counter.dfy` (module `Counters`), `clock.dfy` (module `Clock`), `lfsr.dfy` (module `Lfsr`).

Where the code behaves differently from what its docstrings and names suggest, the model
follows the code:

- `mem[address]` indexes a Python list, so an address in `[-mem_size, 0)` selects a word
  counted from the end instead of failing; only addresses outside `[-mem_size, mem_size)`
  raise an index error (`Bram.ListIndex`). Every address signal in the repository is a
  `modbv` with `min=0`, so this never arises there.
- Building the words as `intbv(0, min=min_val, max=max_val)` also fails unless
  `min_val <= 0 < max_val`, a third configuration error beside the two explicit
  assertions (`Bram.Elaborate`).
- The testbench uses `word_size=3`, hence `min_val=-4`, `max_val=4`, and `mem_size=8`,
  so its eight values fill the eight words exactly (`Bram.DefaultTestBench`); the
  configuration `min_val=-4, max_val=4, mem_size=3` is only the one handed to `toHDL`.
- The `lfsr` generator runs its width assertions only when the first value is drawn, so
  a consumer that draws nothing sees no error (`Lfsr.Lfsr`).

## Model

| member | source | states |
|---|---|---|
| `Signals.Assign` | modules/counter.py:12-16 | staging into an `intbv` succeeds exactly for values in `[min, max)` and keeps them; a `modbv` always succeeds, lands in range and keeps in-range values |
| `Signals.ModBvCongruent` | modules/counter.py:13-16 | a wrapped `modbv` value differs from the staged one by a multiple of `max - min` |
| `Signals.ModBvIncrement` | modules/counter.py:16-22 | wrapping after each `+1` equals wrapping the total once |
| `Signals.Changes` | modules/counter.py:20 | activations of an `@always(clk)` process: committed values that differ from the previous one; at most one per write |
| `Signals.RisingEdges` | modules/bram.py:68 | activations of an `@always(clk.posedge)` process; never more than the changes |
| `Signals.AlternatingEvents` | modules/clkdriver.py:10-14 | on a level sequence that flips on every write, every write is a change and every other one a rising edge |
| `Bram.Elaborate` | modules/bram.py:61-67 | construction succeeds iff `max_val > min_val`, `mem_size > 0` and 0 is a legal word value; the error reported follows the source's check order |
| `Bram.ListIndex` | modules/bram.py:71-72 | Python list indexing of the words: defined exactly for `-size <= address < size`, result in range, identity for non-negative addresses, `address + size` for negative ones |
| `Bram.Edge` | modules/bram.py:68-72 | one rising edge: index error iff the address is out of range; range error iff writing an out-of-range `data_i`; otherwise `data_o` is the pre-edge word, the addressed word becomes `data_i` when writing, every other word is unchanged, nothing changes when not writing, and word bounds are preserved |
| `Bram.MemController.constructor` | modules/bram.py:66-67 | `mem_size` fresh words, all 0, within bounds |
| `Bram.MemController.ReadWrite` | modules/bram.py:68-72 | the in-place edge equals `Edge` on the pre-edge snapshot; on error nothing changes; the bounds invariant is kept |
| `Bram.Run` | modules/bram.py:133-146 | consecutive edges give one post-edge state per input, or the first error |
| `Bram.RunFailsAtFirstError` | modules/bram.py:68-72 | a failing run fails at its first failing edge: every edge before it succeeds, and that edge, from the state they leave, raises the run's error |
| `Bram.RunAppend` | modules/bram.py:142-143 | running the write phase then the read phase is running the read phase from the state the write phase ends in |
| `Bram.RunStep` | modules/bram.py:68-72 | every post-edge state of a successful run is one `Edge` from the state before it |
| `Bram.RunKeepsSize` | modules/bram.py:66-72 | no edge of a run changes the number of words |
| `Bram.WordHolds` | modules/bram.py:68-71 | after a write of `data_i` to word `a`, the word keeps that value on every later edge until one writes to `a` again |
| `Bram.ReadAfterWrite` | modules/bram.py:68-72 | read after write over any run: a value written to word `a` comes back on `data_o` at the next edge that selects `a`, if no edge in between writes to `a` |
| `Bram.WritePhaseFrom` | modules/bram.py:135-141 | writing `min_val + k` at address k, edge after edge, yields words `min_val..min_val+k` and `data_o == 0` throughout |
| `Bram.ReadPhaseFrom` | modules/bram.py:142-146 | with `write_enable` cleared, presenting address k yields `data_o == min_val + k` and leaves the words unchanged |
| `Bram.TestBenchScenario` | modules/bram.py:133-146 | the testbench's three assertions hold for every configuration whose values fit the memory |
| `Bram.DefaultTestBench` | modules/bram.py:77-80 | the testbench's own parameters (`-4`, `4`, 8 words) elaborate and fit |
| `Counters.Increment` | modules/counter.py:21-22 | an activation commits exactly `cnt + 1` when in range; `intbv` fails iff `cnt + 1` leaves the range; `modbv` wraps `max` back to `min` |
| `Counters.Counter.constructor` | modules/counter.py:4 | the counter register starts at the caller's in-range value |
| `Counters.Counter.Count` | modules/counter.py:20-22 | the register becomes `Increment` of its old value, is unchanged on a range error, and stays in range |
| `Counters.IntBvCountsActivations` | modules/counter.py:16-22 | from `start`, n activations of an `intbv` counter give `start + n`, and fail exactly when that reaches `max` |
| `Counters.ModBvWraps` | modules/counter.py:13-22 | n activations of a `modbv` counter give `start + n` wrapped; with `min = 0`, `(start + n) mod max` |
| `Counters.CountsClockTransitions` | modules/counter.py:20-22 | driven by the clock source from False, the counter counts both edges: `2 * cycles`, twice the rising edges |
| `Clock.LowTime` | modules/clkdriver.py:5 | `int(period/2)` rounds toward zero for either sign of `period` |
| `Clock.PhaseSplit` | modules/clkdriver.py:5-6 | `lowTime + highTime == period`; for `period >= 0`, `lowTime == period div 2` and `highTime - lowTime` is 0 or 1, 0 exactly for even periods |
| `Clock.UnitPeriod` | modules/clkdriver.py:5-6 | with `period == 1` the True phase lasts 0 and the False phase 1 |
| `Clock.DriveClk` | modules/clkdriver.py:8-14 | the loop's writes alternate True, False, ... starting with True at time 0; the True phase lasts `lowTime`, the False phase `highTime`, and consecutive True writes are one `period` apart |
| `Clock.DriveClkEvents` | modules/clkdriver.py:10-14 | from a clock at False, each write is a change and each cycle one rising edge |
| `Lfsr.CoefsWellFormed` | tests-and-ideas/lfsr.py:6-37 | the table covers exactly widths 3..32; each entry starts with its width, has at least two taps, all in `[1, n]` |
| `Lfsr.Taps` | tests-and-ideas/lfsr.py:55 | `coefs[nb_bits]` for a supported width fits the register and starts with the width |
| `Lfsr.XnorParity` | tests-and-ideas/lfsr.py:38-42 | the `xnor` fold is True iff an even number of samples are False; a single sample is returned unchanged |
| `Lfsr.Xnor` | tests-and-ideas/lfsr.py:38-42 | the loop computes the fold `ret = not(sample ^ ret)` over all samples |
| `Lfsr.VecToInt` | tests-and-ideas/lfsr.py:44-46 | the sum of `v[i] * 2^i` lies in `[0, 2^len(v))` |
| `Lfsr.VecToIntCons` | tests-and-ideas/lfsr.py:44-46 | little-endian: the first element is the least significant bit |
| `Lfsr.IntToVecRoundTrip` | tests-and-ideas/lfsr.py:44-46 | every number below `2^n` is the value of its n-bit little-endian vector |
| `Lfsr.VecToIntRoundTrip` | tests-and-ideas/lfsr.py:44-46 | a vector is recovered from its value and length, so `vec_to_int` is injective per length |
| `Lfsr.FeedbackParity` | tests-and-ideas/lfsr.py:55 | the feedback bit is True iff an even number of the tapped bits `register[c-1]` are False; with a table entry, whose first tap is the width, the last register bit is always sampled |
| `Lfsr.Step` | tests-and-ideas/lfsr.py:55-56 | a step keeps the register length |
| `Lfsr.StepShifts` | tests-and-ideas/lfsr.py:55-56 | the new head is the feedback bit, `new[i+1] == old[i]`, and only the last bit is lost |
| `Lfsr.AllTrueLocksUp` | tests-and-ideas/lfsr.py:38-56 | with XNOR feedback the all-True register is a fixed point |
| `Lfsr.Iterate` | tests-and-ideas/lfsr.py:54-57 | k steps keep the register length |
| `Lfsr.Lfsr` | tests-and-ideas/lfsr.py:48-57 | fails iff a value is drawn with `nb_bits` outside `[3, 32]`; otherwise the k-th value is the seed after k+1 steps |
| `Lfsr.Shifts` | tests-and-ideas/lfsr.py:54-57 | the loop yields the register after 1, 2, ... steps, each of the seed's length |

## Left out

- The MyHDL runtime (the scheduler, `run_sim`, `delay`, `@always`/`@instance`, `Signal`
  internals): a foreign library. Its two-phase effect is modelled only as "read pre-edge
  values, produce post-edge values", and which clock transitions wake a process as
  `Signals.Changes` / `Signals.RisingEdges` over committed levels; delta cycles, timing
  of wake-ups and the order of processes within a time step are not modelled.
- `Clock.DriveClk` and `Lfsr.Shifts` run their endless loops for a given number of
  turns; what happens beyond the turns observed is not modelled.
- `Clock.LowTime`: `period/2` is a float division, so for `|period| > 2^53` the source may
  round differently; the model divides exactly. Whether `delay` accepts a zero or negative
  time is MyHDL's and not modelled, nor the zero-width pulse of `period == 1` as seen by
  the scheduler.
- `Bram.MemController`: `data_o` is taken to have the words' range, so staging `data_o`
  never fails. This is more than the docstring's "same bitsize" asks: two signals of
  equal bit width can have different ranges (`min=-4, max=4` and `min=0, max=8`), and a
  `data_o` with a range different from the words' is not modelled. A `data_i` outside the words' range is modelled: it is `Edge`'s range error. The `isinstance` assertions are implied by Dafny's `int` type.
- `Bram.TestBenchScenario` requires that the `max_val - min_val` values fit in `mem_size`
  words. With more values the `modbv` address wraps and one of the testbench's own
  assertions would fail, which is not stated: the first one (`data_o == 0` on a write
  edge), or, when `min_val = 0` and `max_val = mem_size + 1`, the read-back one at
  address 0, which returns `mem_size` instead of 0.
- `Lfsr.Xnor` requires a non-empty sample list (on an empty one the source raises an
  index error); every caller passes at least two taps.
- `toHDL` and `.convert(...)` (VHDL/Verilog emission through an external toolchain);
  its weaker check `min_val <= max_val` is superseded by the controller's own.
- modules/debugger.py (console output only), modules/template.py (its process is
  `pass`), the `print` calls and per-field formatters of `TestBench`; `strbv` from
  utils.py is not part of this model.
- In tests-and-ideas/lfsr.py: the random seed (`random.choice`) becomes the `seed`
  parameter; the printing and the histogram loop over `bins` are left out.
