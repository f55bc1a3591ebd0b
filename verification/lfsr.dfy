/** The linear-feedback shift register experiment (tests-and-ideas/lfsr.py).

    A register of `nb_bits` booleans is shifted one place toward the end on
    every step; the bit shifted in at the front is the XNOR of the bits at the
    tap positions listed for `nb_bits` in the `coefs` table (positions count
    from 1). `vec_to_int` reads a register as a little-endian number. */
module Lfsr {
  import opened Signals

  /** The tap table `coefs`: for each register width, the tap positions. */
  const Coefs: map<int, seq<int>> := map[
    3 := [3, 2],
    4 := [4, 3],
    5 := [5, 3],
    6 := [6, 5],
    7 := [7, 6],
    8 := [8, 6, 5, 4],
    9 := [9, 5],
    10 := [10, 7],
    11 := [11, 9],
    12 := [12, 6, 4, 1],
    13 := [13, 4, 3, 1],
    14 := [14, 5, 3, 1],
    15 := [15, 14],
    16 := [16, 15, 13, 4],
    17 := [17, 14],
    18 := [18, 11],
    19 := [19, 6, 2, 1],
    20 := [20, 17],
    21 := [21, 19],
    22 := [22, 21],
    23 := [23, 18],
    24 := [24, 23, 22, 17],
    25 := [25, 22],
    26 := [26, 6, 2, 1],
    27 := [27, 5, 2, 1],
    28 := [28, 25],
    29 := [29, 27],
    30 := [30, 6, 4, 1],
    31 := [31, 28],
    32 := [32, 22, 2, 1]
  ]

  /** The taps of a width lie within the register. */
  predicate TapsFit(taps: seq<int>, width: int) {
    forall k :: 0 <= k < |taps| ==> 1 <= taps[k] <= width
  }

  /** The table has exactly the widths 3 to 32; each entry starts with its
      own width (the last register bit is always a tap), has at least two
      taps, and every tap is a position 1..n, so `register[c-1]` is in range. */
  lemma CoefsWellFormed()
    ensures forall n :: n in Coefs <==> 3 <= n <= 32
    ensures forall n :: n in Coefs ==> |Coefs[n]| >= 2 && Coefs[n][0] == n && TapsFit(Coefs[n], n)
  {
    CoefsDomain();
    forall n | 3 <= n <= 32
      ensures |Coefs[n]| >= 2 && Coefs[n][0] == n && TapsFit(Coefs[n], n)
    {
      if n <= 17 { CoefsLow(n); } else { CoefsHigh(n); }
    }
  }

  lemma CoefsDomain()
    ensures forall n :: n in Coefs <==> 3 <= n <= 32
  {
  }

  lemma CoefsLow(n: int)
    requires 3 <= n <= 17
    ensures n in Coefs && |Coefs[n]| >= 2 && Coefs[n][0] == n && TapsFit(Coefs[n], n)
  {
  }

  lemma CoefsHigh(n: int)
    requires 18 <= n <= 32
    ensures n in Coefs && |Coefs[n]| >= 2 && Coefs[n][0] == n && TapsFit(Coefs[n], n)
  {
  }

  /** `coefs[nb_bits]`, for a width the table has. */
  function Taps(nbBits: int): (taps: seq<int>)
    requires 3 <= nbBits <= 32
    ensures TapsFit(taps, nbBits) && |taps| >= 2 && taps[0] == nbBits
  {
    CoefsWellFormed();
    Coefs[nbBits]
  }

  // ---------------------------------------------------------------------------
  // xnor

  /** The fold `ret = not(sample ^ ret)` over the samples after the first,
      starting from the first. */
  function XnorFold(samples: seq<bool>): bool
    requires |samples| > 0
    decreases |samples|
  {
    if |samples| == 1 then samples[0]
    else !(samples[|samples| - 1] != XnorFold(samples[..|samples| - 1]))
  }

  /** The fold is true exactly when an even number of samples are False; a
      single sample is returned as it is. */
  lemma {:induction false} XnorParity(samples: seq<bool>)
    requires |samples| > 0
    ensures XnorFold(samples) <==> multiset(samples)[false] % 2 == 0
    ensures |samples| == 1 ==> XnorFold(samples) == samples[0]
    decreases |samples|
  {
    if |samples| > 1 {
      var prefix, last := samples[..|samples| - 1], samples[|samples| - 1];
      assert samples == prefix + [last];
      assert multiset(samples) == multiset(prefix) + multiset{last};
      XnorParity(prefix);
    }
  }

  /** `xnor`: the loop over `samples[1:]`. */
  method Xnor(samples: seq<bool>) returns (ret: bool)
    requires |samples| > 0
    ensures ret == XnorFold(samples)
  {
    ret := samples[0];
    for k := 1 to |samples|
      invariant ret == XnorFold(samples[..k])
    {
      assert samples[..k + 1][..k] == samples[..k];
      ret := !(samples[k] != ret);
    }
    assert samples[..|samples|] == samples;
  }

  // ---------------------------------------------------------------------------
  // vec_to_int

  function Pow2(n: nat): (p: nat)
    ensures p >= 1
  {
    if n == 0 then 1 else 2 * Pow2(n - 1)
  }

  function Bit(b: bool): nat {
    if b then 1 else 0
  }

  /** `vec_to_int`: the sum of v[i] * 2^i, added up in index order. It fits in
      |v| bits. */
  function VecToInt(v: seq<bool>): (r: nat)
    ensures r < Pow2(|v|)
    decreases |v|
  {
    if v == [] then 0
    else VecToInt(v[..|v| - 1]) + Bit(v[|v| - 1]) * Pow2(|v| - 1)
  }

  /** Little-endian: the first element is the least significant bit. */
  lemma {:induction false} VecToIntCons(b: bool, v: seq<bool>)
    ensures VecToInt([b] + v) == Bit(b) + 2 * VecToInt(v)
    decreases |v|
  {
    var w := [b] + v;
    if v == [] {
      assert w[..0] == [];
    } else {
      var prefix := v[..|v| - 1];
      assert w[..|w| - 1] == [b] + prefix;
      assert w[|w| - 1] == v[|v| - 1];
      VecToIntCons(b, prefix);
      assert VecToInt(w) == Bit(b) + 2 * VecToInt(prefix) + Bit(v[|v| - 1]) * (2 * Pow2(|v| - 1));
    }
  }

  /** The inverse of `vec_to_int`: the n low bits of x, least significant first. */
  function IntToVec(x: nat, n: nat): (v: seq<bool>)
    ensures |v| == n
  {
    if n == 0 then [] else [x % 2 == 1] + IntToVec(x / 2, n - 1)
  }

  /** Every number below 2^n is the value of exactly the bit vector
      `IntToVec` gives it. */
  lemma {:induction false} IntToVecRoundTrip(x: nat, n: nat)
    requires x < Pow2(n)
    ensures VecToInt(IntToVec(x, n)) == x
  {
    if n > 0 {
      IntToVecRoundTrip(x / 2, n - 1);
      VecToIntCons(x % 2 == 1, IntToVec(x / 2, n - 1));
    }
  }

  /** `vec_to_int` loses nothing: the vector is recovered from its value. */
  lemma {:induction false} VecToIntRoundTrip(v: seq<bool>)
    ensures IntToVec(VecToInt(v), |v|) == v
    decreases |v|
  {
    if v != [] {
      var w := v[1..];
      assert v == [v[0]] + w;
      VecToIntCons(v[0], w);
      VecToIntRoundTrip(w);
      var x := VecToInt(v);
      assert x % 2 == Bit(v[0]) && x / 2 == VecToInt(w);
    }
  }

  // ---------------------------------------------------------------------------
  // The shift-register step

  /** `[register[c-1] for c in taps]`. */
  function TapSamples(register: seq<bool>, taps: seq<int>): seq<bool>
    requires TapsFit(taps, |register|)
  {
    seq(|taps|, k requires 0 <= k < |taps| => register[taps[k] - 1])
  }

  /** A tap list usable on a register: non-empty, every position in range. */
  predicate Fits(register: seq<bool>, taps: seq<int>) {
    |register| > 0 && |taps| > 0 && TapsFit(taps, |register|)
  }

  /** The feedback bit: the XNOR of the tapped bits. */
  function Feedback(register: seq<bool>, taps: seq<int>): bool
    requires Fits(register, taps)
  {
    XnorFold(TapSamples(register, taps))
  }

  /** The feedback bit is True exactly when an even number of tapped bits
      are False. With the taps of the table, whose first entry is the width,
      the last register bit is always among them. */
  lemma FeedbackParity(register: seq<bool>, taps: seq<int>)
    requires Fits(register, taps)
    ensures Feedback(register, taps) <==> multiset(TapSamples(register, taps))[false] % 2 == 0
    ensures taps[0] == |register| ==> TapSamples(register, taps)[0] == register[|register| - 1]
  {
    XnorParity(TapSamples(register, taps));
  }

  /** `register = [new_bit] + register[:-1]`. */
  function Step(register: seq<bool>, taps: seq<int>): (r: seq<bool>)
    requires Fits(register, taps)
    ensures Fits(r, taps) && |r| == |register|
  {
    [Feedback(register, taps)] + register[..|register| - 1]
  }

  /** A step is a shift by one: the feedback bit enters at the front, every
      bit moves one place toward the end, and only the last bit is lost, so
      the old register is the new one without its head, plus that bit. */
  lemma StepShifts(register: seq<bool>, taps: seq<int>)
    requires Fits(register, taps)
    ensures var r := Step(register, taps);
      && |r| == |register|
      && r[0] == Feedback(register, taps)
      && (forall i :: 0 <= i < |register| - 1 ==> r[i + 1] == register[i])
      && register == r[1..] + [register[|register| - 1]]
  {
  }

  /** With XNOR feedback the all-True register is a fixed point (the lock-up
      state): no False sample means an even count of them. */
  lemma AllTrueLocksUp(width: nat, taps: seq<int>)
    requires Fits(seq(width, _ => true), taps)
    ensures Step(seq(width, _ => true), taps) == seq(width, _ => true)
  {
    var ones := seq(width, _ => true);
    var samples := TapSamples(ones, taps);
    assert forall k :: 0 <= k < |samples| ==> samples[k];
    assert false !in multiset(samples);
    XnorParity(samples);
  }

  /** The register after k steps. */
  function Iterate(seed: seq<bool>, taps: seq<int>, k: nat): (r: seq<bool>)
    requires Fits(seed, taps)
    ensures Fits(r, taps) && |r| == |seed|
  {
    if k == 0 then seed else Step(Iterate(seed, taps, k - 1), taps)
  }

  datatype LfsrError = NbBitsOutOfRange

  /** The generator `lfsr(nb_bits)` from a given seed, for the first `count`
      values a consumer draws from it. Its width assertions run when the
      first value is drawn; the k-th value yielded is the register after k
      steps with the taps `coefs[nb_bits]`. */
  method Lfsr(nbBits: int, seed: seq<bool>, count: nat) returns (r: Result<seq<seq<bool>>, LfsrError>)
    requires 3 <= nbBits <= 32 ==> |seed| == nbBits
    ensures r.Err? <==> count > 0 && !(3 <= nbBits <= 32)
    ensures r.Ok? ==> |r.value| == count
    ensures r.Ok? && 3 <= nbBits <= 32 ==>
      forall k :: 0 <= k < count ==> r.value[k] == Iterate(seed, Taps(nbBits), k + 1)
  {
    if count == 0 {
      return Ok([]);
    }
    if !(nbBits >= 3 && nbBits <= 32) {
      return Err(NbBitsOutOfRange);
    }
    var yielded := Shifts(seed, Taps(nbBits), count);
    r := Ok(yielded);
  }

  /** The `while True` loop of `lfsr`: each turn computes the feedback bit
      with `xnor`, shifts it in and yields the register. */
  method Shifts(seed: seq<bool>, taps: seq<int>, count: nat) returns (yielded: seq<seq<bool>>)
    requires Fits(seed, taps)
    ensures |yielded| == count
    ensures forall k :: 0 <= k < count ==> |yielded[k]| == |seed|
    ensures forall k :: 0 <= k < count ==> yielded[k] == Iterate(seed, taps, k + 1)
  {
    var register := seed;
    yielded := [];
    while |yielded| < count
      invariant |yielded| <= count
      invariant register == Iterate(seed, taps, |yielded|)
      invariant forall k :: 0 <= k < |yielded| ==> yielded[k] == Iterate(seed, taps, k + 1)
    {
      var samples := TapSamples(register, taps);
      var newBit := Xnor(samples);
      register := [newBit] + register[..|register| - 1];
      yielded := yielded + [register];
    }
  }
}
