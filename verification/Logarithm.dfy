/** The halving search `logtwo` for the position of the highest set bit
    (runcontrol/GetController.cpp). */
module Logarithm {
  import opened BitField
  import opened Words

  // ---------- logtwo ----------

  function Log2(n: nat): nat {
    if n <= 1 then 0 else 1 + Log2(n / 2)
  }

  lemma {:induction false} Log2Bounds(n: nat)
    requires n >= 1
    ensures Pow2(Log2(n)) <= n < Pow2(Log2(n) + 1)
  {
    if n > 1 { Log2Bounds(n / 2); }
  }

  lemma {:induction false} Log2Below(n: nat, m: nat)
    requires n >= 1 && n < Pow2(m)
    ensures Log2(n) < m
    decreases m
  {
    if n > 1 { Log2Below(n / 2, m - 1); }
  }

  /** What a shift by r shows of the exponent of n. */
  lemma {:induction false} ShrLog2(n: nat, r: nat)
    requires n >= 1
    ensures Shr(n, r) == 1 <==> r == Log2(n)
    ensures Shr(n, r) == 0 <==> r > Log2(n)
    decreases r
  {
    if r > 0 {
      if n == 1 { ShrZero(r - 1); } else { ShrLog2(n / 2, r - 1); }
    }
  }

  lemma {:induction false} ShrZero(r: nat)
    ensures Shr(0, r) == 0
    decreases r
  {
    if r > 0 { ShrZero(r - 1); }
  }

  /** What `logtwo` returns.  The value for 0 rests on `HalvingStep`: that seed alone runs through all
      64 rounds, and it comes out wrapped around. */
  function LogTwoOf(seed: nat): nat {
    if seed == 0 then TWO_TO_THE_64 - 127 else Log2(seed)
  }

  /** 64 shifted right by i.  The shifted number is a 32-bit one, and C++ leaves the shift undefined for
      i from 32 on; it is taken to give 0 there. */
  function HalvingStep(i: nat): nat {
    if i == 0 then 64 else if i == 1 then 32 else if i == 2 then 16 else if i == 3 then 8
    else if i == 4 then 4 else if i == 5 then 2 else if i == 6 then 1 else 0
  }

  /** The 64-bit addition and subtraction of one round. */
  function NextResult(shifted: nat, result: nat, step: nat): nat
    requires step <= 64
  {
    if shifted == 0 then (result + TWO_TO_THE_64 - step) % TWO_TO_THE_64 else (result + step) % TWO_TO_THE_64
  }

  /** After i rounds the exponent is within the last step of `result`. */
  ghost predicate Searching(seed: nat, result: nat, i: nat)
    requires seed > 0
  {
    if i == 0 then result == 0
    else i <= 7 && 0 < Log2(seed) < 64 && HalvingStep(i - 1) <= result <= 128
         && Log2(seed) - HalvingStep(i - 1) < result < Log2(seed) + HalvingStep(i - 1)
  }

  /** One round, on the exponent e alone. */
  lemma RoundNarrows(e: nat, result: nat, i: nat)
    requires 0 < e < 64 && i <= 7 && result != e
    requires if i == 0 then result == 0
             else HalvingStep(i - 1) <= result <= 128 && e - HalvingStep(i - 1) < result < e + HalvingStep(i - 1)
    ensures i < 7
    ensures var next := if result > e then result - HalvingStep(i) else result + HalvingStep(i);
            HalvingStep(i) <= next <= 128 && e - HalvingStep(i) < next < e + HalvingStep(i)
  {
  }

  lemma SearchStep(seed: nat, result: nat, i: nat)
    requires 0 < seed < TWO_TO_THE_64 && Searching(seed, result, i)
    ensures Shr(seed, result) == 1 ==> result == Log2(seed)
    ensures Shr(seed, result) != 1 ==> Searching(seed, NextResult(Shr(seed, result), result, HalvingStep(i)), i + 1)
  {
    ShrLog2(seed, result);
    Log2Below64(seed);
    if result != Log2(seed) {
      RoundNarrows(Log2(seed), result, i);
      NoWrap(Shr(seed, result), result, HalvingStep(i));
    }
  }

  lemma NoWrap(shifted: nat, result: nat, step: nat)
    requires step <= 64 && result <= 128
    ensures shifted == 0 && result >= step ==> NextResult(shifted, result, step) == result - step
    ensures shifted != 0 ==> NextResult(shifted, result, step) == result + step
  {
  }

  lemma Log2Below64(seed: nat)
    requires 0 < seed < TWO_TO_THE_64
    ensures Log2(seed) < 64
  {
    Pow2Of64();
    Log2Below(seed, 64);
  }

  /** With seed 0 every round subtracts its step. */
  function ZeroSeedResult(i: nat): nat {
    (TWO_TO_THE_64 - (127 - if i <= 6 then 2 * HalvingStep(i) - 1 else 0)) % TWO_TO_THE_64
  }

  lemma ZeroSeedStep(i: nat)
    ensures NextResult(0, ZeroSeedResult(i), HalvingStep(i)) == ZeroSeedResult(i + 1)
  {
  }

  /** Where the search stands before round i. */
  ghost predicate Underway(seed: nat, result: nat, i: nat) {
    if seed > 0 then Searching(seed, result, i) else result == ZeroSeedResult(i)
  }

  lemma Round(seed: nat, result: nat, i: nat)
    requires seed < TWO_TO_THE_64 && Underway(seed, result, i)
    ensures Shr(seed, result) == 1 ==> seed > 0 && result == Log2(seed)
    ensures Shr(seed, result) != 1 ==> Underway(seed, NextResult(Shr(seed, result), result, HalvingStep(i)), i + 1)
  {
    if seed > 0 {
      SearchStep(seed, result, i);
    } else {
      ShrZero(result);
      ZeroSeedStep(i);
    }
  }

  /** The halving search.  `rounds` counts the iterations begun. */
  method LogTwo(seed: nat) returns (result: nat, ghost rounds: nat)
    requires seed < TWO_TO_THE_64
    ensures result == LogTwoOf(seed)
    ensures seed > 0 ==> rounds <= 8
    ensures seed == 0 ==> rounds == 64 && result == 0xFFFF_FFFF_FFFF_FF81
  {
    result, rounds := 0, 0;
    var maxBits := 64;
    var i := 0;
    while i < maxBits
      invariant 0 <= i <= maxBits && rounds == i && Shr(64, i) == HalvingStep(i)
      invariant Underway(seed, result, i)
    {
      rounds := rounds + 1;
      Round(seed, result, i);
      ShrStep(64, i);
      var shifted := Shr(seed, result);
      if shifted == 1 {
        return;
      }
      result := NextResult(shifted, result, Shr(maxBits, i));
      i := i + 1;
    }
  }

  /** The exponent is unique: `logtwo` is the floor of the base-2 logarithm. */
  lemma LogTwoIsFloor(seed: nat, r: nat)
    requires 1 <= seed < TWO_TO_THE_64
    ensures LogTwoOf(seed) < 64
    ensures LogTwoOf(seed) == r <==> Pow2(r) <= seed < Pow2(r + 1)
  {
    Log2Below64(seed);
    Log2Bounds(seed);
    if Pow2(r) <= seed < Pow2(r + 1) {
      Log2Below(seed, r + 1);
      if Log2(seed) < r { Pow2Monotone(Log2(seed) + 1, r); }
    }
  }
}
