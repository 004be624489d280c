/** The family of boolean DSP parameters and the bit masks that select members of it. */
module Toggles {
  import opened Wire

  const TOGGLE_COUNT: nat := 5

  /** Targets are numbered: user mute, loudness, EQ bypass, crossfeed, leveller. */
  type ToggleTarget = n: nat | n < TOGGLE_COUNT

  function ToggleGetOpcode(t: ToggleTarget): byte {
    if t == 0 then 0xDD else if t == 1 then 0x59 else if t == 2 then 0x47 else if t == 3 then 0x5F else 0xB5
  }

  function ToggleBit(t: ToggleTarget): bv16 {
    if t == 0 then 1 else if t == 1 then 2 else if t == 2 then 4 else if t == 3 then 8 else 16
  }

  predicate Selected(mask: bv16, t: ToggleTarget) { And(mask, ToggleBit(t)) != 0 }

  // ----- counting the bits of a mask -----

  predicate IsOdd(m: bv16) { m & 1 != 0 }

  /** The number of ones among the low `n` bits. */
  function Ones(m: bv16, n: nat): nat
    decreases n
  {
    if n == 0 then 0 else (if IsOdd(m) then 1 else 0) + Ones(Half(m), n - 1)
  }

  function ClearLowest(m: bv16): bv16
    requires m != 0
  {
    m & (m - 1)
  }

  function Halves(m: bv16, n: nat): bv16
    decreases n
  {
    if n == 0 then m else Halves(Half(m), n - 1)
  }

  lemma HalvesVanish(m: bv16)
    ensures Halves(m, 16) == 0
  {
    FourHalves(m, 12);
    FourHalves(m >> 4, 8);
    FourHalves((m >> 4) >> 4, 4);
    FourHalves(((m >> 4) >> 4) >> 4, 0);
    assert (((m >> 4) >> 4) >> 4) >> 4 == 0;
  }

  lemma FourHalves(m: bv16, n: nat)
    ensures Halves(m, n + 4) == Halves(m >> 4, n)
  {
    assert (((m >> 1) >> 1) >> 1) >> 1 == m >> 4;
    assert Halves(m, n + 4) == Halves((m >> 1) >> 1, n + 2);
  }

  lemma ClearStep(m: bv16)
    requires m != 0
    ensures IsOdd(m) ==> !IsOdd(ClearLowest(m)) && Half(ClearLowest(m)) == Half(m)
    ensures !IsOdd(m) ==>
      !IsOdd(ClearLowest(m)) && Half(m) != 0 && Half(ClearLowest(m)) == ClearLowest(Half(m))
  {}

  lemma {:induction false} ClearCounts(m: bv16, n: nat)
    requires m != 0 && Halves(m, n) == 0
    ensures Ones(m, n) == Ones(ClearLowest(m), n) + 1
    decreases n
  {
    hide IsOdd, Half, ClearLowest;
    if n > 0 {
      ClearStep(m);
      if !IsOdd(m) {
        ClearCounts(Half(m), n - 1);
      }
    }
  }

  lemma {:induction false} NoOnes(n: nat)
    ensures Ones(0, n) == 0
  {
    if n > 0 {
      assert Half(0) == 0;
      NoOnes(n - 1);
    }
  }

  /** Counts by repeatedly clearing the lowest one. */
  method ToggleMaskCount(mask: bv16) returns (n: nat)
    ensures n == Ones(mask, 16)
  {
    hide Ones, Halves, ClearLowest;
    var rest := mask;
    n := 0;
    while rest != 0
      invariant n + Ones(rest, 16) == Ones(mask, 16)
      decreases Ones(rest, 16)
    {
      HalvesVanish(rest);
      ClearCounts(rest, 16);
      rest := ClearLowest(rest);
      n := n + 1;
    }
    NoOnes(16);
  }

  /** How many of the first `n` targets a loop over the family selects. */
  function SelectedCount(mask: bv16, n: nat): nat
    requires n <= TOGGLE_COUNT
  {
    if n == 0 then 0 else SelectedCount(mask, n - 1) + (if Selected(mask, n - 1) then 1 else 0)
  }

  /** The mask count is at least the number of reads the loop issues, and equal when no other bit is set. */
  lemma CountCoversLoop(mask: bv16)
    ensures SelectedCount(mask, TOGGLE_COUNT) <= Ones(mask, 16)
    ensures mask & 0xFFE0 == 0 ==> SelectedCount(mask, TOGGLE_COUNT) == Ones(mask, 16)
  {
    hide Selected, SelectedCount, IsOdd, Ones;
    FirstFive(mask);
    var rest := mask >> 5;
    SelectedBits(mask);
    OnesSplit(mask);
    if mask & 0xFFE0 == 0 {
      assert rest == 0;
      NoOnes(11);
    }
  }

  lemma SelectedBits(m: bv16)
    ensures Selected(m, 0) == IsOdd(m) && Selected(m, 1) == IsOdd(m >> 1) && Selected(m, 2) == IsOdd(m >> 2)
    ensures Selected(m, 3) == IsOdd(m >> 3) && Selected(m, 4) == IsOdd(m >> 4)
  {
    hide And, IsOdd;
    MaskedBits(m);
    assert ToggleBit(0) == 1 && ToggleBit(1) == 2 && ToggleBit(2) == 4 && ToggleBit(3) == 8 && ToggleBit(4) == 16;
  }

  lemma MaskedBits(m: bv16)
    ensures (And(m, 1) != 0) == IsOdd(m) && (And(m, 2) != 0) == IsOdd(m >> 1) && (And(m, 4) != 0) == IsOdd(m >> 2)
    ensures (And(m, 8) != 0) == IsOdd(m >> 3) && (And(m, 16) != 0) == IsOdd(m >> 4)
  {}

  lemma FirstFive(m: bv16)
    ensures SelectedCount(m, TOGGLE_COUNT) ==
      (if Selected(m, 0) then 1 else 0) + (if Selected(m, 1) then 1 else 0) + (if Selected(m, 2) then 1 else 0)
      + (if Selected(m, 3) then 1 else 0) + (if Selected(m, 4) then 1 else 0)
  {
    hide Selected;
    assert SelectedCount(m, 1) == if Selected(m, 0) then 1 else 0;
    assert SelectedCount(m, 3) == SelectedCount(m, 1) + (if Selected(m, 1) then 1 else 0) + (if Selected(m, 2) then 1 else 0);
  }

  lemma OnesSplit(m: bv16)
    ensures Ones(m, 16) ==
      (if IsOdd(m) then 1 else 0) + (if IsOdd(m >> 1) then 1 else 0) + (if IsOdd(m >> 2) then 1 else 0)
      + (if IsOdd(m >> 3) then 1 else 0) + (if IsOdd(m >> 4) then 1 else 0) + Ones(m >> 5, 11)
  {
    HalfChain(m);
    hide IsOdd, Half;
    OnesStep(m, 15);
    OnesStep(m >> 1, 14);
    OnesStep(m >> 2, 13);
    OnesStep(m >> 3, 12);
    OnesStep(m >> 4, 11);
  }

  lemma OnesStep(m: bv16, n: nat)
    ensures Ones(m, n + 1) == (if IsOdd(m) then 1 else 0) + Ones(Half(m), n)
  {}

  lemma HalfChain(m: bv16)
    ensures Half(m) == m >> 1 && Half(m >> 1) == m >> 2 && Half(m >> 2) == m >> 3
    ensures Half(m >> 3) == m >> 4 && Half(m >> 4) == m >> 5
  {}
}
