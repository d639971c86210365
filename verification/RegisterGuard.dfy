/** Saving and restoring the nonvolatile floating-point registers a call may clobber. */
module RegisterGuard {
  const NONVOLATILE: bv32 := 0xFFFF_C000
  const FIRST := 14
  const SLOTS := 18

  predicate BitSet(v: bv32, k: nat) {
    if k == 0 then v & 1 == 1 else BitSet(v >> 1, k - 1)
  }

  /** The number of the lowest set bit. */
  function LowestSetBit(v: bv32): nat
    requires v != 0
    decreases v
  {
    if v & 1 == 1 then 0 else 1 + LowestSetBit(v >> 1)
  }

  /** The mask plus its lowest bit: the bit just above its lowest run, when it is a single run. */
  function AboveRun(mask: bv32): bv32 { mask + (mask & (0 - mask)) }

  /** The one-instruction test for a single run of set bits. */
  predicate IsRun(mask: bv32) {
    AboveRun(mask) & (AboveRun(mask) - 1) == 0
  }

  function RunEnd(mask: bv32): nat {
    if AboveRun(mask) == 0 then 32 else LowestSetBit(AboveRun(mask))
  }

  // ---------------------------------------------------------------- the trick

  lemma {:induction false} HighestBit()
    ensures LowestSetBit(0x8000_0000) == 31
  {
    LowHalfBit();
    assert LowestSetBit(0x8000_0000) == 1 + LowestSetBit(0x4000_0000) == 2 + LowestSetBit(0x2000_0000);
    assert LowestSetBit(0x2000_0000) == 1 + LowestSetBit(0x1000_0000) == 2 + LowestSetBit(0x800_0000);
    assert LowestSetBit(0x800_0000) == 1 + LowestSetBit(0x400_0000) == 2 + LowestSetBit(0x200_0000);
    assert LowestSetBit(0x200_0000) == 1 + LowestSetBit(0x100_0000) == 2 + LowestSetBit(0x80_0000);
    assert LowestSetBit(0x80_0000) == 1 + LowestSetBit(0x40_0000) == 2 + LowestSetBit(0x20_0000);
    assert LowestSetBit(0x20_0000) == 1 + LowestSetBit(0x10_0000) == 2 + LowestSetBit(0x8_0000);
    assert LowestSetBit(0x8_0000) == 1 + LowestSetBit(0x4_0000) == 2 + LowestSetBit(0x2_0000);
    assert LowestSetBit(0x2_0000) == 1 + LowestSetBit(0x1_0000) == 2 + LowestSetBit(0x8000);
  }

  lemma {:induction false} LowHalfBit()
    ensures LowestSetBit(0x8000) == 15
  {
    assert LowestSetBit(0x8000) == 1 + LowestSetBit(0x4000) == 2 + LowestSetBit(0x2000);
    assert LowestSetBit(0x2000) == 1 + LowestSetBit(0x1000) == 2 + LowestSetBit(0x800);
    assert LowestSetBit(0x800) == 1 + LowestSetBit(0x400) == 2 + LowestSetBit(0x200);
    assert LowestSetBit(0x200) == 1 + LowestSetBit(0x100) == 2 + LowestSetBit(0x80);
    assert LowestSetBit(0x80) == 1 + LowestSetBit(0x40) == 2 + LowestSetBit(0x20);
    assert LowestSetBit(0x20) == 1 + LowestSetBit(0x10) == 2 + LowestSetBit(0x8);
    assert LowestSetBit(0x8) == 1 + LowestSetBit(0x4) == 2 + LowestSetBit(0x2) == 3 + LowestSetBit(0x1);
  }

  /** How many bits a word needs. */
  function Width(v: bv32): nat
    decreases v
  {
    if v == 0 then 0 else 1 + Width(v >> 1)
  }

  lemma {:induction false} FourteenBits()
    ensures Width(0x3FFF) == 14
  {
    assert Width(0x3FFF) == 1 + Width(0x1FFF) == 2 + Width(0xFFF);
    assert Width(0xFFF) == 1 + Width(0x7FF) == 2 + Width(0x3FF);
    assert Width(0x3FF) == 1 + Width(0x1FF) == 2 + Width(0xFF);
    assert Width(0xFF) == 1 + Width(0x7F) == 2 + Width(0x3F);
    assert Width(0x3F) == 1 + Width(0x1F) == 2 + Width(0xF);
    assert Width(0xF) == 1 + Width(0x7) == 2 + Width(0x3) == 3 + Width(0x1) == 4 + Width(0x0);
  }

  lemma {:induction false} SixteenBits()
    ensures Width(0xFFFF) == 16
  {
    FourteenBits();
    assert Width(0xFFFF) == 1 + Width(0x7FFF) == 2 + Width(0x3FFF);
  }

  lemma {:induction false} FullWord()
    ensures Width(0xFFFF_FFFF) == 32
  {
    SixteenBits();
    assert Width(0xFFFF_FFFF) == 1 + Width(0x7FFF_FFFF) == 2 + Width(0x3FFF_FFFF);
    assert Width(0x3FFF_FFFF) == 1 + Width(0x1FFF_FFFF) == 2 + Width(0xFFF_FFFF);
    assert Width(0xFFF_FFFF) == 1 + Width(0x7FF_FFFF) == 2 + Width(0x3FF_FFFF);
    assert Width(0x3FF_FFFF) == 1 + Width(0x1FF_FFFF) == 2 + Width(0xFF_FFFF);
    assert Width(0xFF_FFFF) == 1 + Width(0x7F_FFFF) == 2 + Width(0x3F_FFFF);
    assert Width(0x3F_FFFF) == 1 + Width(0x1F_FFFF) == 2 + Width(0xF_FFFF);
    assert Width(0xF_FFFF) == 1 + Width(0x7_FFFF) == 2 + Width(0x3_FFFF);
    assert Width(0x3_FFFF) == 1 + Width(0x1_FFFF) == 2 + Width(0xFFFF);
  }

  /** A set bit lies at or above the lowest one and within the width of any bound. */
  lemma {:induction false} SetBitIsInside(v: bv32, cap: bv32, k: nat)
    requires v <= cap && BitSet(v, k)
    ensures v != 0 && LowestSetBit(v) <= k < Width(cap)
    decreases k
  {
    if k == 0 {
      OddIsNotZero(v, cap);
    } else {
      HalvesAreOrdered(v, cap);
      SetBitIsInside(v >> 1, cap >> 1, k - 1);
      HalfOfZero(v);
    }
  }

  lemma {:induction false} OddIsNotZero(v: bv32, cap: bv32)
    requires v <= cap && v & 1 == 1
    ensures v != 0 && cap != 0
  {
  }

  lemma {:induction false} HalvesAreOrdered(v: bv32, cap: bv32)
    requires v <= cap
    ensures v >> 1 <= cap >> 1
    ensures v != 0 ==> cap != 0
  {
  }

  lemma {:induction false} HalfOfZero(v: bv32)
    ensures v >> 1 != 0 ==> v != 0
  {
  }

  lemma {:induction false} LowestBitIsSet(v: bv32)
    requires v != 0
    ensures BitSet(v, LowestSetBit(v))
    decreases v
  {
    if v & 1 == 0 {
      assert v >> 1 != 0;
      LowestBitIsSet(v >> 1);
    }
  }

  /** Clear low bits push the lowest set bit up. */
  lemma {:induction false} LowestIsAbove(v: bv32, low: bv32)
    requires v != 0 && v & low == 0 && low & (low + 1) == 0
    ensures LowestSetBit(v) >= Width(low)
    decreases v
  {
    if low != 0 {
      OnesAreOdd(low);
      ClearBelow(v, low);
      LowestIsAbove(v >> 1, low >> 1);
    }
  }

  lemma {:induction false} OnesAreOdd(low: bv32)
    requires low != 0 && low & (low + 1) == 0
    ensures low & 1 == 1
    ensures (low >> 1) & ((low >> 1) + 1) == 0
  {
  }

  lemma {:induction false} ClearBelow(v: bv32, low: bv32)
    requires v != 0 && v & low == 0 && low & 1 == 1
    ensures v & 1 == 0
    ensures v >> 1 != 0
    ensures v >> 1 < v
    ensures (v >> 1) & (low >> 1) == 0
  {
  }

  /** A word of ones: the bits below the first clear one. */
  lemma {:induction false} OnesEndAtTheFirstClearBit(v: bv32, k: nat)
    requires v & 1 == 1 && (v + 1) & v == 0 && v + 1 != 0
    ensures BitSet(v, k) <==> k < LowestSetBit(v + 1)
    decreases v
  {
    var n := v >> 1;
    assert (v + 1) & 1 == 0 && (v + 1) >> 1 == n + 1 && n + 1 != 0;
    if n == 0 {
      assert v == 1;
      ZeroHasNoBits(k);
    } else {
      assert n & 1 == 1 && (n + 1) & n == 0 && n < v;
      if k > 0 {
        OnesEndAtTheFirstClearBit(n, k - 1);
      }
    }
  }

  /** Every bit of a word of ones is set, as far as it is wide. */
  lemma {:induction false} OnesAreSet(low: bv32, k: nat)
    requires low & (low + 1) == 0 && k < Width(low)
    ensures BitSet(low, k)
    decreases low
  {
    OnesAreOdd(low);
    if k > 0 {
      OnesAreSet(low >> 1, k - 1);
    }
  }

  /** Where the mask passes the test, its bits are exactly those from its lowest one up to the run's end. */
  lemma {:induction false} RunIsExact(mask: bv32, k: nat)
    requires mask != 0 && IsRun(mask) && k < 32
    ensures BitSet(mask, k) <==> LowestSetBit(mask) <= k < RunEnd(mask)
    decreases mask
  {
    if mask == 0xFFFF_FFFF {
      FullWord();
      OnesAreSet(mask, k);
    } else if mask & 1 == 1 {
      assert mask & (0 - mask) == 1 && AboveRun(mask) == mask + 1 && mask + 1 != 0 && (mask + 1) & mask == 0;
      OnesEndAtTheFirstClearBit(mask, k);
    } else {
      var m := mask >> 1;
      EvenRun(mask);
      if k > 0 {
        RunIsExact(m, k - 1);
      }
    }
  }

  /** Conversely every mask whose bits are consecutive passes the test. */
  lemma {:induction false} ConsecutiveBitsPass(mask: bv32, lo: nat, hi: nat)
    requires mask != 0 && forall k: nat :: BitSet(mask, k) <==> lo <= k < hi
    ensures IsRun(mask)
    decreases mask
  {
    if mask & 1 == 1 {
      assert BitSet(mask, 0);
      OnesPass(mask, hi);
      OddTrick(mask);
    } else {
      assert !BitSet(mask, 0);
      var m := mask >> 1;
      HalfIsLess(mask);
      LowestBitIsSet(mask);
      forall k: nat ensures BitSet(m, k) <==> lo - 1 <= k < hi - 1 {
        assert BitSet(m, k) == BitSet(mask, k + 1);
      }
      HalfIsNotZero(mask);
      ConsecutiveBitsPass(m, lo - 1, hi - 1);
      DoubledMask(mask);
      DoubledRun(AboveRun(m));
    }
  }

  lemma {:induction false} HalfIsNotZero(mask: bv32)
    requires mask != 0 && mask & 1 == 0
    ensures mask >> 1 != 0
  {
  }

  lemma {:induction false} OddTrick(mask: bv32)
    requires mask & 1 == 1 && (mask + 1) & mask == 0
    ensures IsRun(mask)
  {
  }

  lemma {:induction false} DoubledRun(above: bv32)
    requires above & (above - 1) == 0
    ensures (above << 1) & ((above << 1) - 1) == 0
  {
  }

  lemma {:induction false} OnesPass(v: bv32, hi: nat)
    requires forall k: nat :: BitSet(v, k) <==> k < hi
    ensures (v + 1) & v == 0
    decreases v
  {
    if v != 0 {
      if v & 1 == 0 {
        assert !BitSet(v, 0);
        LowestBitIsSet(v);
      } else {
        assert BitSet(v, 0);
        var n := v >> 1;
        forall k: nat ensures BitSet(n, k) <==> k < hi - 1 {
          assert BitSet(n, k) == BitSet(v, k + 1);
        }
        HalfOfOdd(v);
        OnesPass(n, hi - 1);
        OneMoreOne(v);
      }
    }
  }

  lemma {:induction false} HalfOfOdd(v: bv32)
    requires v & 1 == 1
    ensures v >> 1 < v
  {
  }

  lemma {:induction false} OneMoreOne(v: bv32)
    requires v & 1 == 1 && ((v >> 1) + 1) & (v >> 1) == 0
    ensures (v + 1) & v == 0
  {
  }

  lemma {:induction false} EvenRun(mask: bv32)
    requires mask != 0 && mask & 1 == 0 && IsRun(mask)
    ensures var m := mask >> 1;
            && m != 0 && m != 0xFFFF_FFFF && m < mask && IsRun(m)
            && LowestSetBit(mask) == 1 + LowestSetBit(m) && RunEnd(mask) == 1 + RunEnd(m)
  {
    var m := mask >> 1;
    HalfAbove(mask);
    if AboveRun(mask) == 0 {
      HighestBit();
    }
  }

  /** Shifting an even mask shifts its lowest bit and what lies above its run. */
  lemma {:induction false} HalfAbove(mask: bv32)
    requires mask != 0 && mask & 1 == 0
    ensures var m := mask >> 1;
            && m != 0 && m < mask && m < 0x8000_0000 && AboveRun(m) != 0
            && (if AboveRun(mask) == 0 then AboveRun(m) == 0x8000_0000
                else AboveRun(mask) & 1 == 0 && AboveRun(mask) >> 1 == AboveRun(m))
  {
    hide AboveRun;
    var m := mask >> 1;
    HalfIsLess(mask);
    HalfIsBelow(mask);
    DoubledMask(mask);
    AboveStaysInside(m);
    ShiftedOut(AboveRun(m));
  }

  lemma {:induction false} DoubledMask(mask: bv32)
    requires mask & 1 == 0
    ensures AboveRun(mask) == AboveRun(mask >> 1) << 1
  {
    hide AboveRun;
    DoublingHalf(mask);
    AboveRunDoubles(mask >> 1);
  }

  lemma {:induction false} AboveRunDoubles(m: bv32)
    ensures AboveRun(m << 1) == AboveRun(m) << 1
  {
  }

  lemma {:induction false} DoublingHalf(mask: bv32)
    requires mask & 1 == 0
    ensures (mask >> 1) << 1 == mask
  {
  }

  lemma {:induction false} HalfIsLess(mask: bv32)
    requires mask != 0 && mask & 1 == 0
    ensures mask >> 1 != 0 && mask >> 1 < mask
  {
  }

  lemma {:induction false} HalfIsBelow(mask: bv32)
    ensures mask >> 1 < 0x8000_0000
  {
  }

  lemma {:induction false} AboveStaysInside(m: bv32)
    requires m != 0 && m < 0x8000_0000
    ensures 0 < AboveRun(m) <= 0x8000_0000
  {
  }

  lemma {:induction false} ShiftedOut(x: bv32)
    requires 0 < x <= 0x8000_0000
    ensures if x << 1 == 0 then x == 0x8000_0000 else (x << 1) & 1 == 0 && (x << 1) >> 1 == x
  {
  }

  lemma {:induction false} ZeroHasNoBits(k: nat)
    ensures k > 0 ==> !BitSet(1, k)
    ensures !BitSet(0, k)
  {
    if k > 0 {
      assert (1 as bv32) >> 1 == 0 && (0 as bv32) >> 1 == 0;
      ZeroHasNoBits(k - 1);
    }
  }

  // ---------------------------------------------------------------- the guard

  function Kept(mask: bv32): bv32 { mask & NONVOLATILE }

  /** Register r is one the guard keeps. */
  predicate Guarded(mask: bv32, r: nat) {
    BitSet(Kept(mask), r)
  }

  lemma {:induction false} OnlyNonvolatile(mask: bv32, r: nat)
    requires Guarded(mask, r)
    ensures FIRST <= r < FIRST + SLOTS
  {
    var m := Kept(mask);
    FullWord();
    FourteenBits();
    SetBitIsInside(m, 0xFFFF_FFFF, r);
    LowBitsAreMasked(mask);
    LowestIsAbove(m, 0x3FFF);
  }

  lemma {:induction false} LowBitsAreMasked(mask: bv32)
    ensures Kept(mask) & 0x3FFF == 0 && Kept(mask) != 0xFFFF_FFFF
  {
  }

  lemma {:induction false} NothingGuarded(mask: bv32, r: nat)
    requires Kept(mask) == 0
    ensures !Guarded(mask, r)
  {
    ZeroHasNoBits(r);
  }

  /** In a run, the guarded registers are exactly those from its first to its end. */
  lemma {:induction false} RunIsGuarded(mask: bv32, r: nat)
    requires Kept(mask) != 0 && IsRun(Kept(mask))
    ensures var m := Kept(mask);
            && FIRST <= LowestSetBit(m) < RunEnd(m) <= FIRST + SLOTS
            && (Guarded(mask, r) <==> LowestSetBit(m) <= r < RunEnd(m))
  {
    var m := Kept(mask);
    LowBitsAreMasked(mask);
    LowestBitIsSet(m);
    OnlyNonvolatile(mask, LowestSetBit(m));
    RunIsExact(m, LowestSetBit(m));
    FullWord();
    if AboveRun(m) != 0 {
      LowestBitIsSet(AboveRun(m));
      SetBitIsInside(AboveRun(m), 0xFFFF_FFFF, LowestSetBit(AboveRun(m)));
    }
    if r < 32 {
      RunIsExact(m, r);
    } else if Guarded(mask, r) {
      OnlyNonvolatile(mask, r);
    }
  }

  /** What a guarded call leaves: the kept registers as they were before it, the others as it set them. */
  ghost predicate Restored(mask: bv32, before: seq<int>, called: seq<int>, after: seq<int>) {
    && |before| == |called| == |after| == 32
    && forall r :: 0 <= r < 32 ==> after[r] == if Guarded(mask, r) then before[r] else called[r]
  }

  class PpcNonvolatileFprGuard {
    const mask: bv32
    const fpr: array<int>
    var firstSlot: nat
    var slotCount: nat
    const saved: array<int>
    ghost const before: seq<int>

    /** The guard holds what Restored needs. */
    ghost predicate Holds()
      reads this, saved
    {
      && fpr.Length == 32 && saved.Length == SLOTS && saved != fpr && |before| == 32
      && (forall r :: FIRST <= r < 32 && Guarded(mask, r) ==> saved[r - FIRST] == before[r])
      && (slotCount != 0 ==>
            && firstSlot + slotCount <= SLOTS
            && forall r :: 0 <= r < 32 ==>
                 (Guarded(mask, r) <==> FIRST + firstSlot <= r < FIRST + firstSlot + slotCount))
    }

    constructor (registers: array<int>, requested: bv32)
      requires registers.Length == 32
      ensures Holds() && fpr == registers && mask == requested && before == registers[..] && fresh(saved)
    {
      mask, fpr, before := requested, registers, registers[..];
      firstSlot, slotCount := 0, 0;
      saved := new int[SLOTS];
      new;
      hide Guarded, BitSet, IsRun, RunEnd, LowestSetBit, Kept;
      if Kept(mask) == 0 {
        forall r: nat | r < 32 ensures !Guarded(mask, r) { NothingGuarded(mask, r); }
      } else if IsRun(Kept(mask)) {
        RunOfSlots(mask);
        var first, end := LowestSetBit(Kept(mask)), RunEnd(Kept(mask));
        SaveRun(first, end - first);
      } else {
        SaveEach();
      }
    }

    method SaveRun(first: nat, count: nat)
      requires fpr.Length == 32 && saved.Length == SLOTS && saved != fpr && before == fpr[..]
      requires FIRST <= first && 0 < count && first + count <= 32
      requires forall r :: 0 <= r < 32 ==> (Guarded(mask, r) <==> first <= r < first + count)
      modifies this, saved
      ensures Holds()
    {
      hide Guarded;
      firstSlot := first - FIRST;
      slotCount := count;
      for i := 0 to count
        invariant firstSlot == first - FIRST && slotCount == count
        invariant forall r :: first <= r < first + i ==> saved[r - FIRST] == before[r]
      {
        saved[firstSlot + i] := fpr[first + i];
      }
    }

    method SaveEach()
      requires fpr.Length == 32 && saved.Length == SLOTS && saved != fpr && before == fpr[..] && slotCount == 0
      modifies saved
      ensures Holds()
    {
      hide Guarded, BitSet, Kept;
      for i := 0 to SLOTS
        invariant forall r :: FIRST <= r < FIRST + i && Guarded(mask, r) ==> saved[r - FIRST] == before[r]
      {
        GuardedIs(mask, FIRST + i);
        if BitSet(Kept(mask), FIRST + i) {
          saved[i] := fpr[FIRST + i];
        }
      }
    }

    /** The destructor: puts the kept registers back. */
    method Leave()
      requires Holds()
      modifies fpr
      ensures Restored(mask, before, old(fpr[..]), fpr[..])
    {
      hide Guarded, BitSet, Kept;
      if Kept(mask) == 0 {
        forall r: nat | r < 32 ensures !Guarded(mask, r) { NothingGuarded(mask, r); }
      } else if slotCount != 0 {
        RestoreRun();
      } else {
        RestoreEach();
      }
    }

    method RestoreRun()
      requires Holds() && slotCount != 0
      modifies fpr
      ensures Restored(mask, before, old(fpr[..]), fpr[..])
    {
      hide Guarded;
      var first := FIRST + firstSlot;
      for i := 0 to slotCount
        invariant forall r :: 0 <= r < 32 ==>
                    fpr[r] == if first <= r < first + i then saved[r - FIRST] else old(fpr[r])
      {
        fpr[first + i] := saved[firstSlot + i];
      }
    }

    method RestoreEach()
      requires Holds()
      modifies fpr
      ensures Restored(mask, before, old(fpr[..]), fpr[..])
    {
      hide Guarded, BitSet, Kept;
      forall r: nat | r < FIRST ensures !Guarded(mask, r) {
        if Guarded(mask, r) { OnlyNonvolatile(mask, r); }
      }
      for i := 0 to SLOTS
        invariant forall r :: 0 <= r < 32 ==>
                    fpr[r] == if FIRST <= r < FIRST + i && Guarded(mask, r) then saved[r - FIRST] else old(fpr[r])
      {
        GuardedIs(mask, FIRST + i);
        if BitSet(Kept(mask), FIRST + i) {
          fpr[FIRST + i] := saved[i];
        }
      }
    }
  }

  lemma {:induction false} RunOfSlots(mask: bv32)
    requires Kept(mask) != 0 && IsRun(Kept(mask))
    ensures FIRST <= LowestSetBit(Kept(mask)) < RunEnd(Kept(mask)) <= 32
    ensures forall r :: 0 <= r < 32 ==>
              (Guarded(mask, r) <==> LowestSetBit(Kept(mask)) <= r < RunEnd(Kept(mask)))
  {
    hide Guarded, BitSet, IsRun, RunEnd, LowestSetBit, Kept;
    RunIsGuarded(mask, 0);
    forall r: nat | r < 32
      ensures Guarded(mask, r) <==> LowestSetBit(Kept(mask)) <= r < RunEnd(Kept(mask))
    {
      RunIsGuarded(mask, r);
    }
  }

  lemma {:induction false} GuardedIs(mask: bv32, r: nat)
    ensures Guarded(mask, r) <==> BitSet(Kept(mask), r)
  {
  }
}
