/** The bit helpers of the common header, and what they say about field masks. */
module NvCommon {
  import opened Bits
  import opened Drf

  /** `(NvS32)(v)`: the two's complement reading of a 32-bit word. */
  function ToS32(v: u32): (r: int) {
    if v < 0x8000_0000 then v else v - 0x1_0000_0000
  }

  /** `(NvU32)(x)`: reduction modulo two to the 32. */
  function ToU32(x: int): (r: u32) {
    x % 0x1_0000_0000
  }

  /** The reading is signed and the reduction undoes it. */
  lemma SignedReading(v: u32)
    ensures -0x8000_0000 <= ToS32(v) < 0x8000_0000 && ToU32(ToS32(v)) == v
  {
  }

  /** `NV_LOWEST_BIT_ONLY`; negation wraps. */
  function LowestBitOnly(v: u32): (r: u32) {
    And(v, ToU32(-ToS32(v)))
  }

  /** `NV_IS_POWER_OF_2`. */
  predicate IsPowerOf2(v: u32) {
    LowestBitOnly(v) == v
  }

  /** Position of the lowest set bit. */
  function LowestSet(v: nat): (k: nat)
    requires v > 0
    ensures Bit(v, k)
    ensures forall i: nat :: i < k ==> !Bit(v, i)
  {
    if v % 2 == 1 then 0 else 1 + LowestSet(v / 2)
  }

  /** Subtracting one flips the bits up to the lowest set one and no others. */
  lemma {:induction false} DecrementBit(v: nat, i: nat)
    requires v > 0
    ensures Bit(v - 1, i) == if i < LowestSet(v) then true else i > LowestSet(v) && Bit(v, i)
  {
    if v % 2 == 1 {
      assert (v - 1) / 2 == v / 2;
    } else if i > 0 {
      assert (v - 1) / 2 == v / 2 - 1;
      DecrementBit(v / 2, i - 1);
    }
  }

  lemma NegationIsComplement(v: u32)
    requires v > 0
    ensures v - 1 < Pow2(32)
    ensures ToU32(-ToS32(v)) == Not(32, v - 1)
  {
    WordSizes(32);
  }

  lemma LowestBitBit(v: u32, i: nat)
    requires v > 0
    ensures Bit(LowestBitOnly(v), i) == (i == LowestSet(v))
  {
    NegationIsComplement(v);
    BitNot(32, v - 1, i);
    BitAnd(v, Not(32, v - 1), i);
    DecrementBit(v, i);
    WordSizes(32);
    FitsExactly(v, 32);
  }

  lemma LowestBitIsPower(v: u32)
    requires v > 0
    ensures LowestBitOnly(v) == Pow2(LowestSet(v))
  {
    forall i: nat ensures Bit(LowestBitOnly(v), i) == Bit(Pow2(LowestSet(v)), i) {
      LowestBitBit(v, i);
      BitPow2(LowestSet(v), i);
    }
    SameBits(LowestBitOnly(v), Pow2(LowestSet(v)));
  }

  /** `Pow2(j)` divides `v` exactly when the bits below `j` are clear. */
  lemma DividesExactly(v: nat, j: nat)
    requires v > 0
    ensures v % Pow2(j) == 0 <==> j <= LowestSet(v)
  {
    LowBitsIsMod(j, v);
    BitsOfLow(j, v);
    BitsOfZero();
    if j <= LowestSet(v) {
      SameBits(LowBits(j, v), 0);
    } else {
      assert Bit(LowBits(j, v), LowestSet(v));
    }
  }

  /** The result is the largest power of two that divides `v`; zero gives zero. */
  lemma LowestBitDivides(v: u32)
    ensures LowestBitOnly(0) == 0
    ensures v > 0 ==> exists k: nat :: k < 32 && LowestBitOnly(v) == Pow2(k)
    ensures v > 0 ==> forall j: nat :: v % Pow2(j) == 0 <==> Pow2(j) <= LowestBitOnly(v)
  {
    if v > 0 {
      LowestBitIsPower(v);
      WordSizes(32);
      FitsExactly(v, 32);
      forall j: nat ensures v % Pow2(j) == 0 <==> Pow2(j) <= LowestBitOnly(v) {
        DividesExactly(v, j);
        if j <= LowestSet(v) {
          Pow2Monotone(j, LowestSet(v));
        } else {
          Pow2Monotone(LowestSet(v), j);
        }
      }
    }
  }

  /** The predicate accepts the powers of two, and also zero. */
  lemma PowerOf2Exactly(v: u32)
    ensures IsPowerOf2(v) <==> v == 0 || exists k: nat :: v == Pow2(k)
  {
    if v > 0 {
      LowestBitIsPower(v);
      if k: nat :| v == Pow2(k) {
        BitPow2(k, LowestSet(v));
      }
    }
  }

  /**
   For every field with at least one bit, the lowest bit of the shift-mask is one shifted
   into place and the shift-mask is the mask times that bit. For every field the mask plus
   one passes the power-of-two test, also when it wraps to zero.
   */
  lemma MaskShape(f: Field)
    ensures NvFieldShiftMask(f) < 0x1_0000_0000
    ensures NvFieldMask(f) < 0x1_0000_0000
    ensures Width(f) > 0 ==> LowestBitOnly(NvFieldShiftMask(f)) == Shl32(1, NvFieldShift(f)) == Pow2(NvFieldShift(f))
    ensures NvFieldShiftMask(f) == NvFieldMask(f) * Pow2(NvFieldShift(f))
    ensures IsPowerOf2(ToU32(NvFieldMask(f) + 1))
    ensures Width(f) == 32 <==> ToU32(NvFieldMask(f) + 1) == 0
  {
    FamiliesAgree(f, 0, 0);
    ShiftMaskIsProduct(f);
    MaskPlusOne(f);
    if Width(f) > 0 {
      LowestOfShiftMask(f);
    }
  }

  lemma WrapOfPower(k: nat)
    requires k <= 32
    ensures ToU32(Pow2(k)) == if k < 32 then Pow2(k) else 0
  {
    WordSizes(32);
    Pow2Monotone(k, 32);
  }

  lemma MaskPlusOne(f: Field)
    ensures NvFieldMask(f) < 0x1_0000_0000
    ensures IsPowerOf2(ToU32(NvFieldMask(f) + 1))
    ensures Width(f) == 32 <==> ToU32(NvFieldMask(f) + 1) == 0
  {
    hide IsPowerOf2, NvFieldMask, Width;
    MaskIsOnes(f);
    WordSizes(32);
    Pow2Monotone(Width(f), 32);
    WrapOfPower(Width(f));
    PowerOf2Exactly(ToU32(Pow2(Width(f))));
  }

  lemma ShiftMaskIsProduct(f: Field)
    ensures NvFieldShiftMask(f) == NvFieldMask(f) * Pow2(NvFieldShift(f))
  {
    hide Bit, NvFieldMask, NvFieldShiftMask;
    var p := NvFieldMask(f) * Pow2(NvFieldShift(f));
    MaskBits(f);
    ShiftMaskBits(f);
    forall i: nat ensures Bit(NvFieldShiftMask(f), i) == Bit(p, i) {
      BitDouble(NvFieldMask(f), NvFieldShift(f), i);
      DoubleIsProduct(NvFieldMask(f), NvFieldShift(f));
    }
    SameBits(NvFieldShiftMask(f), p);
  }

  lemma LowestOfShiftMask(f: Field)
    requires Width(f) > 0
    ensures NvFieldShiftMask(f) < 0x1_0000_0000
    ensures LowestBitOnly(NvFieldShiftMask(f)) == Shl32(1, NvFieldShift(f)) == Pow2(NvFieldShift(f))
  {
    hide NvFieldShiftMask, Shl32, And;
    FamiliesAgree(f, 0, 0);
    ShiftMaskBits(f);
    var m, s := NvFieldShiftMask(f), NvFieldShift(f);
    BitsOfZero();
    assert Bit(m, s);
    assert m > 0;
    LowestBitIsPower(m);
    assert LowestSet(m) == s;
    Shl32Bits(1, s);
    forall i: nat ensures Bit(Shl32(1, s), i) == Bit(Pow2(s), i) {
      BitPow2(s, i);
      if i >= s {
        BitPow2(0, i - s);
      }
    }
    SameBits(Shl32(1, s), Pow2(s));
  }
}
