/**
 The register-field macros. A field is the range `hi:lo` of a hardware header.

 Two families exist side by side. The `NV_` macros compute in `unsigned long`, 64
 bits here, so their shift counts are always defined; the `DRF_` macros compute in
 `unsigned int` and their mask is undefined when its shift count reaches 32. The
 macros reduce both ends of the range modulo 32, so `Covers` says which bits of a
 word a field really touches, for every range, well formed or not.
 */
module Drf {
  import opened Bits

  datatype Field = Field(hi: nat, lo: nat)

  /** What a C expression yields: nothing when the standard leaves it undefined. */
  datatype CValue<+T> = Undefined | Value(value: T)

  /** The range lies inside one 32-bit word. */
  predicate WellFormed(f: Field) {
    f.lo <= f.hi && f.hi / 32 == f.lo / 32
  }

  /** `NV_FIELD_SIZE` and `DRF_SIZE`. */
  function Size(f: Field): (r: nat)
    requires f.lo <= f.hi
  {
    f.hi - f.lo + 1
  }

  /** Bit `i` of the register is touched by the macros applied to `f`. */
  predicate Covers(f: Field, i: nat) {
    f.lo % 32 <= i <= f.hi % 32
  }

  ghost predicate Disjoint(f: Field, g: Field) {
    forall i: nat :: !(Covers(f, i) && Covers(g, i))
  }

  /** How many bits the mask of `f` has. */
  function Width(f: Field): (r: nat)
    ensures r <= 32
  {
    if f.lo % 32 <= f.hi % 32 then f.hi % 32 - f.lo % 32 + 1 else 0
  }

  // ------------------------------------------------------ the unsigned long family

  function NvFieldShift(f: Field): (r: nat) {
    f.lo % 32
  }

  function MaskCount(f: Field): (r: nat) {
    31 - f.hi % 32 + f.lo % 32
  }

  function NvFieldMask(f: Field): (r: u64) {
    Shr(ALL32, MaskCount(f))
  }

  function NvFieldShiftMask(f: Field): (r: u64) {
    Shl64(NvFieldMask(f), NvFieldShift(f))
  }

  function NvDrfNum(f: Field, n: u64): (r: u64) {
    Shl64(And(n, NvFieldMask(f)), NvFieldShift(f))
  }

  function NvDrfDef(f: Field, c: u64): (r: u64) {
    Shl64(c, NvFieldShift(f))
  }

  function NvDrfVal(f: Field, v: u64): (r: u64) {
    And(Shr(v, NvFieldShift(f)), NvFieldMask(f))
  }

  function NvFldSetDrfNum(f: Field, n: u64, v: u64): (r: u64) {
    Or64(And(v, Not64(NvFieldShiftMask(f))), NvDrfNum(f, n))
  }

  function NvFldSetDrfDef(f: Field, c: u64, v: u64): (r: u64) {
    Or64(And(v, Not64(NvFieldShiftMask(f))), NvDrfDef(f, c))
  }

  // ------------------------------------------------------- the unsigned int family

  function DrfMask(f: Field): (r: CValue<u32>) {
    if MaskCount(f) >= 32 then Undefined else Value(Shr(ALL32, MaskCount(f)))
  }

  function DrfNum(f: Field, n: u32): (r: CValue<u32>) {
    match DrfMask(f)
    case Undefined => Undefined
    case Value(m) => Value(Shl32(And(n, m), f.lo % 32))
  }

  function DrfDef(f: Field, c: u32): (r: u32) {
    Shl32(c, f.lo % 32)
  }

  function DrfVal(f: Field, v: u32): (r: CValue<u32>) {
    match DrfMask(f)
    case Undefined => Undefined
    case Value(m) => Value(And(Shr(v, f.lo % 32), m))
  }

  // ----------------------------------------------------------- the 64-bit variant

  function Nv64Mask(f: Field): (r: CValue<u64>) {
    var count := 63 - f.hi % 64 + f.lo % 64;
    if count >= 64 then Undefined else Value(Shr(ALL64, count))
  }

  function NvDrf64Num(f: Field, n: u64): (r: CValue<u64>) {
    match Nv64Mask(f)
    case Undefined => Undefined
    case Value(m) => Value(Shl64(And(n, m), f.lo % 64))
  }

  // ---------------------------------------------------------- bit by bit, any range

  lemma MaskBits(f: Field)
    ensures forall j: nat :: Bit(NvFieldMask(f), j) == (j + f.lo % 32 <= f.hi % 32)
  {
    AllBits();
    BitsOfShr(ALL32, MaskCount(f));
  }

  lemma ShiftMaskBits(f: Field)
    ensures forall i: nat :: Bit(NvFieldShiftMask(f), i) == Covers(f, i)
  {
    MaskBits(f);
    Shl64Bits(NvFieldMask(f), NvFieldShift(f));
  }

  lemma NumBits(f: Field, n: u64)
    ensures forall i: nat :: Bit(NvDrfNum(f, n), i) == (Covers(f, i) && Bit(n, i - f.lo % 32))
  {
    MaskBits(f);
    BitsOfAnd(n, NvFieldMask(f));
    Shl64Bits(And(n, NvFieldMask(f)), NvFieldShift(f));
  }

  lemma ValBits(f: Field, v: u64)
    ensures forall j: nat :: Bit(NvDrfVal(f, v), j) == (Covers(f, j + f.lo % 32) && Bit(v, j + f.lo % 32))
  {
    MaskBits(f);
    BitsOfShr(v, NvFieldShift(f));
    BitsOfAnd(Shr(v, NvFieldShift(f)), NvFieldMask(f));
  }

  /** The modify macro replaces exactly the covered bits and keeps all the others. */
  lemma SetBits(f: Field, n: u64, v: u64)
    ensures forall i: nat ::
      Bit(NvFldSetDrfNum(f, n, v), i) == if Covers(f, i) then Bit(n, i - f.lo % 32) else Bit(v, i)
  {
    MaskedWriteBits(v, NvFieldShiftMask(f), NvDrfNum(f, n));
    ShiftMaskBits(f);
    NumBits(f, n);
  }

  /**
   The 64-bit term is undefined exactly when the ends of the range are reversed modulo 64,
   and otherwise has the low bits of the number in the bits of the range, in whichever half.
   */
  lemma Num64Bits(f: Field, n: u64)
    ensures NvDrf64Num(f, n).Undefined? <==> f.hi % 64 < f.lo % 64
    ensures NvDrf64Num(f, n).Value? ==> forall i: nat ::
      Bit(NvDrf64Num(f, n).value, i) == (f.lo % 64 <= i <= f.hi % 64 && Bit(n, i - f.lo % 64))
  {
    if f.hi % 64 >= f.lo % 64 {
      hide Bit, And, Shr, Shl64;
      var m := Nv64Mask(f).value;
      AllBits();
      BitsOfShr(ALL64, 63 - f.hi % 64 + f.lo % 64);
      BitsOfAnd(n, m);
      Shl64Bits(And(n, m), f.lo % 64);
    }
  }

  // -------------------------------------------------------- where the modulo trick is right

  lemma MaskIsOnes(f: Field)
    ensures NvFieldMask(f) == Ones(Width(f))
  {
    MaskBits(f);
    BitsOfOnes(Width(f));
    SameBits(NvFieldMask(f), Ones(Width(f)));
  }

  lemma WidthAgainstSize(f: Field)
    requires f.lo <= f.hi
    ensures Width(f) <= Size(f)
    ensures Width(f) == Size(f) <==> WellFormed(f)
  {
  }

  /**
   For every range the masks have as many bits as the range is wide exactly when the
   range stays inside one 32-bit word. Otherwise the `unsigned int` mask is undefined,
   and the `unsigned long` one silently empty, when the high end falls below the low
   end modulo 32; in the remaining case both are defined and too short.
   */
  lemma MaskExact(f: Field)
    requires f.lo <= f.hi
    ensures DrfMask(f) == Value(Pow2(Size(f)) - 1) <==> WellFormed(f)
    ensures NvFieldMask(f) == Pow2(Size(f)) - 1 <==> WellFormed(f)
    ensures DrfMask(f).Undefined? <==> f.hi % 32 < f.lo % 32
    ensures DrfMask(f).Undefined? ==> NvFieldMask(f) == 0
    ensures DrfMask(f).Value? ==> MaskCount(f) <= 31 && DrfMask(f).value == NvFieldMask(f)
    ensures !WellFormed(f) && DrfMask(f).Value? ==> DrfMask(f).value < Pow2(Size(f)) - 1
  {
    MaskIsOnes(f);
    WidthAgainstSize(f);
    if Width(f) < Size(f) {
      Pow2Monotone(Width(f), Size(f));
    }
  }

  // --------------------------------------------------------------- reading and writing

  /** Bits `hi:lo` of a mask are all ones, or all zeros, when that slice of it is. */
  lemma BitsOfSlice(m: u64, f: Field)
    ensures NvDrfVal(f, m) == Ones(Width(f)) ==> forall i: nat :: Covers(f, i) ==> Bit(m, i)
    ensures NvDrfVal(f, m) == 0 ==> forall i: nat :: Covers(f, i) ==> !Bit(m, i)
  {
    hide Bit, NvDrfVal, Ones;
    ValBits(f, m);
    BitsOfOnes(Width(f));
    BitsOfZero();
    forall i: nat | Covers(f, i) ensures Bit(NvDrfVal(f, m), i - f.lo % 32) == Bit(m, i) {
      var j := i - f.lo % 32;
      assert Bit(NvDrfVal(f, m), j) == (Covers(f, j + f.lo % 32) && Bit(m, j + f.lo % 32));
    }
  }

  lemma ReadBack(f: Field, n: u64, v: u64)
    ensures NvDrfVal(f, NvFldSetDrfNum(f, n, v)) == LowBits(Width(f), n)
  {
    var v' := NvFldSetDrfNum(f, n, v);
    SetBits(f, n, v);
    ValBits(f, v');
    BitsOfLow(Width(f), n);
    forall j: nat ensures Bit(NvDrfVal(f, v'), j) == Bit(LowBits(Width(f), n), j) {
      assert Bit(v', j + f.lo % 32) == if Covers(f, j + f.lo % 32) then Bit(n, j) else Bit(v, j + f.lo % 32);
    }
    SameBits(NvDrfVal(f, v'), LowBits(Width(f), n));
  }

  /** Reading a field depends on the covered bits only. */
  lemma ValDependsOnCovered(f: Field, v: u64, v': u64)
    requires forall i: nat :: Covers(f, i) ==> Bit(v, i) == Bit(v', i)
    ensures NvDrfVal(f, v) == NvDrfVal(f, v')
  {
    ValBits(f, v);
    ValBits(f, v');
    SameBits(NvDrfVal(f, v), NvDrfVal(f, v'));
  }

  lemma ReadOther(f: Field, g: Field, n: u64, v: u64)
    requires Disjoint(f, g)
    ensures NvDrfVal(g, NvFldSetDrfNum(f, n, v)) == NvDrfVal(g, v)
  {
    SetBits(f, n, v);
    ValDependsOnCovered(g, NvFldSetDrfNum(f, n, v), v);
  }

  /** The value read is the arithmetic one: divide by the shift, keep the width. */
  lemma ValIsDivMod(f: Field, v: u64)
    ensures NvDrfVal(f, v) == LowBits(Width(f), Shr(v, f.lo % 32))
    ensures NvDrfVal(f, v) == v / Pow2(f.lo % 32) % Pow2(Width(f))
  {
    hide Bit, NvDrfVal, LowBits, Shr;
    var q := Shr(v, f.lo % 32);
    ValBits(f, v);
    BitsOfShr(v, f.lo % 32);
    BitsOfLow(Width(f), q);
    SameBits(NvDrfVal(f, v), LowBits(Width(f), q));
    LowBitsIsMod(Width(f), q);
    ShrIsDivision(v, f.lo % 32);
  }

  /** The same for a field of a 32-bit register, with the powers of two given. */
  lemma FieldIsQuotient(f: Field, v: u64, p: nat, q: nat)
    requires f.lo <= f.hi < 32 && Pow2(f.lo) == p && Pow2(f.hi - f.lo + 1) == q
    ensures p > 0 && q > 0 && NvDrfVal(f, v) == v / p % q
  {
    assert f.lo % 32 == f.lo && Width(f) == f.hi - f.lo + 1;
    hide NvDrfVal, Pow2, Width;
    ValIsDivMod(f, v);
  }

  /** The term built is the arithmetic one: keep the width, multiply by the shift. */
  lemma NumIsTimes(f: Field, n: u64)
    ensures NvDrfNum(f, n) == Double(LowBits(Width(f), n), f.lo % 32)
    ensures NvDrfNum(f, n) == n % Pow2(Width(f)) * Pow2(f.lo % 32)
  {
    var r := LowBits(Width(f), n);
    NumBits(f, n);
    BitsOfLow(Width(f), n);
    forall i: nat ensures Bit(NvDrfNum(f, n), i) == Bit(Double(r, f.lo % 32), i) {
      BitDouble(r, f.lo % 32, i);
    }
    SameBits(NvDrfNum(f, n), Double(r, f.lo % 32));
    LowBitsIsMod(Width(f), n);
    DoubleIsProduct(r, f.lo % 32);
  }

  // ------------------------------------------------------------- the two families agree

  /**
   Whenever the `unsigned int` macros are defined they compute what the `unsigned long`
   ones compute on 32-bit operands; the results of the latter fit in 32 bits for every
   range, and modifying a field leaves bits 32 and up of a wider word alone.
   */
  lemma FamiliesAgree(f: Field, n: u32, v: u64)
    ensures NvDrfNum(f, n) <= ALL32 && NvFieldShiftMask(f) <= ALL32
    ensures DrfMask(f).Value? ==> DrfNum(f, n) == Value(NvDrfNum(f, n))
    ensures DrfMask(f).Value? && v <= ALL32 ==> DrfVal(f, v) == Value(NvDrfVal(f, v))
    ensures DrfDef(f, n) == Low32(NvDrfDef(f, n))
    ensures Shr(NvFldSetDrfNum(f, n, v), 32) == Shr(v, 32)
  {
    NumBits(f, n);
    Word32Bits(NvDrfNum(f, n));
    ShiftMaskBits(f);
    Word32Bits(NvFieldShiftMask(f));
    NumsAgree(f, n);
    DefsAgree(f, n);
    HighHalfIsKept(f, n, v);
  }

  lemma NumsAgree(f: Field, n: u32)
    ensures DrfMask(f).Value? ==> DrfNum(f, n) == Value(NvDrfNum(f, n))
  {
    if DrfMask(f).Value? {
      hide Bit, And, Shr, Shl32, NvDrfNum;
      var m := NvFieldMask(f);
      Shl32Bits(And(n, m), f.lo % 32);
      BitsOfAnd(n, m);
      MaskBits(f);
      NumBits(f, n);
      SameBits(DrfNum(f, n).value, NvDrfNum(f, n));
    }
  }

  lemma DefsAgree(f: Field, c: u32)
    ensures DrfDef(f, c) == Low32(NvDrfDef(f, c))
  {
    hide Bit, Shl32, Shl64, Low32;
    Shl32Bits(c, f.lo % 32);
    Shl64Bits(c, f.lo % 32);
    Low32Bits(NvDrfDef(f, c));
    SameBits(DrfDef(f, c), Low32(NvDrfDef(f, c)));
  }

  lemma HighHalfIsKept(f: Field, n: u64, v: u64)
    ensures Shr(NvFldSetDrfNum(f, n, v), 32) == Shr(v, 32)
  {
    hide Bit, Shr, NvFldSetDrfNum;
    SetBits(f, n, v);
    BitsOfShr(v, 32);
    BitsOfShr(NvFldSetDrfNum(f, n, v), 32);
    SameBits(Shr(NvFldSetDrfNum(f, n, v), 32), Shr(v, 32));
  }

  // ------------------------------------------------------------- defined constants

  /** The constant, once shifted into place, leaves the field. */
  predicate Spills(f: Field, c: u64) {
    And(NvDrfDef(f, c), Not64(NvFieldShiftMask(f))) != 0
  }

  lemma SpillBits(f: Field, c: u64)
    ensures Spills(f, c) <==> exists i: nat :: Bit(NvDrfDef(f, c), i) && !Covers(f, i)
  {
    var d, m := NvDrfDef(f, c), Not64(NvFieldShiftMask(f));
    BitsOfAnd(d, m);
    Not64Bits(NvFieldShiftMask(f));
    ShiftMaskBits(f);
    Word64Bits(d);
    BitsOfZero();
    if Spills(f, c) && !(exists i: nat :: Bit(d, i) && !Covers(f, i)) {
      assert forall i: nat :: !Bit(And(d, m), i);
      SameBits(And(d, m), 0);
      assert false;
    }
    if i: nat :| Bit(d, i) && !Covers(f, i) {
      assert Bit(And(d, m), i);
    }
  }

  lemma DefBits(f: Field, c: u64, v: u64)
    ensures forall i: nat ::
      Bit(NvFldSetDrfDef(f, c, v), i) == ((Bit(v, i) && !Covers(f, i)) || Bit(NvDrfDef(f, c), i))
    ensures forall i: nat :: Bit(NvDrfDef(f, c), i) == (f.lo % 32 <= i < 64 && Bit(c, i - f.lo % 32))
  {
    MaskedWriteBits(v, NvFieldShiftMask(f), NvDrfDef(f, c));
    ShiftMaskBits(f);
    Shl64Bits(c, f.lo % 32);
  }

  /** It does so when what remains of it in 64 bits does not fit the field. */
  lemma SpillsExactly(f: Field, c: u64)
    ensures Spills(f, c) <==> c % Pow2(64 - f.lo % 32) >= Pow2(Width(f))
  {
    hide Bit, Spills, LowBits, NvDrfDef, Pow2;
    var lo, w := f.lo % 32, Width(f);
    var r := LowBits(64 - lo, c);
    LowBitsIsMod(64 - lo, c);
    BitsOfLow(64 - lo, c);
    SpillBits(f, c);
    DefBits(f, c, 0);
    FitsExactly(r, w);
    if Spills(f, c) {
      var i: nat :| Bit(NvDrfDef(f, c), i) && !Covers(f, i);
      assert Bit(r, i - lo) && i - lo >= w;
    } else {
      forall j: nat | j >= w ensures !Bit(r, j) {
        assert Bit(NvDrfDef(f, c), j + lo) ==> Covers(f, j + lo);
      }
    }
  }

  /**
   `NV_FLD_SET_DRF_DEF` does not mask its constant. It agrees with the masking macro on
   every starting word exactly when the shifted constant stays inside the field;
   otherwise modifying the zero word sets a bit outside the field.
   */
  lemma DefAgreesExactly(f: Field, c: u64)
    ensures (forall v: u64 :: NvFldSetDrfDef(f, c, v) == NvFldSetDrfNum(f, c, v)) <==> !Spills(f, c)
    ensures Spills(f, c) ==> exists i: nat :: !Covers(f, i) && Bit(NvFldSetDrfDef(f, c, 0), i)
    ensures Spills(f, c) <==> c % Pow2(64 - f.lo % 32) >= Pow2(Width(f))
  {
    SpillsExactly(f, c);
    SpillBits(f, c);
    if Spills(f, c) {
      var i: nat :| Bit(NvDrfDef(f, c), i) && !Covers(f, i);
      DefBits(f, c, 0);
      SetBits(f, c, 0);
      BitZero(i);
      assert !Covers(f, i) && Bit(NvFldSetDrfDef(f, c, 0), i);
      assert NvFldSetDrfDef(f, c, 0) != NvFldSetDrfNum(f, c, 0);
    } else {
      forall v: u64 ensures NvFldSetDrfDef(f, c, v) == NvFldSetDrfNum(f, c, v) {
        DefBits(f, c, v);
        SetBits(f, c, v);
        SameBits(NvFldSetDrfDef(f, c, v), NvFldSetDrfNum(f, c, v));
      }
    }
  }
}
