/**
 Unsigned machine words as naturals, with the C operators the register macros use.

 `Bit` reads one binary digit. The bitwise operators are recursive on the binary
 representation. The shifts are the arithmetic ones of the C standard, as
 `ShlIsArithmetic` and `ShrIsDivision` say: a left shift multiplies modulo two to the
 width, a right shift divides. Every operator has one lemma that gives each bit of its
 result, and `SameBits` turns equality of all bits into equality of words.
 */
module Bits {

  type u32 = x: nat | x < 0x1_0000_0000
  type u64 = x: nat | x < 0x1_0000_0000_0000_0000

  function Pow2(k: nat): (r: nat)
    ensures r > 0
  {
    if k == 0 then 1 else 2 * Pow2(k - 1)
  }

  /** The binary digit of weight `Pow2(i)`. */
  predicate Bit(x: nat, i: nat) {
    if i == 0 then x % 2 == 1 else Bit(x / 2, i - 1)
  }

  function And(x: nat, y: nat): (r: nat)
    ensures r <= x && r <= y
  {
    if x == 0 || y == 0 then 0
    else 2 * And(x / 2, y / 2) + (if x % 2 == 1 && y % 2 == 1 then 1 else 0)
  }

  function Or(x: nat, y: nat): (r: nat)
    ensures r >= x && r >= y
  {
    if x == 0 then y else if y == 0 then x
    else 2 * Or(x / 2, y / 2) + (if x % 2 == 1 || y % 2 == 1 then 1 else 0)
  }

  /** `~x` on a word of `w` bits. */
  function Not(w: nat, x: nat): (r: nat)
    requires x < Pow2(w)
    ensures r < Pow2(w)
  {
    Pow2(w) - 1 - x
  }

  /** The `w` low bits of `x`. */
  function LowBits(w: nat, x: nat): (r: nat) {
    if w == 0 then 0 else 2 * LowBits(w - 1, x / 2) + x % 2
  }

  /** `x` doubled `k` times. */
  function Double(x: nat, k: nat): (r: nat) {
    if k == 0 then x else 2 * Double(x, k - 1)
  }

  /** `x << k` on a word of `w` bits; C leaves it undefined when `k >= w`. */
  function Shl(w: nat, x: nat, k: nat): (r: nat)
    requires k < w
  {
    LowBits(w, Double(x, k))
  }

  /** `x >> k` on an unsigned word. */
  function Shr(x: nat, k: nat): (r: nat)
    ensures r <= x
  {
    if k == 0 then x else Shr(x / 2, k - 1)
  }

  // ---------------------------------------------------------------- arithmetic

  lemma {:induction false} Pow2Add(a: nat, b: nat)
    ensures Pow2(a + b) == Pow2(a) * Pow2(b)
  {
    if a > 0 {
      Pow2Add(a - 1, b);
    }
  }

  lemma {:induction false} Pow2Monotone(a: nat, b: nat)
    requires a <= b
    ensures Pow2(a) <= Pow2(b)
    ensures a < b ==> Pow2(a) < Pow2(b)
  {
    if a < b {
      Pow2Monotone(a, b - 1);
    }
  }

  lemma Pow2Square(h: nat, p: nat)
    requires Pow2(h) == p
    ensures Pow2(2 * h) == p * p
  {
    Pow2Add(h, h);
  }

  lemma SmallPowers(k: nat)
    requires k in {0, 1, 2, 4, 8, 15, 16}
    ensures k == 0 ==> Pow2(k) == 1
    ensures k == 1 ==> Pow2(k) == 2
    ensures k == 2 ==> Pow2(k) == 4
    ensures k == 4 ==> Pow2(k) == 0x10
    ensures k == 8 ==> Pow2(k) == 0x100
    ensures k == 15 ==> Pow2(k) == 0x8000
    ensures k == 16 ==> Pow2(k) == 0x1_0000
  {
    if k == 2 {
      Pow2Square(1, 2);
    } else if k == 4 {
      SmallPowers(2);
      Pow2Square(2, 4);
    } else if k == 8 {
      SmallPowers(4);
      Pow2Square(4, 0x10);
    } else if k >= 15 {
      SmallPowers(8);
      Pow2Square(8, 0x100);
      var h := 16;
      assert Pow2(h) == 2 * Pow2(h - 1);
    }
  }

  /** The moduli of the two word sizes. */
  lemma WordSizes(w: nat)
    requires w == 32 || w == 64
    ensures Pow2(w) == if w == 32 then 0x1_0000_0000 else 0x1_0000_0000_0000_0000
  {
    if w == 32 {
      SmallPowers(16);
      Pow2Square(w / 2, 0x1_0000);
    } else {
      WordSizes(32);
      Pow2Square(w / 2, 0x1_0000_0000);
    }
  }

  // ------------------------------------------------------- the bits of a result

  lemma {:induction false} BitZero(i: nat)
    ensures !Bit(0, i)
  {
    if i > 0 {
      BitZero(i - 1);
    }
  }

  lemma BitsOfZero()
    ensures forall i: nat :: !Bit(0, i)
  {
    forall i: nat {
      BitZero(i);
    }
  }

  lemma AndStep(x: nat, y: nat)
    ensures And(x, y) / 2 == And(x / 2, y / 2)
    ensures And(x, y) % 2 == 1 <==> x % 2 == 1 && y % 2 == 1
  {
  }

  lemma {:induction false} BitAnd(x: nat, y: nat, i: nat)
    ensures Bit(And(x, y), i) == (Bit(x, i) && Bit(y, i))
    decreases i
  {
    hide And;
    AndStep(x, y);
    if i > 0 {
      BitAnd(x / 2, y / 2, i - 1);
    }
  }

  lemma BitsOfAnd(x: nat, y: nat)
    ensures forall i: nat :: Bit(And(x, y), i) == (Bit(x, i) && Bit(y, i))
  {
    forall i: nat {
      BitAnd(x, y, i);
    }
  }

  lemma OrStep(x: nat, y: nat)
    ensures Or(x, y) / 2 == Or(x / 2, y / 2)
    ensures Or(x, y) % 2 == 1 <==> x % 2 == 1 || y % 2 == 1
  {
  }

  lemma {:induction false} BitOr(x: nat, y: nat, i: nat)
    ensures Bit(Or(x, y), i) == (Bit(x, i) || Bit(y, i))
    decreases i
  {
    hide Or;
    OrStep(x, y);
    if i > 0 {
      BitOr(x / 2, y / 2, i - 1);
    }
  }

  lemma BitsOfOr(x: nat, y: nat)
    ensures forall i: nat :: Bit(Or(x, y), i) == (Bit(x, i) || Bit(y, i))
  {
    forall i: nat {
      BitOr(x, y, i);
    }
  }

  lemma {:induction false} BitNot(w: nat, x: nat, i: nat)
    requires x < Pow2(w)
    ensures Bit(Not(w, x), i) == (i < w && !Bit(x, i))
  {
    if w == 0 {
      BitZero(i);
    } else {
      assert Not(w, x) / 2 == Not(w - 1, x / 2);
      if i > 0 {
        BitNot(w - 1, x / 2, i - 1);
      }
    }
  }

  lemma BitsOfNot(w: nat, x: nat)
    requires x < Pow2(w)
    ensures forall i: nat :: Bit(Not(w, x), i) == (i < w && !Bit(x, i))
  {
    forall i: nat {
      BitNot(w, x, i);
    }
  }

  lemma {:induction false} BitShr(x: nat, k: nat, i: nat)
    ensures Bit(Shr(x, k), i) == Bit(x, i + k)
  {
    if k > 0 {
      BitShr(x / 2, k - 1, i);
    }
  }

  lemma BitsOfShr(x: nat, k: nat)
    ensures forall i: nat :: Bit(Shr(x, k), i) == Bit(x, i + k)
  {
    forall i: nat {
      BitShr(x, k, i);
    }
  }

  lemma {:induction false} BitLow(w: nat, x: nat, i: nat)
    ensures Bit(LowBits(w, x), i) == (i < w && Bit(x, i))
  {
    if w == 0 {
      BitZero(i);
    } else if i > 0 {
      BitLow(w - 1, x / 2, i - 1);
    }
  }

  lemma BitsOfLow(w: nat, x: nat)
    ensures forall i: nat :: Bit(LowBits(w, x), i) == (i < w && Bit(x, i))
  {
    forall i: nat {
      BitLow(w, x, i);
    }
  }

  lemma {:induction false} BitDouble(x: nat, k: nat, i: nat)
    ensures Bit(Double(x, k), i) == (i >= k && Bit(x, i - k))
  {
    if k > 0 && i > 0 {
      BitDouble(x, k - 1, i - 1);
    }
  }

  lemma BitsOfShl(w: nat, x: nat, k: nat)
    requires k < w
    ensures forall i: nat :: Bit(Shl(w, x, k), i) == (k <= i < w && Bit(x, i - k))
  {
    forall i: nat
      ensures Bit(Shl(w, x, k), i) == (k <= i < w && Bit(x, i - k))
    {
      BitLow(w, Double(x, k), i);
      BitDouble(x, k, i);
    }
  }

  /** The word whose low `w` bits are all set. */
  function Ones(w: nat): (r: nat)
    ensures r < Pow2(w)
  {
    Pow2(w) - 1
  }

  lemma BitsOfOnes(w: nat)
    ensures forall i: nat :: Bit(Ones(w), i) == (i < w)
  {
    BitsOfNot(w, 0);
    BitsOfZero();
    assert Ones(w) == Not(w, 0);
  }

  lemma {:induction false} BitPow2(k: nat, i: nat)
    ensures Bit(Pow2(k), i) == (i == k)
  {
    if k == 0 {
      if i > 0 {
        BitZero(i - 1);
      }
    } else if i > 0 {
      BitPow2(k - 1, i - 1);
    }
  }

  // -------------------------------------------------------------- extensionality

  lemma {:induction false} SameBits(x: nat, y: nat)
    requires forall i: nat :: Bit(x, i) == Bit(y, i)
    ensures x == y
    decreases x + y
  {
    if x != 0 || y != 0 {
      forall i: nat ensures Bit(x / 2, i) == Bit(y / 2, i) {
        assert Bit(x, i + 1) == Bit(y, i + 1);
      }
      assert Bit(x, 0) == Bit(y, 0);
      SameBits(x / 2, y / 2);
    }
  }

  ghost predicate NoBitFrom(x: nat, w: nat) {
    forall i: nat :: i >= w ==> !Bit(x, i)
  }

  /** A word fits in `w` bits exactly when no bit from `w` up is set. */
  lemma FitsExactly(x: nat, w: nat)
    ensures x < Pow2(w) <==> NoBitFrom(x, w)
  {
    if x < Pow2(w) {
      forall i: nat | i >= w ensures !Bit(x, i) {
        NoHighBit(x, w, i);
      }
    } else if NoBitFrom(x, w) {
      BitsOfLow(w, x);
      SameBits(LowBits(w, x), x);
      LowBitsFit(w, x);
      assert false;
    }
  }

  lemma {:induction false} NoHighBit(x: nat, w: nat, i: nat)
    requires x < Pow2(w) && i >= w
    ensures !Bit(x, i)
  {
    if w == 0 {
      BitZero(i);
    } else {
      NoHighBit(x / 2, w - 1, i - 1);
    }
  }

  lemma {:induction false} LowBitsFit(w: nat, x: nat)
    ensures LowBits(w, x) < Pow2(w)
  {
    if w > 0 {
      LowBitsFit(w - 1, x / 2);
    }
  }

  lemma OrFits(x: nat, y: nat, w: nat)
    requires x < Pow2(w) && y < Pow2(w)
    ensures Or(x, y) < Pow2(w)
  {
    FitsExactly(x, w);
    FitsExactly(y, w);
    FitsExactly(Or(x, y), w);
    BitsOfOr(x, y);
  }

  /** Words that share no bit are OR-ed by adding them. */
  lemma {:induction false} OrIsSum(x: nat, y: nat)
    requires And(x, y) == 0
    ensures Or(x, y) == x + y
  {
    if x != 0 && y != 0 {
      OrIsSum(x / 2, y / 2);
    }
  }

  /** Masking with a single bit. */
  lemma AndPow2(x: nat, k: nat)
    ensures And(x, Pow2(k)) == if Bit(x, k) then Pow2(k) else 0
  {
    var r := if Bit(x, k) then Pow2(k) else 0;
    forall i: nat ensures Bit(And(x, Pow2(k)), i) == Bit(r, i) {
      BitAnd(x, Pow2(k), i);
      BitPow2(k, i);
      BitZero(i);
    }
    SameBits(And(x, Pow2(k)), r);
  }

  /** A word below `Pow2(k)` shares no bit with one whose low `k` bits are clear. */
  lemma AndApart(x: nat, y: nat, k: nat)
    requires x < Pow2(k) && LowBits(k, y) == 0
    ensures And(x, y) == 0
  {
    FitsExactly(x, k);
    BitsOfLow(k, y);
    BitsOfAnd(x, y);
    BitsOfZero();
    forall i: nat ensures Bit(And(x, y), i) == Bit(0, i) {
      assert Bit(LowBits(k, y), i) == (i < k && Bit(y, i));
    }
    SameBits(And(x, y), 0);
  }

  // ------------------------------------------------------------ operators on machine words

  const ALL32: u32 := 0xFFFF_FFFF
  const ALL64: u64 := 0xFFFF_FFFF_FFFF_FFFF

  function Not32(x: u32): (r: u32) {
    ALL32 - x
  }

  function Not64(x: u64): (r: u64) {
    ALL64 - x
  }

  function Or32(x: u32, y: u32): (r: u32) {
    WordSizes(32);
    OrFits(x, y, 32);
    Or(x, y)
  }

  function Or64(x: u64, y: u64): (r: u64) {
    WordSizes(64);
    OrFits(x, y, 64);
    Or(x, y)
  }

  function Shl32(x: nat, k: nat): (r: u32)
    requires k < 32
  {
    WordSizes(32);
    LowBitsFit(32, Double(x, k));
    Shl(32, x, k)
  }

  function Shl64(x: nat, k: nat): (r: u64)
    requires k < 64
  {
    WordSizes(64);
    LowBitsFit(64, Double(x, k));
    Shl(64, x, k)
  }

  /** A value stored in a 32-bit register. */
  function Low32(x: u64): (r: u32) {
    x % 0x1_0000_0000
  }

  lemma Word32Bits(x: nat)
    ensures x <= ALL32 <==> NoBitFrom(x, 32)
  {
    WordSizes(32);
    FitsExactly(x, 32);
  }

  lemma Word64Bits(x: nat)
    ensures x <= ALL64 <==> NoBitFrom(x, 64)
  {
    WordSizes(64);
    FitsExactly(x, 64);
  }

  lemma Or32Bits(x: u32, y: u32)
    ensures forall i: nat :: Bit(Or32(x, y), i) == (Bit(x, i) || Bit(y, i))
  {
    BitsOfOr(x, y);
  }

  lemma Or64Bits(x: u64, y: u64)
    ensures forall i: nat :: Bit(Or64(x, y), i) == (Bit(x, i) || Bit(y, i))
  {
    BitsOfOr(x, y);
  }

  lemma Shl32Bits(x: nat, k: nat)
    requires k < 32
    ensures forall i: nat :: Bit(Shl32(x, k), i) == (k <= i < 32 && Bit(x, i - k))
  {
    BitsOfShl(32, x, k);
  }

  lemma Shl64Bits(x: nat, k: nat)
    requires k < 64
    ensures forall i: nat :: Bit(Shl64(x, k), i) == (k <= i < 64 && Bit(x, i - k))
  {
    BitsOfShl(64, x, k);
  }

  lemma Not32Bits(x: u32)
    ensures forall i: nat :: Bit(Not32(x), i) == (i < 32 && !Bit(x, i))
  {
    WordSizes(32);
    BitsOfNot(32, x);
    assert Not32(x) == Not(32, x);
  }

  lemma Not64Bits(x: u64)
    ensures forall i: nat :: Bit(Not64(x), i) == (i < 64 && !Bit(x, i))
  {
    WordSizes(64);
    BitsOfNot(64, x);
    assert Not64(x) == Not(64, x);
  }

  lemma AllBits()
    ensures forall i: nat :: Bit(ALL32, i) == (i < 32)
    ensures forall i: nat :: Bit(ALL64, i) == (i < 64)
  {
    BitsOfZero();
    Not32Bits(0);
    Not64Bits(0);
    assert ALL32 == Not32(0) && ALL64 == Not64(0);
  }

  lemma Low32Bits(x: u64)
    ensures forall i: nat :: Bit(Low32(x), i) == (i < 32 && Bit(x, i))
  {
    WordSizes(32);
    LowBitsIsMod(32, x);
    BitsOfLow(32, x);
  }

  /** `v1` in the bits of `m`, `v0` elsewhere. */
  function Merge(v0: u32, v1: u32, m: u32): (r: u32) {
    Or32(And(v0, Not32(m)), And(v1, m))
  }

  lemma MergeBits(v0: u32, v1: u32, m: u32)
    ensures forall i: nat :: Bit(Merge(v0, v1, m), i) == if Bit(m, i) then Bit(v1, i) else Bit(v0, i)
  {
    Not32Bits(m);
    Word32Bits(v0);
    BitsOfAnd(v0, Not32(m));
    BitsOfAnd(v1, m);
    BitsOfOr(And(v0, Not32(m)), And(v1, m));
  }

  /** A masked write `(v & ~m) | s`, bit by bit. */
  lemma MaskedWriteBits(v: u64, m: u64, s: u64)
    ensures forall i: nat :: Bit(Or64(And(v, Not64(m)), s), i) == ((Bit(v, i) && !Bit(m, i)) || Bit(s, i))
  {
    Not64Bits(m);
    Word64Bits(v);
    BitsOfAnd(v, Not64(m));
    BitsOfOr(And(v, Not64(m)), s);
  }

  // --------------------------------------------------- the shifts are multiplication and division

  /** A product with a nonzero factor is at least as large as the other one. */
  lemma MulAtLeast(k: int, d: int)
    requires 0 < d
    ensures 0 < k ==> d <= k * d
    ensures k < 0 ==> k * d <= -d
  {
  }

  lemma DivModUnique(x: int, d: int, q: int, r: int)
    requires 0 < d && 0 <= r < d && x == q * d + r
    ensures x / d == q && x % d == r
  {
    var k := q - x / d;
    assert k * d == q * d - x / d * d;
    assert x == x / d * d + x % d;
    MulAtLeast(k, d);
  }

  /** Dividing and reducing by `2 * d`, one binary digit at a time. */
  lemma HalfStep(x: nat, d: nat)
    requires 0 < d
    ensures x / (2 * d) == (x / 2) / d
    ensures x % (2 * d) == 2 * ((x / 2) % d) + x % 2
  {
    var q, r := (x / 2) / d, (x / 2) % d;
    assert x / 2 == q * d + r;
    assert x == q * (2 * d) + (2 * r + x % 2);
    DivModUnique(x, 2 * d, q, 2 * r + x % 2);
  }

  lemma {:induction false} LowBitsIsMod(w: nat, x: nat)
    ensures LowBits(w, x) == x % Pow2(w)
  {
    if w > 0 {
      LowBitsIsMod(w - 1, x / 2);
      HalfStep(x, Pow2(w - 1));
    }
  }

  lemma {:induction false} DoubleIsProduct(x: nat, k: nat)
    ensures Double(x, k) == x * Pow2(k)
  {
    if k > 0 {
      DoubleIsProduct(x, k - 1);
      assert x * Pow2(k) == 2 * (x * Pow2(k - 1));
    }
  }

  lemma ShlIsArithmetic(w: nat, x: nat, k: nat)
    requires k < w
    ensures Shl(w, x, k) == x * Pow2(k) % Pow2(w)
  {
    LowBitsIsMod(w, Double(x, k));
    DoubleIsProduct(x, k);
  }

  lemma {:induction false} ShrIsDivision(x: nat, k: nat)
    ensures Shr(x, k) == x / Pow2(k)
  {
    if k > 0 {
      ShrIsDivision(x / 2, k - 1);
      HalfStep(x, Pow2(k - 1));
    }
  }

  /** A bit read off by division. */
  lemma BitIsQuotient(x: nat, i: nat)
    ensures Bit(x, i) <==> x / Pow2(i) % 2 == 1
  {
    BitShr(x, i, 0);
    ShrIsDivision(x, i);
  }
}
