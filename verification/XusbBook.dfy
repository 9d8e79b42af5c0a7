/**
 The register book of the XUSB configuration space: the word of every register after every
 run, in plain arithmetic on the data last written at a literal offset, the bits last
 driven by the hardware, and the straps.
 */
module XusbBook {
  import opened Bits
  import opened Options
  import opened Drf
  import opened DrfRuns
  import opened XusbConfig

  /** The bus status, or the pending messages, as the hardware last drove them. */
  function StatusDriven(es: seq<Event>): (d: Option<u32>) {
    if es == [] then None
    else if Last(es).DriveStatus? then Some(Last(es).bits)
    else StatusDriven(Front(es))
  }

  function PendingDriven(es: seq<Event>): (d: Option<u32>) {
    if es == [] then None
    else if Last(es).DrivePending? then Some(Last(es).bits)
    else PendingDriven(Front(es))
  }

  lemma {:induction false} RawDriven(es: seq<Event>)
    ensures LastDriven(es, Cfg1) == StatusDriven(es)
    ensures LastDriven(es, MsiPend) == PendingDriven(es)
  {
    if es != [] {
      RawDriven(Front(es));
    }
  }

  // ------------------------------------------------------------------- slices of words

  /** Bits `lo` to `lo + w - 1` of a word. */
  function Slice(v: nat, lo: nat, w: nat): (r: nat) {
    v / Pow2(lo) % Pow2(w)
  }

  lemma SliceIsField(v: u32, lo: nat, w: nat)
    requires 0 < w && lo + w <= 32
    ensures NvDrfVal(Field(lo + w - 1, lo), v) == Slice(v, lo, w)
  {
    hide NvDrfVal, Pow2;
    FieldIsQuotient(Field(lo + w - 1, lo), v, Pow2(lo), Pow2(w));
  }

  lemma SlicesAgree(v: u32, v': u32, lo: nat, w: nat)
    requires 0 < w && lo + w <= 32 && forall i: nat :: lo <= i < lo + w ==> Bit(v, i) == Bit(v', i)
    ensures Slice(v, lo, w) == Slice(v', lo, w)
  {
    hide NvDrfVal, Pow2, Bit, Slice;
    SliceIsField(v, lo, w);
    SliceIsField(v', lo, w);
    ValDependsOnCovered(Field(lo + w - 1, lo), v, v');
  }

  /** A slice of a mask that is all ones, or all zeros. */
  lemma MaskSlice(m: u32, lo: nat, w: nat)
    requires 0 < w && lo + w <= 32
    ensures Slice(m, lo, w) == Pow2(w) - 1 ==> forall i: nat :: lo <= i < lo + w ==> Bit(m, i)
    ensures Slice(m, lo, w) == 0 ==> forall i: nat :: lo <= i < lo + w ==> !Bit(m, i)
  {
    hide NvDrfVal, Pow2, Bit, Slice;
    var f := Field(lo + w - 1, lo);
    SliceIsField(m, lo, w);
    BitsOfSlice(m, f);
    assert forall i: nat :: lo <= i < lo + w ==> Covers(f, i);
  }

  predicate AllOnes(m: u32, lo: nat, w: nat) {
    Slice(m, lo, w) == Pow2(w) - 1
  }

  predicate AllZero(m: u32, lo: nat, w: nat) {
    Slice(m, lo, w) == 0
  }

  /** What a slice starts as: the reset value, the strap, or zero. */
  lemma ResetSlice(strap: State, r: Reg, lo: nat, w: nat)
    requires 0 < w && lo + w <= 32
    ensures AllOnes(ResetMask(r), lo, w) ==> Slice(Reset(strap)(r), lo, w) == Slice(ResetVal(r), lo, w)
    ensures AllZero(ResetMask(r), lo, w) && AllOnes(ReadMask(r), lo, w) ==>
      Slice(Reset(strap)(r), lo, w) == Slice(strap(r), lo, w)
    ensures AllZero(ResetMask(r), lo, w) && AllZero(ReadMask(r), lo, w) ==>
      Slice(Reset(strap)(r), lo, w) == Slice(0, lo, w)
  {
    hide Slice, Bit, Merge, And, ResetVal, ResetMask, ReadMask;
    MaskSlice(ResetMask(r), lo, w);
    MaskSlice(ReadMask(r), lo, w);
    BitsOfAnd(strap(r), ReadMask(r));
    BitsOfZero();
    MergeBits(And(strap(r), ReadMask(r)), ResetVal(r), ResetMask(r));
    if AllOnes(ResetMask(r), lo, w) {
      SlicesAgree(Reset(strap)(r), ResetVal(r), lo, w);
    } else if AllZero(ResetMask(r), lo, w) && AllOnes(ReadMask(r), lo, w) {
      SlicesAgree(Reset(strap)(r), strap(r), lo, w);
    } else if AllZero(ResetMask(r), lo, w) && AllZero(ReadMask(r), lo, w) {
      SlicesAgree(Reset(strap)(r), 0, lo, w);
    }
  }

  /** What a slice is after a run: the data last written, the bits last driven, or what it started as. */
  lemma SliceAfter(es: seq<Event>, strap: State, r: Reg, lo: nat, w: nat)
    requires 0 < w && lo + w <= 32 && r != Cfg11
    ensures AllZero(HardwareMask(r), lo, w) && AllOnes(WriteMask(r), lo, w) && LastWritten(es, r).Some? ==>
      Slice(After(es, strap)(r), lo, w) == Slice(LastWritten(es, r).value, lo, w)
    ensures AllZero(HardwareMask(r), lo, w) && (AllZero(WriteMask(r), lo, w) || LastWritten(es, r).None?) ==>
      Slice(After(es, strap)(r), lo, w) == Slice(Reset(strap)(r), lo, w)
    ensures AllOnes(HardwareMask(r), lo, w) && (r == Cfg1 || r == MsiPend) ==>
      Slice(After(es, strap)(r), lo, w) ==
        match LastDriven(es, r)
        case None => Slice(Reset(strap)(r), lo, w)
        case Some(b) => Slice(b, lo, w)
  {
    hide Slice, Bit, After, Reset, HardwareMask, WriteMask, LastWritten, LastDriven;
    MaskSlice(HardwareMask(r), lo, w);
    MaskSlice(WriteMask(r), lo, w);
    if AllZero(HardwareMask(r), lo, w) {
      forall i: nat | lo <= i < lo + w {
        QuietBit(es, strap, r, i);
      }
      if AllZero(WriteMask(r), lo, w) || LastWritten(es, r).None? {
        SlicesAgree(After(es, strap)(r), Reset(strap)(r), lo, w);
      } else if AllOnes(WriteMask(r), lo, w) {
        SlicesAgree(After(es, strap)(r), LastWritten(es, r).value, lo, w);
      }
    }
    if AllOnes(HardwareMask(r), lo, w) && (r == Cfg1 || r == MsiPend) {
      forall i: nat | lo <= i < lo + w {
        DrivenBit(es, strap, r, i);
      }
      SlicesAgree(After(es, strap)(r), match LastDriven(es, r) case None => Reset(strap)(r) case Some(b) => b, lo, w);
    }
  }

  // ---------------------------------------------------------------- the book

  lemma {:induction false} TwoTo(k: nat)
    requires k <= 32
    ensures Pow2(k) ==
      match k
      case 0 => 0x1
      case 1 => 0x2
      case 2 => 0x4
      case 3 => 0x8
      case 4 => 0x10
      case 5 => 0x20
      case 6 => 0x40
      case 7 => 0x80
      case 8 => 0x100
      case 9 => 0x200
      case 10 => 0x400
      case 11 => 0x800
      case 12 => 0x1000
      case 13 => 0x2000
      case 14 => 0x4000
      case 15 => 0x8000
      case 16 => 0x10000
      case 17 => 0x20000
      case 18 => 0x40000
      case 19 => 0x80000
      case 20 => 0x100000
      case 21 => 0x200000
      case 22 => 0x400000
      case 23 => 0x800000
      case 24 => 0x1000000
      case 25 => 0x2000000
      case 26 => 0x4000000
      case 27 => 0x8000000
      case 28 => 0x10000000
      case 29 => 0x20000000
      case 30 => 0x40000000
      case 31 => 0x80000000
      case _ => 0x100000000
  {
    if k > 0 {
      TwoTo(k - 1);
    }
  }

  /** A slice with the powers of two written out. */
  function Cut(v: nat, p: nat, q: nat): (r: nat)
    requires p > 0 && q > 0
  {
    v / p % q
  }

  /** Bits `lo` to `lo + w - 1`, with `p` and `q` the powers of two that cut them out. */
  predicate Place(lo: nat, w: nat, p: nat, q: nat) {
    0 < w && lo + w <= 32 && Pow2(lo) == p && Pow2(w) == q
  }

  lemma SliceIsCut(v: nat, lo: nat, w: nat)
    ensures Slice(v, lo, w) == Cut(v, Pow2(lo), Pow2(w))
  {
    hide Pow2;
  }

  /** A slice the software may write, zero at reset. */
  lemma Writable(es: seq<Event>, strap: State, r: Reg, offset: nat, lo: nat, w: nat, p: nat, q: nat)
    requires Place(lo, w, p, q) && r != Cfg11 && forall o: nat :: Decode(o) == Some(r) <==> o == offset
    requires Cut(HardwareMask(r), p, q) == 0 && Cut(WriteMask(r), p, q) == q - 1
    requires Cut(ResetMask(r), p, q) == q - 1 && Cut(ResetVal(r), p, q) == 0
    ensures Cut(After(es, strap)(r), p, q) == Cut(DataAt(es, offset, 0), p, q)
  {
    hide After, Reset, HardwareMask, WriteMask, ResetMask, ResetVal, LastWritten, LastAt, LastDriven, Pow2, Cut, Slice;
    SliceAfter(es, strap, r, lo, w);
    ResetSlice(strap, r, lo, w);
    RawOffset(es, r, offset);
    SliceIsCut(HardwareMask(r), lo, w);
    SliceIsCut(WriteMask(r), lo, w);
    SliceIsCut(ResetMask(r), lo, w);
    SliceIsCut(ResetVal(r), lo, w);
    SliceIsCut(After(es, strap)(r), lo, w);
    SliceIsCut(DataAt(es, offset, 0), lo, w);
    SliceOfZero(lo, w);
  }

  lemma SliceOfZero(lo: nat, w: nat)
    ensures Slice(0, lo, w) == 0
  {
    DivModUnique(0, Pow2(lo), 0, 0);
    DivModUnique(0, Pow2(w), 0, 0);
  }

  /** A slice nobody writes keeps what it started as. */
  lemma Untouchable(es: seq<Event>, strap: State, r: Reg, lo: nat, w: nat, p: nat, q: nat)
    requires Place(lo, w, p, q) && r != Cfg11
    requires Cut(HardwareMask(r), p, q) == 0 && Cut(WriteMask(r), p, q) == 0
    ensures Cut(After(es, strap)(r), p, q) == Cut(Reset(strap)(r), p, q)
  {
    hide After, Reset, HardwareMask, WriteMask, LastWritten, LastDriven, Pow2, Cut, Slice;
    SliceAfter(es, strap, r, lo, w);
    SliceIsCut(HardwareMask(r), lo, w);
    SliceIsCut(WriteMask(r), lo, w);
    SliceIsCut(After(es, strap)(r), lo, w);
    SliceIsCut(Reset(strap)(r), lo, w);
  }

  /** That is the reset value, where the header gives one. */
  lemma Fixed(es: seq<Event>, strap: State, r: Reg, lo: nat, w: nat, p: nat, q: nat)
    requires Place(lo, w, p, q) && r != Cfg11
    requires Cut(HardwareMask(r), p, q) == 0 && Cut(WriteMask(r), p, q) == 0 && Cut(ResetMask(r), p, q) == q - 1
    ensures Cut(After(es, strap)(r), p, q) == Cut(ResetVal(r), p, q)
  {
    hide After, Reset, HardwareMask, WriteMask, ResetMask, ReadMask, ResetVal, Pow2, Cut, Slice;
    Untouchable(es, strap, r, lo, w, p, q);
    ResetSlice(strap, r, lo, w);
    SliceIsCut(ResetMask(r), lo, w);
    SliceIsCut(ResetVal(r), lo, w);
    SliceIsCut(Reset(strap)(r), lo, w);
  }

  /** The strap, where it gives none but the bits can be read. */
  lemma Strapped(es: seq<Event>, strap: State, r: Reg, lo: nat, w: nat, p: nat, q: nat)
    requires Place(lo, w, p, q) && r != Cfg11
    requires Cut(HardwareMask(r), p, q) == 0 && Cut(WriteMask(r), p, q) == 0
    requires Cut(ResetMask(r), p, q) == 0 && Cut(ReadMask(r), p, q) == q - 1
    ensures Cut(After(es, strap)(r), p, q) == Cut(strap(r), p, q)
  {
    hide After, Reset, HardwareMask, WriteMask, ResetMask, ReadMask, ResetVal, Pow2, Cut, Slice;
    Untouchable(es, strap, r, lo, w, p, q);
    ResetSlice(strap, r, lo, w);
    SliceIsCut(ResetMask(r), lo, w);
    SliceIsCut(ReadMask(r), lo, w);
    SliceIsCut(strap(r), lo, w);
    SliceIsCut(Reset(strap)(r), lo, w);
  }

  /** And zero where they cannot. */
  lemma Absent(es: seq<Event>, strap: State, r: Reg, lo: nat, w: nat, p: nat, q: nat)
    requires Place(lo, w, p, q) && r != Cfg11
    requires Cut(HardwareMask(r), p, q) == 0 && Cut(WriteMask(r), p, q) == 0
    requires Cut(ResetMask(r), p, q) == 0 && Cut(ReadMask(r), p, q) == 0
    ensures Cut(After(es, strap)(r), p, q) == 0
  {
    hide After, Reset, HardwareMask, WriteMask, ResetMask, ReadMask, ResetVal, Pow2, Cut, Slice;
    Untouchable(es, strap, r, lo, w, p, q);
    ResetSlice(strap, r, lo, w);
    SliceIsCut(ResetMask(r), lo, w);
    SliceIsCut(ReadMask(r), lo, w);
    SliceIsCut(Reset(strap)(r), lo, w);
    SliceOfZero(lo, w);
  }

  /** A slice the hardware drives. */
  lemma Driven(es: seq<Event>, strap: State, r: Reg, lo: nat, w: nat, p: nat, q: nat)
    requires Place(lo, w, p, q) && (r == Cfg1 || r == MsiPend) && Cut(HardwareMask(r), p, q) == q - 1
    ensures Cut(After(es, strap)(r), p, q) ==
      match if r == Cfg1 then StatusDriven(es) else PendingDriven(es)
      case None => Cut(Reset(strap)(r), p, q)
      case Some(b) => Cut(b, p, q)
  {
    hide After, Reset, HardwareMask, WriteMask, LastWritten, LastDriven, StatusDriven, PendingDriven, Pow2, Cut, Slice;
    SliceAfter(es, strap, r, lo, w);
    RawDriven(es);
    SliceIsCut(HardwareMask(r), lo, w);
    SliceIsCut(After(es, strap)(r), lo, w);
    SliceIsCut(Reset(strap)(r), lo, w);
    if LastDriven(es, r).Some? {
      SliceIsCut(LastDriven(es, r).value, lo, w);
    }
  }

  /** What the header or the strap gives a driven slice to start with. */
  lemma DrivenFrom(strap: State, r: Reg, lo: nat, w: nat, p: nat, q: nat)
    requires Place(lo, w, p, q)
    ensures Cut(ResetMask(r), p, q) == q - 1 ==> Cut(Reset(strap)(r), p, q) == Cut(ResetVal(r), p, q)
    ensures Cut(ResetMask(r), p, q) == 0 && Cut(ReadMask(r), p, q) == q - 1 ==>
      Cut(Reset(strap)(r), p, q) == Cut(strap(r), p, q)
  {
    hide Reset, ResetMask, ReadMask, ResetVal, Pow2, Cut, Slice;
    ResetSlice(strap, r, lo, w);
    SliceIsCut(ResetMask(r), lo, w);
    SliceIsCut(ReadMask(r), lo, w);
    SliceIsCut(ResetVal(r), lo, w);
    SliceIsCut(strap(r), lo, w);
    SliceIsCut(Reset(strap)(r), lo, w);
  }

  /** Peeling a slice off the low end of a quotient. */
  lemma Peel(v: nat, p: nat, q: nat, pq: nat)
    requires p > 0 && q > 0 && pq == p * q
    ensures v / p == Cut(v, p, q) + q * (v / pq)
  {
    var x, r := v / p, v % p;
    var y, z := x / q, x % q;
    Regroup(v, p, q, x, r, y, z);
    DivModUnique(v, pq, y, z * p + r);
  }

  lemma Regroup(v: nat, p: nat, q: nat, x: nat, r: nat, y: nat, z: nat)
    requires v == x * p + r && r < p && x == y * q + z && z < q
    ensures v == y * (p * q) + (z * p + r) && z * p + r < p * q
  {
    Distribute(y * q, z, p);
    Associate(y, q, p);
    Distribute(z, 1, p);
    Scale(z + 1, q, p);
  }

  lemma Distribute(a: nat, b: nat, c: nat)
    ensures (a + b) * c == a * c + b * c
  {
  }

  lemma Associate(a: nat, b: nat, c: nat)
    ensures a * b * c == a * (c * b)
  {
  }

  lemma Scale(a: nat, b: nat, c: nat)
    requires a <= b
    ensures a * c <= b * c
  {
  }

  /** Fixed words. */
  lemma Cfg0Word(es: seq<Event>, strap: State)
    ensures After(es, strap)(Cfg0) == 0x10ff10de
  {
    hide Pow2, After, Reset, LastWritten, LastDriven, LastAt;
    TwoTo(0);
    TwoTo(32);
    Fixed(es, strap, Cfg0, 0, 32, 0x1, 0x100000000);
  }

  lemma Cfg2Word(es: seq<Event>, strap: State)
    ensures After(es, strap)(Cfg2) == 0xc03fea1
  {
    hide Pow2, After, Reset, LastWritten, LastDriven, LastAt;
    TwoTo(0);
    TwoTo(32);
    Fixed(es, strap, Cfg2, 0, 32, 0x1, 0x100000000);
  }

  lemma Cfg3Word(es: seq<Event>, strap: State)
    ensures After(es, strap)(Cfg3) == 0
  {
    hide Pow2, After, Reset, LastWritten, LastDriven, LastAt;
    TwoTo(0);
    TwoTo(3);
    TwoTo(8);
    TwoTo(11);
    TwoTo(13);
    TwoTo(24);
    Fixed(es, strap, Cfg3, 0, 8, 0x1, 0x100);
    Absent(es, strap, Cfg3, 8, 3, 0x100, 0x8);
    Fixed(es, strap, Cfg3, 11, 13, 0x800, 0x2000);
    Absent(es, strap, Cfg3, 24, 8, 0x1000000, 0x100);
    Peel(After(es, strap)(Cfg3), 0x1, 0x100, 0x100);
    Peel(After(es, strap)(Cfg3), 0x100, 0x8, 0x800);
    Peel(After(es, strap)(Cfg3), 0x800, 0x2000, 0x1000000);
    Peel(After(es, strap)(Cfg3), 0x1000000, 0x100, 0x100000000);
  }

  lemma Cfg13Word(es: seq<Event>, strap: State)
    ensures After(es, strap)(Cfg13) == 0x44
  {
    hide Pow2, After, Reset, LastWritten, LastDriven, LastAt;
    TwoTo(0);
    TwoTo(8);
    TwoTo(24);
    Fixed(es, strap, Cfg13, 0, 8, 0x1, 0x100);
    Absent(es, strap, Cfg13, 8, 24, 0x100, 0x1000000);
    Peel(After(es, strap)(Cfg13), 0x1, 0x100, 0x100);
    Peel(After(es, strap)(Cfg13), 0x100, 0x1000000, 0x100000000);
  }

  /** The strapped power management capability. */
  lemma Cfg17Word(es: seq<Event>, strap: State)
    ensures After(es, strap)(Cfg17) == strap(Cfg17)
  {
    hide Pow2, After, Reset, LastWritten, LastDriven, LastAt;
    TwoTo(0);
    TwoTo(32);
    Strapped(es, strap, Cfg17, 0, 32, 0x1, 0x100000000);
  }

  /** The base address registers. */
  lemma Cfg4Word(es: seq<Event>, strap: State)
    ensures After(es, strap)(Cfg4) == DataAt(es, 0x10, 0) / 0x8000 * 0x8000 + 0xc
  {
    hide Pow2, After, Reset, LastWritten, LastDriven, LastAt;
    TwoTo(0);
    TwoTo(15);
    TwoTo(17);
    Fixed(es, strap, Cfg4, 0, 15, 0x1, 0x8000);
    Writable(es, strap, Cfg4, 0x10, 15, 17, 0x8000, 0x20000);
    Peel(After(es, strap)(Cfg4), 0x1, 0x8000, 0x8000);
    Peel(After(es, strap)(Cfg4), 0x8000, 0x20000, 0x100000000);
  }

  lemma Cfg5Word(es: seq<Event>, strap: State)
    ensures After(es, strap)(Cfg5) == DataAt(es, 0x14, 0)
  {
    hide Pow2, After, Reset, LastWritten, LastDriven, LastAt;
    TwoTo(0);
    TwoTo(32);
    Writable(es, strap, Cfg5, 0x14, 0, 32, 0x1, 0x100000000);
  }

  /** The interrupt line, below a pin that reads one. */
  lemma Cfg15Word(es: seq<Event>, strap: State)
    ensures After(es, strap)(Cfg15) == 0x100 + DataAt(es, 0x3C, 0) % 0x100
  {
    hide Pow2, After, Reset, LastWritten, LastDriven, LastAt;
    TwoTo(0);
    TwoTo(8);
    TwoTo(24);
    Writable(es, strap, Cfg15, 0x3C, 0, 8, 0x1, 0x100);
    Fixed(es, strap, Cfg15, 8, 24, 0x100, 0x1000000);
    Peel(After(es, strap)(Cfg15), 0x1, 0x100, 0x100);
    Peel(After(es, strap)(Cfg15), 0x100, 0x1000000, 0x100000000);
  }

  /** The backdoor. */
  lemma Cfg16Word(es: seq<Event>, strap: State)
    ensures After(es, strap)(Cfg16) == DataAt(es, 0x40, 0)
  {
    hide Pow2, After, Reset, LastWritten, LastDriven, LastAt;
    TwoTo(0);
    TwoTo(32);
    Writable(es, strap, Cfg16, 0x40, 0, 32, 0x1, 0x100000000);
  }

  lemma MsiCtrlLow(es: seq<Event>, strap: State)
    ensures After(es, strap)(MsiCtrl) % 0x100000 == 5 + DataAt(es, 0xC0, 0) / 0x10000 % 2 * 0x10000
  {
    hide Pow2, After, Reset, LastWritten, LastAt;
    TwoTo(0);
    TwoTo(1);
    TwoTo(3);
    TwoTo(16);
    TwoTo(17);
    Fixed(es, strap, MsiCtrl, 0, 16, 0x1, 0x10000);
    Writable(es, strap, MsiCtrl, 0xC0, 16, 1, 0x10000, 0x2);
    Fixed(es, strap, MsiCtrl, 17, 3, 0x20000, 0x8);
    var v := After(es, strap)(MsiCtrl);
    Peel(v, 0x1, 0x10000, 0x10000);
    Peel(v, 0x10000, 0x2, 0x20000);
    Peel(v, 0x20000, 0x8, 0x100000);
  }

  lemma MsiCtrlHigh(es: seq<Event>, strap: State)
    ensures After(es, strap)(MsiCtrl) / 0x100000 == 8 + DataAt(es, 0xC0, 0) / 0x100000 % 8
  {
    hide Pow2, After, Reset, LastWritten, LastAt;
    TwoTo(2);
    TwoTo(3);
    TwoTo(7);
    TwoTo(20);
    TwoTo(23);
    TwoTo(25);
    Writable(es, strap, MsiCtrl, 0xC0, 20, 3, 0x100000, 0x8);
    Fixed(es, strap, MsiCtrl, 23, 2, 0x800000, 0x4);
    Absent(es, strap, MsiCtrl, 25, 7, 0x2000000, 0x80);
    var v := After(es, strap)(MsiCtrl);
    Peel(v, 0x100000, 0x8, 0x800000);
    Peel(v, 0x800000, 0x4, 0x2000000);
    Peel(v, 0x2000000, 0x80, 0x1_0000_0000);
  }

  /** The registers of message signalled interrupts. */
  lemma MsiCtrlWord(es: seq<Event>, strap: State)
    ensures var d := DataAt(es, 0xC0, 0);
      After(es, strap)(MsiCtrl) == 0x800005 + d / 0x10000 % 2 * 0x10000 + d / 0x100000 % 8 * 0x100000
  {
    hide After, DataAt;
    MsiCtrlLow(es, strap);
    MsiCtrlHigh(es, strap);
    Peel(After(es, strap)(MsiCtrl), 1, 0x100000, 0x100000);
  }

  lemma MsiAddr1Word(es: seq<Event>, strap: State)
    ensures After(es, strap)(MsiAddr1) == DataAt(es, 0xC4, 0) / 4 * 4
  {
    hide Pow2, After, Reset, LastWritten, LastDriven, LastAt;
    TwoTo(0);
    TwoTo(2);
    TwoTo(30);
    Absent(es, strap, MsiAddr1, 0, 2, 0x1, 0x4);
    Writable(es, strap, MsiAddr1, 0xC4, 2, 30, 0x4, 0x40000000);
    Peel(After(es, strap)(MsiAddr1), 0x1, 0x4, 0x4);
    Peel(After(es, strap)(MsiAddr1), 0x4, 0x40000000, 0x100000000);
  }

  lemma MsiAddr2Word(es: seq<Event>, strap: State)
    ensures After(es, strap)(MsiAddr2) == DataAt(es, 0xC8, 0)
  {
    hide Pow2, After, Reset, LastWritten, LastDriven, LastAt;
    TwoTo(0);
    TwoTo(32);
    Writable(es, strap, MsiAddr2, 0xC8, 0, 32, 0x1, 0x100000000);
  }

  lemma MsiDataWord(es: seq<Event>, strap: State)
    ensures After(es, strap)(MsiData) == DataAt(es, 0xCC, 0) % 0x10000
  {
    hide Pow2, After, Reset, LastWritten, LastDriven, LastAt;
    TwoTo(0);
    TwoTo(16);
    Writable(es, strap, MsiData, 0xCC, 0, 16, 0x1, 0x10000);
    Absent(es, strap, MsiData, 16, 16, 0x10000, 0x10000);
    Peel(After(es, strap)(MsiData), 0x1, 0x10000, 0x10000);
    Peel(After(es, strap)(MsiData), 0x10000, 0x10000, 0x100000000);
  }

  lemma MsiMaskWord(es: seq<Event>, strap: State)
    ensures After(es, strap)(MsiMask) == DataAt(es, 0xD0, 0) % 2
  {
    hide Pow2, After, Reset, LastWritten, LastDriven, LastAt;
    TwoTo(0);
    TwoTo(1);
    TwoTo(31);
    Writable(es, strap, MsiMask, 0xD0, 0, 1, 0x1, 0x2);
    Absent(es, strap, MsiMask, 1, 31, 0x2, 0x80000000);
    Peel(After(es, strap)(MsiMask), 0x1, 0x2, 0x2);
    Peel(After(es, strap)(MsiMask), 0x2, 0x80000000, 0x100000000);
  }

  lemma MsiQueueWord(es: seq<Event>, strap: State)
    ensures After(es, strap)(MsiQueue) == DataAt(es, 0xD8, 0) % 2
  {
    hide Pow2, After, Reset, LastWritten, LastDriven, LastAt;
    TwoTo(0);
    TwoTo(1);
    TwoTo(31);
    Writable(es, strap, MsiQueue, 0xD8, 0, 1, 0x1, 0x2);
    Absent(es, strap, MsiQueue, 1, 31, 0x2, 0x80000000);
    Peel(After(es, strap)(MsiQueue), 0x1, 0x2, 0x2);
    Peel(After(es, strap)(MsiQueue), 0x2, 0x80000000, 0x100000000);
  }

  lemma MsiMapHigh(es: seq<Event>, strap: State)
    ensures After(es, strap)(MsiMap) / 0x20000 == 0x5401
  {
    hide Pow2, After, Reset, LastWritten, LastAt;
    TwoTo(1);
    TwoTo(5);
    TwoTo(9);
    TwoTo(17);
    TwoTo(18);
    TwoTo(27);
    Fixed(es, strap, MsiMap, 17, 1, 0x20000, 0x2);
    Absent(es, strap, MsiMap, 18, 9, 0x40000, 0x200);
    Fixed(es, strap, MsiMap, 27, 5, 0x8000000, 0x20);
    var v := After(es, strap)(MsiMap);
    Peel(v, 0x20000, 0x2, 0x40000);
    Peel(v, 0x40000, 0x200, 0x8000000);
    Peel(v, 0x8000000, 0x20, 0x1_0000_0000);
  }

  lemma MsiMapWord(es: seq<Event>, strap: State)
    ensures After(es, strap)(MsiMap) == 0xa8020008 + DataAt(es, 0xDC, 0) / 0x10000 % 2 * 0x10000
  {
    hide Pow2, After, Reset, LastWritten, LastAt;
    MsiMapHigh(es, strap);
    TwoTo(0);
    TwoTo(1);
    TwoTo(16);
    Fixed(es, strap, MsiMap, 0, 16, 0x1, 0x10000);
    Writable(es, strap, MsiMap, 0xDC, 16, 1, 0x10000, 0x2);
    var v := After(es, strap)(MsiMap);
    Peel(v, 0x1, 0x10000, 0x10000);
    Peel(v, 0x10000, 0x2, 0x20000);
  }

  /** Pending messages are the hardware's. */
  lemma MsiPendWord(es: seq<Event>, strap: State)
    ensures After(es, strap)(MsiPend) ==
      match PendingDriven(es)
      case None => 0
      case Some(b) => b % 0x10000
  {
    hide Pow2, After, Reset, LastWritten, LastDriven, LastAt;
    TwoTo(0);
    TwoTo(16);
    Driven(es, strap, MsiPend, 0, 16, 0x1, 0x10000);
    DrivenFrom(strap, MsiPend, 0, 16, 0x1, 0x10000);
    Absent(es, strap, MsiPend, 16, 16, 0x10000, 0x10000);
    Peel(After(es, strap)(MsiPend), 0x1, 0x10000, 0x10000);
    Peel(After(es, strap)(MsiPend), 0x10000, 0x10000, 0x100000000);
  }

  /** The command bits are as last written. */
  lemma Cfg1Low(es: seq<Event>, strap: State)
    ensures var d := DataAt(es, 0x04, 0);
      After(es, strap)(Cfg1) % 0x80000 == d % 8 + d / 0x400 % 2 * 0x400
  {
    hide Pow2, After, Reset, LastWritten, LastAt;
    TwoTo(0);
    TwoTo(1);
    TwoTo(3);
    TwoTo(7);
    TwoTo(8);
    TwoTo(10);
    TwoTo(11);
    Writable(es, strap, Cfg1, 0x04, 0, 3, 1, 8);
    Fixed(es, strap, Cfg1, 3, 7, 8, 0x80);
    Writable(es, strap, Cfg1, 0x04, 10, 1, 0x400, 2);
    Absent(es, strap, Cfg1, 11, 8, 0x800, 0x100);
    var v := After(es, strap)(Cfg1);
    Peel(v, 1, 8, 8);
    Peel(v, 8, 0x80, 0x400);
    Peel(v, 0x400, 2, 0x800);
    Peel(v, 0x800, 0x100, 0x80000);
  }

  /** The status bits 19, 24 and 27 to 31 are the hardware's. */
  lemma Cfg1Status(es: seq<Event>, strap: State)
    ensures var v := After(es, strap)(Cfg1);
      match StatusDriven(es)
      case None => v / 0x80000 % 2 == strap(Cfg1) / 0x80000 % 2 && v / 0x1000000 % 2 == 0 && v / 0x8000000 % 0x20 == 0
      case Some(b) =>
        v / 0x80000 % 2 == b / 0x80000 % 2 && v / 0x1000000 % 2 == b / 0x1000000 % 2
        && v / 0x8000000 % 0x20 == b / 0x8000000 % 0x20
  {
    hide Pow2, After, Reset, StatusDriven;
    TwoTo(1);
    TwoTo(5);
    TwoTo(19);
    TwoTo(24);
    TwoTo(27);
    Driven(es, strap, Cfg1, 19, 1, 0x80000, 2);
    DrivenFrom(strap, Cfg1, 19, 1, 0x80000, 2);
    Driven(es, strap, Cfg1, 24, 1, 0x1000000, 2);
    DrivenFrom(strap, Cfg1, 24, 1, 0x1000000, 2);
    Driven(es, strap, Cfg1, 27, 5, 0x8000000, 0x20);
    DrivenFrom(strap, Cfg1, 27, 5, 0x8000000, 0x20);
  }

  lemma Cfg1FixedSlices(es: seq<Event>, strap: State)
    ensures var v := After(es, strap)(Cfg1);
      Cut(v, 0x100000, 4) == 3 && Cut(v, 0x400000, 2) == 0 && Cut(v, 0x800000, 2) == 1 && Cut(v, 0x2000000, 4) == 0
  {
    hide Pow2, After, Reset;
    TwoTo(1);
    TwoTo(2);
    TwoTo(20);
    TwoTo(22);
    TwoTo(23);
    TwoTo(25);
    Fixed(es, strap, Cfg1, 20, 2, 0x100000, 4);
    Absent(es, strap, Cfg1, 22, 1, 0x400000, 2);
    Fixed(es, strap, Cfg1, 23, 1, 0x800000, 2);
    Fixed(es, strap, Cfg1, 25, 2, 0x2000000, 4);
  }

  /** Capability list, 66 MHz and fast back-to-back read one. */
  lemma Cfg1Constants(es: seq<Event>, strap: State)
    ensures var v := After(es, strap)(Cfg1); v / 0x100000 % 0x10 == 0xb && v / 0x2000000 % 4 == 0
  {
    hide After;
    Cfg1FixedSlices(es, strap);
    var v := After(es, strap)(Cfg1);
    assert v / 0x2000000 % 4 == Cut(v, 0x2000000, 4);
    hide Cut;
    Peel(v, 0x100000, 4, 0x400000);
    Peel(v, 0x400000, 2, 0x800000);
    Peel(v, 0x800000, 2, 0x1000000);
    assert v / 0x100000 == 0xb + 0x10 * (v / 0x1000000);
  }

  /** The status bits of a word the hardware drives. */
  function StatusBits(b: nat): (r: nat) {
    b / 0x80000 % 2 * 0x80000 + b / 0x1000000 % 2 * 0x1000000 + b / 0x8000000 % 0x20 * 0x8000000
  }

  /** The command and status register. */
  lemma Cfg1Word(es: seq<Event>, strap: State)
    ensures var d := DataAt(es, 0x04, 0);
      After(es, strap)(Cfg1) == d % 8 + d / 0x400 % 2 * 0x400 + 0xb00000 +
        match StatusDriven(es)
        case None => strap(Cfg1) / 0x80000 % 2 * 0x80000
        case Some(b) => StatusBits(b)
  {
    hide After, DataAt, StatusDriven;
    Cfg1Low(es, strap);
    Cfg1Status(es, strap);
    Cfg1Constants(es, strap);
    var v := After(es, strap)(Cfg1);
    Cfg1Sum(v);
  }

  lemma Cfg1Sum(v: u32)
    ensures v == v % 0x80000 + v / 0x100000 % 0x10 * 0x100000 + v / 0x2000000 % 4 * 0x2000000 + StatusBits(v)
  {
    Peel(v, 1, 0x80000, 0x80000);
    Peel(v, 0x80000, 2, 0x100000);
    Peel(v, 0x100000, 0x10, 0x1000000);
    Peel(v, 0x1000000, 2, 0x2000000);
    Peel(v, 0x2000000, 4, 0x8000000);
    Peel(v, 0x8000000, 0x20, 0x1_0000_0000);
  }
}
