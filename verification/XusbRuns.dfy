/**
 What holds in every run of the configuration space: the PME status protocol, the base
 address register, the capability list, and the bring-up sequence of the device driver.
 */
module XusbRuns {
  import opened Bits
  import opened Options
  import opened Drf
  import opened DrfRuns
  import opened NvCommon
  import opened XusbBook
  import opened XusbConfig

  const PWRSTATE := Field(1, 0)
  const PMESTATUS := Field(15, 15)
  const MEMORY_SPACE := Field(1, 1)
  const BUS_MASTER := Field(2, 2)
  const CAP_PTR := Field(7, 0)
  const NEXT_PTR := Field(15, 8)

  // ------------------------------------------------------------------- PME status

  /** A write of a one to bit 15 at offset 0x48. */
  predicate Acknowledges(e: Event) {
    e.Write? && e.offset == 0x48 && e.data / 0x8000 % 2 == 1
  }

  /** Some PME event has not been acknowledged since. */
  ghost predicate PmeOutstanding(es: seq<Event>) {
    exists i :: 0 <= i < |es| && es[i] == Pme && forall j :: i < j < |es| ==> !Acknowledges(es[j])
  }

  lemma PmcsrBit15()
    ensures Bit(ClearMask(Pmcsr), 15) && Bit(ResetMask(Pmcsr), 15)
  {
    SmallPowers(15);
    BitIsQuotient(0x8000, 15);
    BitIsQuotient(0x8103, 15);
  }

  lemma PmeStep(s: State, e: Event)
    ensures Bit(Step(s, e)(Pmcsr), 15) == if e.Pme? then true else Bit(s(Pmcsr), 15) && !Acknowledges(e)
  {
    PmcsrBit15();
    if e.Write? {
      SmallPowers(15);
      BitIsQuotient(e.data, 15);
    }
    hide Bit, Written;
    if e.Write? && Decode(e.offset) == Some(Pmcsr) {
      WrittenBits(Pmcsr, s(Pmcsr), e.data);
    } else if e.Pme? {
      BitOr(s(Pmcsr), 0x8000, 15);
    }
  }

  lemma OutstandingStep(es: seq<Event>)
    requires es != []
    ensures PmeOutstanding(es) <==> Last(es) == Pme || (PmeOutstanding(Front(es)) && !Acknowledges(Last(es)))
  {
    var n := |es| - 1;
    if PmeOutstanding(es) && Last(es) != Pme {
      var i :| 0 <= i < |es| && es[i] == Pme && forall j :: i < j < |es| ==> !Acknowledges(es[j]);
      assert Front(es)[i] == Pme && !Acknowledges(es[n]);
    }
    if Last(es) == Pme {
      assert es[n] == Pme;
    }
    if PmeOutstanding(Front(es)) && !Acknowledges(Last(es)) {
      var i :| 0 <= i < n && Front(es)[i] == Pme && forall j :: i < j < n ==> !Acknowledges(Front(es)[j]);
      assert es[i] == Pme;
      forall j | i < j < |es| ensures !Acknowledges(es[j]) {
        assert j < n ==> Front(es)[j] == es[j];
      }
    }
  }

  /** In every run PMESTATUS is pending exactly when an event is still unacknowledged. */
  lemma {:induction false} PmeStatusTracksEvents(es: seq<Event>, strap: State)
    ensures Bit(After(es, strap)(Pmcsr), 15) <==> PmeOutstanding(es)
  {
    hide Bit, Step;
    PmcsrBit15();
    if es == [] {
      MergeBits(And(strap(Pmcsr), ReadMask(Pmcsr)), ResetVal(Pmcsr), ResetMask(Pmcsr));
      BitZero(15);
    } else {
      PmeStatusTracksEvents(Front(es), strap);
      PmeStep(After(Front(es), strap), Last(es));
      OutstandingStep(es);
    }
  }

  /**
   PMCSR after every run: power state and PME enable as last written, the status of the
   events, and straps in between.
   */
  lemma PmcsrWord(es: seq<Event>, strap: State)
    ensures var d, x := DataAt(es, 0x48, 0), strap(Pmcsr);
      After(es, strap)(Pmcsr) ==
        d % 4 + x / 4 % 0x40 * 4 + d / 0x100 % 2 * 0x100 + x / 0x200 % 0x40 * 0x200
        + (if PmeOutstanding(es) then 0x8000 else 0) + x / 0x10000 % 0x100 * 0x10000
  {
    PmcsrLow(es, strap);
    PmcsrHigh(es, strap);
    Peel(After(es, strap)(Pmcsr), 1, 0x8000, 0x8000);
  }

  lemma PmcsrLow(es: seq<Event>, strap: State)
    ensures var d, x := DataAt(es, 0x48, 0), strap(Pmcsr);
      After(es, strap)(Pmcsr) % 0x8000 == d % 4 + x / 4 % 0x40 * 4 + d / 0x100 % 2 * 0x100 + x / 0x200 % 0x40 * 0x200
  {
    hide Pow2, After, Reset, LastWritten, LastAt;
    TwoTo(0);
    TwoTo(1);
    TwoTo(2);
    TwoTo(6);
    TwoTo(8);
    TwoTo(9);
    Writable(es, strap, Pmcsr, 0x48, 0, 2, 1, 4);
    Strapped(es, strap, Pmcsr, 2, 6, 4, 0x40);
    Writable(es, strap, Pmcsr, 0x48, 8, 1, 0x100, 2);
    Strapped(es, strap, Pmcsr, 9, 6, 0x200, 0x40);
    var v := After(es, strap)(Pmcsr);
    Peel(v, 1, 4, 4);
    Peel(v, 4, 0x40, 0x100);
    Peel(v, 0x100, 2, 0x200);
    Peel(v, 0x200, 0x40, 0x8000);
  }

  lemma PmcsrHigh(es: seq<Event>, strap: State)
    ensures After(es, strap)(Pmcsr) / 0x8000 ==
      (if PmeOutstanding(es) then 1 else 0) + strap(Pmcsr) / 0x10000 % 0x100 * 2
  {
    hide Pow2, After, Reset, LastWritten, LastAt, PmeOutstanding;
    TwoTo(8);
    TwoTo(16);
    TwoTo(24);
    Strapped(es, strap, Pmcsr, 16, 8, 0x10000, 0x100);
    Absent(es, strap, Pmcsr, 24, 8, 0x1000000, 0x100);
    var v := After(es, strap)(Pmcsr);
    PmeStatusTracksEvents(es, strap);
    SmallPowers(15);
    BitIsQuotient(v, 15);
    Peel(v, 0x8000, 2, 0x10000);
    Peel(v, 0x10000, 0x100, 0x1000000);
    Peel(v, 0x1000000, 0x100, 0x1_0000_0000);
  }

  /** The fields used here, as quotients of the register words. */
  lemma FieldsUsed(v: u32)
    ensures NvDrfVal(PWRSTATE, v) == v % 4 && NvDrfVal(PMESTATUS, v) == v / 0x8000 % 2
    ensures NvDrfVal(MEMORY_SPACE, v) == v / 2 % 2 && NvDrfVal(BUS_MASTER, v) == v / 4 % 2
  {
    hide NvDrfVal, Pow2;
    SmallPowers(0);
    SmallPowers(1);
    SmallPowers(2);
    SmallPowers(15);
    FieldIsQuotient(PWRSTATE, v, 1, 4);
    FieldIsQuotient(PMESTATUS, v, 0x8000, 2);
    FieldIsQuotient(MEMORY_SPACE, v, 2, 2);
    FieldIsQuotient(BUS_MASTER, v, 4, 2);
  }

  /** Software modifies fields of the PMCSR word it read after `es`, and writes it back. */
  function WriteBack(es: seq<Event>, us: seq<Update>, strap: State): (e: Event) {
    Write(0x48, Low32(Run(us, After(es, strap)(Pmcsr))))
  }

  /** The state after a read following `es`, other events `mid`, and the write-back. */
  function Modified(es: seq<Event>, mid: seq<Event>, us: seq<Update>, strap: State): (s: State) {
    After(es + mid + [WriteBack(es, us, strap)], strap)
  }

  lemma ModifiedIsStep(es: seq<Event>, mid: seq<Event>, us: seq<Update>, strap: State)
    ensures Modified(es, mid, us, strap) == Step(After(es + mid, strap), WriteBack(es, us, strap))
  {
    hide WriteBack, Step;
    var all := es + mid + [WriteBack(es, us, strap)];
    assert Front(all) == es + mid;
  }

  /** The word written back carries, in each bit, the last update or the bit read. */
  lemma WriteBackBit(v: u32, us: seq<Update>, i: nat)
    requires i < 32
    ensures Bit(Low32(Run(us, v)), i) ==
      match LastCover(us, i)
      case None => Bit(v, i)
      case Some(u) => Sets(u, i)
  {
    hide Bit, Run, LastCover;
    Low32Bits(Run(us, v));
    RunBit(us, v, i);
  }

  /**
   Whatever happens between the read and the write-back, a PME is pending afterwards
   exactly when it was pending just before and the write-back did not put a one in bit 15:
   the last update touching the bit put a zero, or none did and no PME was pending at the read.
   */
  lemma PmeSurvivesExactly(es: seq<Event>, mid: seq<Event>, us: seq<Update>, strap: State)
    ensures Bit(Modified(es, mid, us, strap)(Pmcsr), 15) <==>
      && PmeOutstanding(es + mid)
      && match LastCover(us, 15)
         case None => !PmeOutstanding(es)
         case Some(u) => !Sets(u, 15)
  {
    hide Bit, Run, LastCover, Sets, Step, After, PmeOutstanding, Modified;
    ModifiedIsStep(es, mid, us, strap);
    WriteBackBit(After(es, strap)(Pmcsr), us, 15);
    SmallPowers(15);
    BitIsQuotient(WriteBack(es, us, strap).data, 15);
    PmeStatusTracksEvents(es, strap);
    PmeStatusTracksEvents(es + mid, strap);
    PmeStep(After(es + mid, strap), WriteBack(es, us, strap));
  }

  /** The power state and the PME enable are plain writable bits. */
  lemma PlainPmcsrBit(i: nat)
    requires i == 0 || i == 1 || i == 8
    ensures Bit(WriteMask(Pmcsr), i) && !Bit(HardwareMask(Pmcsr), i)
  {
    SmallPowers(i);
    BitIsQuotient(WriteMask(Pmcsr), i);
    BitIsQuotient(HardwareMask(Pmcsr), i);
  }

  lemma PlainBitWriteBack(es: seq<Event>, mid: seq<Event>, us: seq<Update>, strap: State, i: nat)
    requires i == 0 || i == 1 || i == 8
    ensures Bit(Modified(es, mid, us, strap)(Pmcsr), i) == Bit(Run(us, After(es, strap)(Pmcsr)), i)
  {
    hide Bit, Run, Step, After, Modified;
    ModifiedIsStep(es, mid, us, strap);
    Low32Bits(Run(us, After(es, strap)(Pmcsr)));
    PlainPmcsrBit(i);
    QuietBitStep(After(es + mid, strap), WriteBack(es, us, strap), Pmcsr, i);
  }

  /** However the other fields are changed and whatever happens in between, a final power state is stored. */
  lemma PowerStateIsStored(es: seq<Event>, mid: seq<Event>, us: seq<Update>, strap: State, n: u64)
    requires us != [] && Last(us) == Update(PWRSTATE, n)
    ensures NvDrfVal(PWRSTATE, Modified(es, mid, us, strap)(Pmcsr)) == n % 4
    ensures Modified(es, mid, us, strap)(Pmcsr) % 4 == n % 4
  {
    hide Bit, NvDrfVal, NvFldSetDrfNum, Modified, After;
    var v, v' := After(es, strap)(Pmcsr), Modified(es, mid, us, strap)(Pmcsr);
    forall i: nat | Covers(PWRSTATE, i) ensures Bit(v', i) == Bit(Run(us, v), i) {
      PlainBitWriteBack(es, mid, us, strap, i);
    }
    ReadBack(PWRSTATE, n, Run(Front(us), v));
    ValDependsOnCovered(PWRSTATE, v', Run(us, v));
    SmallPowers(0);
    SmallPowers(2);
    LowBitsIsMod(2, n);
    FieldIsQuotient(PWRSTATE, v', 1, 4);
  }

  /** The PME enable bit gets back the value read when no update touches it. */
  lemma PmeEnableIsKept(es: seq<Event>, mid: seq<Event>, us: seq<Update>, strap: State)
    requires LastCover(us, 8).None?
    ensures Bit(Modified(es, mid, us, strap)(Pmcsr), 8) == Bit(After(es, strap)(Pmcsr), 8)
  {
    hide Bit, Run, Modified, LastCover, After;
    PlainBitWriteBack(es, mid, us, strap, 8);
    RunBit(us, After(es, strap)(Pmcsr), 8);
  }

  /**
   The consequence for drivers: changing only PWRSTATE silently acknowledges the PME events
   that were pending at the read, and with them later ones, while writing PMESTATUS as
   zero beside it keeps them all.
   */
  lemma PowerStateAndPme(es: seq<Event>, mid: seq<Event>, strap: State, n: u64)
    ensures Bit(Modified(es, mid, [Update(PWRSTATE, n)], strap)(Pmcsr), 15)
            <==> PmeOutstanding(es + mid) && !PmeOutstanding(es)
    ensures Bit(Modified(es, mid, [Update(PMESTATUS, 0), Update(PWRSTATE, n)], strap)(Pmcsr), 15)
            <==> PmeOutstanding(es + mid)
  {
    hide Modified, After, PmeOutstanding;
    var us := [Update(PWRSTATE, n)];
    PmeSurvivesExactly(es, mid, us, strap);
    assert LastCover(us, 15).None?;
    var us' := [Update(PMESTATUS, 0), Update(PWRSTATE, n)];
    PmeSurvivesExactly(es, mid, us', strap);
    assert Front(us') == [Update(PMESTATUS, 0)];
    assert Last(Front(us')) == Update(PMESTATUS, 0);
    assert LastCover(us', 15) == LastCover(Front(us'), 15) == Some(Update(PMESTATUS, 0));
    BitsOfZero();
  }

  // ------------------------------------------------------------ base address register

  /** The word software reads from CFG_4, without its type bits. */
  function BarAddress(v: u32): (r: u32) {
    And(v, Not32(0xf))
  }

  /** The 64-bit base address formed by CFG_5 and CFG_4. */
  function Base(s: State): (r: nat) {
    s(Cfg5) * 0x1_0000_0000 + BarAddress(s(Cfg4))
  }

  const BAR_MASK: u32 := 0xffff8000

  lemma BarMaskBits()
    ensures forall i: nat :: Bit(BAR_MASK, i) == (15 <= i < 32)
    ensures forall i: nat :: Bit(0xf, i) == (i < 4)
    ensures forall i: nat :: Bit(0xc, i) == (2 <= i < 4)
  {
    hide Bit;
    SmallPowers(4);
    BitsOfOnes(4);
    SmallPowers(15);
    BitsOfOnes(15);
    Not32Bits(Ones(15));
    SmallPowers(2);
    BitsOfOnes(2);
    DoubleIsProduct(3, 2);
    assert BAR_MASK == Not32(Ones(15)) && 0xf == Ones(4) && 3 == Ones(2) && 0xc == Double(3, 2);
    forall i: nat ensures Bit(0xc, i) == (2 <= i < 4) {
      BitDouble(3, 2, i);
    }
  }

  /** In every run CFG_4 is the last word written in its address bits and 0xc below them. */
  lemma BarReadsAs(es: seq<Event>, strap: State)
    ensures After(es, strap)(Cfg4) ==
      match LastWritten(es, Cfg4)
      case None => 0xc
      case Some(d) => Or32(And(d, BAR_MASK), 0xc)
  {
    hide And, Or32, Merge, After;
    QuietRegister(es, strap, Cfg4);
    FullReset(strap, Cfg4);
    if LastWritten(es, Cfg4).Some? {
      BarMerge(LastWritten(es, Cfg4).value);
    }
  }

  lemma BarMerge(d: u32)
    ensures Merge(0xc, d, BAR_MASK) == Or32(And(d, BAR_MASK), 0xc)
  {
    hide Bit, Merge, And, Or32;
    BarMaskBits();
    MergeBits(0xc, d, BAR_MASK);
    BitsOfAnd(d, BAR_MASK);
    Or32Bits(And(d, BAR_MASK), 0xc);
    SameBits(Merge(0xc, d, BAR_MASK), Or32(And(d, BAR_MASK), 0xc));
  }

  /** Stripping the type bits of such a word leaves its address bits. */
  lemma BarStrip(d: u32)
    ensures BarAddress(Or32(And(d, BAR_MASK), 0xc)) == And(d, BAR_MASK)
    ensures BarAddress(0xc) == 0
  {
    hide Bit, And, Or32, Not32;
    BarMaskBits();
    Not32Bits(0xf);
    var v := Or32(And(d, BAR_MASK), 0xc);
    BitsOfAnd(d, BAR_MASK);
    Or32Bits(And(d, BAR_MASK), 0xc);
    BitsOfAnd(v, Not32(0xf));
    SameBits(BarAddress(v), And(d, BAR_MASK));
    BitsOfAnd(0xc, Not32(0xf));
    BitsOfZero();
    SameBits(BarAddress(0xc), 0);
  }

  lemma AddressBits(d: u32)
    ensures And(d, BAR_MASK) % 0x8000 == 0
    ensures And(d, BAR_MASK) + 0x8000 <= 0x1_0000_0000
  {
    hide Bit, And, LowBits;
    BarMaskBits();
    var a := And(d, BAR_MASK);
    BitsOfAnd(d, BAR_MASK);
    BitsOfLow(15, a);
    BitsOfZero();
    SameBits(LowBits(15, a), 0);
    LowBitsIsMod(15, a);
    SmallPowers(15);
  }

  /** The address bits in force: those last written, or none. */
  lemma BarAddressOf(es: seq<Event>, strap: State) returns (d: u32)
    ensures BarAddress(After(es, strap)(Cfg4)) == And(d, BAR_MASK)
    ensures After(es, strap)(Cfg4) == Or32(And(d, BAR_MASK), 0xc)
  {
    hide After, LastWritten, BarAddress;
    BarReadsAs(es, strap);
    d := match LastWritten(es, Cfg4) case None => 0 case Some(x) => x;
    BarStrip(d);
  }

  /** In every run the base is a multiple of the window size and the window stays below 2^64. */
  lemma WindowIsAligned(es: seq<Event>, strap: State)
    ensures Base(After(es, strap)) == DataAt(es, 0x14, 0) * 0x1_0000_0000 + DataAt(es, 0x10, 0) / 0x8000 * 0x8000
    ensures Base(After(es, strap)) % 0x8000 == 0
    ensures Base(After(es, strap)) + 0x8000 <= 0x1_0000_0000_0000_0000
  {
    hide And, Or32, After, BarAddress, DataAt;
    var d := BarAddressOf(es, strap);
    AddressBits(d);
    AlignedSum(After(es, strap)(Cfg5), And(d, BAR_MASK));
    Cfg5Word(es, strap);
    AddressOfBar(es, strap);
  }

  lemma AddressOfBar(es: seq<Event>, strap: State)
    ensures BarAddress(After(es, strap)(Cfg4)) == DataAt(es, 0x10, 0) / 0x8000 * 0x8000
  {
    hide After, BarAddress, DataAt;
    Cfg4Word(es, strap);
    WithoutTypeBits(After(es, strap)(Cfg4));
    var q := DataAt(es, 0x10, 0) / 0x8000;
    assert (q * 0x8000 + 0xc) / 0x10 == q * 0x800;
  }

  lemma TypeBitSlices(v: u32)
    ensures Slice(BarAddress(v), 0, 4) == 0
    ensures Slice(BarAddress(v), 4, 28) == Slice(v, 4, 28)
  {
    hide Bit, And, Not32, Pow2, Slice;
    var a := BarAddress(v);
    BarMaskBits();
    Not32Bits(0xf);
    BitsOfAnd(v, Not32(0xf));
    Word32Bits(v);
    BitsOfZero();
    SlicesAgree(a, 0, 0, 4);
    SlicesAgree(a, v, 4, 28);
    SliceOfZero(0, 4);
  }

  /** The address part of the word drops its low four bits. */
  lemma WithoutTypeBits(v: u32)
    ensures BarAddress(v) == v / 0x10 * 0x10
  {
    hide BarAddress, Pow2, Slice, Cut;
    TwoTo(0);
    TwoTo(4);
    TwoTo(28);
    TypeBitSlices(v);
    SliceIsCut(BarAddress(v), 0, 4);
    SliceIsCut(BarAddress(v), 4, 28);
    SliceIsCut(v, 4, 28);
    Peel(BarAddress(v), 1, 0x10, 0x10);
    Peel(BarAddress(v), 0x10, 0x10000000, 0x1_0000_0000);
    Peel(v, 0x10, 0x10000000, 0x1_0000_0000);
  }

  lemma AlignedSum(high: u32, low: nat)
    requires low % 0x8000 == 0 && low + 0x8000 <= 0x1_0000_0000
    ensures (high * 0x1_0000_0000 + low) % 0x8000 == 0
    ensures high * 0x1_0000_0000 + low + 0x8000 <= 0x1_0000_0000_0000_0000
  {
    var q := low / 0x8000;
    DivModUnique(high * 0x1_0000_0000 + low, 0x8000, high * 0x2_0000 + q, 0);
  }

  /** Events that are not software writes. */
  predicate Hardware(h: seq<Event>) {
    forall i :: 0 <= i < |h| ==> !h[i].Write?
  }

  /** What the hardware does to a register depends on that register alone. */
  lemma HardwareStep(s: State, t: State, e: Event, r: Reg)
    requires !e.Write?
    ensures s(r) == t(r) ==> Step(s, e)(r) == Step(t, e)(r)
    ensures r == Cfg4 ==> Step(s, e)(r) == s(r)
  {
    hide Or32, Merge;
  }

  lemma {:induction false} HardwareRun(es: seq<Event>, es': seq<Event>, h: seq<Event>, strap: State, r: Reg)
    requires Hardware(h)
    ensures After(es, strap)(r) == After(es', strap)(r) ==> After(es + h, strap)(r) == After(es' + h, strap)(r)
    ensures r == Cfg4 ==> After(es + h, strap)(r) == After(es, strap)(r)
    decreases |h|
  {
    hide Step, Reset;
    if h == [] {
      assert es + h == es && es' + h == es';
    } else {
      HardwareRun(es, es', Front(h), strap, r);
      assert Front(es + h) == es + Front(h) && Front(es' + h) == es' + Front(h);
      assert Last(es + h) == Last(h) == Last(es' + h);
      HardwareStep(After(es + Front(h), strap), After(es' + Front(h), strap), Last(h), r);
    }
  }

  /** Power-up sizing: write all ones; the hardware may go on in the meantime. */
  function Probed(es: seq<Event>, h: seq<Event>): (r: seq<Event>) {
    es + [Write(0x10, ALL32)] + h
  }

  /** Writing back the word read before the probe. */
  function Restored(es: seq<Event>, h: seq<Event>, strap: State): (r: seq<Event>) {
    Probed(es, h) + [Write(0x10, After(es, strap)(Cfg4))]
  }

  /**
   From every reachable state and with any hardware events in between, the sizing probe
   finds a window of 0x8000 bytes, and once the saved word is written back every register
   is what it would have been without the probe.
   */
  lemma SizingFinds32K(es: seq<Event>, h: seq<Event>, strap: State)
    requires Hardware(h)
    ensures LowestBitOnly(BarAddress(After(Probed(es, h), strap)(Cfg4))) == 0x8000
    ensures forall r: Reg :: r != Cfg4 ==> After(Probed(es, h), strap)(r) == After(es + h, strap)(r)
    ensures forall r: Reg :: After(Restored(es, h, strap), strap)(r) == After(es + h, strap)(r)
  {
    hide And, Or32, LowestBitOnly, BarAddress;
    var es1 := es + [Write(0x10, ALL32)];
    assert Front(es1) == es;
    BarReadsAs(es1, strap);
    BarStrip(ALL32);
    AllOnesAddress();
    forall r: Reg
      ensures r == Cfg4 ==> After(es + h, strap)(r) == After(es, strap)(r)
      ensures r == Cfg4 ==> After(Probed(es, h), strap)(r) == After(es1, strap)(r)
      ensures r != Cfg4 ==> After(Probed(es, h), strap)(r) == After(es + h, strap)(r)
    {
      HardwareRun(es1, es, h, strap, r);
      HardwareRun(es, es1, h, strap, r);
    }
    var es2 := Restored(es, h, strap);
    assert Front(es2) == Probed(es, h);
    BarReadsAs(es2, strap);
    var d := BarAddressOf(es, strap);
    BarIdempotent(d);
  }

  lemma AllOnesAddress()
    ensures And(ALL32, BAR_MASK) == BAR_MASK
    ensures LowestBitOnly(BAR_MASK) == 0x8000
  {
    hide And, LowestBitOnly, LowestSet;
    AllBits();
    BarMaskBits();
    BitsOfAnd(ALL32, BAR_MASK);
    SameBits(And(ALL32, BAR_MASK), BAR_MASK);
    LowestBitIsPower(BAR_MASK);
    var k := LowestSet(BAR_MASK);
    assert Bit(BAR_MASK, 15) && Bit(BAR_MASK, k);
    SmallPowers(k);
  }

  lemma BarIdempotent(d: u32)
    ensures Or32(And(Or32(And(d, BAR_MASK), 0xc), BAR_MASK), 0xc) == Or32(And(d, BAR_MASK), 0xc)
  {
    hide Bit, And, Or32;
    BarMaskBits();
    var v := Or32(And(d, BAR_MASK), 0xc);
    BitsOfAnd(d, BAR_MASK);
    Or32Bits(And(d, BAR_MASK), 0xc);
    BitsOfAnd(v, BAR_MASK);
    Or32Bits(And(v, BAR_MASK), 0xc);
    SameBits(Or32(And(v, BAR_MASK), 0xc), v);
  }

  // -------------------------------------------------------------- capability list

  const CAPABILITIES: set<nat> := {0x44, 0xC0, 0xDC}

  /** The pointer to the next capability stored at a capability's offset. */
  function NextCapability(s: State, offset: nat): (r: nat)
    requires offset in CAPABILITIES
  {
    NvDrfVal(NEXT_PTR, ReadAt(s, offset).value)
  }

  datatype Walk = Ends(visited: seq<nat>) | Loops(back: nat) | Strays(outside: nat)

  /** Following the list from `ptr`, having seen `seen`. */
  function WalkFrom(s: State, ptr: nat, seen: seq<nat>, left: set<nat>): (w: Walk)
    decreases left
  {
    if ptr == 0 then Ends(seen)
    else if ptr in seen then Loops(ptr)
    else if ptr !in CAPABILITIES || ptr !in left then Strays(ptr)
    else WalkFrom(s, NextCapability(s, ptr), seen + [ptr], left - {ptr})
  }

  function CapabilityWalk(s: State): (w: Walk) {
    WalkFrom(s, NvDrfVal(CAP_PTR, ReadAt(s, 0x34).value), [], CAPABILITIES)
  }

  /** A pointer is one byte of its register. */
  lemma PointerIsByte(v: u32)
    ensures NvDrfVal(CAP_PTR, v) == v % 0x100
    ensures NvDrfVal(NEXT_PTR, v) == v / 0x100 % 0x100
  {
    hide NvDrfVal, Pow2;
    SmallPowers(0);
    SmallPowers(8);
    FieldIsQuotient(CAP_PTR, v, 1, 0x100);
    FieldIsQuotient(NEXT_PTR, v, 0x100, 0x100);
  }

  /** In every run the list starts at 0x44, the MSI capabilities end it, and the strapped pointer stays. */
  lemma PointersAreFixed(es: seq<Event>, strap: State)
    ensures After(es, strap)(Cfg13) % 0x100 == 0x44
    ensures After(es, strap)(MsiCtrl) / 0x100 % 0x100 == 0
    ensures After(es, strap)(MsiMap) / 0x100 % 0x100 == 0
    ensures After(es, strap)(Cfg17) / 0x100 % 0x100 == strap(Cfg17) / 0x100 % 0x100
  {
    hide After, LastAt, DataAt;
    Cfg13Word(es, strap);
    Cfg17Word(es, strap);
    MsiCtrlWord(es, strap);
    MsiMapWord(es, strap);
    var d, d' := DataAt(es, 0xC0, 0), DataAt(es, 0xDC, 0);
    LowByteOnly(5, 0x80 + d / 0x10000 % 2 + d / 0x100000 % 8 * 0x10);
    LowByteOnly(8, 0xa802 + d' / 0x10000 % 2);
  }

  lemma LowByteOnly(low: nat, high: nat)
    requires low < 0x100
    ensures (low + high * 0x10000) / 0x100 % 0x100 == 0
  {
    assert (low + high * 0x10000) / 0x100 == high * 0x100;
  }

  /**
   In every run the capability walk is the same, decided by the strapped next pointer of
   the power management capability: it ends, visiting no offset twice, exactly when that
   pointer is the MSI capability, the MSI mapping capability or the end of the list.
   */
  lemma CapabilityWalkExactly(es: seq<Event>, strap: State)
    ensures var p := strap(Cfg17) / 0x100 % 0x100;
      CapabilityWalk(After(es, strap)) ==
        if p == 0 then Ends([0x44])
        else if p == 0xC0 || p == 0xDC then Ends([0x44, p])
        else if p == 0x44 then Loops(0x44)
        else Strays(p)
  {
    hide NvDrfVal, After;
    var s, p := After(es, strap), strap(Cfg17) / 0x100 % 0x100;
    PointersAreFixed(es, strap);
    PointerIsByte(s(Cfg13));
    PointerIsByte(s(Cfg17));
    PointerIsByte(s(MsiCtrl));
    PointerIsByte(s(MsiMap));
    assert CapabilityWalk(s) == WalkFrom(s, p, [0x44], CAPABILITIES - {0x44}) by {
      assert [] + [0x44] == [0x44];
    }
    if p == 0xC0 || p == 0xDC {
      assert [0x44] + [p] == [0x44, p];
      assert WalkFrom(s, p, [0x44], CAPABILITIES - {0x44}) ==
             WalkFrom(s, 0, [0x44, p], CAPABILITIES - {0x44} - {p});
    }
  }

  // --------------------------------------------------------------- driver bring-up

  /** Where the driver maps the controller. */
  const XUSB_DEV_BASE: u32 := 55902208

  function CommandUpdates(): (us: seq<Update>) {
    [Update(MEMORY_SPACE, 1), Update(BUS_MASTER, 1)]
  }

  lemma CommandCover(i: nat)
    ensures LastCover(CommandUpdates(), i) ==
      if i == 2 then Some(Update(BUS_MASTER, 1)) else if i == 1 then Some(Update(MEMORY_SPACE, 1)) else None
  {
    var us := CommandUpdates();
    assert Front(us) == [Update(MEMORY_SPACE, 1)];
    assert Front(Front(us)) == [];
    assert LastCover(us, i) == if i == 2 then Some(Update(BUS_MASTER, 1)) else LastCover(Front(us), i);
    assert LastCover(Front(us), i) == if i == 1 then Some(Update(MEMORY_SPACE, 1)) else None;
  }

  lemma CommandBit(v: u32, i: nat)
    ensures Bit(Run(CommandUpdates(), v), i) == if i == 1 || i == 2 then true else Bit(v, i)
  {
    hide Run, CommandUpdates, LastCover;
    RunBit(CommandUpdates(), v, i);
    CommandCover(i);
  }

  lemma CommandMask()
    ensures Bit(WriteMask(Cfg1), 1) && Bit(WriteMask(Cfg1), 2)
  {
    SmallPowers(1);
    SmallPowers(2);
    BitIsQuotient(0x407, 1);
    BitIsQuotient(0x407, 2);
  }

  /** The driver writes CFG_1 with the word read after `es`, hardware events `h` having come between. */
  function CommandWritten(es: seq<Event>, h: seq<Event>, strap: State): (r: seq<Event>) {
    es + h + [Write(0x04, Low32(Run(CommandUpdates(), After(es, strap)(Cfg1))))]
  }

  /** The driver writes CFG_4 with the word read after `es`, hardware events `h` having come between. */
  function BarWritten(es: seq<Event>, h: seq<Event>, strap: State): (r: seq<Event>) {
    es + h + [Write(0x10, Or32(And(After(es, strap)(Cfg4), Not32(BAR_MASK)), And(XUSB_DEV_BASE, BAR_MASK)))]
  }

  /** `v` is the word `w` with memory decoding and bus mastering on. */
  ghost predicate Enabled(v: u32, w: u32) {
    forall i: nat :: Bit(v, i) == if i == 1 || i == 2 then true else Bit(w, i)
  }

  /** A bit of the command word that software may write is left alone by the hardware. */
  lemma {:induction false} CommandBitsAreQuiet(es: seq<Event>, h: seq<Event>, strap: State, i: nat)
    requires Hardware(h) && Bit(WriteMask(Cfg1), i)
    ensures Bit(After(es + h, strap)(Cfg1), i) == Bit(After(es, strap)(Cfg1), i)
    decreases |h|
  {
    hide Bit, Step, Reset;
    if h == [] {
      assert es + h == es;
    } else {
      CommandBitsAreQuiet(es, Front(h), strap, i);
      assert Front(es + h) == es + Front(h) && Last(es + h) == Last(h);
      WritableIsNotDriven(i);
      QuietBitStep(After(es + Front(h), strap), Last(h), Cfg1, i);
    }
  }

  lemma WritableIsNotDriven(i: nat)
    requires Bit(WriteMask(Cfg1), i)
    ensures !Bit(HardwareMask(Cfg1), i)
  {
    hide Bit, And;
    SharedBitsAreClearBits(Cfg1);
    BitsOfAnd(WriteMask(Cfg1), HardwareMask(Cfg1));
    BitZero(i);
  }

  /** Enabling memory and bus mastering: two bits are set, everything else is as without the driver. */
  lemma CommandOutcome(es: seq<Event>, h: seq<Event>, strap: State)
    requires Hardware(h)
    ensures Enabled(After(CommandWritten(es, h, strap), strap)(Cfg1), After(es + h, strap)(Cfg1))
    ensures forall r: Reg :: r != Cfg1 ==> After(CommandWritten(es, h, strap), strap)(r) == After(es + h, strap)(r)
  {
    hide Bit, Run, Written, Low32, CommandUpdates, After;
    var v, w := After(es, strap)(Cfg1), Run(CommandUpdates(), After(es, strap)(Cfg1));
    CommandIsStep(es, h, strap);
    var v', w' := After(es + h, strap)(Cfg1), Written(Cfg1, After(es + h, strap)(Cfg1), Low32(w));
    forall i: nat ensures Bit(w', i) == if i == 1 || i == 2 then true else Bit(v', i) {
      CommandBit(v, i);
      Low32Bits(w);
      Word32Bits(v);
      CommandMask();
      BitZero(i);
      if Bit(WriteMask(Cfg1), i) {
        CommandBitsAreQuiet(es, h, strap, i);
      }
      Word32Bits(WriteMask(Cfg1));
      WrittenBits(Cfg1, v', Low32(w));
    }
  }

  lemma CommandIsStep(es: seq<Event>, h: seq<Event>, strap: State)
    ensures var s, t := After(CommandWritten(es, h, strap), strap), After(es + h, strap);
      && s(Cfg1) == Written(Cfg1, t(Cfg1), Low32(Run(CommandUpdates(), After(es, strap)(Cfg1))))
      && forall r: Reg :: r != Cfg1 ==> s(r) == t(r)
  {
    hide Run, Written, Low32, CommandUpdates;
    assert Front(CommandWritten(es, h, strap)) == es + h;
  }

  /** Setting BAR0: the low base address is the mapped window, everything else is as without the driver. */
  lemma BarOutcome(es: seq<Event>, h: seq<Event>, strap: State)
    ensures BarAddress(After(BarWritten(es, h, strap), strap)(Cfg4)) == XUSB_DEV_BASE
    ensures After(BarWritten(es, h, strap), strap)(Cfg4) == 0x355000c
    ensures forall r: Reg :: r != Cfg4 ==> After(BarWritten(es, h, strap), strap)(r) == After(es + h, strap)(r)
  {
    hide And, Or32, Not32, BarAddress, Written;
    var v := Or32(And(After(es, strap)(Cfg4), Not32(BAR_MASK)), And(XUSB_DEV_BASE, BAR_MASK));
    var es' := BarWritten(es, h, strap);
    assert Front(es') == es + h;
    BarReadsAs(es', strap);
    BarStrip(v);
    DriverAddress(After(es, strap)(Cfg4), XUSB_DEV_BASE);
    Cfg4Word(es', strap);
    AddressOfBar(es', strap);
  }

  /** The bring-up of the driver, with hardware events between its accesses. */
  function BringUp(es: seq<Event>, h1: seq<Event>, h2: seq<Event>, h3: seq<Event>, strap: State): (r: seq<Event>) {
    BarWritten(CommandWritten(es, h1, strap) + h2, h3, strap)
  }

  /**
   From every reachable state, and whatever the hardware does between the accesses, the
   bring-up sequence leaves memory decoding and bus mastering on and the low base address
   at the mapped window; every other command and status bit and every other register is
   what it would have been without the driver.
   */
  lemma BringUpFromAnywhere(es: seq<Event>, h1: seq<Event>, h2: seq<Event>, h3: seq<Event>, strap: State)
    requires Hardware(h1) && Hardware(h2) && Hardware(h3)
    ensures var s, t := After(BringUp(es, h1, h2, h3, strap), strap), After(es + h1 + h2 + h3, strap);
      && Enabled(s(Cfg1), t(Cfg1))
      && s(Cfg4) == 0x355000c && Base(s) == t(Cfg5) * 0x1_0000_0000 + 0x3550000
      && forall r: Reg :: r != Cfg1 && r != Cfg4 ==> s(r) == t(r)
  {
    hide Enabled, BarAddress, After, CommandWritten, BarWritten, Hardware;
    var c := CommandWritten(es, h1, strap);
    CommandOutcome(es, h1, strap);
    BarOutcome(c + h2, h3, strap);
    assert Hardware(h2 + h3) by {
      HardwareJoin(h2, h3);
    }
    assert c + h2 + h3 == c + (h2 + h3) && es + h1 + h2 + h3 == es + h1 + (h2 + h3);
    forall r: Reg ensures r != Cfg1 ==> After(c + h2 + h3, strap)(r) == After(es + h1 + h2 + h3, strap)(r) {
      HardwareRun(c, es + h1, h2 + h3, strap, r);
    }
    StatusOverlay(c, es + h1, h2 + h3, strap);
  }

  lemma HardwareJoin(h: seq<Event>, h': seq<Event>)
    requires Hardware(h) && Hardware(h')
    ensures Hardware(h + h')
  {
  }

  /** Two command words that differ in the two enabled bits only go on to do so. */
  lemma {:induction false} StatusOverlay(es: seq<Event>, es': seq<Event>, h: seq<Event>, strap: State)
    requires Hardware(h)
    requires Enabled(After(es, strap)(Cfg1), After(es', strap)(Cfg1))
    ensures Enabled(After(es + h, strap)(Cfg1), After(es' + h, strap)(Cfg1))
    decreases |h|
  {
    hide Enabled, Step, Reset;
    if h == [] {
      assert es + h == es && es' + h == es';
    } else {
      StatusOverlay(es, es', Front(h), strap);
      assert Front(es + h) == es + Front(h) && Front(es' + h) == es' + Front(h);
      assert Last(es + h) == Last(h) == Last(es' + h);
      StatusStep(After(es + Front(h), strap), After(es' + Front(h), strap), Last(h));
    }
  }

  lemma StatusStep(s: State, t: State, e: Event)
    requires !e.Write? && Enabled(s(Cfg1), t(Cfg1))
    ensures Enabled(Step(s, e)(Cfg1), Step(t, e)(Cfg1))
  {
    hide Bit, Merge;
    if e.DriveStatus? {
      MergeBits(s(Cfg1), e.bits, HardwareMask(Cfg1));
      MergeBits(t(Cfg1), e.bits, HardwareMask(Cfg1));
      CommandMask();
      WritableIsNotDriven(1);
      WritableIsNotDriven(2);
    }
  }

  lemma DriverAddress(v: u32, b: u32)
    requires b % 0x8000 == 0
    ensures And(Or32(And(v, Not32(BAR_MASK)), And(b, BAR_MASK)), BAR_MASK) == b
  {
    hide Bit, And, Or32, Not32, LowBits, Pow2;
    BarMaskBits();
    Not32Bits(BAR_MASK);
    BitsOfAnd(v, Not32(BAR_MASK));
    BitsOfAnd(b, BAR_MASK);
    var x := Or32(And(v, Not32(BAR_MASK)), And(b, BAR_MASK));
    Or32Bits(And(v, Not32(BAR_MASK)), And(b, BAR_MASK));
    BitsOfAnd(x, BAR_MASK);
    Word32Bits(b);
    SmallPowers(15);
    LowBitsIsMod(15, b);
    BitsOfLow(15, b);
    BitsOfZero();
    forall i: nat ensures Bit(And(x, BAR_MASK), i) == Bit(b, i) {
      assert i < 15 ==> Bit(LowBits(15, b), i) == Bit(b, i);
    }
    SameBits(And(x, BAR_MASK), b);
  }

  // ------------------------------------------------------------------ every register

  /** Software reads the word `v` at an offset. */
  predicate Reads(s: State, offset: nat, v: int) {
    ReadAt(s, offset).Some? && ReadAt(s, offset).value == v
  }

  /** Identification, base addresses and the interrupt line. */
  lemma IdentityRegisters(es: seq<Event>, strap: State)
    ensures Reads(After(es, strap), 0x00, 0x10ff10de)
    ensures Reads(After(es, strap), 0x08, 0xc03fea1)
    ensures Reads(After(es, strap), 0x0C, 0)
    ensures Reads(After(es, strap), 0x10, DataAt(es, 0x10, 0) / 0x8000 * 0x8000 + 0xc)
    ensures Reads(After(es, strap), 0x14, DataAt(es, 0x14, 0))
    ensures Reads(After(es, strap), 0x3C, 0x100 + DataAt(es, 0x3C, 0) % 0x100)
  {
    hide After, DataAt, PmeOutstanding, StatusDriven, PendingDriven;
    Cfg0Word(es, strap);
    Cfg2Word(es, strap);
    Cfg3Word(es, strap);
    Cfg4Word(es, strap);
    Cfg5Word(es, strap);
    Cfg15Word(es, strap);
  }

  /** Subsystem ids and the head of the capability list. */
  lemma CapabilityRegisters(es: seq<Event>, strap: State)
    ensures Reads(After(es, strap), 0x2C, DataAt(es, 0x40, 0))
    ensures Reads(After(es, strap), 0x34, 0x44)
    ensures Reads(After(es, strap), 0x40, DataAt(es, 0x40, 0))
    ensures Reads(After(es, strap), 0x44, strap(Cfg17))
  {
    hide After, DataAt, PmeOutstanding, StatusDriven, PendingDriven;
    SubsystemIds(es, strap);
    Cfg13Word(es, strap);
    Cfg16Word(es, strap);
    Cfg17Word(es, strap);
  }

  /** Message signalled interrupts. */
  lemma MessageRegisters(es: seq<Event>, strap: State)
    ensures var d := DataAt(es, 0xC0, 0);
      Reads(After(es, strap), 0xC0, 0x800005 + d / 0x10000 % 2 * 0x10000 + d / 0x100000 % 8 * 0x100000)
    ensures Reads(After(es, strap), 0xC4, DataAt(es, 0xC4, 0) / 4 * 4)
    ensures Reads(After(es, strap), 0xC8, DataAt(es, 0xC8, 0))
    ensures Reads(After(es, strap), 0xCC, DataAt(es, 0xCC, 0) % 0x10000)
  {
    hide After, DataAt, PmeOutstanding, StatusDriven, PendingDriven;
    MsiCtrlWord(es, strap);
    MsiAddr1Word(es, strap);
    MsiAddr2Word(es, strap);
    MsiDataWord(es, strap);
  }

  lemma MaskRegisters(es: seq<Event>, strap: State)
    ensures Reads(After(es, strap), 0xD0, DataAt(es, 0xD0, 0) % 2)
    ensures Reads(After(es, strap), 0xD4, match PendingDriven(es) case None => 0 case Some(b) => b % 0x10000)
    ensures Reads(After(es, strap), 0xD8, DataAt(es, 0xD8, 0) % 2)
    ensures Reads(After(es, strap), 0xDC, 0xa8020008 + DataAt(es, 0xDC, 0) / 0x10000 % 2 * 0x10000)
  {
    hide After, DataAt, PmeOutstanding, StatusDriven, PendingDriven;
    MsiMaskWord(es, strap);
    MsiPendWord(es, strap);
    MsiQueueWord(es, strap);
    MsiMapWord(es, strap);
  }

  /** Command and status. */
  lemma CommandRegister(es: seq<Event>, strap: State)
    ensures var d := DataAt(es, 0x04, 0);
      Reads(After(es, strap), 0x04, d % 8 + d / 0x400 % 2 * 0x400 + 0xb00000 +
        match StatusDriven(es)
        case None => strap(Cfg1) / 0x80000 % 2 * 0x80000
        case Some(b) =>
          b / 0x80000 % 2 * 0x80000 + b / 0x1000000 % 2 * 0x1000000 + b / 0x8000000 % 0x20 * 0x8000000)
  {
    hide After, DataAt, PmeOutstanding, StatusDriven, PendingDriven;
    Cfg1Word(es, strap);
  }

  /** Power management. */
  lemma PowerRegister(es: seq<Event>, strap: State)
    ensures var d, x := DataAt(es, 0x48, 0), strap(Pmcsr);
      Reads(After(es, strap), 0x48,
        d % 4 + x / 4 % 0x40 * 4 + d / 0x100 % 2 * 0x100 + x / 0x200 % 0x40 * 0x200
        + (if PmeOutstanding(es) then 0x8000 else 0) + x / 0x10000 % 0x100 * 0x10000)
  {
    hide After, DataAt, PmeOutstanding, StatusDriven, PendingDriven;
    PmcsrWord(es, strap);
  }

  /**
   The whole register file after every run, as software sees it, in plain arithmetic: what
   is read at each literal offset from the data last written at one, the bits last driven,
   the straps and the events.
   */
  lemma EveryRegisterExactly(es: seq<Event>, strap: State)
    ensures Reads(After(es, strap), 0x00, 0x10ff10de)
    ensures var d := DataAt(es, 0x04, 0);
      Reads(After(es, strap), 0x04, d % 8 + d / 0x400 % 2 * 0x400 + 0xb00000 +
        match StatusDriven(es)
        case None => strap(Cfg1) / 0x80000 % 2 * 0x80000
        case Some(b) =>
          b / 0x80000 % 2 * 0x80000 + b / 0x1000000 % 2 * 0x1000000 + b / 0x8000000 % 0x20 * 0x8000000)
    ensures Reads(After(es, strap), 0x08, 0xc03fea1)
    ensures Reads(After(es, strap), 0x0C, 0)
    ensures Reads(After(es, strap), 0x10, DataAt(es, 0x10, 0) / 0x8000 * 0x8000 + 0xc)
    ensures Reads(After(es, strap), 0x14, DataAt(es, 0x14, 0))
    ensures Reads(After(es, strap), 0x2C, DataAt(es, 0x40, 0))
    ensures Reads(After(es, strap), 0x34, 0x44)
    ensures Reads(After(es, strap), 0x3C, 0x100 + DataAt(es, 0x3C, 0) % 0x100)
    ensures Reads(After(es, strap), 0x40, DataAt(es, 0x40, 0))
    ensures Reads(After(es, strap), 0x44, strap(Cfg17))
    ensures var d, x := DataAt(es, 0x48, 0), strap(Pmcsr);
      Reads(After(es, strap), 0x48,
        d % 4 + x / 4 % 0x40 * 4 + d / 0x100 % 2 * 0x100 + x / 0x200 % 0x40 * 0x200
        + (if PmeOutstanding(es) then 0x8000 else 0) + x / 0x10000 % 0x100 * 0x10000)
    ensures var d := DataAt(es, 0xC0, 0);
      Reads(After(es, strap), 0xC0, 0x800005 + d / 0x10000 % 2 * 0x10000 + d / 0x100000 % 8 * 0x100000)
    ensures Reads(After(es, strap), 0xC4, DataAt(es, 0xC4, 0) / 4 * 4)
    ensures Reads(After(es, strap), 0xC8, DataAt(es, 0xC8, 0))
    ensures Reads(After(es, strap), 0xCC, DataAt(es, 0xCC, 0) % 0x10000)
    ensures Reads(After(es, strap), 0xD0, DataAt(es, 0xD0, 0) % 2)
    ensures Reads(After(es, strap), 0xD4, match PendingDriven(es) case None => 0 case Some(b) => b % 0x10000)
    ensures Reads(After(es, strap), 0xD8, DataAt(es, 0xD8, 0) % 2)
    ensures Reads(After(es, strap), 0xDC, 0xa8020008 + DataAt(es, 0xDC, 0) / 0x10000 % 2 * 0x10000)
  {
    hide After, DataAt, PmeOutstanding, StatusDriven, PendingDriven, Reads;
    IdentityRegisters(es, strap);
    CapabilityRegisters(es, strap);
    MessageRegisters(es, strap);
    MaskRegisters(es, strap);
    CommandRegister(es, strap);
    PowerRegister(es, strap);
  }
}
