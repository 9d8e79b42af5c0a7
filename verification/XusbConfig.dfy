/**
 The PCI configuration space of the XUSB device controller as a register file.

 Reset values and masks are the constants of the hardware header. A software write
 replaces the bits of the write mask, except that a bit of the clear mask is cleared by
 writing one to it and kept by writing zero. Bits whose reset value the header does not
 give are strapped by the hardware. Writing the backdoor register CFG_16 also updates
 the read-only subsystem ids of CFG_11.
 */
module XusbConfig {
  import opened Bits
  import opened Options
  import opened DrfRuns

  datatype Reg = Cfg0 | Cfg1 | Cfg2 | Cfg3 | Cfg4 | Cfg5 | Cfg11 | Cfg13 | Cfg15 | Cfg16 | Cfg17 | Pmcsr
               | MsiCtrl | MsiAddr1 | MsiAddr2 | MsiData | MsiMask | MsiPend | MsiQueue | MsiMap

  /** The register at a configuration offset; reserved offsets ignore writes. */
  function Decode(offset: nat): (r: Option<Reg>) {
    if offset == 0x00 then Some(Cfg0) else if offset == 0x04 then Some(Cfg1)
    else if offset == 0x08 then Some(Cfg2) else if offset == 0x0C then Some(Cfg3)
    else if offset == 0x10 then Some(Cfg4) else if offset == 0x14 then Some(Cfg5)
    else if offset == 0x2C then Some(Cfg11) else if offset == 0x34 then Some(Cfg13)
    else if offset == 0x3C then Some(Cfg15) else if offset == 0x40 then Some(Cfg16)
    else if offset == 0x44 then Some(Cfg17) else if offset == 0x48 then Some(Pmcsr)
    else if offset == 0xC0 then Some(MsiCtrl) else if offset == 0xC4 then Some(MsiAddr1)
    else if offset == 0xC8 then Some(MsiAddr2) else if offset == 0xCC then Some(MsiData)
    else if offset == 0xD0 then Some(MsiMask) else if offset == 0xD4 then Some(MsiPend)
    else if offset == 0xD8 then Some(MsiQueue) else if offset == 0xDC then Some(MsiMap)
    else None
  }

  function ResetVal(r: Reg): (v: u32) {
    match r
    case Cfg0 => 0x10ff10de
    case Cfg1 => 0xb00000
    case Cfg2 => 0xc03fea1
    case Cfg4 => 0xc
    case Cfg13 => 0x44
    case Cfg15 => 0x100
    case MsiCtrl => 0x800005
    case MsiMap => 0xa8020008
    case _ => 0
  }

  function ResetMask(r: Reg): (v: u32) {
    match r
    case Cfg1 => 0xffb007ff
    case Cfg3 => 0xfff8ff
    case Cfg13 => 0xff
    case Cfg17 => 0
    case Pmcsr => 0x8103
    case MsiCtrl => 0x1ffffff
    case MsiAddr1 => 0xfffffffc
    case MsiData => 0xffff
    case MsiMask => 0x1
    case MsiPend => 0xffff
    case MsiQueue => 0x1
    case MsiMap => 0xf803ffff
    case _ => 0xffffffff
  }

  function ReadMask(r: Reg): (v: u32) {
    match r
    case Cfg1 => 0xffb807ff
    case Cfg17 => 0xffffffff
    case Pmcsr => 0xffffff
    case _ => ResetMask(r)
  }

  function WriteMask(r: Reg): (v: u32) {
    match r
    case Cfg1 => 0x407
    case Cfg4 => 0xffff8000
    case Cfg5 => 0xffffffff
    case Cfg15 => 0xff
    case Cfg16 => 0xffffffff
    case Pmcsr => 0x8103
    case MsiCtrl => 0x710000
    case MsiAddr1 => 0xfffffffc
    case MsiAddr2 => 0xffffffff
    case MsiData => 0xffff
    case MsiMask => 0x1
    case MsiQueue => 0x1
    case MsiMap => 0x10000
    case _ => 0
  }

  function ClearMask(r: Reg): (v: u32) {
    if r == Pmcsr then 0x8000 else 0
  }

  /** Bits the hardware itself changes: bus status, pending messages and the PME status. */
  function HardwareMask(r: Reg): (v: u32) {
    match r
    case Cfg1 => 0xf9080000
    case MsiPend => 0xffff
    case Pmcsr => 0x8000
    case _ => 0
  }

  // ----------------------------------------------------------------------- steps

  type State = Reg -> u32

  datatype Event =
    | Write(offset: nat, data: u32)      // software
    | Pme                                // a power management event
    | DriveStatus(bits: u32)             // bus status as the hardware sees it
    | DrivePending(bits: u32)            // messages waiting to be sent

  /** Reset, with the hardware straps for the bits that have no reset value. */
  function Reset(strap: State): (s: State) {
    r => Merge(And(strap(r), ReadMask(r)), ResetVal(r), ResetMask(r))
  }

  /** The register after software writes `data` to it. */
  function Written(r: Reg, v0: u32, data: u32): (v: u32) {
    Merge(Merge(v0, data, WriteMask(r)), And(v0, Not32(data)), ClearMask(r))
  }

  function Put(s: State, r: Reg, v: u32): (s': State) {
    x => if x == r then v else s(x)
  }

  function Step(s: State, e: Event): (s': State) {
    match e
    case Write(offset, data) =>
      (match Decode(offset)
       case None => s
       case Some(r) =>
         var v := Written(r, s(r), data);
         if r == Cfg16 then Put(Put(s, Cfg16, v), Cfg11, v) else Put(s, r, v))
    case Pme => Put(s, Pmcsr, Or32(s(Pmcsr), 0x8000))
    case DriveStatus(bits) => Put(s, Cfg1, Merge(s(Cfg1), bits, HardwareMask(Cfg1)))
    case DrivePending(bits) => Put(s, MsiPend, Merge(s(MsiPend), bits, HardwareMask(MsiPend)))
  }

  /** What software reads at an offset; nothing where the model has no register. */
  function ReadAt(s: State, offset: nat): (v: Option<u32>) {
    match Decode(offset)
    case None => None
    case Some(r) => Some(s(r))
  }

  /** The state after the events `es` from reset. */
  function After(es: seq<Event>, strap: State): (s: State) {
    if es == [] then Reset(strap) else Step(After(Front(es), strap), Last(es))
  }

  // -------------------------------------------------------------- one bit of a step

  /** A bit that both software and hardware can change is a write-one-to-clear bit. */
  lemma SharedBitsAreClearBits(r: Reg)
    ensures And(WriteMask(r), HardwareMask(r)) == ClearMask(r)
  {
    if r == Cfg1 {
      SmallPowers(16);
      LowBitsIsMod(16, HardwareMask(r));
      AndApart(WriteMask(r), HardwareMask(r), 16);
    } else if r == Pmcsr {
      SmallPowers(15);
      BitIsQuotient(WriteMask(r), 15);
      AndPow2(WriteMask(r), 15);
    }
  }

  lemma WrittenBits(r: Reg, v0: u32, data: u32)
    ensures forall i: nat ::
      Bit(Written(r, v0, data), i) ==
      if Bit(ClearMask(r), i) then Bit(v0, i) && !Bit(data, i)
      else if Bit(WriteMask(r), i) then Bit(data, i)
      else Bit(v0, i)
  {
    MergeBits(v0, data, WriteMask(r));
    Not32Bits(data);
    Word32Bits(v0);
    BitsOfAnd(v0, Not32(data));
    MergeBits(Merge(v0, data, WriteMask(r)), And(v0, Not32(data)), ClearMask(r));
  }

  /** The data of the last software write aimed at `r`. */
  function LastWritten(es: seq<Event>, r: Reg): (d: Option<u32>) {
    if es == [] then None
    else if Last(es).Write? && Decode(Last(es).offset) == Some(r) then Some(Last(es).data)
    else LastWritten(Front(es), r)
  }

  /** The data of the last software write at an offset. */
  function LastAt(es: seq<Event>, offset: nat): (d: Option<u32>) {
    if es == [] then None
    else if Last(es).Write? && Last(es).offset == offset then Some(Last(es).data)
    else LastAt(Front(es), offset)
  }

  /** The same, or `d0` if there was none. */
  function DataAt(es: seq<Event>, offset: nat, d0: u32): (d: u32) {
    match LastAt(es, offset)
    case None => d0
    case Some(d) => d
  }

  lemma {:induction false} RawOffset(es: seq<Event>, r: Reg, offset: nat)
    requires forall o: nat :: Decode(o) == Some(r) <==> o == offset
    ensures LastWritten(es, r) == LastAt(es, offset)
  {
    if es != [] {
      RawOffset(Front(es), r, offset);
    }
  }

  /** A bit the hardware does not drive changes only by a plain write to its register. */
  lemma QuietBitStep(s: State, e: Event, r: Reg, i: nat)
    requires r != Cfg11 && !Bit(HardwareMask(r), i)
    ensures Bit(Step(s, e)(r), i) ==
      if e.Write? && Decode(e.offset) == Some(r) && Bit(WriteMask(r), i) then Bit(e.data, i) else Bit(s(r), i)
  {
    hide Bit, Written;
    if e.Write? {
      QuietBitWrite(s, r, e.data, i);
    } else {
      QuietBitHardware(s, e, r, i);
    }
  }

  lemma QuietBitWrite(s: State, r: Reg, data: u32, i: nat)
    requires !Bit(HardwareMask(r), i)
    ensures Bit(Written(r, s(r), data), i) == if Bit(WriteMask(r), i) then Bit(data, i) else Bit(s(r), i)
  {
    SharedBitsAreClearBits(r);
    BitAnd(WriteMask(r), HardwareMask(r), i);
    WrittenBits(r, s(r), data);
  }

  lemma QuietBitHardware(s: State, e: Event, r: Reg, i: nat)
    requires !e.Write? && !Bit(HardwareMask(r), i)
    ensures Bit(Step(s, e)(r), i) == Bit(s(r), i)
  {
    if e.Pme? && r == Pmcsr {
      BitOr(s(Pmcsr), 0x8000, i);
    } else if e.DriveStatus? && r == Cfg1 {
      MergeBits(s(Cfg1), e.bits, HardwareMask(Cfg1));
    } else if e.DrivePending? && r == MsiPend {
      MergeBits(s(MsiPend), e.bits, HardwareMask(MsiPend));
    }
  }

  /**
   In every run each bit that the hardware does not drive equals the one last written, if
   it is writable, and its reset value otherwise.
   */
  lemma {:induction false} QuietBit(es: seq<Event>, strap: State, r: Reg, i: nat)
    requires r != Cfg11 && !Bit(HardwareMask(r), i)
    ensures Bit(After(es, strap)(r), i) ==
      match LastWritten(es, r)
      case None => Bit(Reset(strap)(r), i)
      case Some(d) => if Bit(WriteMask(r), i) then Bit(d, i) else Bit(Reset(strap)(r), i)
  {
    if es != [] {
      QuietBit(Front(es), strap, r, i);
      QuietBitStep(After(Front(es), strap), Last(es), r, i);
    }
  }

  /** The last word with which the hardware drove the bits it owns in `r`. */
  function LastDriven(es: seq<Event>, r: Reg): (d: Option<u32>) {
    if es == [] then None
    else if r == Cfg1 && Last(es).DriveStatus? then Some(Last(es).bits)
    else if r == MsiPend && Last(es).DrivePending? then Some(Last(es).bits)
    else LastDriven(Front(es), r)
  }

  /** No software write changes a bus status bit or a pending message. */
  lemma DrivenBitStep(s: State, e: Event, r: Reg, i: nat)
    requires (r == Cfg1 || r == MsiPend) && Bit(HardwareMask(r), i)
    ensures Bit(Step(s, e)(r), i) ==
      if (r == Cfg1 && e.DriveStatus?) || (r == MsiPend && e.DrivePending?) then Bit(e.bits, i) else Bit(s(r), i)
  {
    hide Bit, Written, Merge;
    if e.Write? {
      SharedBitsAreClearBits(r);
      BitAnd(WriteMask(r), HardwareMask(r), i);
      BitZero(i);
      WrittenBits(r, s(r), e.data);
    } else if e.DriveStatus? {
      MergeBits(s(Cfg1), e.bits, HardwareMask(Cfg1));
    } else if e.DrivePending? {
      MergeBits(s(MsiPend), e.bits, HardwareMask(MsiPend));
    }
  }

  /** In every run a status or pending bit is the one the hardware drove last. */
  lemma {:induction false} DrivenBit(es: seq<Event>, strap: State, r: Reg, i: nat)
    requires (r == Cfg1 || r == MsiPend) && Bit(HardwareMask(r), i)
    ensures Bit(After(es, strap)(r), i) ==
      match LastDriven(es, r)
      case None => Bit(Reset(strap)(r), i)
      case Some(b) => Bit(b, i)
  {
    hide Bit, Step, Reset;
    if es != [] {
      DrivenBit(Front(es), strap, r, i);
      DrivenBitStep(After(Front(es), strap), Last(es), r, i);
    }
  }

  /** A register no hardware drives is the last word written, merged into the reset value. */
  lemma QuietRegister(es: seq<Event>, strap: State, r: Reg)
    requires r != Cfg11 && HardwareMask(r) == 0
    ensures After(es, strap)(r) ==
      match LastWritten(es, r)
      case None => Reset(strap)(r)
      case Some(d) => Merge(Reset(strap)(r), d, WriteMask(r))
  {
    BitsOfZero();
    var v, v0 := After(es, strap)(r), Reset(strap)(r);
    match LastWritten(es, r)
    case None =>
      forall i: nat ensures Bit(v, i) == Bit(v0, i) {
        QuietBit(es, strap, r, i);
      }
      SameBits(v, v0);
    case Some(d) =>
      MergeBits(v0, d, WriteMask(r));
      forall i: nat ensures Bit(v, i) == Bit(Merge(v0, d, WriteMask(r)), i) {
        QuietBit(es, strap, r, i);
      }
      SameBits(v, Merge(v0, d, WriteMask(r)));
  }

  lemma MergeWhole(v0: u32, v1: u32)
    ensures Merge(v0, v1, ALL32) == v1
    ensures Merge(v0, v1, 0) == v0
  {
    AllBits();
    BitsOfZero();
    Word32Bits(v0);
    Word32Bits(v1);
    MergeBits(v0, v1, ALL32);
    MergeBits(v0, v1, 0);
    SameBits(Merge(v0, v1, ALL32), v1);
    SameBits(Merge(v0, v1, 0), v0);
  }

  /** A register all of whose bits have a reset value does not depend on the straps. */
  lemma FullReset(strap: State, r: Reg)
    requires ResetMask(r) == ALL32
    ensures Reset(strap)(r) == ResetVal(r)
  {
    MergeWhole(And(strap(r), ReadMask(r)), ResetVal(r));
  }

  // ---------------------------------------------------------------- subsystem ids

  /**
   In every run the read-only ids in CFG_11 are the word last written at the backdoor
   0x40, or zero.
   */
  lemma {:induction false} SubsystemIds(es: seq<Event>, strap: State)
    ensures After(es, strap)(Cfg11) == DataAt(es, 0x40, 0)
  {
    hide Written, Reset, Merge;
    if es == [] {
      FullReset(strap, Cfg11);
    } else {
      SubsystemIds(Front(es), strap);
      var s := After(Front(es), strap);
      if Last(es).Write? {
        IdWrites(s, Last(es).data);
      }
    }
  }

  lemma IdWrites(s: State, data: u32)
    ensures Written(Cfg16, s(Cfg16), data) == data
    ensures Written(Cfg11, s(Cfg11), data) == s(Cfg11)
  {
    MergeWhole(s(Cfg16), data);
    MergeWhole(data, And(s(Cfg16), Not32(data)));
    MergeWhole(s(Cfg11), data);
    MergeWhole(s(Cfg11), And(s(Cfg11), Not32(data)));
  }

  /** A write anywhere but at these thirteen offsets changes no register, 0x2C included. */
  lemma OtherWritesAreIgnored(s: State, offset: nat, data: u32, r: Reg)
    requires offset !in {0x04, 0x10, 0x14, 0x3C, 0x40, 0x48, 0xC0, 0xC4, 0xC8, 0xCC, 0xD0, 0xD8, 0xDC}
    ensures Step(s, Write(offset, data))(r) == s(r)
  {
    hide Merge;
    var v := s(r);
    MergeWhole(v, data);
    MergeWhole(v, And(v, Not32(data)));
  }
}
