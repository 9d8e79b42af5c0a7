/**
 The operations of one endpoint on the shared memory, as they run from call to return, and
 how they are made of the steps of the protocol.
 */
module IvcEndpoint {
  import opened Options
  import opened IvcProtocol
  import opened IvcRuns
  import opened IvcSafety

  // -------------------------------------------------------- whole operations as steps

  function WriteSteps(n: nat, me: End, peer: End, f: Frame): (r: End) {
    Step(n, Step(n, Step(n, Step(n, me, peer, StartWrite), peer, Poke(f)), peer, Publish), peer, Notify)
  }

  function ReadSteps(n: nat, me: End, peer: End): (r: End) {
    Step(n, Step(n, Step(n, Step(n, me, peer, StartRead), peer, CopyOut), peer, Consume), peer, Notify)
  }

  /** The notification handler from its first access to its last. */
  function HandlerSteps(n: nat, me: End, peer: End): (r: End) {
    Finish(n, Step(n, me, peer, Observe), peer)
  }

  function ResetSteps(n: nat, me: End, peer: End): (r: End) {
    Step(n, Step(n, me, peer, Reset), peer, Notify)
  }

  /** The words of its peer that an endpoint can read, and how its frames are numbered. */
  predicate LooksLike(p: End, q: End) {
    && p.state == q.state && p.wCount == q.wCount && p.rCount == q.rCount && p.slots == q.slots && p.kicks == q.kicks
    && p.base == q.base
  }

  /** A step depends on its peer through shared memory only, never through its private state. */
  lemma StepSeesSharedMemoryOnly(n: nat, me: End, p: End, q: End, a: Action)
    requires LooksLike(p, q)
    ensures Step(n, me, p, a) == Step(n, me, q, a)
  {
  }

  /** Nor does a whole operation. */
  lemma OperationsSeeSharedMemoryOnly(n: nat, me: End, p: End, q: End, f: Frame)
    requires LooksLike(p, q)
    ensures WriteSteps(n, me, p, f) == WriteSteps(n, me, q, f)
    ensures ReadSteps(n, me, p) == ReadSteps(n, me, q)
    ensures HandlerSteps(n, me, p) == HandlerSteps(n, me, q)
  {
    assert forall e: End :: Notified(n, e, p) == Notified(n, e, q);
    hide Step;
    forall e: End, a: Action ensures Step(n, e, p, a) == Step(n, e, q, a) {
      StepSeesSharedMemoryOnly(n, e, p, q, a);
    }
  }

  /** A write in one formula: refused, or waiting for room, or one more frame published. */
  lemma WriteOutcome(n: nat, me: End, peer: End, f: Frame)
    requires me.pc.Idle? && |me.slots| == n && (n > 0 ==> me.wPos < n)
    ensures WriteSteps(n, me, peer, f) ==
      if !me.state.Established? then me
      else if Full(n, me.wCount, peer.rCount) then me.(roomWait := Some(peer.kicks))
      else
        var w := (me.wCount + 1) % WRAP;
        me.(slots := me.slots[me.wPos := f], sent := me.sent + [f], history := me.history + [f],
            wCount := w, wPos := Bump(n, me.wPos),
            roomWait := None, kicks := if Occupancy(w, peer.rCount) == 1 then me.kicks + 1 else me.kicks)
  {
    hide Occupancy;
  }

  /** A read in one formula: refused, or waiting for data, or one more frame taken. */
  lemma ReadOutcome(n: nat, me: End, peer: End)
    requires me.pc.Idle? && |peer.slots| == n && (n > 0 ==> me.rPos < n) && me.rCount < WRAP && peer.wCount < WRAP
    ensures ReadSteps(n, me, peer) ==
      if !me.state.Established? then me
      else if Empty(n, peer.wCount, me.rCount) then me.(dataWait := Some(peer.kicks))
      else
        var r := (me.rCount + 1) % WRAP;
        me.(got := me.got + [peer.slots[me.rPos]], received := me.received + [peer.slots[me.rPos]],
            taken := me.taken + [peer.base + |me.got|], rCount := r, rPos := Bump(n, me.rPos), dataWait := None,
            kicks := if Occupancy(peer.wCount, r) + 1 == n then me.kicks + 1 else me.kicks)
  {
    EmptyRingOfNone(n, peer.wCount, me.rCount);
    hide Occupancy;
  }

  /** A whole handler call does what the table says, and nothing else. */
  lemma HandlerFollowsTable(n: nat, me: End, peer: End)
    requires me.pc.Idle?
    ensures HandlerSteps(n, me, peer) ==
      var row := Table(me.state, peer.state);
      var e := if row.clears then
          me.(wCount := 0, wPos := 0, base := me.base + |me.sent|, sent := [], dataWait := None, roomWait := None,
              rCount := 0, rPos := 0, got := [])
        else me;
      e.(state := row.next, kicks := if row.notifies then me.kicks + 1 else me.kicks, heard := peer.kicks)
  {
    FinishFollowsTable(n, Step(n, me, peer, Observe), peer);
    hide Finish;
  }

  /** The same in the order of the code's branches. */
  lemma HandlerOutcome(n: nat, me: End, peer: End)
    requires me.pc.Idle?
    ensures HandlerSteps(n, me, peer) ==
      var e := me.(heard := peer.kicks);
      var c := e.(wCount := 0, wPos := 0, base := me.base + |me.sent|, sent := [], dataWait := None, roomWait := None,
                  rCount := 0, rPos := 0, got := []);
      if peer.state.Sync? then c.(state := Ack, kicks := me.kicks + 1)
      else if me.state.Sync? && peer.state.Ack? then c.(state := Established, kicks := me.kicks + 1)
      else if me.state.Ack? then e.(state := Established, kicks := me.kicks + 1)
      else e
  {
    HandlerFollowsTable(n, me, peer);
    hide HandlerSteps;
  }

  lemma AtRestFacts(n: nat, e: End, p: End)
    requires 0 < n && Pair(n, e, p) && e.pc.Idle? && e.state.Established?
    ensures |e.slots| == n && e.wPos == Slot(n, |e.sent|) < n && e.rPos == Slot(n, |e.got|) < n
    ensures e.wCount == |e.sent| % WRAP && e.rCount == |e.got| % WRAP
  {
    hide Flow, Handshake, Transfer, Ledger;
  }

  lemma WriteToEmpty(n: nat, e: End, p: End, f: Frame)
    requires 0 < n && Pair(n, e, p) && e.pc.Idle? && e.state.Established? && e.sent == p.got
    ensures var e' := WriteSteps(n, e, p, f);
      && e'.sent == e.sent + [f] && e'.wCount == (|e.sent| + 1) % WRAP
      && |e'.slots| == n && Slot(n, |e.sent|) < n && e'.slots[Slot(n, |e.sent|)] == f
  {
    AtRestFacts(n, e, p);
    assert !Full(n, e.wCount, p.rCount) by {
      CountersTellTheTruth(n, e, p);
    }
    CountFollows(|e.sent|);
    hide WriteSteps, Occupancy, Full, Pair, Slot, Bump;
    WriteOutcome(n, e, p, f);
  }

  /** A frame written to an empty ring is the frame the peer reads. */
  lemma WriteThenRead(n: nat, e: End, p: End, f: Frame)
    requires 0 < n && Pair(n, e, p)
    requires e.pc.Idle? && p.pc.Idle? && e.state.Established? && p.state.Established? && e.sent == p.got
    ensures WriteSteps(n, e, p, f).sent == e.sent + [f]
    ensures ReadSteps(n, p, WriteSteps(n, e, p, f)).got == p.got + [f]
  {
    assert n < WRAP;
    AtRestFacts(n, p, e);
    hide WriteSteps, ReadSteps, Occupancy, Full, Pair, Slot, Bump;
    WriteToEmpty(n, e, p, f);
    var e' := WriteSteps(n, e, p, f);
    assert !Empty(n, e'.wCount, p.rCount) by {
      WrappedCounters(|e.sent| + 1, |p.got|, n);
    }
    hide Empty;
    ReadOutcome(n, p, e');
  }

  // ------------------------------------------------------------ frames handed to the caller

  /** Publishing the frame in the next slot: a write without its copy. */
  function WriteAdvanceSteps(n: nat, me: End, peer: End): (r: End) {
    Step(n, Step(n, Step(n, me, peer, StartWrite), peer, Publish), peer, Notify)
  }

  lemma WriteAdvanceOutcome(n: nat, me: End, peer: End)
    requires me.pc.Idle? && |me.slots| == n && (n > 0 ==> me.wPos < n)
    ensures WriteAdvanceSteps(n, me, peer) ==
      if !me.state.Established? then me
      else if Full(n, me.wCount, peer.rCount) then me.(roomWait := Some(peer.kicks))
      else
        var w := (me.wCount + 1) % WRAP;
        me.(sent := me.sent + [me.slots[me.wPos]], history := me.history + [me.slots[me.wPos]],
            wCount := w, wPos := Bump(n, me.wPos),
            roomWait := None, kicks := if Occupancy(w, peer.rCount) == 1 then me.kicks + 1 else me.kicks)
  {
    hide Occupancy;
  }

  /** Filling the slot handed out and advancing is a write. */
  lemma FrameCallsAreAWrite(n: nat, me: End, peer: End, f: Frame)
    requires me.pc.Idle? && |me.slots| == n && me.wPos < n
    requires me.state.Established? && !Full(n, me.wCount, peer.rCount)
    ensures WriteAdvanceSteps(n, me.(slots := me.slots[me.wPos := f]), peer) == WriteSteps(n, me, peer, f)
  {
    hide Occupancy, Bump;
  }

  /** Calls of the handler, each against the peer as it then is. */
  function HandlerCalls(n: nat, me: End, peers: seq<End>): (r: End)
    decreases |peers|
  {
    if peers == [] then me else HandlerCalls(n, HandlerSteps(n, me, peers[0]), peers[1..])
  }

  /** One of the calls cleared the counters. */
  predicate SomeCallClears(n: nat, me: End, peers: seq<End>)
    decreases |peers|
  {
    peers != [] &&
      (Table(me.state, peers[0].state).clears || SomeCallClears(n, HandlerSteps(n, me, peers[0]), peers[1..]))
  }

  /**
   A caller may run its handler between being handed a slot and advancing. The slot then
   advanced is the one handed out exactly when no call cleared the counters or it was the
   first slot; the same for the slot of a frame being read.
   */
  lemma {:induction false} HandedSlotIsAdvancedExactly(n: nat, me: End, peers: seq<End>)
    requires me.pc.Idle?
    ensures HandlerCalls(n, me, peers).wPos == me.wPos <==> !SomeCallClears(n, me, peers) || me.wPos == 0
    ensures HandlerCalls(n, me, peers).rPos == me.rPos <==> !SomeCallClears(n, me, peers) || me.rPos == 0
    ensures SomeCallClears(n, me, peers) ==>
      HandlerCalls(n, me, peers).wPos == 0 && HandlerCalls(n, me, peers).rPos == 0
    decreases |peers|
  {
    hide HandlerSteps;
    if peers != [] {
      HandlerFollowsTable(n, me, peers[0]);
      HandedSlotIsAdvancedExactly(n, HandlerSteps(n, me, peers[0]), peers[1..]);
    }
  }

  // ----------------------------------------------------------------- where channels may lie

  const HEADER: nat := 128
  const ALIGN: nat := 64

  const ADDRESSES: nat := 0x1_0000_0000_0000_0000

  type Address = x: nat | x < ADDRESSES

  /** `check_ivc_params`: no overflow, alignment, and the frames of one queue below the other, as 64-bit sums. */
  predicate ParamsAccepted(base1: Address, base2: Address, n: nat, frameSize: nat) {
    && n * frameSize < WRAP
    && base1 % ALIGN == 0 && base2 % ALIGN == 0 && frameSize % ALIGN == 0
    && (if base1 < base2 then (base1 + n * frameSize) % ADDRESSES <= base2
        else (base2 + n * frameSize) % ADDRESSES <= base1)
  }

  /** What the check accepts, in plain arithmetic and for either order of the bases. */
  lemma AcceptedExactly(base1: Address, base2: Address, n: nat, frameSize: nat)
    ensures var low, high := if base1 < base2 then base1 else base2, if base1 < base2 then base2 else base1;
      ParamsAccepted(base1, base2, n, frameSize) <==>
        && base1 % 64 == 0 && base2 % 64 == 0 && frameSize % 64 == 0 && n * frameSize < 0x1_0000_0000
        && (if low + n * frameSize < 0x1_0000_0000_0000_0000 then low + n * frameSize <= high
            else low + n * frameSize - 0x1_0000_0000_0000_0000 <= high)
    ensures ParamsAccepted(base1, base2, n, frameSize) == ParamsAccepted(base2, base1, n, frameSize)
  {
    if n * frameSize < 0x1_0000_0000 {
      WrapOnce(base1, n * frameSize);
      WrapOnce(base2, n * frameSize);
    }
  }

  lemma WrapOnce(base: Address, size: nat)
    requires size < 0x1_0000_0000
    ensures (base + size) % ADDRESSES ==
      if base + size < 0x1_0000_0000_0000_0000 then base + size else base + size - 0x1_0000_0000_0000_0000
  {
  }

  /** What a queue occupies: its header and its frames, past the last address if it reaches that far. */
  function QueueSize(n: nat, frameSize: nat): (r: nat) {
    HEADER + n * frameSize
  }

  predicate InQueue(base: Address, size: nat, x: Address) {
    (x - base) % ADDRESSES < size
  }

  ghost predicate QueuesDisjoint(base1: Address, base2: Address, size: nat) {
    forall x: Address :: !(InQueue(base1, size, x) && InQueue(base2, size, x))
  }

  function Distance(x: nat, y: nat): (r: nat) {
    if x < y then y - x else x - y
  }

  /** How far `x` lies above `base` on the circle of addresses. */
  lemma Above(base: Address, x: Address)
    ensures (x - base) % ADDRESSES == if x < base then x - base + ADDRESSES else x - base
  {
  }

  /** Two queues on that circle. */
  lemma DisjointExactly(base1: Address, base2: Address, size: nat)
    requires size > 0
    ensures QueuesDisjoint(base1, base2, size) <==> size <= Distance(base1, base2) <= ADDRESSES - size
  {
    if size <= Distance(base1, base2) <= ADDRESSES - size {
      forall x: Address ensures !(InQueue(base1, size, x) && InQueue(base2, size, x)) {
        Above(base1, x);
        Above(base2, x);
      }
    } else {
      var x := if (Distance(base1, base2) < size) == (base1 < base2) then base2 else base1;
      Above(base1, x);
      Above(base2, x);
      assert InQueue(base1, size, x) && InQueue(base2, size, x);
    }
  }

  lemma MultipleOfAlign(n: nat, frameSize: nat)
    requires frameSize % ALIGN == 0
    ensures n * frameSize % ALIGN == 0
  {
    var q := frameSize / ALIGN;
    assert n * frameSize == n * q * ALIGN;
  }

  /**
   The check leaves the headers out and lets its sums wrap. Accepted queues overlap exactly
   when the frames of the lower one pass the last address, or the bases are exactly the
   frames or the frames and half a header apart, or the upper queue comes around to the lower.
   */
  lemma AcceptedQueuesAreDisjointExactly(base1: Address, base2: Address, n: nat, frameSize: nat)
    requires ParamsAccepted(base1, base2, n, frameSize)
    ensures QueuesDisjoint(base1, base2, QueueSize(n, frameSize)) <==>
      128 + n * frameSize <= Distance(base1, base2) <= 0x1_0000_0000_0000_0000 - 128 - n * frameSize
    ensures !QueuesDisjoint(base1, base2, QueueSize(n, frameSize)) <==>
      || (if base1 < base2 then base1 else base2) + n * frameSize >= 0x1_0000_0000_0000_0000
      || Distance(base1, base2) == n * frameSize
      || Distance(base1, base2) == n * frameSize + 64
      || Distance(base1, base2) > 0x1_0000_0000_0000_0000 - 128 - n * frameSize
  {
    var size, frames := QueueSize(n, frameSize), n * frameSize;
    DisjointExactly(base1, base2, size);
    MultipleOfAlign(n, frameSize);
    AcceptedExactly(base1, base2, n, frameSize);
    hide QueuesDisjoint, ParamsAccepted;
    if base1 < base2 {
      OverlapCases(base1, base2, frames);
    } else {
      OverlapCases(base2, base1, frames);
    }
  }

  lemma OverlapCases(low: Address, high: Address, frames: nat)
    requires low <= high && frames < WRAP && (low + frames <= high || low + frames >= ADDRESSES)
    requires low % ALIGN == 0 && high % ALIGN == 0 && frames % ALIGN == 0
    ensures !(HEADER + frames <= high - low <= ADDRESSES - HEADER - frames) <==>
      || low + frames >= ADDRESSES
      || high - low == frames || high - low == frames + ALIGN
      || high - low > ADDRESSES - HEADER - frames
  {
    var a, b, c := low / 64, high / 64, frames / 64;
    assert low == 64 * a && high == 64 * b && frames == 64 * c;
    assert high - low - frames == 64 * (b - a - c);
  }

  /** A header inside the other queue's frames, and frames past the last address: both are accepted. */
  lemma AcceptedQueuesCanOverlap()
    ensures ParamsAccepted(0x1000, 0x1040, 1, 64) && !QueuesDisjoint(0x1000, 0x1040, QueueSize(1, 64))
    ensures ParamsAccepted(ADDRESSES - 128, ADDRESSES - 64, 1, 128)
    ensures !QueuesDisjoint(ADDRESSES - 128, ADDRESSES - 64, QueueSize(1, 128))
  {
    DisjointExactly(0x1000, 0x1040, QueueSize(1, 64));
    DisjointExactly(ADDRESSES - 128, ADDRESSES - 64, QueueSize(1, 128));
  }

  // --------------------------------------------------------------------- the endpoint

  /** Starting an endpoint on zeroed memory gives the endpoint from which runs start. */
  lemma StartOnZeroed(slots: seq<Frame>)
    ensures Restarted(Zero(slots)).(pc := Idle) == Zero(slots)
    ensures Zero(slots).state == Established && Zero(slots).wPos == 0 && Zero(slots).rPos == 0
  {
  }

  /** A channel in shared memory; `kicks` and `base` are those of its transmitting end. */
  class Channel {
    var wCount: nat
    var state: LinkState
    var rCount: nat
    var frames: seq<Frame>
    ghost var kicks: nat
    ghost var base: nat

    constructor (slots: seq<Frame>)
      ensures wCount == 0 && rCount == 0 && state == Established && frames == slots && kicks == 0 && base == 0
    {
      wCount, rCount, state, frames, kicks, base := 0, 0, Established, slots, 0, 0;
    }
  }

  datatype Result = Done(size: nat) | TooBig | NoMemory | ConnectionReset | Invalid

  class Ivc {
    const n: nat
    const frameSize: nat
    const tx: Channel
    const rx: Channel
    var wPos: nat
    var rPos: nat
    ghost var sent: seq<Frame>
    ghost var got: seq<Frame>
    ghost var heard: nat
    ghost var history: seq<Frame>
    ghost var received: seq<Frame>
    ghost var taken: seq<nat>
    ghost var dataWait: Option<nat>
    ghost var roomWait: Option<nat>

    ghost predicate Valid()
      reads this, tx, rx
    {
      && tx != rx
      && |tx.frames| == n && |rx.frames| == n
      && tx.wCount < WRAP && tx.rCount < WRAP && rx.wCount < WRAP && rx.rCount < WRAP
      && (n > 0 ==> wPos < n && rPos < n)
      && forall f :: f in rx.frames ==> |f| == frameSize
    }

    /** This endpoint as the protocol sees it between operations. */
    ghost function Me(): (e: End)
      reads this, tx, rx
    {
      End(tx.state, tx.wCount, rx.rCount, tx.frames, wPos, rPos, Idle, sent, got, tx.kicks, heard,
          dataWait, roomWait, tx.base, history, received, taken)
    }

    /** What this endpoint can see of its peer. */
    ghost function Peer(): (e: End)
      reads this, tx, rx
    {
      End(rx.state, rx.wCount, tx.rCount, rx.frames, 0, 0, Idle, [], [], rx.kicks, 0, None, None,
          rx.base, [], [], [])
    }

    /** `tegra_ivc_init` on memory as an earlier life of the endpoint left it: the positions start again. */
    constructor (n: nat, frameSize: nat, tx: Channel, rx: Channel, ghost was: End)
      requires tx != rx && |tx.frames| == n && |rx.frames| == n
      requires tx.wCount < WRAP && tx.rCount < WRAP && rx.wCount < WRAP && rx.rCount < WRAP
      requires forall f :: f in rx.frames ==> |f| == frameSize
      requires was.state == tx.state && was.wCount == tx.wCount && was.slots == tx.frames && was.kicks == tx.kicks
      requires was.rCount == rx.rCount && was.base == tx.base
      ensures this.n == n && this.frameSize == frameSize && this.tx == tx && this.rx == rx
      ensures Valid() && Me() == Restarted(was).(pc := Idle) && wPos == 0 && rPos == 0
    {
      this.n, this.frameSize, this.tx, this.rx := n, frameSize, tx, rx;
      wPos, rPos := 0, 0;
      sent, got, heard, dataWait, roomWait := was.sent, was.got, was.heard, None, None;
      history, received, taken := was.history, was.received, was.taken;
    }

    /** Fill a slot. */
    method FillFrame(slot: nat, f: Frame)
      requires Valid() && slot < n
      modifies tx`frames
      ensures Valid() && Peer() == old(Peer())
      ensures Me() == old(Me()).(slots := old(tx.frames)[slot := f])
    {
      tx.frames := tx.frames[slot := f];
    }

    /** `ivc_advance_tx`: publish the next slot. */
    method AdvanceTx()
      requires Valid() && n > 0
      modifies this`wPos, this`sent, this`history, tx`wCount
      ensures Valid() && Peer() == old(Peer())
      ensures Me() == old(Me()).(
        sent := old(sent) + [tx.frames[old(wPos)]], history := old(history) + [tx.frames[old(wPos)]],
        wCount := (old(tx.wCount) + 1) % WRAP, wPos := Bump(n, old(wPos)))
    {
      sent, history := sent + [tx.frames[wPos]], history + [tx.frames[wPos]];
      tx.wCount := (tx.wCount + 1) % WRAP;
      wPos := if wPos == n - 1 then 0 else wPos + 1;
    }

    ghost method LogTaken()
      requires Valid() && n > 0
      modifies this`got, this`received, this`taken
      ensures Valid() && Peer() == old(Peer())
      ensures Me() == old(Me()).(
        got := old(got) + [rx.frames[rPos]], received := old(received) + [rx.frames[rPos]],
        taken := old(taken) + [rx.base + |old(got)|])
    {
      taken, received := taken + [rx.base + |got|], received + [rx.frames[rPos]];
      got := got + [rx.frames[rPos]];
    }

    /** `ivc_advance_rx`: give the slot just read back. */
    method AdvanceRx()
      requires Valid() && n > 0
      modifies this`rPos, this`got, this`received, this`taken, rx`rCount
      ensures Valid() && Peer() == old(Peer())
      ensures Me() == old(Me()).(
        got := old(got) + [rx.frames[old(rPos)]], received := old(received) + [rx.frames[old(rPos)]],
        taken := old(taken) + [rx.base + |old(got)|], rCount := (old(rx.rCount) + 1) % WRAP, rPos := Bump(n, old(rPos)))
    {
      LogTaken();
      rx.rCount := (rx.rCount + 1) % WRAP;
      rPos := if rPos == n - 1 then 0 else rPos + 1;
    }

    method NotifyPeer()
      requires Valid()
      modifies tx`kicks
      ensures Valid() && Peer() == old(Peer())
      ensures Me() == old(Me()).(kicks := old(tx.kicks) + 1)
    {
      tx.kicks := tx.kicks + 1;
    }

    /** The end of a write: publish the slot and notify. */
    method FinishWrite()
      requires Valid() && tx.state == Established && !Full(n, tx.wCount, tx.rCount)
      modifies this`wPos, this`sent, this`history, this`roomWait, tx`wCount, tx`kicks
      ensures Valid() && Peer() == old(Peer())
      ensures Me() == WriteAdvanceSteps(n, old(Me()), old(Peer()))
    {
      assert n > 0;
      hide WriteAdvanceSteps, Occupancy, Full, Bump;
      WriteAdvanceOutcome(n, Me(), Peer());
      roomWait := None;
      AdvanceTx();
      if Occupancy(tx.wCount, tx.rCount) == 1 {
        NotifyPeer();
      }
    }

    /** A write that is refused. */
    lemma RefusedWrite(f: Frame)
      requires Valid() && (tx.state != Established || Full(n, tx.wCount, tx.rCount))
      ensures WriteSteps(n, Me(), Peer(), f) == WriteAdvanceSteps(n, Me(), Peer()) ==
        if tx.state != Established then Me() else Me().(roomWait := Some(rx.kicks))
    {
      hide WriteSteps, WriteAdvanceSteps, Occupancy, Full, Bump;
      WriteOutcome(n, Me(), Peer(), f);
      WriteAdvanceOutcome(n, Me(), Peer());
    }

    /** `tegra_ivc_write`: copy the buffer into the next slot, zero the rest, advance, notify. */
    method Write(buf: seq<Byte>) returns (result: Result)
      requires Valid()
      modifies this`wPos, this`sent, this`history, this`roomWait, tx`wCount, tx`frames, tx`kicks
      ensures Valid() && Peer() == old(Peer())
      ensures |buf| > frameSize ==> Me() == old(Me())
      ensures |buf| <= frameSize ==>
        Me() == WriteSteps(n, old(Me()), old(Peer()), buf + seq(frameSize - |buf|, _ => 0))
      ensures result ==
        if |buf| > frameSize then TooBig
        else if old(tx.state) != Established then ConnectionReset
        else if Full(n, old(tx.wCount), tx.rCount) then NoMemory
        else Done(|buf|)
      ensures |buf| <= frameSize && tx.state == Established && OverFull(n, old(tx.wCount), tx.rCount) ==>
        result == NoMemory
    {
      hide OverFull;
      if OverFull(n, tx.wCount, tx.rCount) {
        OverFullIsSilent(n, tx.wCount, tx.rCount);
      }
      if |buf| > frameSize {
        return TooBig;
      }
      var f := buf + seq(frameSize - |buf|, _ => 0);
      assert n > 0 || Full(n, tx.wCount, tx.rCount);
      hide WriteSteps, WriteAdvanceSteps, Full;
      if tx.state != Established {
        RefusedWrite(f);
        return ConnectionReset;
      }
      if Full(n, tx.wCount, tx.rCount) {
        RefusedWrite(f);
        roomWait := Some(rx.kicks);
        return NoMemory;
      }
      FrameCallsAreAWrite(n, Me(), Peer(), f);
      FillFrame(wPos, f);
      FinishWrite();
      return Done(|buf|);
    }

    /** The end of a read: give the slot back and notify. */
    method FinishRead()
      requires Valid() && n > 0 && tx.state == Established && !Empty(n, rx.wCount, rx.rCount)
      modifies this`rPos, this`got, this`received, this`taken, this`dataWait, rx`rCount, tx`kicks
      ensures Valid() && Peer() == old(Peer())
      ensures Me() == ReadSteps(n, old(Me()), old(Peer()))
    {
      hide ReadSteps, Occupancy, Empty, Bump;
      ReadOutcome(n, Me(), Peer());
      dataWait := None;
      AdvanceRx();
      if Occupancy(rx.wCount, rx.rCount) == n - 1 {
        NotifyPeer();
      }
    }

    /** A read that is refused. */
    lemma RefusedRead()
      requires Valid() && (tx.state != Established || Empty(n, rx.wCount, rx.rCount))
      ensures ReadSteps(n, Me(), Peer()) ==
        if tx.state != Established then Me() else Me().(dataWait := Some(rx.kicks))
    {
      hide ReadSteps, Occupancy, Empty, Bump;
      ReadOutcome(n, Me(), Peer());
    }

    /** `tegra_ivc_read`: copy the next frame out, advance, notify. */
    method Read(maxRead: nat) returns (result: Result, buf: seq<Byte>)
      requires Valid()
      modifies this`rPos, this`got, this`received, this`taken, this`dataWait, rx`rCount, tx`kicks
      ensures Valid() && Peer() == old(Peer())
      ensures maxRead > frameSize ==> Me() == old(Me())
      ensures maxRead <= frameSize ==> Me() == ReadSteps(n, old(Me()), old(Peer()))
      ensures result ==
        if maxRead > frameSize then TooBig
        else if tx.state != Established then ConnectionReset
        else if Empty(n, rx.wCount, old(rx.rCount)) then NoMemory
        else Done(maxRead)
      ensures maxRead <= frameSize && tx.state == Established && OverFull(n, rx.wCount, old(rx.rCount)) ==>
        result == NoMemory
      ensures result.Done? ==>
        old(rPos) < |rx.frames| && maxRead <= |rx.frames[old(rPos)]| && buf == rx.frames[old(rPos)][..maxRead]
    {
      hide OverFull;
      if OverFull(n, rx.wCount, rx.rCount) {
        OverFullIsSilent(n, rx.wCount, rx.rCount);
      }
      EmptyRingOfNone(n, rx.wCount, rx.rCount);
      hide ReadSteps, Empty;
      buf := [];
      if maxRead > frameSize {
        return TooBig, buf;
      }
      if tx.state != Established {
        RefusedRead();
        return ConnectionReset, buf;
      }
      if Empty(n, rx.wCount, rx.rCount) {
        RefusedRead();
        dataWait := Some(rx.kicks);
        return NoMemory, buf;
      }
      buf := rx.frames[rPos][..maxRead];
      FinishRead();
      return Done(maxRead), buf;
    }

    /** `tegra_ivc_write_get_next_frame`: the slot for the next frame, if there is room. */
    method WriteNextFrame() returns (slot: Option<nat>)
      requires Valid()
      modifies this`roomWait
      ensures Valid() && Peer() == old(Peer())
      ensures Me() == Step(n, old(Me()), old(Peer()), StartWrite).(pc := Idle)
      ensures slot == if tx.state != Established || Full(n, tx.wCount, tx.rCount) then None else Some(wPos)
      ensures slot.Some? ==> slot.value < n
    {
      hide Occupancy;
      if tx.state != Established {
        return None;
      }
      if Full(n, tx.wCount, tx.rCount) {
        roomWait := Some(rx.kicks);
        return None;
      }
      roomWait := None;
      return Some(wPos);
    }

    /** `tegra_ivc_write_advance`: publish the next slot as it is, notify. */
    method WriteAdvance() returns (result: Result)
      requires Valid()
      modifies this`wPos, this`sent, this`history, this`roomWait, tx`wCount, tx`kicks
      ensures Valid() && Peer() == old(Peer())
      ensures Me() == WriteAdvanceSteps(n, old(Me()), old(Peer()))
      ensures result ==
        if tx.state != Established then ConnectionReset
        else if Full(n, old(tx.wCount), tx.rCount) then NoMemory
        else Done(0)
    {
      hide WriteSteps, WriteAdvanceSteps, Full;
      if tx.state != Established {
        RefusedWrite([]);
        return ConnectionReset;
      }
      if Full(n, tx.wCount, tx.rCount) {
        RefusedWrite([]);
        roomWait := Some(rx.kicks);
        return NoMemory;
      }
      FinishWrite();
      return Done(0);
    }

    /** `tegra_ivc_read_get_next_frame`: the next frame in place, if there is one. */
    method ReadNextFrame() returns (frame: Option<Frame>)
      requires Valid()
      modifies this`dataWait
      ensures Valid() && Peer() == old(Peer())
      ensures Me() == Step(n, old(Me()), old(Peer()), StartRead).(pc := Idle)
      ensures frame ==
        if tx.state != Established || Empty(n, rx.wCount, rx.rCount) || n == 0 then None else Some(rx.frames[rPos])
      ensures OverFull(n, rx.wCount, rx.rCount) ==> frame == None
    {
      hide OverFull;
      if OverFull(n, rx.wCount, rx.rCount) {
        OverFullIsSilent(n, rx.wCount, rx.rCount);
      }
      EmptyRingOfNone(n, rx.wCount, rx.rCount);
      hide Occupancy;
      if tx.state != Established {
        return None;
      }
      if Empty(n, rx.wCount, rx.rCount) {
        dataWait := Some(rx.kicks);
        return None;
      }
      dataWait := None;
      return Some(rx.frames[rPos]);
    }

    /** `tegra_ivc_read_advance`: a read without its copy. */
    method ReadAdvance() returns (result: Result)
      requires Valid()
      modifies this`rPos, this`got, this`received, this`taken, this`dataWait, rx`rCount, tx`kicks
      ensures Valid() && Peer() == old(Peer())
      ensures Me() == ReadSteps(n, old(Me()), old(Peer()))
      ensures result ==
        if tx.state != Established then ConnectionReset
        else if Empty(n, rx.wCount, old(rx.rCount)) then NoMemory
        else Done(0)
      ensures tx.state == Established && OverFull(n, rx.wCount, old(rx.rCount)) ==> result == NoMemory
    {
      hide OverFull;
      if OverFull(n, rx.wCount, rx.rCount) {
        OverFullIsSilent(n, rx.wCount, rx.rCount);
      }
      EmptyRingOfNone(n, rx.wCount, rx.rCount);
      hide ReadSteps, Empty;
      if tx.state != Established {
        RefusedRead();
        return ConnectionReset;
      }
      if Empty(n, rx.wCount, rx.rCount) {
        RefusedRead();
        dataWait := Some(rx.kicks);
        return NoMemory;
      }
      FinishRead();
      return Done(0);
    }

    /** `tegra_ivc_channel_reset`, between operations, after a look, or after a restart. */
    method ChannelReset()
      requires Valid()
      modifies tx`state, tx`kicks
      ensures Valid() && Peer() == old(Peer())
      ensures forall pc :: MayReset(old(Me()).(pc := pc)) ==>
        Me() == ResetSteps(n, old(Me()).(pc := pc), old(Peer()))
    {
      Announce(Sync);
    }

    /** `tegra_ivc_channel_notified`; the result says whether the channel is established. */
    method ChannelNotified() returns (established: bool)
      requires Valid()
      modifies this, tx`wCount, tx`base, tx`state, tx`kicks, rx`rCount
      ensures Valid() && Peer() == old(Peer())
      ensures Me() == HandlerSteps(n, old(Me()), old(Peer()))
      ensures established <==> tx.state == Established
    {
      hide HandlerSteps;
      HandlerOutcome(n, Me(), Peer());
      var peerState := rx.state;
      heard := rx.kicks;
      if peerState == Sync {
        ClearCounters();
        Announce(Ack);
      } else if tx.state == Sync && peerState == Ack {
        ClearCounters();
        Announce(Established);
      } else if tx.state == Ack {
        Announce(Established);
      }
      return tx.state == Established;
    }

    /** Store a new state and notify. */
    method Announce(next: LinkState)
      requires Valid()
      modifies tx`state, tx`kicks
      ensures Valid() && Peer() == old(Peer())
      ensures Me() == old(Me()).(state := next, kicks := old(tx.kicks) + 1)
    {
      tx.state := next;
      tx.kicks := tx.kicks + 1;
    }

    ghost method ForgetSession()
      requires Valid()
      modifies this`sent, this`got, this`dataWait, this`roomWait, tx`base
      ensures Valid() && Peer() == old(Peer())
      ensures Me() == old(Me()).(base := old(tx.base) + |old(sent)|, sent := [], got := [],
                                 dataWait := None, roomWait := None)
    {
      tx.base := tx.base + |sent|;
      sent, got, dataWait, roomWait := [], [], None, None;
    }

    /** The counters this endpoint owns, and its positions, back to zero. */
    method ClearCounters()
      requires Valid()
      modifies this, tx`wCount, tx`base, rx`rCount
      ensures Valid() && Peer() == old(Peer())
      ensures Me() == old(Me()).(wCount := 0, wPos := 0, base := old(tx.base) + |old(sent)|, sent := [],
                                 dataWait := None, roomWait := None, rCount := 0, rPos := 0, got := [])
    {
      ForgetSession();
      tx.wCount, rx.rCount := 0, 0;
      wPos, rPos := 0, 0;
    }

    /** `tegra_ivc_channel_sync`; an empty ring is rejected. */
    method ChannelSync() returns (ok: bool)
      requires Valid()
      modifies this`wPos, this`rPos
      ensures Valid() && ok == (n > 0)
      ensures Me() == if n > 0 then Step(n, old(Me()).(pc := Down(AtRest, None)), Peer(), Resync) else old(Me())
    {
      if n == 0 {
        return false;
      }
      wPos := tx.wCount % n;
      rPos := rx.rCount % n;
      return true;
    }
  }

  /** Two endpoints over the same pair of channels see each other as they are. */
  lemma SameMemory(a: Ivc, b: Ivc)
    requires a.tx == b.rx && a.rx == b.tx
    ensures LooksLike(a.Peer(), b.Me()) && LooksLike(b.Peer(), a.Me())
  {
  }

  /** `tegra_ivc_init`: refuse bad parameters, otherwise start the endpoint. */
  method Init(rxBase: Address, txBase: Address, n: nat, frameSize: nat, tx: Channel, rx: Channel, ghost was: End)
    returns (result: Result, ivc: Ivc?)
    requires tx != rx && |tx.frames| == n && |rx.frames| == n
    requires tx.wCount < WRAP && tx.rCount < WRAP && rx.wCount < WRAP && rx.rCount < WRAP
    requires forall f :: f in rx.frames ==> |f| == frameSize
    requires was.state == tx.state && was.wCount == tx.wCount && was.slots == tx.frames && was.kicks == tx.kicks
    requires was.rCount == rx.rCount && was.base == tx.base
    ensures result ==
      if !ParamsAccepted(rxBase, txBase, n, frameSize) then Invalid
      else if frameSize > 0x8000_0000 then TooBig
      else Done(0)
    ensures result.Done? <==> ivc != null
    ensures ivc != null ==>
      && fresh(ivc) && ivc.n == n && ivc.frameSize == frameSize && ivc.tx == tx && ivc.rx == rx
      && ivc.Valid() && ivc.Me() == Restarted(was).(pc := Idle) && ivc.wPos == 0 && ivc.rPos == 0
  {
    if !ParamsAccepted(rxBase, txBase, n, frameSize) {
      return Invalid, null;
    }
    if frameSize > 0x8000_0000 {
      return TooBig, null;
    }
    ivc := new Ivc(n, frameSize, tx, rx, was);
    return Done(0), ivc;
  }

  /** Two endpoints started on zeroed channels are a system from which runs start. */
  method StartBoth(n: nat, frameSize: nat, slots: seq<Frame>, slots': seq<Frame>) returns (a: Ivc, b: Ivc)
    requires |slots| == n && |slots'| == n
    requires forall f :: f in slots || f in slots' ==> |f| == frameSize
    ensures fresh(a) && fresh(b) && a.Valid() && b.Valid() && a.tx == b.rx && a.rx == b.tx
    ensures Zeroed(n, System(a.Me(), b.Me()))
  {
    var x := new Channel(slots);
    var y := new Channel(slots');
    a := new Ivc(n, frameSize, x, y, Zero(slots));
    b := new Ivc(n, frameSize, y, x, Zero(slots'));
    StartOnZeroed(slots);
    StartOnZeroed(slots');
  }
}
