/**
 Inter-processor communication over shared memory (IVC): two rings of frames, one in each
 direction, the handshake that resets them, and the notifications between the endpoints.

 Every word in shared memory has one writer. An endpoint owns its synchronisation state,
 the write counter and the frames of the ring it transmits on, and the read counter of
 the ring it receives on, so one record per endpoint holds everything it may change. A
 step makes one access to memory the peer writes or reads; the two endpoints take steps
 in any order, which is what the barriers between the accesses of the code provide.
 */
module IvcProtocol {
  import opened Options

  type Byte = x: nat | x < 256
  type Frame = seq<Byte>

  datatype LinkState = Established | Sync | Ack

  /** What a restart cut short. */
  datatype Cut =
    | AtRest                        // nothing
    | InHandler                     // a handler that had read the peer's state and changed nothing
    | HalfCleared                   // a handler between its first clear and its store
    | Unannounced                   // a reset or a handler that had stored a state and not notified
    | InTransfer                    // a write or a read that had not advanced its counter
    | Unnotified                    // a write or a read that had, before deciding to notify

  /** How far an endpoint is inside an operation. */
  datatype Pc =
    | Idle
    | Looked(seen: LinkState)       // has read the peer's state, to decide on a reset
    | Down(cut: Cut, look: Option<LinkState>)
                                    // has restarted, and may have looked since
    | Saw(peer: LinkState)          // the handler has read the peer's state
    | ClearedTx(next: LinkState)    // and has cleared its write counter
    | ClearedRx(next: LinkState)    // and its read counter, before storing its new state
    | Stored                        // has stored a new state, before notifying
    | Writing                       // found room; the slot at wPos may be filled
    | Published                     // has advanced the write counter, before notifying
    | Reading                       // found a frame at rPos
    | Copied(frame: Frame)          // has copied it out
    | Consumed                      // has advanced the read counter, before notifying

  /**
   One endpoint. `sent` and `got` log the frames published and taken since it last cleared
   its counters; `history` and `received` log them over the whole run. `base` counts the
   frames published before the last clear, and `taken` numbers the frames received by
   their place in the peer's history. `kicks` counts the notifications it has sent, and `heard` is the peer's
   count when its handler last read the peer's state. `dataWait` and `roomWait` hold the
   peer's count at the moment a ring was found empty or full.
   */
  datatype End = End(
    state: LinkState, wCount: nat, rCount: nat, slots: seq<Frame>,
    wPos: nat, rPos: nat, pc: Pc, sent: seq<Frame>, got: seq<Frame>,
    kicks: nat, heard: nat, dataWait: Option<nat>, roomWait: Option<nat>,
    base: nat, history: seq<Frame>, received: seq<Frame>, taken: seq<nat>)

  datatype Action =
    | Look | Decline                // the caller reads the peer's state, and may leave it at that
    | Reset                         // tegra_ivc_channel_reset
    | Restart                       // tegra_ivc_init on memory in use, at any moment
    | Resync                        // tegra_ivc_channel_sync after that
    | Observe | Proceed             // tegra_ivc_channel_notified, access by access
    | StartWrite | Poke(frame: Frame) | Publish
    | StartRead | CopyOut | Consume
    | Notify                        // the end of a reset, a handler, a write or a read

  /** Counters are 32-bit words. */
  const WRAP: nat := 0x1_0000_0000

  /** `w_count - r_count` in unsigned arithmetic. */
  function Occupancy(w: nat, r: nat): (k: nat)
    ensures k < WRAP
  {
    (w - r) % WRAP
  }

  predicate Empty(n: nat, w: nat, r: nat) {
    Occupancy(w, r) > n || w == r
  }

  predicate Full(n: nat, w: nat, r: nat) {
    Occupancy(w, r) >= n
  }

  /** The position after `pos` in a ring of `n` frames. */
  function Bump(n: nat, pos: nat): (r: nat) {
    if pos + 1 == n then 0 else pos + 1
  }

  /** The handler clears the write counter on its way to `next`. */
  function ClearTx(me: End, next: LinkState): (r: End) {
    me.(wCount := 0, wPos := 0, base := me.base + |me.sent|, sent := [],
        dataWait := None, roomWait := None, pc := ClearedTx(next))
  }

  /** One step of the notification handler. */
  function Handle(me: End): (r: End) {
    match me.pc
    case Saw(p) =>
      if p == Sync then ClearTx(me, Ack)
      else if me.state == Sync && p == Ack then ClearTx(me, Established)
      else if me.state == Ack then me.(state := Established, pc := Stored)
      else me.(pc := Idle)
    case ClearedTx(next) => me.(rCount := 0, rPos := 0, got := [], pc := ClearedRx(next))
    case ClearedRx(next) => me.(state := next, pc := Stored)
    case _ => me
  }

  /** Notify after storing a state, after a write that leaves one frame, after a read that leaves one gap. */
  function Notified(n: nat, me: End, peer: End): (r: End) {
    var kick :=
      match me.pc
      case Stored => true
      case Published => Occupancy(me.wCount, peer.rCount) == 1
      case Consumed => Occupancy(peer.wCount, me.rCount) + 1 == n
      case _ => false;
    me.(kicks := if kick then me.kicks + 1 else me.kicks,
        pc := if me.pc.Stored? || me.pc.Published? || me.pc.Consumed? then Idle else me.pc)
  }

  /** The steps of a handler that are left once it has read the peer's state. */
  function Finish(n: nat, me: End, peer: End): (r: End) {
    Notified(n, Handle(Handle(Handle(me))), peer)
  }

  predicate BetweenOperations(e: End) {
    e.pc.Idle? || e.pc.Looked?
  }

  /** A caller resets between operations or after a restart. */
  predicate MayReset(e: End) {
    BetweenOperations(e) || e.pc.Down?
  }

  /** What the caller last saw of the peer's state, if it has just looked. */
  function LookOf(e: End): (r: Option<LinkState>) {
    match e.pc
    case Looked(x) => Some(x)
    case Down(_, l) => l
    case _ => None
  }

  /** The caller's look at the peer's state word. */
  function TakeLook(me: End, peer: End): (r: End) {
    if BetweenOperations(me) then me.(pc := Looked(peer.state))
    else if me.pc.Down? then me.(pc := Down(me.pc.cut, Some(peer.state)))
    else me
  }

  /** What a restart at `pc` cuts short. */
  function CutAt(pc: Pc): (r: Cut) {
    match pc
    case Down(cut, _) => cut
    case Saw(_) => InHandler
    case ClearedTx(_) => HalfCleared
    case ClearedRx(_) => HalfCleared
    case Stored => Unannounced
    case Writing => InTransfer
    case Reading => InTransfer
    case Copied(_) => InTransfer
    case Published => Unnotified
    case Consumed => Unnotified
    case _ => AtRest
  }

  /** The endpoint starts again: positions at zero, whatever it was doing. */
  function Restarted(me: End): (r: End) {
    me.(wPos := 0, rPos := 0, dataWait := None, roomWait := None, pc := Down(CutAt(me.pc), None))
  }

  /** `tegra_ivc_channel_sync` recomputes both positions from the wrapped counters. */
  function SyncPositions(n: nat, me: End): (r: End)
    requires n > 0
  {
    me.(wPos := me.wCount % n, rPos := me.rCount % n)
  }

  /** One step of an endpoint; an action that is not enabled leaves it alone. */
  function Step(n: nat, me: End, peer: End, a: Action): (r: End) {
    match a
    case Look => TakeLook(me, peer)
    case Decline => if me.pc.Looked? then me.(pc := Idle) else me
    case Reset => if MayReset(me) then me.(state := Sync, pc := Stored) else me
    case Restart => Restarted(me)
    case Resync => if n > 0 && me.pc.Down? then SyncPositions(n, me).(pc := Idle) else me
    case Observe => if me.pc.Idle? then me.(pc := Saw(peer.state), heard := peer.kicks) else me
    case Proceed => Handle(me)
    case StartWrite =>
      if !me.pc.Idle? || !me.state.Established? then me
      else if Full(n, me.wCount, peer.rCount) then me.(roomWait := Some(peer.kicks))
      else me.(pc := Writing, roomWait := None)
    case Poke(f) =>
      if me.pc.Writing? && me.wPos < |me.slots| then me.(slots := me.slots[me.wPos := f]) else me
    case Publish =>
      if me.pc.Writing? && me.wPos < |me.slots| then
        me.(wCount := (me.wCount + 1) % WRAP, wPos := Bump(n, me.wPos),
            sent := me.sent + [me.slots[me.wPos]], history := me.history + [me.slots[me.wPos]], pc := Published)
      else me
    case StartRead =>
      if !me.pc.Idle? || !me.state.Established? then me
      else if Empty(n, peer.wCount, me.rCount) then me.(dataWait := Some(peer.kicks))
      else me.(pc := Reading, dataWait := None)
    case CopyOut =>
      if me.pc.Reading? && me.rPos < |peer.slots| then me.(pc := Copied(peer.slots[me.rPos])) else me
    case Consume =>
      if me.pc.Copied? then
        me.(rCount := (me.rCount + 1) % WRAP, rPos := Bump(n, me.rPos), got := me.got + [me.pc.frame],
            received := me.received + [me.pc.frame], taken := me.taken + [peer.base + |me.got|], pc := Consumed)
      else me
    case Notify => Notified(n, me, peer)
  }

  /** A row of the transition table: the state moved to, whether counters are reset, whether to notify. */
  datatype Row = Row(next: LinkState, clears: bool, notifies: bool)

  /** The table in the source, by the local and the remote state. */
  function Table(local: LinkState, remote: LinkState): (r: Row) {
    match (local, remote)
    case (Sync, Established) => Row(Sync, false, false)
    case (Sync, Ack) => Row(Established, true, true)
    case (Sync, Sync) => Row(Ack, true, true)
    case (Ack, Established) => Row(Established, false, true)
    case (Ack, Ack) => Row(Established, false, true)
    case (Ack, Sync) => Row(Ack, true, true)
    case (Established, Established) => Row(Established, false, false)
    case (Established, Ack) => Row(Established, false, false)
    case (Established, Sync) => Row(Ack, true, true)
  }

  // ------------------------------------------------------------------------- runs

  datatype System = System(a: End, b: End)

  datatype Move = MoveA(act: Action) | MoveB(act: Action)

  function Next(n: nat, s: System, m: Move): (r: System) {
    match m
    case MoveA(act) => System(Step(n, s.a, s.b, act), s.b)
    case MoveB(act) => System(s.a, Step(n, s.b, s.a, act))
  }

  function Exec(n: nat, s: System, ms: seq<Move>): (r: System)
    decreases |ms|
  {
    if ms == [] then s else Exec(n, Next(n, s, ms[0]), ms[1..])
  }

  /** An endpoint on zeroed memory: established, counters at zero, any frame contents. */
  function Zero(slots: seq<Frame>): (e: End) {
    End(Established, 0, 0, slots, 0, 0, Idle, [], [], 0, 0, None, None, 0, [], [], [])
  }

  predicate Zeroed(n: nat, s: System) {
    && |s.a.slots| == n && |s.b.slots| == n
    && s == System(Zero(s.a.slots), Zero(s.b.slots))
  }

  // ------------------------------------------------------------------ what is promised

  /** The slot of the `k`-th frame of a session. */
  function Slot(n: nat, k: nat): (r: nat) {
    if n == 0 then 0 else k % n
  }

  /** What `rx` took is a prefix of what `tx` sent, and the rest sits in the ring, in order. */
  predicate Flow(n: nat, tx: End, rx: End) {
    && |tx.slots| == n
    && rx.got <= tx.sent
    && |tx.sent| - |rx.got| <= n
    && forall k :: |rx.got| <= k < |tx.sent| ==> Slot(n, k) < n && tx.slots[Slot(n, k)] == tx.sent[k]
  }

  /** An endpoint restarted between the clears of a handler and its store. */
  predicate Torn(e: End) {
    e.pc.Down? && e.pc.cut == HalfCleared
  }

  /** An endpoint that may send and receive, once its positions are right. */
  predicate Active(e: End) {
    e.state.Established? && !e.pc.ClearedTx? && !e.pc.ClearedRx? && !Torn(e)
  }

  /** Whenever either endpoint may communicate, both directions are in order. */
  predicate Safe(n: nat, s: System) {
    Active(s.a) || Active(s.b) ==> Flow(n, s.a, s.b) && Flow(n, s.b, s.a)
  }

  /** `f` picks `xs` out of `ys`, in order and no element twice. */
  predicate Picks(xs: seq<Frame>, ys: seq<Frame>, f: seq<nat>) {
    && |f| == |xs|
    && (forall i, j :: 0 <= i < j < |f| ==> f[i] < f[j])
    && (forall i :: 0 <= i < |f| ==> f[i] < |ys| && xs[i] == ys[f[i]])
  }

  ghost predicate Subsequence(xs: seq<Frame>, ys: seq<Frame>) {
    exists f :: Picks(xs, ys, f)
  }

  /** Over the whole run each end has taken only frames the other published, in order and none twice. */
  ghost predicate AtMostOnce(s: System) {
    Subsequence(s.a.received, s.b.history) && Subsequence(s.b.received, s.a.history)
  }

  /** `e` found its ring empty and has not been notified since. */
  predicate AwaitsData(e: End, p: End) {
    Active(e) && e.dataWait == Some(p.kicks)
  }

  /** `e` found its ring full and has not been notified since. */
  predicate AwaitsRoom(e: End, p: End) {
    Active(e) && e.roomWait == Some(p.kicks)
  }

  // -------------------------------------------------------------------- the reset rule

  /** The handler under way will end by storing ESTABLISHED. */
  predicate Committed(e: End) {
    || (e.state.Ack? && e.pc.Saw? && e.pc.peer != Sync)
    || (e.state.Sync? && (e.pc == Saw(Ack) || e.pc == ClearedTx(Established) || e.pc == ClearedRx(Established)))
  }

  /** The positions computed from the wrapped counters are those of the counts themselves. */
  predicate SyncRight(n: nat, e: End) {
    n > 0 ==> |e.sent| % WRAP % n == |e.sent| % n && |e.got| % WRAP % n == |e.got| % n
  }

  /** A reset needs a peer not committed to ESTABLISHED. */
  predicate ResetAllowed(me: End, peer: End, a: Action) {
    a.Reset? && MayReset(me) ==> !Committed(peer)
  }

  /** A resynchronisation that leads back to communication needs whole counters that still give the positions. */
  predicate ResyncAllowed(n: nat, me: End, a: Action) {
    a.Resync? && me.pc.Down? && me.state.Established? ==> !Torn(me) && SyncRight(n, me)
  }

  /** The cuts after which a caller resynchronises rather than resets. */
  type Cuts = Cut -> bool

  predicate ResyncAfter(cuts: Cuts, me: End, a: Action) {
    a.Resync? && me.pc.Down? ==> cuts(me.pc.cut)
  }

  /** A condition on the moves of an endpoint: the ring size, itself, its peer, and its action. */
  type Rule = (nat, End, End, Action) -> bool

  predicate Allowed(n: nat, me: End, peer: End, a: Action) {
    ResetAllowed(me, peer, a) && ResyncAllowed(n, me, a)
  }

  predicate Permits(n: nat, s: System, m: Move, rule: Rule) {
    match m
    case MoveA(act) => rule(n, s.a, s.b, act)
    case MoveB(act) => rule(n, s.b, s.a, act)
  }

  /** Every move of the run is permitted in the state it is made from. */
  predicate Along(n: nat, s: System, ms: seq<Move>, rule: Rule)
    decreases |ms|
  {
    ms != [] ==> Permits(n, s, ms[0], rule) && Along(n, Next(n, s, ms[0]), ms[1..], rule)
  }

  /** Every reset and every resynchronisation of the run is allowed. */
  predicate Disciplined(n: nat, s: System, ms: seq<Move>) {
    Along(n, s, ms, Allowed)
  }
}
