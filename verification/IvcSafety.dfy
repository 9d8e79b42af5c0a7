/**
 The invariant of the protocol and its preservation by every step of either endpoint.
 */
module IvcSafety {
  import opened Bits
  import opened IvcProtocol

  // --------------------------------------------------------------------- arithmetic

  lemma WrappedCounters(s: nat, g: nat, n: nat)
    requires g <= s && s - g <= n < WRAP
    ensures Occupancy(s % WRAP, g % WRAP) == s - g
    ensures Empty(n, s % WRAP, g % WRAP) <==> s == g
    ensures Full(n, s % WRAP, g % WRAP) <==> s - g == n
  {
    var k := s / WRAP - g / WRAP;
    assert s % WRAP - g % WRAP == s - g - k * WRAP;
  }

  /** The two tests for all counters: by the number of increments from one to the other. */
  lemma TestsExactly(n: nat, r: nat, k: nat)
    requires r < 0x1_0000_0000 && k < 0x1_0000_0000
    ensures Empty(n, (r + k) % 0x1_0000_0000, r) <==> k == 0 || n < k
    ensures Full(n, (r + k) % 0x1_0000_0000, r) <==> n <= k
  {
    assert Occupancy((r + k) % WRAP, r) == k;
  }

  /** The counters are further apart than the ring is long, which no honest peer brings about. */
  predicate OverFull(n: nat, w: nat, r: nat) {
    (w - r) % 0x1_0000_0000 > n
  }

  /** Such a ring is empty to its reader and full to its writer. */
  lemma OverFullIsSilent(n: nat, w: nat, r: nat)
    requires w < 0x1_0000_0000 && r < 0x1_0000_0000 && OverFull(n, w, r)
    ensures Empty(n, w, r) && Full(n, w, r)
  {
    var k := (w - r) % WRAP;
    TestsExactly(n, r, k);
  }

  lemma EmptyRingOfNone(n: nat, w: nat, r: nat)
    requires w < WRAP && r < WRAP
    ensures n == 0 ==> Empty(n, w, r)
  {
  }

  /** Incrementing a wrapped counter follows the running count. */
  lemma CountFollows(k: nat)
    ensures (k % WRAP + 1) % WRAP == (k + 1) % WRAP
  {
  }

  /** Advancing a position follows the running count. */
  lemma BumpFollows(n: nat, k: nat)
    requires n > 0
    ensures Bump(n, Slot(n, k)) == Slot(n, k + 1)
  {
    var q, r := k / n, k % n;
    assert k == q * n + r;
    if r + 1 == n {
      assert k + 1 == (q + 1) * n + 0;
      DivModUnique(k + 1, n, q + 1, 0);
    } else {
      DivModUnique(k + 1, n, q, r + 1);
    }
  }

  /** Frames less than a ring apart use different slots. */
  lemma SlotsDiffer(n: nat, j: nat, k: nat)
    requires j < k < j + n
    ensures Slot(n, j) != Slot(n, k)
    ensures Slot(n, j) < n && Slot(n, k) < n
  {
    if j % n == k % n {
      var d := k / n - j / n;
      assert d * n == k / n * n - j / n * n;
      assert k == k / n * n + k % n && j == j / n * n + j % n;
      MulAtLeast(d, n);
      assert false;
    }
  }

  // ---------------------------------------------------------------------- invariant

  /** Nothing sent or received since the counters were cleared. */
  predicate Fresh(e: End) {
    e.sent == [] && e.got == []
  }

  /** The handler under way will clear counters, or is clearing them. */
  predicate Clearing(e: End) {
    || e.pc == Saw(Sync) || e.pc.ClearedTx? || e.pc.ClearedRx?
    || (e.state.Sync? && e.pc == Saw(Ack))
  }

  /** The counters follow the logs. */
  predicate Counted(n: nat, e: End) {
    |e.slots| == n && e.wCount == |e.sent| % WRAP && e.rCount == |e.got| % WRAP
  }

  predicate PositionsRight(n: nat, e: End) {
    e.wPos == Slot(n, |e.sent|) && e.rPos == Slot(n, |e.got|)
  }

  /** What an endpoint knows on its own; its positions are right unless it has yet to clear them. */
  predicate Local(n: nat, e: End) {
    && Counted(n, e)
    && (e.state.Sync? || e.pc.Down? || PositionsRight(n, e))
    && (e.pc.ClearedTx? || e.pc.ClearedRx? ==> e.wPos == 0)
    && (e.pc.ClearedRx? ==> e.rPos == 0)
    && (e.pc.ClearedTx? ==> e.sent == [])
    && (e.pc.ClearedRx? ==> Fresh(e))
    && (e.pc.ClearedTx? || e.pc.ClearedRx? ==> e.pc.next == Ack || (e.pc.next == Established && e.state.Sync?))
    && (e.pc.Writing? || e.pc.Published? || e.pc.Reading? || e.pc.Copied? || e.pc.Consumed? ==> e.state.Established?)
    && (e.state.Ack? ==> Fresh(e))
    && (e.state.Established? && (e.pc.Stored? || (e.pc.Down? && e.pc.cut == Unannounced)) ==> Fresh(e))
  }

  /** The handshake: where the peer can be while `e` is in the middle of its handler. */
  predicate Handshake(e: End, p: End) {
    && (e.state.Established? && Clearing(e) ==> p.state.Sync? && !Clearing(p))
    && (e.state.Sync? && Committed(e) ==> p.state.Ack? && !Committed(p))
    && (e.state.Sync? && Clearing(e) ==> !p.state.Established?)
    && (e.state.Ack? && Committed(e) ==> !p.state.Sync?)
  }

  /** Room found stays available and a frame found stays in place. */
  predicate Transfer(n: nat, e: End, p: End) {
    && (e.pc.Writing? ==> |e.sent| - |p.got| < n)
    && (e.pc.Reading? || e.pc.Copied? ==> |e.got| < |p.sent|)
    && (e.pc.Copied? ==> e.pc.frame == p.sent[|e.got|])
  }

  predicate Side(n: nat, e: End, p: End) {
    && Local(n, e)
    && Handshake(e, p)
    && Transfer(n, e, p)
    && (Active(e) ==> Flow(n, e, p) && Flow(n, p, e))
    && (Torn(e) && e.state.Established? ==>
          (Flow(n, e, p) && Flow(n, p, e)) || (p.state.Sync? && !Clearing(p)))
  }

  /** One past the number of the last frame taken. */
  function Mark(e: End): (r: nat) {
    if e.taken == [] then 0 else e.taken[|e.taken| - 1] + 1
  }

  /** The logs over the whole run: what comes next has not been taken before. */
  predicate Ledger(e: End, p: End) {
    && e.base + |e.sent| == |e.history| && e.history[e.base..] == e.sent
    && Picks(e.received, p.history, e.taken)
    && (Active(e) ==> Mark(e) <= p.base + |e.got|)
    && (e.state.Ack? && !p.state.Sync? ==> Mark(e) <= p.base)
  }

  predicate Pair(n: nat, e: End, p: End) {
    n < WRAP && Side(n, e, p) && Side(n, p, e) && Ledger(e, p) && Ledger(p, e)
  }

  predicate Inv(n: nat, s: System) {
    Pair(n, s.a, s.b)
  }

  /** While one endpoint may communicate the other clears only what is clear already. */
  lemma ClearingIsHarmless(n: nat, e: End, p: End)
    requires Side(n, e, p) && Side(n, p, e)
    requires Clearing(e) && p.state.Established?
    ensures e.state.Ack? && Fresh(e)
  {
  }

  /** The wrapped counters tell the true number of frames in flight, after any number of wraps. */
  lemma CountersTellTheTruth(n: nat, e: End, p: End)
    requires n < WRAP && Side(n, e, p) && Side(n, p, e) && Active(e)
    ensures Occupancy(e.wCount, p.rCount) == |e.sent| - |p.got|
    ensures Occupancy(p.wCount, e.rCount) == |p.sent| - |e.got|
    ensures Full(n, e.wCount, p.rCount) <==> |e.sent| - |p.got| == n
    ensures Empty(n, p.wCount, e.rCount) <==> p.sent == e.got
  {
    WrappedCounters(|e.sent|, |p.got|, n);
    WrappedCounters(|p.sent|, |e.got|, n);
    assert |p.sent| == |e.got| ==> p.sent == e.got;
  }

  // ------------------------------------------------------------------- preservation

  /** The flow between two endpoints depends on the transmitter's ring and log and the receiver's log. */
  lemma FlowDepends(n: nat, tx: End, rx: End, tx': End, rx': End)
    requires tx.slots == tx'.slots && tx.sent == tx'.sent && rx.got == rx'.got
    ensures Flow(n, tx, rx) == Flow(n, tx', rx')
  {
  }

  lemma FreshFlow(n: nat, e: End, p: End)
    requires Fresh(e) && Fresh(p) && |e.slots| == n
    ensures Flow(n, e, p)
  {
  }

  lemma FirstSlot(n: nat)
    ensures Slot(n, 0) == 0
  {
  }

  /** Clearing the write counter, the first store of the handler. */
  lemma ClearTxKeepsInv(n: nat, e: End, p: End, next: LinkState)
    requires n < WRAP && Side(n, e, p) && Side(n, p, e)
    requires e.pc.Saw? && Clearing(e) && next == if e.pc.peer == Sync then Ack else Established
    ensures Side(n, ClearTx(e, next), p) && Side(n, p, ClearTx(e, next))
  {
    hide Flow, Slot;
    var e' := ClearTx(e, next);
    FirstSlot(n);
    if p.state.Established? {
      ClearingIsHarmless(n, e, p);
      FlowDepends(n, e, p, e', p);
      FlowDepends(n, p, e, p, e');
    }
  }

  /** Clearing the read counter, the second store. */
  lemma ClearRxKeepsInv(n: nat, e: End, p: End)
    requires n < WRAP && Side(n, e, p) && Side(n, p, e) && e.pc.ClearedTx?
    ensures Side(n, Handle(e), p) && Side(n, p, Handle(e))
  {
    hide Flow, Slot;
    FirstSlot(n);
    if p.state.Established? {
      ClearingIsHarmless(n, e, p);
      FlowDepends(n, e, p, Handle(e), p);
      FlowDepends(n, p, e, p, Handle(e));
    }
  }

  /** Storing the new state, the last store. */
  lemma StoreKeepsInv(n: nat, e: End, p: End)
    requires n < WRAP && Side(n, e, p) && Side(n, p, e) && e.pc.ClearedRx?
    ensures Side(n, Handle(e), p) && Side(n, p, Handle(e))
  {
    hide Flow, Slot;
    FirstSlot(n);
    FlowDepends(n, e, p, Handle(e), p);
    FlowDepends(n, p, e, p, Handle(e));
    if p.state.Ack? {
      FreshFlow(n, e, p);
      FreshFlow(n, p, e);
    }
  }

  /** Leaving ACK for ESTABLISHED, or finding nothing to do. */
  lemma PromoteKeepsInv(n: nat, e: End, p: End)
    requires n < WRAP && Side(n, e, p) && Side(n, p, e) && e.pc.Saw? && !Clearing(e)
    ensures Side(n, Handle(e), p) && Side(n, p, Handle(e))
  {
    hide Flow, Slot;
    FlowDepends(n, e, p, Handle(e), p);
    FlowDepends(n, p, e, p, Handle(e));
    if p.state.Ack? && e.state.Ack? {
      FreshFlow(n, e, p);
      FreshFlow(n, p, e);
    }
  }

  lemma HandlerKeepsInv(n: nat, e: End, p: End)
    requires n < WRAP && Side(n, e, p) && Side(n, p, e)
    ensures Side(n, Handle(e), p) && Side(n, p, Handle(e))
  {
    hide Side;
    match e.pc
    case Saw(x) =>
      if Clearing(e) {
        ClearTxKeepsInv(n, e, p, if x == Sync then Ack else Established);
      } else {
        PromoteKeepsInv(n, e, p);
      }
    case ClearedTx(_) => ClearRxKeepsInv(n, e, p);
    case ClearedRx(_) => StoreKeepsInv(n, e, p);
    case _ =>
  }

  lemma ObserveKeepsInv(n: nat, e: End, p: End)
    requires n < WRAP && Side(n, e, p) && Side(n, p, e) && e.pc.Idle?
    ensures Side(n, Step(n, e, p, Observe), p) && Side(n, p, Step(n, e, p, Observe))
  {
    hide Flow, Slot;
    FlowDepends(n, e, p, Step(n, e, p, Observe), p);
    FlowDepends(n, p, e, p, Step(n, e, p, Observe));
  }

  /** Looking at the peer's state, and declining to act on it. */
  lemma LookKeepsInv(n: nat, e: End, p: End, pc: Pc)
    requires n < WRAP && Side(n, e, p) && Side(n, p, e)
    requires if BetweenOperations(e) then pc.Idle? || pc.Looked? else e.pc.Down? && pc.Down? && pc.cut == e.pc.cut
    ensures Side(n, e.(pc := pc), p) && Side(n, p, e.(pc := pc))
  {
    hide Flow, Slot;
    FlowDepends(n, e, p, e.(pc := pc), p);
    FlowDepends(n, p, e, p, e.(pc := pc));
  }

  /** A restart at any moment. */
  lemma RestartKeepsInv(n: nat, e: End, p: End)
    requires n < WRAP && Side(n, e, p) && Side(n, p, e)
    ensures Side(n, Restarted(e), p) && Side(n, p, Restarted(e))
  {
    hide Flow, Slot;
    FlowDepends(n, e, p, Restarted(e), p);
    FlowDepends(n, p, e, p, Restarted(e));
  }

  /** Resynchronising restores the positions when the counters still give them. */
  lemma ResyncKeepsInv(n: nat, e: End, p: End)
    requires n < WRAP && Side(n, e, p) && Side(n, p, e) && ResyncAllowed(n, e, Resync)
    ensures Side(n, Step(n, e, p, Resync), p) && Side(n, p, Step(n, e, p, Resync))
  {
    var e' := Step(n, e, p, Resync);
    FlowDepends(n, e, p, e', p);
    FlowDepends(n, p, e, p, e');
    if e.state.Ack? && n > 0 {
      DivModUnique(0, n, 0, 0);
    }
    assert e.pc.Down? && n > 0 && !e.state.Sync? ==> PositionsRight(n, e');
    hide Flow, Slot, SyncRight, SyncPositions;
    hide PositionsRight;
  }

  lemma ResetKeepsInv(n: nat, e: End, p: End)
    requires n < WRAP && Side(n, e, p) && Side(n, p, e) && MayReset(e) && !Committed(p)
    ensures Side(n, Step(n, e, p, Reset), p) && Side(n, p, Step(n, e, p, Reset))
  {
    hide Flow, Slot;
    FlowDepends(n, e, p, Step(n, e, p, Reset), p);
    FlowDepends(n, p, e, p, Step(n, e, p, Reset));
  }

  /** An endpoint with no handler under way that is established is active. */
  lemma StartWriteKeepsInv(n: nat, e: End, p: End)
    requires n < WRAP && Side(n, e, p) && Side(n, p, e)
    ensures Side(n, Step(n, e, p, StartWrite), p) && Side(n, p, Step(n, e, p, StartWrite))
  {
    hide Slot, Occupancy, Full;
    if e.pc.Idle? && e.state.Established? {
      WrappedCounters(|e.sent|, |p.got|, n);
    }
  }

  lemma StartReadKeepsInv(n: nat, e: End, p: End)
    requires n < WRAP && Side(n, e, p) && Side(n, p, e)
    ensures Side(n, Step(n, e, p, StartRead), p) && Side(n, p, Step(n, e, p, StartRead))
  {
    hide Slot, Occupancy, Empty;
    if e.pc.Idle? && e.state.Established? {
      WrappedCounters(|p.sent|, |e.got|, n);
    }
  }

  /** The slot being filled holds no frame in flight. */
  lemma PokeKeepsFlow(n: nat, e: End, p: End, f: Frame)
    requires Flow(n, e, p) && |e.sent| - |p.got| < n && e.wPos == Slot(n, |e.sent|) && e.wPos < n
    ensures Flow(n, e.(slots := e.slots[e.wPos := f]), p)
  {
    hide Slot;
    forall k | |p.got| <= k < |e.sent| ensures Slot(n, k) != e.wPos {
      SlotsDiffer(n, k, |e.sent|);
    }
  }

  lemma PokeKeepsInv(n: nat, e: End, p: End, f: Frame)
    requires n < WRAP && Side(n, e, p) && Side(n, p, e)
    ensures Side(n, Step(n, e, p, Poke(f)), p) && Side(n, p, Step(n, e, p, Poke(f)))
  {
    hide Slot, Flow;
    if e.pc.Writing? && e.wPos < |e.slots| {
      FlowDepends(n, p, e, p, Step(n, e, p, Poke(f)));
      PokeKeepsFlow(n, e, p, f);
    }
  }

  lemma PublishKeepsFlow(n: nat, e: End, p: End)
    requires Flow(n, e, p) && |e.sent| - |p.got| < n && e.wPos == Slot(n, |e.sent|) && e.wPos < n
    ensures Flow(n, e.(sent := e.sent + [e.slots[e.wPos]]), p)
  {
    hide Slot;
  }

  lemma PublishKeepsInv(n: nat, e: End, p: End)
    requires n < WRAP && Side(n, e, p) && Side(n, p, e)
    ensures Side(n, Step(n, e, p, Publish), p) && Side(n, p, Step(n, e, p, Publish))
  {
    hide Slot, Flow, Bump;
    if e.pc.Writing? && e.wPos < |e.slots| {
      var e' := Step(n, e, p, Publish);
      BumpFollows(n, |e.sent|);
      CountFollows(|e.sent|);
      PublishKeepsFlow(n, e, p);
      FlowDepends(n, e.(sent := e.sent + [e.slots[e.wPos]]), p, e', p);
      FlowDepends(n, p, e, p, e');
    }
  }

  lemma CopyOutKeepsInv(n: nat, e: End, p: End)
    requires n < WRAP && Side(n, e, p) && Side(n, p, e)
    ensures Side(n, Step(n, e, p, CopyOut), p) && Side(n, p, Step(n, e, p, CopyOut))
  {
    hide Slot;
  }

  lemma ConsumeKeepsFlow(n: nat, e: End, p: End, f: Frame)
    requires Flow(n, p, e) && |e.got| < |p.sent| && f == p.sent[|e.got|]
    ensures Flow(n, p, e.(got := e.got + [f]))
  {
    hide Slot;
    assert e.got + [f] <= p.sent;
  }

  lemma ConsumeKeepsInv(n: nat, e: End, p: End)
    requires n < WRAP && Side(n, e, p) && Side(n, p, e)
    ensures Side(n, Step(n, e, p, Consume), p) && Side(n, p, Step(n, e, p, Consume))
  {
    hide Slot, Bump, Flow;
    if e.pc.Copied? {
      var e' := Step(n, e, p, Consume);
      TakenFromRing(n, e, p);
      BumpFollows(n, |e.got|);
      CountFollows(|e.got|);
      ConsumeKeepsFlow(n, e, p, e.pc.frame);
      FlowDepends(n, p, e.(got := e.got + [e.pc.frame]), p, e');
      FlowDepends(n, e, p, e', p);
    }
  }

  /** The notification decision sees the true occupancy, so no waiting peer is passed over. */
  lemma NotifyKeepsInv(n: nat, e: End, p: End)
    requires n < WRAP && Side(n, e, p) && Side(n, p, e)
    ensures Side(n, Step(n, e, p, Notify), p) && Side(n, p, Step(n, e, p, Notify))
  {
    hide Slot, Occupancy, Flow;
    FlowDepends(n, e, p, Step(n, e, p, Notify), p);
    FlowDepends(n, p, e, p, Step(n, e, p, Notify));
    if e.pc.Published? || e.pc.Consumed? {
      CountersTellTheTruth(n, e, p);
    }
  }

  lemma TakenFromRing(n: nat, e: End, p: End)
    requires Flow(n, p, e) && |e.got| < |p.sent|
    ensures n > 0
  {
  }

  lemma StepKeepsSides(n: nat, e: End, p: End, a: Action)
    requires n < WRAP && Side(n, e, p) && Side(n, p, e)
    requires Allowed(n, e, p, a)
    ensures Side(n, Step(n, e, p, a), p) && Side(n, p, Step(n, e, p, a))
  {
    match a
    case Look =>
      if MayReset(e) { LookKeepsInv(n, e, p, TakeLook(e, p).pc); }
    case Decline =>
      if e.pc.Looked? { LookKeepsInv(n, e, p, Idle); }
    case Reset =>
      if MayReset(e) { ResetKeepsInv(n, e, p); }
    case Restart => RestartKeepsInv(n, e, p);
    case Resync => ResyncKeepsInv(n, e, p);
    case Observe =>
      if e.pc.Idle? { ObserveKeepsInv(n, e, p); }
    case Proceed => HandlerKeepsInv(n, e, p);
    case StartWrite => StartWriteKeepsInv(n, e, p);
    case Poke(f) => PokeKeepsInv(n, e, p, f);
    case Publish => PublishKeepsInv(n, e, p);
    case StartRead => StartReadKeepsInv(n, e, p);
    case CopyOut => CopyOutKeepsInv(n, e, p);
    case Consume => ConsumeKeepsInv(n, e, p);
    case Notify => NotifyKeepsInv(n, e, p);
  }

  // ------------------------------------------------------------ logs over the whole run

  lemma MarkIsPublished(e: End, p: End)
    requires Picks(e.received, p.history, e.taken)
    ensures Mark(e) <= |p.history|
  {
  }

  /** A step that changes no log and brings nobody back to communication. */
  lemma LedgerDepends(e: End, p: End, e': End)
    requires Ledger(e, p) && Ledger(p, e)
    requires e'.base == e.base && e'.sent == e.sent && e'.history == e.history && e'.got == e.got
    requires e'.received == e.received && e'.taken == e.taken
    requires (Active(e') ==> Active(e)) && (e'.state.Ack? ==> e.state.Ack?) && (e.state.Sync? ==> e'.state.Sync?)
    ensures Ledger(e', p) && Ledger(p, e')
  {
    hide Active, Picks;
  }

  lemma LogsUntouched(n: nat, e: End, p: End, a: Action)
    requires !a.Publish? && !a.Consume? && !a.Proceed? && Allowed(n, e, p, a)
    ensures var e' := Step(n, e, p, a);
      && e'.base == e.base && e'.sent == e.sent && e'.history == e.history && e'.got == e.got
      && e'.received == e.received && e'.taken == e.taken
      && (Active(e') ==> Active(e)) && (e'.state.Ack? ==> e.state.Ack?) && (e.state.Sync? ==> e'.state.Sync?)
  {
    hide Occupancy, Full, Empty;
  }

  lemma PublishKeepsLedger(n: nat, e: End, p: End)
    requires Ledger(e, p) && Ledger(p, e)
    ensures Ledger(Step(n, e, p, Publish), p) && Ledger(p, Step(n, e, p, Publish))
  {
    hide Bump;
    var e' := Step(n, e, p, Publish);
    assert e.pc.Writing? && e.wPos < |e.slots| ==> e'.history[e'.base..] == e'.sent;
  }

  lemma ConsumeKeepsLedger(n: nat, e: End, p: End)
    requires Side(n, e, p) && Side(n, p, e) && Ledger(e, p) && Ledger(p, e)
    ensures Ledger(Step(n, e, p, Consume), p) && Ledger(p, Step(n, e, p, Consume))
  {
    hide Bump, Flow, Slot, Handshake;
    if e.pc.Copied? {
      assert p.history[p.base..][|e.got|] == p.history[p.base + |e.got|];
    }
  }

  /** A clear hides nothing that was not taken, and starts numbering where the last session ended. */
  lemma ClearKeepsLedger(n: nat, e: End, p: End, next: LinkState)
    requires Side(n, e, p) && Side(n, p, e) && Ledger(e, p) && Ledger(p, e)
    requires e.pc.Saw? && Clearing(e)
    ensures Ledger(ClearTx(e, next), p) && Ledger(p, ClearTx(e, next))
  {
    hide Flow, Slot;
    if p.state.Established? {
      ClearingIsHarmless(n, e, p);
    }
  }

  lemma HandlerKeepsLedger(n: nat, e: End, p: End)
    requires Side(n, e, p) && Side(n, p, e) && Ledger(e, p) && Ledger(p, e)
    ensures Ledger(Handle(e), p) && Ledger(p, Handle(e))
  {
    hide Flow, Slot, Picks;
    MarkIsPublished(e, p);
    MarkIsPublished(p, e);
    if e.pc.Saw? && Clearing(e) {
      ClearKeepsLedger(n, e, p, Handle(e).pc.next);
    }
  }

  lemma StepKeepsLedger(n: nat, e: End, p: End, a: Action)
    requires Side(n, e, p) && Side(n, p, e) && Ledger(e, p) && Ledger(p, e)
    requires Allowed(n, e, p, a)
    ensures Ledger(Step(n, e, p, a), p) && Ledger(p, Step(n, e, p, a))
  {
    match a
    case Publish => PublishKeepsLedger(n, e, p);
    case Consume => ConsumeKeepsLedger(n, e, p);
    case Proceed => HandlerKeepsLedger(n, e, p);
    case _ =>
      hide Side, Ledger, Step, Active, Allowed;
      LogsUntouched(n, e, p, a);
      LedgerDepends(e, p, Step(n, e, p, a));
  }

  /**
   Every step of an endpoint keeps the invariant: a reset if the peer is not committed, a
   resynchronisation if the counters are whole and give the positions.
   */
  lemma StepKeepsInv(n: nat, e: End, p: End, a: Action)
    requires Pair(n, e, p) && Allowed(n, e, p, a)
    ensures Pair(n, Step(n, e, p, a), p)
  {
    hide Side, Ledger, Step, Allowed;
    StepKeepsSides(n, e, p, a);
    StepKeepsLedger(n, e, p, a);
  }

  /** Both directions in order since the last clear, and no frame taken twice over the whole run. */
  ghost predicate Sound(n: nat, s: System) {
    Safe(n, s) && AtMostOnce(s)
  }

  lemma InvIsSound(n: nat, s: System)
    requires Inv(n, s)
    ensures Sound(n, s)
  {
    hide Picks, Flow;
    assert Picks(s.a.received, s.b.history, s.a.taken) && Picks(s.b.received, s.a.history, s.b.taken);
  }

  lemma ZeroedIsInv(n: nat, s: System)
    requires n < WRAP && Zeroed(n, s)
    ensures Inv(n, s)
  {
    if n > 0 {
      assert Slot(n, 0) == 0;
    }
  }

  /** Runs with disciplined resets keep the invariant, whatever the interleaving. */
  lemma {:induction false} DisciplinedRunKeepsInv(n: nat, s: System, ms: seq<Move>)
    requires Inv(n, s) && Disciplined(n, s, ms)
    ensures Inv(n, Exec(n, s, ms))
    decreases |ms|
  {
    if ms != [] {
      hide Side, Ledger, Step, Allowed;
      match ms[0] {
        case MoveA(act) => StepKeepsInv(n, s.a, s.b, act);
        case MoveB(act) => StepKeepsInv(n, s.b, s.a, act);
      }
      DisciplinedRunKeepsInv(n, Next(n, s, ms[0]), ms[1..]);
    }
  }

  /** The frame an endpoint takes next is the next one its peer sent. */
  lemma FramesArriveInOrder(n: nat, e: End, p: End)
    requires Side(n, e, p) && Side(n, p, e) && e.pc.Copied?
    ensures |e.got| < |p.sent| && e.pc.frame == p.sent[|e.got|]
    ensures Step(n, e, p, Consume).got == p.sent[..|e.got| + 1]
  {
    assert e.got == p.sent[..|e.got|];
    assert p.sent[..|e.got| + 1] == p.sent[..|e.got|] + [p.sent[|e.got|]];
  }

  /** While a frame is being read, nothing the sender does changes its slot. */
  lemma SlotBeingReadIsStable(n: nat, e: End, p: End, a: Action)
    requires Side(n, e, p) && Side(n, p, e) && (e.pc.Reading? || e.pc.Copied?)
    ensures e.rPos < n
    ensures p.slots[e.rPos] == p.sent[|e.got|] == Step(n, p, e, a).slots[e.rPos]
  {
    assert Slot(n, |e.got|) < n;
    if p.pc.Writing? {
      SlotsDiffer(n, |e.got|, |p.sent|);
    }
  }

  /**
   The protocol, from zeroed channels and in every disciplined run, whatever the
   interleaving, with restarts at any moment: whenever an endpoint may communicate each
   side has taken exactly a prefix of what the other sent since the last clear, in order,
   with the frames in between intact in the ring; and over the whole run, across all
   resets and restarts, each side has taken only frames the other published, in order and
   none twice.
   */
  lemma EveryDisciplinedRunIsSafe(n: nat, s: System, ms: seq<Move>)
    requires n < WRAP && Zeroed(n, s) && Disciplined(n, s, ms)
    ensures Safe(n, Exec(n, s, ms)) && AtMostOnce(Exec(n, s, ms))
  {
    hide Safe, AtMostOnce;
    ZeroedIsInv(n, s);
    DisciplinedRunKeepsInv(n, s, ms);
    InvIsSound(n, Exec(n, s, ms));
  }
}
