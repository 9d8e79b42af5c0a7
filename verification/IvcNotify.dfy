/**
 Notifications: that none is missed, what a restart can lose, and when a write or a read
 notifies. The decision is made after the counter is advanced, and the peer may move in
 between.
 */
module IvcNotify {
  import opened Options
  import opened IvcProtocol
  import opened IvcRuns
  import opened IvcSafety

  // ------------------------------------------------------------- nothing is missed

  /** A notification is due, or was lost in a restart and will be made up for by a reset. */
  predicate WillNotify(e: End) {
    e.pc.Stored? || (e.pc.Down? && LosesNotification(e.pc.cut))
  }

  predicate LosesNotification(cut: Cut) {
    cut == Unannounced || cut == Unnotified
  }

  /** No resynchronisation follows a restart that lost a notification. */
  predicate Heeds(n: nat, me: End, peer: End, a: Action) {
    Allowed(n, me, peer, a) && (a.Resync? && me.pc.Down? ==> !LosesNotification(me.pc.cut))
  }

  /** A waiting endpoint has nothing to do, unless its peer is about to notify it. */
  predicate Waits(n: nat, e: End, p: End) {
    && (AwaitsData(e, p) && !WillNotify(p) ==>
          |p.sent| == |e.got| || (p.pc.Published? && |p.sent| == |e.got| + 1))
    && (AwaitsRoom(e, p) && !WillNotify(p) ==>
          |e.sent| - |p.got| == n || (p.pc.Consumed? && |e.sent| - |p.got| == n - 1))
    && (e.dataWait.Some? ==> e.dataWait.value <= p.kicks)
    && (e.roomWait.Some? ==> e.roomWait.value <= p.kicks)
    && (e.pc.ClearedTx? || e.pc.ClearedRx? || e.state.Ack? || e.pc.Down? ==> e.dataWait.None? && e.roomWait.None?)
  }

  /** The clears of the handler find nobody waiting. */
  lemma ClearingKeepsWaits(n: nat, e: End, p: End)
    requires Pair(n, e, p) && Waits(n, e, p) && Waits(n, p, e) && Clearing(e)
    ensures Waits(n, Handle(e), p) && Waits(n, p, Handle(e))
  {
    hide Flow, Slot, Transfer, Ledger;
    if p.state.Established? {
      ClearingIsHarmless(n, e, p);
      assert Handle(e).sent == e.sent && Handle(e).got == e.got;
    }
  }

  /** So do its other steps, which leave the logs alone. */
  lemma PromoteKeepsWaits(n: nat, e: End, p: End)
    requires Waits(n, e, p) && Waits(n, p, e) && !Clearing(e)
    ensures Waits(n, Handle(e), p) && Waits(n, p, Handle(e))
  {
  }

  lemma HandlerKeepsWaits(n: nat, e: End, p: End)
    requires Pair(n, e, p) && Waits(n, e, p) && Waits(n, p, e)
    ensures Waits(n, Handle(e), p) && Waits(n, p, Handle(e))
  {
    hide Side, Ledger, Waits, Handle;
    if Clearing(e) {
      ClearingKeepsWaits(n, e, p);
    } else {
      PromoteKeepsWaits(n, e, p);
    }
  }

  /** A ring found empty or full is so. */
  lemma StartKeepsWaits(n: nat, e: End, p: End, a: Action)
    requires Pair(n, e, p) && Waits(n, e, p) && Waits(n, p, e) && (a.StartWrite? || a.StartRead?)
    ensures Waits(n, Step(n, e, p, a), p) && Waits(n, p, Step(n, e, p, a))
  {
    if e.pc.Idle? && e.state.Established? {
      CountersTellTheTruth(n, e, p);
    }
    hide Flow, Slot, Handshake, Transfer, Ledger, Occupancy, Full, Empty;
  }

  lemma AdvanceKeepsWaits(n: nat, e: End, p: End, a: Action)
    requires Pair(n, e, p) && Waits(n, e, p) && Waits(n, p, e) && (a.Publish? || a.Consume?)
    ensures Waits(n, Step(n, e, p, a), p) && Waits(n, p, Step(n, e, p, a))
  {
    hide Slot, Handshake, Ledger, Bump;
  }

  /** The decision sees the true occupancy, so no waiting peer is passed over. */
  lemma NotifyKeepsWaits(n: nat, e: End, p: End)
    requires Pair(n, e, p) && Waits(n, e, p) && Waits(n, p, e)
    ensures Waits(n, Notified(n, e, p), p) && Waits(n, p, Notified(n, e, p))
  {
    if e.pc.Published? || e.pc.Consumed? {
      CountersTellTheTruth(n, e, p);
    }
    hide Flow, Slot, Handshake, Transfer, Ledger, Occupancy;
  }

  lemma OtherKeepsWaits(n: nat, e: End, p: End, a: Action)
    requires Waits(n, e, p) && Waits(n, p, e) && Heeds(n, e, p, a)
    requires a.Look? || a.Decline? || a.Reset? || a.Restart? || a.Resync? || a.Observe? || a.Poke? || a.CopyOut?
    ensures Waits(n, Step(n, e, p, a), p) && Waits(n, p, Step(n, e, p, a))
  {
    hide Committed, SyncRight;
  }

  lemma StepKeepsWaits(n: nat, e: End, p: End, a: Action)
    requires Pair(n, e, p) && Waits(n, e, p) && Waits(n, p, e) && Heeds(n, e, p, a)
    ensures Waits(n, Step(n, e, p, a), p) && Waits(n, p, Step(n, e, p, a))
  {
    hide Pair, Waits, Handle, Notified, Heeds;
    match a
    case Proceed => HandlerKeepsWaits(n, e, p);
    case StartWrite => StartKeepsWaits(n, e, p, a);
    case StartRead => StartKeepsWaits(n, e, p, a);
    case Publish => AdvanceKeepsWaits(n, e, p, a);
    case Consume => AdvanceKeepsWaits(n, e, p, a);
    case Notify => NotifyKeepsWaits(n, e, p);
    case _ => OtherKeepsWaits(n, e, p, a);
  }

  lemma {:induction false} RunKeepsWaits(n: nat, s: System, ms: seq<Move>)
    requires Inv(n, s) && Waits(n, s.a, s.b) && Waits(n, s.b, s.a) && Along(n, s, ms, Heeds)
    ensures var t := Exec(n, s, ms); Inv(n, t) && Waits(n, t.a, t.b) && Waits(n, t.b, t.a)
    decreases |ms|
  {
    hide Side, Ledger, Waits, Step, Allowed;
    if ms != [] {
      match ms[0] {
        case MoveA(act) =>
          StepKeepsWaits(n, s.a, s.b, act);
          StepKeepsInv(n, s.a, s.b, act);
        case MoveB(act) =>
          StepKeepsWaits(n, s.b, s.a, act);
          StepKeepsInv(n, s.b, s.a, act);
      }
      RunKeepsWaits(n, Next(n, s, ms[0]), ms[1..]);
    }
  }

  /** An unnotified endpoint waits only for what is not there, once its peer is between operations. */
  predicate NothingMissed(n: nat, e: End, p: End) {
    BetweenOperations(p) ==>
      && (AwaitsData(e, p) ==> Empty(n, p.wCount, e.rCount))
      && (AwaitsRoom(e, p) ==> Full(n, e.wCount, p.rCount))
  }

  lemma WaitsMissNothing(n: nat, e: End, p: End)
    requires Pair(n, e, p) && Waits(n, e, p)
    ensures NothingMissed(n, e, p)
  {
    if Active(e) {
      CountersTellTheTruth(n, e, p);
    }
    hide Flow, Slot, Handshake, Transfer, Ledger, Occupancy;
    assert p.sent == e.got ==> |p.sent| == |e.got|;
  }

  /** An endpoint waits from the moment it finds its ring empty or full. */
  lemma WaitingBegins(n: nat, e: End, p: End)
    requires e.pc.Idle? && e.state.Established?
    ensures Empty(n, p.wCount, e.rCount) ==> AwaitsData(Step(n, e, p, StartRead), p)
    ensures Full(n, e.wCount, p.rCount) ==> AwaitsRoom(Step(n, e, p, StartWrite), p)
  {
  }

  /**
   No notification is missed: in every disciplined run from zeroed channels in which no
   resynchronisation follows a restart that lost one, an endpoint that found its ring
   empty or full and was not notified since still finds it so once its peer is between
   operations.
   */
  lemma NoLostNotification(n: nat, s: System, ms: seq<Move>)
    requires n < WRAP && Zeroed(n, s) && Along(n, s, ms, Heeds)
    ensures var t := Exec(n, s, ms); NothingMissed(n, t.a, t.b) && NothingMissed(n, t.b, t.a)
  {
    hide Side, Ledger, Waits, NothingMissed;
    ZeroedIsInv(n, s);
    ZeroedWaits(n, s);
    RunKeepsWaits(n, s, ms);
    WaitsMissNothing(n, Exec(n, s, ms).a, Exec(n, s, ms).b);
    WaitsMissNothing(n, Exec(n, s, ms).b, Exec(n, s, ms).a);
  }

  lemma ZeroedWaits(n: nat, s: System)
    requires Zeroed(n, s)
    ensures Waits(n, s.a, s.b) && Waits(n, s.b, s.a)
  {
  }

  // ----------------------------------------------------------- what a restart can lose

  predicate AllowedAfter(cuts: Cuts, n: nat, me: End, peer: End, a: Action) {
    Allowed(n, me, peer, a) && ResyncAfter(cuts, me, a)
  }

  function HeedsAfter(cuts: Cuts): (rule: Rule) {
    (n: nat, me, peer, a) => AllowedAfter(cuts, n, me, peer, a)
  }

  lemma HeedsAfterIsLenient(cuts: Cuts)
    ensures Lenient(HeedsAfter(cuts))
  {
  }

  ghost predicate MissesNothing(n: nat, s: System, cuts: Cuts) {
    forall ms :: Along(n, s, ms, HeedsAfter(cuts)) ==>
      NothingMissed(n, Exec(n, s, ms).a, Exec(n, s, ms).b) && NothingMissed(n, Exec(n, s, ms).b, Exec(n, s, ms).a)
  }

  /** B waits for a frame and A finds room for one. */
  lemma WaitAndWrite(n: nat, s: System, rule: Rule) returns (ms: seq<Move>, t: System)
    requires 0 < n < WRAP && Zeroed(n, s) && Lenient(rule)
    ensures Reaches(n, s, ms, t, rule)
    ensures t.a == s.a.(pc := Writing) && t.b == s.b.(dataWait := Some(0))
  {
    assert Reaches(n, s, [], s, rule);
    hide Reaches;
    ms, t := Do(n, s, [], s, rule, MoveB(StartRead));
    ms, t := Do(n, s, ms, t, rule, MoveA(StartWrite));
  }

  /** A publishes the frame and restarts before it can notify. */
  lemma CutBeforeNotifying(n: nat, s: System, rule: Rule) returns (ms: seq<Move>, t: System)
    requires 0 < n < WRAP && Zeroed(n, s) && Lenient(rule)
    ensures Reaches(n, s, ms, t, rule)
    ensures t.a.pc == Down(Unnotified, None) && t.a.state.Established? && t.a.kicks == 0 && t.a.wCount == 1
    ensures |t.a.sent| == 1 && |t.a.got| == 0
    ensures t.b.pc.Idle? && t.b.state.Established? && t.b.rCount == 0 && t.b.dataWait == Some(0)
  {
    hide Reaches;
    ms, t := WaitAndWrite(n, s, rule);
    ms, t := Do(n, s, ms, t, rule, MoveA(Publish));
    ms, t := Do(n, s, ms, t, rule, MoveA(Restart));
  }

  /** Then A resynchronises, or resets and restarts before it can notify and resynchronises. */
  lemma LostNotification(n: nat, s: System, cuts: Cuts) returns (ms: seq<Move>, t: System)
    requires 0 < n < WRAP && Zeroed(n, s) && (cuts(Unnotified) || cuts(Unannounced))
    ensures Along(n, s, ms, HeedsAfter(cuts)) && t == Exec(n, s, ms)
    ensures BetweenOperations(t.a) && AwaitsData(t.b, t.a) && !Empty(n, t.a.wCount, t.b.rCount)
  {
    var rule := HeedsAfter(cuts);
    HeedsAfterIsLenient(cuts);
    ms, t := CutBeforeNotifying(n, s, rule);
    assert SyncRight(n, t.a) by {
      assert 1 % WRAP == 1 && 0 % WRAP == 0;
    }
    if cuts(Unnotified) {
      ms, t := Do(n, s, ms, t, rule, MoveA(Resync));
    } else {
      ms, t := Do(n, s, ms, t, rule, MoveA(Reset));
      ms, t := Do(n, s, ms, t, rule, MoveA(Restart));
      ms, t := Do(n, s, ms, t, rule, MoveA(Resync));
    }
    assert !Empty(n, 1, 0);
  }

  /**
   Exactly the resynchronisations after a restart between advancing a counter and deciding
   to notify, or between storing a state and announcing it, can lose a notification for good.
   */
  lemma MissesNothingExactly(n: nat, s: System, cuts: Cuts)
    requires 0 < n < WRAP && Zeroed(n, s)
    ensures MissesNothing(n, s, cuts) <==> !cuts(Unnotified) && !cuts(Unannounced)
  {
    if cuts(Unnotified) || cuts(Unannounced) {
      var ms, t := LostNotification(n, s, cuts);
      assert !NothingMissed(n, t.b, t.a);
    } else {
      forall ms | Along(n, s, ms, HeedsAfter(cuts))
        ensures NothingMissed(n, Exec(n, s, ms).a, Exec(n, s, ms).b)
        ensures NothingMissed(n, Exec(n, s, ms).b, Exec(n, s, ms).a)
      {
        AlongLaxer(n, s, ms, HeedsAfter(cuts), Heeds);
        NoLostNotification(n, s, ms);
      }
    }
  }

  // ------------------------------------------------------------- when a call notifies

  /** Only B moves. */
  predicate OnlyB(ms: seq<Move>) {
    forall i :: 0 <= i < |ms| ==> ms[i].MoveB?
  }

  /** While its peer is active an endpoint only adds to its logs. */
  lemma LogsGrow(n: nat, e: End, p: End, a: Action)
    requires Side(n, e, p) && Side(n, p, e) && Active(e)
    ensures p.got <= Step(n, p, e, a).got && p.sent <= Step(n, p, e, a).sent
  {
    hide Flow, Slot, Transfer, Ledger;
  }

  lemma {:induction false} WhileAWaits(n: nat, s: System, ms: seq<Move>)
    requires Inv(n, s) && Active(s.a) && OnlyB(ms) && Disciplined(n, s, ms)
    ensures var t := Exec(n, s, ms);
      Inv(n, t) && t.a == s.a && s.b.got <= t.b.got && s.b.sent <= t.b.sent
    decreases |ms|
  {
    hide Side, Ledger, Step, Active, Allowed;
    if ms != [] {
      LogsGrow(n, s.a, s.b, ms[0].act);
      StepKeepsInv(n, s.b, s.a, ms[0].act);
      WhileAWaits(n, Next(n, s, ms[0]), ms[1..]);
    }
  }

  /** While B moves, the slot A was handed for its next frame stays free and may be advanced. */
  lemma HandedSlotStays(n: nat, s: System, ms: seq<Move>)
    requires Inv(n, s) && s.a.pc.Idle? && s.a.state.Established? && !Full(n, s.a.wCount, s.b.rCount)
    requires OnlyB(ms) && Disciplined(n, s, ms)
    ensures var t := Exec(n, s, ms);
      && t.a == s.a && !Full(n, t.a.wCount, t.b.rCount)
      && forall k :: |t.b.got| <= k < |t.a.sent| ==> Slot(n, k) != s.a.wPos
  {
    hide Slot, Handshake, Ledger, Full, Empty, Occupancy;
    WhileAWaits(n, s, ms);
    var t := Exec(n, s, ms);
    CountersTellTheTruth(n, s.a, s.b);
    CountersTellTheTruth(n, t.a, t.b);
    forall k | |t.b.got| <= k < |t.a.sent| ensures Slot(n, k) != s.a.wPos {
      SlotsDiffer(n, k, |t.a.sent|);
    }
  }

  /** While B moves, the frame A was handed for reading stays in its slot, and is the next one sent. */
  lemma HandedFrameStays(n: nat, s: System, ms: seq<Move>)
    requires Inv(n, s) && s.a.pc.Idle? && s.a.state.Established? && !Empty(n, s.b.wCount, s.a.rCount)
    requires OnlyB(ms) && Disciplined(n, s, ms)
    ensures var t := Exec(n, s, ms);
      && t.a == s.a && !Empty(n, t.b.wCount, t.a.rCount) && s.a.rPos < n
      && |s.a.got| < |s.b.sent| && |s.b.slots| == |t.b.slots| == n
      && t.b.slots[s.a.rPos] == s.b.slots[s.a.rPos] == s.b.sent[|s.a.got|]
  {
    hide Slot, Handshake, Ledger, Full, Empty, Occupancy;
    WhileAWaits(n, s, ms);
    var t := Exec(n, s, ms);
    CountersTellTheTruth(n, s.a, s.b);
    CountersTellTheTruth(n, t.a, t.b);
    assert |s.a.got| < |s.b.sent|;
    assert s.b.slots[Slot(n, |s.a.got|)] == s.b.sent[|s.a.got|];
    assert t.b.slots[Slot(n, |s.a.got|)] == t.b.sent[|s.a.got|];
  }

  /**
   A publishes a frame, B makes any moves, restarts and resets included, and then A decides:
   it notifies exactly when B has taken every earlier frame but not this one. So a write
   to an empty ring notifies unless the frame is gone already.
   */
  lemma WriteNotifiesExactly(n: nat, s: System, ms: seq<Move>)
    requires Inv(n, s) && s.a.pc.Writing?
    requires OnlyB(ms) && Disciplined(n, Next(n, s, MoveA(Publish)), ms)
    ensures var t := Exec(n, Next(n, s, MoveA(Publish)), ms);
      && s.b.got <= t.b.got <= t.a.sent == s.a.sent + [s.a.slots[s.a.wPos]]
      && (Next(n, t, MoveA(Notify)).a.kicks != t.a.kicks <==> t.b.got == s.a.sent)
  {
    RoomIsInRing(n, s.a, s.b);
    var s1 := Next(n, s, MoveA(Publish));
    assert s1.a.pc.Published? && s1.a.sent == s.a.sent + [s.a.slots[s.a.wPos]] && s1.b == s.b;
    hide Side, Ledger, Step, Notified;
    StepKeepsInv(n, s.a, s.b, Publish);
    TransferIsActive(n, s1.a, s1.b);
    WhileAWaits(n, s1, ms);
    var t := Exec(n, s1, ms);
    WriteDecision(n, t.a, t.b, s.a.sent);
    assert Next(n, t, MoveA(Notify)).a == Notified(n, t.a, t.b) by {
      NotifyIsNotified(n, t.a, t.b);
    }
  }

  lemma NotifyIsNotified(n: nat, e: End, p: End)
    ensures Step(n, e, p, Notify) == Notified(n, e, p)
  {
  }

  lemma TransferIsActive(n: nat, e: End, p: End)
    requires Pair(n, e, p) && (e.pc.Published? || e.pc.Consumed?)
    ensures Active(e)
  {
  }

  /** The decision after a write, by what the peer has taken. */
  lemma WriteDecision(n: nat, e: End, p: End, before: seq<Frame>)
    requires Pair(n, e, p) && e.pc.Published? && |e.sent| == |before| + 1 && before <= e.sent
    ensures p.got <= e.sent
    ensures Notified(n, e, p).kicks != e.kicks <==> p.got == before
  {
    CountersTellTheTruth(n, e, p);
    hide Slot, Handshake, Ledger, Transfer, Occupancy;
    assert |p.got| == |before| ==> p.got == e.sent[..|before|] == before;
  }

  lemma RoomIsInRing(n: nat, e: End, p: End)
    requires Side(n, e, p) && e.pc.Writing?
    ensures e.wPos < |e.slots|
  {
  }

  /**
   After a read A notifies exactly when B has by then filled the ring that the read found,
   counting the frame just taken.
   */
  lemma ReadNotifiesExactly(n: nat, s: System, ms: seq<Move>)
    requires Inv(n, s) && s.a.pc.Copied?
    requires OnlyB(ms) && Disciplined(n, Next(n, s, MoveA(Consume)), ms)
    ensures var t := Exec(n, Next(n, s, MoveA(Consume)), ms);
      && s.b.sent <= t.b.sent && t.a.got == s.a.got + [s.a.pc.frame]
      && (Next(n, t, MoveA(Notify)).a.kicks != t.a.kicks <==> |t.b.sent| == |s.a.got| + n)
  {
    var s1 := Next(n, s, MoveA(Consume));
    assert s1.a.pc.Consumed? && s1.a.got == s.a.got + [s.a.pc.frame] && s1.b == s.b;
    hide Side, Ledger, Step, Notified;
    StepKeepsInv(n, s.a, s.b, Consume);
    TransferIsActive(n, s1.a, s1.b);
    WhileAWaits(n, s1, ms);
    var t := Exec(n, s1, ms);
    ReadDecision(n, t.a, t.b);
    assert Next(n, t, MoveA(Notify)).a == Notified(n, t.a, t.b) by {
      NotifyIsNotified(n, t.a, t.b);
    }
  }

  /** The decision after a read, by what the peer has sent. */
  lemma ReadDecision(n: nat, e: End, p: End)
    requires Pair(n, e, p) && e.pc.Consumed?
    ensures Notified(n, e, p).kicks != e.kicks <==> |p.sent| + 1 == |e.got| + n
  {
    CountersTellTheTruth(n, e, p);
    hide Slot, Handshake, Ledger, Transfer, Occupancy;
  }

  // ------------------------------------------------------------- spurious notifications

  /** A has published one frame and is about to publish another; B has taken nothing. */
  lemma SecondWrite(n: nat, s: System) returns (ms: seq<Move>, t: System)
    requires 2 <= n < WRAP && Zeroed(n, s)
    ensures Reaches(n, s, ms, t, Allowed)
    ensures t.a.pc.Writing? && |t.a.sent| == 1 && t.a.wCount == 1 && t.b == s.b && |t.a.slots| == n && t.a.wPos == 1
  {
    assert Reaches(n, s, [], s, Allowed);
    hide Reaches;
    ms, t := Do(n, s, [], s, Allowed, MoveA(StartWrite));
    ms, t := Do(n, s, ms, t, Allowed, MoveA(Publish));
    ms, t := Do(n, s, ms, t, Allowed, MoveA(Notify));
    ms, t := Do(n, s, ms, t, Allowed, MoveA(StartWrite));
  }

  /** B takes one of the two frames published. */
  lemma OneTaken(n: nat, t: System) returns (bs: seq<Move>, u: System)
    requires 2 <= n < WRAP && t.b.pc.Idle? && t.b.state.Established? && t.b.rCount == 0 && t.b.rPos == 0
    requires t.a.wCount == 2 && |t.a.slots| == n
    ensures Reaches(n, t, bs, u, Allowed) && OnlyB(bs) && u.a == t.a && u.b.rCount == 1
  {
    assert !Empty(n, t.a.wCount, t.b.rCount);
    assert Reaches(n, t, [], t, Allowed);
    bs, u := Do(n, t, [], t, Allowed, MoveB(StartRead));
    bs, u := Do(n, t, bs, u, Allowed, MoveB(CopyOut));
    bs, u := Do(n, t, bs, u, Allowed, MoveB(Consume));
  }

  /** A write that found frames in the ring may notify all the same. */
  lemma SpuriousNotification(n: nat, s: System) returns (ms: seq<Move>, bs: seq<Move>)
    requires 2 <= n < WRAP && Zeroed(n, s)
    ensures Disciplined(n, s, ms) && OnlyB(bs)
    ensures var t := Exec(n, s, ms); var u := Exec(n, Next(n, t, MoveA(Publish)), bs);
      && t.a.pc.Writing? && !Empty(n, t.a.wCount, t.b.rCount)
      && Next(n, u, MoveA(Notify)).a.kicks == u.a.kicks + 1
  {
    var t, u;
    ms, t := SecondWrite(n, s);
    bs, u := OneTaken(n, Next(n, t, MoveA(Publish)));
  }
}
