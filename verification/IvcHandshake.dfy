/**
 Progress of the handshake, at the granularity of single accesses and with resets and
 restarts at any moment: it cannot stall, it is over after a bounded number of steps that
 notifications cause, and after a bounded number of rounds of polling.
 */
module IvcHandshake {
  import opened Options
  import opened IvcProtocol
  import opened IvcRuns
  import opened IvcSafety

  // ------------------------------------------------------------------- it cannot stall

  /** A restart that forgets a state read or announces none stored. */
  predicate LosesHandshake(cut: Cut) {
    cut == InHandler || cut == HalfCleared || cut == Unannounced
  }

  predicate Interrupted(e: End) {
    e.pc.Down? && LosesHandshake(e.pc.cut)
  }

  /** `e` has read its peer's state since the peer last announced one. */
  predicate CaughtUp(e: End, p: End) {
    e.heard == p.kicks && !p.pc.Stored? && !Interrupted(p)
  }

  /** No handler is under way, and none was cut short by a restart. */
  predicate Resting(e: End) {
    !e.pc.Saw? && !e.pc.ClearedTx? && !e.pc.ClearedRx? && !Interrupted(e)
  }

  /** No resynchronisation follows a restart that cut a reset or a handler; resets are free. */
  predicate Attends(n: nat, me: End, peer: End, a: Action) {
    a.Resync? && me.pc.Down? ==> !LosesHandshake(me.pc.cut)
  }

  /** What catching up entails, down to the last clause: both ends caught up are established. */
  predicate Informed(e: End, p: End) {
    && e.heard <= p.kicks
    && (CaughtUp(e, p) && e.pc.Saw? ==> e.pc.peer == p.state)
    && (CaughtUp(e, p) && (e.pc.ClearedTx? || e.pc.ClearedRx?) ==>
          if e.pc.next == Ack then p.state.Sync? else e.pc.next == Established && p.state.Ack?)
    && (CaughtUp(e, p) && Resting(e) ==> if p.state.Sync? then !e.state.Established? else !e.state.Ack?)
    && (CaughtUp(e, p) && CaughtUp(p, e) && Resting(e) && Resting(p) ==>
          e.state.Established? && p.state.Established?)
  }

  lemma StepKeepsInformed(n: nat, e: End, p: End, a: Action)
    requires Informed(e, p) && Informed(p, e) && Attends(n, e, p, a)
    ensures Informed(Step(n, e, p, a), p) && Informed(p, Step(n, e, p, a))
  {
    hide Full, Empty, Occupancy;
  }

  lemma {:induction false} RunKeepsInformed(n: nat, s: System, ms: seq<Move>)
    requires Informed(s.a, s.b) && Informed(s.b, s.a) && Along(n, s, ms, Attends)
    ensures Informed(Exec(n, s, ms).a, Exec(n, s, ms).b) && Informed(Exec(n, s, ms).b, Exec(n, s, ms).a)
    decreases |ms|
  {
    hide Informed, Step;
    if ms != [] {
      match ms[0] {
        case MoveA(act) => StepKeepsInformed(n, s.a, s.b, act);
        case MoveB(act) => StepKeepsInformed(n, s.b, s.a, act);
      }
      RunKeepsInformed(n, Next(n, s, ms[0]), ms[1..]);
    }
  }

  /** Both ends are between operations, each has handled every notification of the other, and still one waits. */
  predicate Stalled(s: System) {
    && BetweenOperations(s.a) && BetweenOperations(s.b) && s.a.heard == s.b.kicks && s.b.heard == s.a.kicks
    && !(s.a.state.Established? && s.b.state.Established?)
  }

  /**
   The handshake does not stall in any run from zeroed channels, whatever the interleaving
   and however resets and restarts are placed, if no resynchronisation follows a restart
   that cut a reset or a handler.
   */
  lemma HandshakeNeverStalls(n: nat, s: System, ms: seq<Move>)
    requires Zeroed(n, s) && Along(n, s, ms, Attends)
    ensures !Stalled(Exec(n, s, ms))
  {
    RunKeepsInformed(n, s, ms);
  }

  function AttendsAfter(cuts: Cuts): (rule: Rule) {
    (n: nat, me, peer, a) => ResyncAfter(cuts, me, a)
  }

  lemma AttendsAfterIsLenient(cuts: Cuts)
    ensures Lenient(AttendsAfter(cuts))
  {
  }

  /** B resets and A reads its state. */
  lemma SeesReset(n: nat, s: System, rule: Rule) returns (ms: seq<Move>, t: System)
    requires Zeroed(n, s) && Lenient(rule) && forall me: End, peer: End :: rule(n, me, peer, Reset)
    ensures Reaches(n, s, ms, t, rule) && t.a == s.a.(pc := Saw(Sync), heard := 1)
    ensures t.b.pc.Idle? && t.b.state.Sync? && t.b.kicks == 1 && t.b.heard == 0
  {
    assert Reaches(n, s, [], s, rule);
    hide Reaches;
    ms, t := Do(n, s, [], s, rule, MoveB(Reset));
    ms, t := Do(n, s, ms, t, rule, MoveB(Notify));
    ms, t := Do(n, s, ms, t, rule, MoveA(Observe));
  }

  /** A restarts in its handler, or after a reset. */
  lemma CutHandshake(n: nat, s: System, rule: Rule, cut: Cut) returns (ms: seq<Move>, t: System)
    requires Zeroed(n, s) && Lenient(rule) && LosesHandshake(cut)
    requires forall me: End, peer: End :: rule(n, me, peer, Reset)
    ensures Reaches(n, s, ms, t, rule)
    ensures t.a.pc == Down(cut, None) && t.b.pc.Idle? && t.a.heard == t.b.kicks && t.b.heard == t.a.kicks
    ensures if cut == Unannounced then t.a.state.Sync? else t.b.state.Sync?
  {
    if cut == Unannounced {
      assert Reaches(n, s, [], s, rule);
      hide Reaches;
      ms, t := Do(n, s, [], s, rule, MoveA(Reset));
      ms, t := Do(n, s, ms, t, rule, MoveA(Restart));
    } else {
      hide Reaches;
      ms, t := SeesReset(n, s, rule);
      if cut == HalfCleared {
        ms, t := Do(n, s, ms, t, rule, MoveA(Proceed));
      }
      ms, t := Do(n, s, ms, t, rule, MoveA(Restart));
    }
  }

  /** Resynchronising after a restart that cut a reset or a handler can stall the handshake. */
  lemma StallingRun(n: nat, s: System, cuts: Cuts, cut: Cut) returns (ms: seq<Move>)
    requires 0 < n && Zeroed(n, s) && cuts(cut) && LosesHandshake(cut)
    ensures Along(n, s, ms, AttendsAfter(cuts)) && Stalled(Exec(n, s, ms))
  {
    AttendsAfterIsLenient(cuts);
    var t;
    ms, t := CutHandshake(n, s, AttendsAfter(cuts), cut);
    hide Lenient;
    ms, t := Do(n, s, ms, t, AttendsAfter(cuts), MoveA(Resync));
  }

  ghost predicate StallFree(n: nat, s: System, cuts: Cuts) {
    forall ms :: Along(n, s, ms, AttendsAfter(cuts)) ==> !Stalled(Exec(n, s, ms))
  }

  /** Exactly those resynchronisations can. */
  lemma StallFreeExactly(n: nat, s: System, cuts: Cuts)
    requires 0 < n && Zeroed(n, s)
    ensures StallFree(n, s, cuts) <==> forall cut :: cuts(cut) ==> !LosesHandshake(cut)
  {
    if cut :| cuts(cut) && LosesHandshake(cut) {
      var ms := StallingRun(n, s, cuts, cut);
    } else {
      forall ms | Along(n, s, ms, AttendsAfter(cuts)) ensures !Stalled(Exec(n, s, ms)) {
        AlongLaxer(n, s, ms, AttendsAfter(cuts), Attends);
        HandshakeNeverStalls(n, s, ms);
      }
    }
  }

  // ------------------------------------------------------------- it comes to an end

  /** Moves that carry on an operation or react to a notification; none begins anything of its own accord. */
  predicate Urgent(n: nat, me: End, peer: End, a: Action) {
    match a
    case Observe => me.pc.Idle? && me.heard != peer.kicks
    case Proceed => me.pc.Saw? || me.pc.ClearedTx? || me.pc.ClearedRx?
    case Publish => me.pc.Writing?
    case CopyOut => me.pc.Reading?
    case Consume => me.pc.Copied?
    case Notify => me.pc.Stored? || me.pc.Published? || me.pc.Consumed?
    case Decline => me.pc.Looked?
    case _ => false
  }

  /** Every operation under way can be carried on. */
  predicate Shape(n: nat, e: End) {
    && |e.slots| == n && e.wCount < WRAP && e.rCount < WRAP
    && (if n > 0 then e.wPos < n && e.rPos < n else !e.pc.Writing? && !e.pc.Reading?)
    && (e.pc.ClearedTx? || e.pc.ClearedRx? ==> e.pc.next == Ack || (e.pc.next == Established && e.state.Sync?))
  }

  lemma StepKeepsShape(n: nat, e: End, p: End, a: Action)
    requires Shape(n, e) && Shape(n, p)
    ensures Shape(n, Step(n, e, p, a))
  {
    EmptyRingOfNone(n, p.wCount, e.rCount);
    hide Empty, Occupancy;
  }

  lemma {:induction false} RunKeepsShape(n: nat, s: System, ms: seq<Move>)
    requires Shape(n, s.a) && Shape(n, s.b)
    ensures Shape(n, Exec(n, s, ms).a) && Shape(n, Exec(n, s, ms).b)
    decreases |ms|
  {
    hide Shape, Step;
    if ms != [] {
      match ms[0] {
        case MoveA(act) => StepKeepsShape(n, s.a, s.b, act);
        case MoveB(act) => StepKeepsShape(n, s.b, s.a, act);
      }
      RunKeepsShape(n, Next(n, s, ms[0]), ms[1..]);
    }
  }

  /** The most steps a notification of `e` can cause at `e` that its level does not pay for. */
  function Call(e: End): (r: nat) {
    if e.state.Sync? then 5 else 10
  }

  /** The handler under way will store ACK. */
  predicate Acknowledging(e: End) {
    e.pc == Saw(Sync) || ((e.pc.ClearedTx? || e.pc.ClearedRx?) && e.pc.next == Ack)
  }

  /** How far the state is from ESTABLISHED; an established end counts as ACK while it may be asked to clear. */
  function Level(e: End, p: End): (r: nat) {
    match e.state
    case Sync => 28
    case Ack => 8
    case Established => if p.state.Sync? || Acknowledging(e) then 8 else 0
  }

  /** The steps left in the operation under way, and the notification at its end. */
  function Effort(e: End, p: End): (r: nat) {
    var call := if Acknowledging(e) && !e.state.Sync? then Call(p) else 0;
    match e.pc
    case Idle => 0
    case Looked(_) => 1
    case Down(_, _) => 0
    case Saw(_) => 4 + call + (if e.state.Ack? && p.state.Sync? && !Acknowledging(e) then 5 else 0)
    case ClearedTx(_) => 3 + call
    case ClearedRx(_) => 2 + call
    case Stored => 1 + Call(p)
    case Writing => 2 + Call(p)
    case Published => 1 + Call(p)
    case Reading => 3 + Call(p)
    case Copied(_) => 2 + Call(p)
    case Consumed => 1 + Call(p)
  }

  function Rank(e: End, p: End): (r: nat)
    ensures r <= 46
  {
    Level(e, p) + Effort(e, p) + if e.heard == p.kicks then 0 else Call(e)
  }

  predicate Nearer(e: End, p: End, e': End) {
    Rank(e', p) + Rank(p, e') < Rank(e, p) + Rank(p, e)
  }

  /** The peer's rank is not concerned unless the endpoint stores a state or notifies. */
  lemma PeerRank(p: End, e: End, e': End)
    requires e.state == e'.state && e.kicks == e'.kicks
    ensures Rank(p, e) == Rank(p, e')
  {
  }

  lemma ObserveIsNearer(n: nat, e: End, p: End)
    requires Urgent(n, e, p, Observe)
    ensures Nearer(e, p, Step(n, e, p, Observe))
  {
    PeerRank(p, e, Step(n, e, p, Observe));
  }

  /** The first step of the handler, which clears, stores or finds nothing to do. */
  lemma SawIsNearer(n: nat, e: End, p: End)
    requires e.pc.Saw?
    ensures Nearer(e, p, Handle(e))
  {
    if !(e.state.Ack? && e.pc.peer != Sync) {
      PeerRank(p, e, Handle(e));
    }
  }

  /** The later steps. */
  lemma ClearedIsNearer(n: nat, e: End, p: End)
    requires Shape(n, e) && (e.pc.ClearedTx? || e.pc.ClearedRx?)
    ensures Nearer(e, p, Handle(e))
  {
    if e.pc.ClearedTx? {
      PeerRank(p, e, Handle(e));
    }
  }

  lemma NotifyIsNearer(n: nat, e: End, p: End)
    requires Urgent(n, e, p, Notify)
    ensures Nearer(e, p, Notified(n, e, p))
  {
    hide Occupancy;
  }

  lemma TransferIsNearer(n: nat, e: End, p: End, a: Action)
    requires Shape(n, e) && Shape(n, p) && Urgent(n, e, p, a)
    requires a.Publish? || a.CopyOut? || a.Consume? || a.Decline?
    ensures Nearer(e, p, Step(n, e, p, a))
  {
    hide Bump;
    var e' := Step(n, e, p, a);
    PeerRank(p, e, e');
    assert e'.state == e.state && e'.heard == e.heard;
    assert e'.pc == match a
      case Publish => Published
      case CopyOut => Copied(p.slots[e.rPos])
      case Consume => Consumed
      case _ => Idle;
  }

  /** Every urgent step brings the end nearer. */
  lemma UrgentStep(n: nat, e: End, p: End, a: Action)
    requires Shape(n, e) && Shape(n, p) && Urgent(n, e, p, a)
    ensures Nearer(e, p, Step(n, e, p, a))
  {
    hide Nearer, Shape, Handle, Notified;
    match a
    case Observe => ObserveIsNearer(n, e, p);
    case Proceed =>
      if e.pc.Saw? {
        SawIsNearer(n, e, p);
      } else {
        ClearedIsNearer(n, e, p);
      }
    case Notify => NotifyIsNearer(n, e, p);
    case _ => TransferIsNearer(n, e, p, a);
  }

  lemma {:induction false} UrgentRunIsShort(n: nat, s: System, us: seq<Move>)
    requires Shape(n, s.a) && Shape(n, s.b) && Along(n, s, us, Urgent)
    ensures |us| <= Rank(s.a, s.b) + Rank(s.b, s.a)
    decreases |us|
  {
    hide Shape, Rank, Urgent, Step;
    if us != [] {
      match us[0] {
        case MoveA(act) =>
          UrgentStep(n, s.a, s.b, act);
          StepKeepsShape(n, s.a, s.b, act);
        case MoveB(act) =>
          UrgentStep(n, s.b, s.a, act);
          StepKeepsShape(n, s.b, s.a, act);
      }
      UrgentRunIsShort(n, Next(n, s, us[0]), us[1..]);
    }
  }

  /** Nothing is under way and no notification is waiting. */
  ghost predicate Finished(n: nat, s: System) {
    forall m: Move :: !Permits(n, s, m, Urgent)
  }

  lemma FinishedAtRest(n: nat, s: System)
    requires Finished(n, s)
    ensures forall e | e == s.a || e == s.b :: e.pc.Idle? || e.pc.Down?
    ensures s.a.pc.Idle? ==> s.a.heard == s.b.kicks
    ensures s.b.pc.Idle? ==> s.b.heard == s.a.kicks
  {
    forall a: Action ensures !Urgent(n, s.a, s.b, a) && !Urgent(n, s.b, s.a, a) {
      assert !Permits(n, s, MoveA(a), Urgent) && !Permits(n, s, MoveB(a), Urgent);
    }
    assert forall a: Action :: !Urgent(n, s.a, s.b, a) && !Urgent(n, s.b, s.a, a);
    assert !Urgent(n, s.a, s.b, Observe) && !Urgent(n, s.a, s.b, Proceed) && !Urgent(n, s.a, s.b, Publish);
    assert !Urgent(n, s.a, s.b, CopyOut) && !Urgent(n, s.a, s.b, Consume) && !Urgent(n, s.a, s.b, Notify);
    assert !Urgent(n, s.b, s.a, Observe) && !Urgent(n, s.b, s.a, Proceed) && !Urgent(n, s.b, s.a, Publish);
    assert !Urgent(n, s.b, s.a, CopyOut) && !Urgent(n, s.b, s.a, Consume) && !Urgent(n, s.b, s.a, Notify);
    assert !Urgent(n, s.a, s.b, Decline) && !Urgent(n, s.b, s.a, Decline);
  }

  /**
   The handshake completes: after any such run from zeroed channels, resets and restarts
   included, the two ends can make at most 92 steps that finish operations and handle
   notifications, in any order; and when no such step is left, both are established unless
   one is down after a restart.
   */
  lemma HandshakeCompletes(n: nat, s: System, ms: seq<Move>, us: seq<Move>)
    requires Zeroed(n, s) && Along(n, s, ms, Attends) && Along(n, Exec(n, s, ms), us, Urgent)
    ensures |us| <= 92
    ensures var t := Exec(n, s, ms + us);
      Finished(n, t) && !t.a.pc.Down? && !t.b.pc.Down? ==> t.a.state.Established? && t.b.state.Established?
  {
    assert Along(n, s, ms + us, Attends) by {
      AlongLaxer(n, Exec(n, s, ms), us, Urgent, Attends);
      AlongAppend(n, s, ms, us, Attends);
    }
    hide Shape, Rank, Finished, Urgent, Attends;
    assert Shape(n, s.a) && Shape(n, s.b) by {
      ZeroedShape(n, s);
    }
    RunKeepsShape(n, s, ms);
    UrgentRunIsShort(n, Exec(n, s, ms), us);
    var t := Exec(n, s, ms + us);
    if Finished(n, t) {
      FinishedAtRest(n, t);
      HandshakeNeverStalls(n, s, ms + us);
    }
  }

  lemma ZeroedShape(n: nat, s: System)
    requires Zeroed(n, s)
    ensures Shape(n, s.a) && Shape(n, s.b)
  {
  }

  // ------------------------------------------------------------------ it can be polled

  predicate Current(e: End) {
    !e.state.Sync? && !Acknowledging(e) && !e.pc.ClearedTx? && !e.pc.ClearedRx?
  }

  /**
   What `e` has got past after `k` rounds: (1) a peer in SYNC is answered, (2) `e` has left
   SYNC, (3) it acts on no older sight of SYNC, (4) it is established.
   */
  predicate Past(k: nat, e: End, p: End) {
    (e.pc.ClearedTx? || e.pc.ClearedRx? ==> e.pc.next != Sync) &&
    match k
    case 0 => true
    case 1 => p.state.Sync? ==> e.state.Ack? && (BetweenOperations(e) || e.pc.Stored? || Acknowledging(e))
    case 2 => !e.state.Sync?
    case 3 => Current(e)
    case _ => Current(e) && e.state.Established?
  }

  /** What holds from the first access of a call made at stage `k`. */
  predicate Calling(k: nat, e: End, p: End) {
    match k
    case 0 => p.state.Sync? ==> Acknowledging(e) || (e.state.Ack? && (BetweenOperations(e) || e.pc.Stored?))
    case 1 => e.state.Sync? ==> e.pc == Saw(Ack) || e.pc == ClearedTx(Established) || e.pc == ClearedRx(Established)
    case 2 => Current(e)
    case _ => Current(e) && (e.state.Established? || e.pc.Saw?)
  }

  predicate Stage(k: nat, s: System) {
    Past(k, s.a, s.b) && Past(k, s.b, s.a)
  }

  lemma StepKeepsPast(n: nat, k: nat, e: End, p: End, a: Action)
    requires k <= 3 && Past(k, e, p) && Past(k, p, e) && !a.Reset? && !a.Restart?
    ensures Past(k, Step(n, e, p, a), p) && Past(k, p, Step(n, e, p, a))
    ensures Past(k + 1, e, p) ==> Past(k + 1, Step(n, e, p, a), p)
    ensures Past(k + 1, p, e) ==> Past(k + 1, p, Step(n, e, p, a))
  {
    hide Full, Empty, Occupancy;
  }

  lemma StepKeepsCalling(n: nat, k: nat, e: End, p: End, a: Action)
    requires k <= 3 && Past(k, e, p) && Past(k, p, e) && !a.Reset? && !a.Restart?
    ensures Calling(k, e, p) ==> Calling(k, Step(n, e, p, a), p)
    ensures Calling(k, p, e) ==> Calling(k, p, Step(n, e, p, a))
  {
    hide Full, Empty, Occupancy;
  }

  lemma CallBegins(n: nat, k: nat, e: End, p: End)
    requires k <= 3 && Past(k, e, p) && Past(k, p, e) && e.pc.Idle?
    ensures Calling(k, Step(n, e, p, Observe), p)
  {
  }

  lemma CallEnds(k: nat, e: End, p: End)
    requires k <= 3 && Past(k, e, p) && Past(k, p, e) && Calling(k, e, p) && e.pc.Idle?
    ensures Past(k + 1, e, p)
  {
  }

  /** Quiet moves lose nothing that has been reached. */
  lemma {:induction false} QuietRun(n: nat, k: nat, s: System, ms: seq<Move>)
    requires k <= 3 && Stage(k, s) && Quiet(ms)
    ensures var t := Exec(n, s, ms);
      && Stage(k, t)
      && (Calling(k, s.a, s.b) ==> Calling(k, t.a, t.b))
      && (Past(k + 1, s.a, s.b) ==> Past(k + 1, t.a, t.b))
      && (Past(k + 1, s.b, s.a) ==> Past(k + 1, t.b, t.a))
    decreases |ms|
  {
    hide Past, Calling, Step;
    if ms != [] {
      match ms[0] {
        case MoveA(act) =>
          StepKeepsPast(n, k, s.a, s.b, act);
          StepKeepsCalling(n, k, s.a, s.b, act);
        case MoveB(act) =>
          StepKeepsPast(n, k, s.b, s.a, act);
          StepKeepsCalling(n, k, s.b, s.a, act);
      }
      QuietRun(n, k, Next(n, s, ms[0]), ms[1..]);
    }
  }

  /** Within `ms` A makes a whole call of its handler, beginning with `x` behind it and ending with `z` ahead. */
  predicate CallIn(n: nat, s: System, ms: seq<Move>, x: seq<Move>, y: seq<Move>, z: seq<Move>) {
    && ms == x + [MoveA(Observe)] + y + z
    && Exec(n, s, x).a.pc.Idle? && Exec(n, s, x + [MoveA(Observe)] + y).a.pc.Idle?
  }

  ghost predicate CallsA(n: nat, s: System, ms: seq<Move>) {
    exists x, y, z :: CallIn(n, s, ms, x, y, z)
  }

  /** The same with the ends exchanged. */
  ghost predicate CallsB(n: nat, s: System, ms: seq<Move>) {
    CallsA(n, Swap(s), Mirror(ms))
  }

  /** A whole call takes A one stage further. */
  lemma CallAdvancesA(n: nat, k: nat, s: System, ms: seq<Move>)
    requires k <= 3 && Stage(k, s) && Quiet(ms) && CallsA(n, s, ms)
    ensures var t := Exec(n, s, ms); Stage(k, t) && Past(k + 1, t.a, t.b)
  {
    hide Past, Calling, Step;
    var x, y, z :| CallIn(n, s, ms, x, y, z);
    var o := [MoveA(Observe)];
    var s1 := Exec(n, s, x);
    var s2 := Next(n, s1, MoveA(Observe));
    var s3 := Exec(n, s2, y);
    assert Quiet(x) && Quiet(o) && Quiet(y) && Quiet(z) by {
      QuietParts(x, o, y, z);
    }
    assert Exec(n, s, x + o + y) == s3 && Exec(n, s, ms) == Exec(n, s3, z) by {
      assert Exec(n, s1, o) == s2 by {
        assert o[1..] == [];
      }
      ExecAppend(n, s, x, o);
      ExecAppend(n, s, x + o, y);
      ExecAppend(n, s, x + o + y, z);
    }
    QuietRun(n, k, s, x);
    CallBegins(n, k, s1.a, s1.b);
    StepKeepsPast(n, k, s1.a, s1.b, Observe);
    QuietRun(n, k, s2, y);
    CallEnds(k, s3.a, s3.b);
    QuietRun(n, k, s3, z);
  }

  lemma QuietParts(x: seq<Move>, o: seq<Move>, y: seq<Move>, z: seq<Move>)
    requires Quiet(x + o + y + z)
    ensures Quiet(x) && Quiet(o) && Quiet(y) && Quiet(z)
  {
    var ms := x + o + y + z;
    assert forall i :: 0 <= i < |x| ==> x[i] == ms[i];
    assert forall i :: 0 <= i < |o| ==> o[i] == ms[|x| + i];
    assert forall i :: 0 <= i < |y| ==> y[i] == ms[|x| + |o| + i];
    assert forall i :: 0 <= i < |z| ==> z[i] == ms[|x| + |o| + |y| + i];
  }

  lemma {:induction false} QuietMirror(ms: seq<Move>)
    requires Quiet(ms)
    ensures Quiet(Mirror(ms))
  {
    if ms != [] {
      QuietMirror(ms[1..]);
    }
  }

  /** A round, in which each end makes a whole call, takes both one stage further. */
  lemma RoundAdvances(n: nat, k: nat, s: System, ms: seq<Move>)
    requires k <= 3 && Stage(k, s) && Quiet(ms) && CallsA(n, s, ms) && CallsB(n, s, ms)
    ensures Stage(k + 1, Exec(n, s, ms))
  {
    hide Past, CallsA;
    CallAdvancesA(n, k, s, ms);
    QuietMirror(ms);
    CallAdvancesA(n, k, Swap(s), Mirror(ms));
    SwappedRun(n, s, ms, Attends);
  }

  ghost predicate Rounds(n: nat, s: System, rounds: seq<seq<Move>>)
    decreases |rounds|
  {
    rounds != [] ==>
      && Quiet(rounds[0]) && CallsA(n, s, rounds[0]) && CallsB(n, s, rounds[0])
      && Rounds(n, Exec(n, s, rounds[0]), rounds[1..])
  }

  function ExecAll(n: nat, s: System, rounds: seq<seq<Move>>): (t: System)
    decreases |rounds|
  {
    if rounds == [] then s else ExecAll(n, Exec(n, s, rounds[0]), rounds[1..])
  }

  lemma {:induction false} RoundsAdvance(n: nat, k: nat, s: System, rounds: seq<seq<Move>>)
    requires k + |rounds| <= 4 && Stage(k, s) && Rounds(n, s, rounds)
    ensures Stage(k + |rounds|, ExecAll(n, s, rounds))
    decreases |rounds|
  {
    hide Stage, CallsA, CallsB, Quiet;
    if rounds != [] {
      RoundAdvances(n, k, s, rounds[0]);
      RoundsAdvance(n, k + 1, Exec(n, s, rounds[0]), rounds[1..]);
    }
  }

  /**
   Polling completes the handshake: after any run from zeroed channels, with nothing asked
   of its resets, restarts and resynchronisations, four rounds without further resets, in
   each of which both ends make a whole call of the handler among any other steps, leave
   both ends established for as long as nobody resets.
   */
  lemma PollingCompletes(n: nat, s: System, ms: seq<Move>, rounds: seq<seq<Move>>, rest: seq<Move>)
    requires Zeroed(n, s) && |rounds| == 4 && Rounds(n, Exec(n, s, ms), rounds) && Quiet(rest)
    ensures var t := Exec(n, ExecAll(n, Exec(n, s, ms), rounds), rest);
      t.a.state.Established? && t.b.state.Established?
  {
    ZeroedShape(n, s);
    RunKeepsShape(n, s, ms);
    var u := ExecAll(n, Exec(n, s, ms), rounds);
    assert Stage(4, u) by {
      hide Rounds;
      RoundsAdvance(n, 0, Exec(n, s, ms), rounds);
    }
    hide Rounds;
    QuietRun(n, 3, u, rest);
  }
}
