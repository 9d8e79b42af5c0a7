/**
 Which rule a caller can follow to make resets safe. The caller reads the peer's state
 word and then calls reset, so that the word may have changed by the time SYNC is stored.
 */
module IvcPolicy {
  import opened Options
  import opened IvcProtocol
  import opened IvcRuns
  import opened IvcSafety
  import opened IvcReset

  /** A decision to reset, from the caller's own state and what it has just seen of the peer's. */
  type Policy = (LinkState, LinkState) -> bool

  /** The caller looks first and resets only as the policy says. */
  predicate PolicyAllows(policy: Policy, n: nat, me: End, a: Action) {
    && (a.Reset? && MayReset(me) ==> LookOf(me).Some? && policy(me.state, LookOf(me).value))
    && ResyncAllowed(n, me, a)
  }

  function RuleOf(policy: Policy): (rule: Rule) {
    (n: nat, me, peer, a) => PolicyAllows(policy, n, me, a)
  }

  predicate Obeys(n: nat, s: System, ms: seq<Move>, policy: Policy) {
    Along(n, s, ms, RuleOf(policy))
  }

  /** Reset only while already in SYNC, or having seen the peer established, or established having seen SYNC. */
  predicate VisiblySafe(own: LinkState, seen: LinkState) {
    own.Sync? || seen.Established? || (own.Established? && seen.Sync?)
  }

  /** A look, wherever a caller may reset, sees the peer's state as it is and changes nothing else. */
  lemma LookSees(n: nat, e: End, p: End)
    requires MayReset(e)
    ensures LookOf(Step(n, e, p, Look)) == Some(p.state)
    ensures MayReset(Step(n, e, p, Look)) && Step(n, e, p, Look).(pc := e.pc) == e
  {
  }

  // -------------------------------------------------------------------- the rule is safe

  /** What a look still tells about the peer after any delay. */
  predicate LookHolds(e: End, p: End) {
    LookOf(e).Some? ==>
      && (e.state.Established? && LookOf(e).value != Ack ==> !p.state.Ack?)
      && (e.state.Ack? && LookOf(e).value == Established ==> p.state.Established?)
  }

  predicate PolicyInv(n: nat, s: System) {
    Inv(n, s) && LookHolds(s.a, s.b) && LookHolds(s.b, s.a)
  }

  /** A look that the rule accepts still rules out a committed peer when the reset is made. */
  lemma VisiblySafeIsDisciplined(n: nat, e: End, p: End, a: Action)
    requires Side(n, e, p) && Side(n, p, e) && LookHolds(e, p)
    requires PolicyAllows(VisiblySafe, n, e, a)
    ensures Allowed(n, e, p, a)
  {
  }

  lemma StepKeepsLooks(n: nat, e: End, p: End, a: Action)
    requires Side(n, e, p) && Side(n, p, e) && LookHolds(e, p) && LookHolds(p, e)
    requires PolicyAllows(VisiblySafe, n, e, a)
    ensures LookHolds(Step(n, e, p, a), p) && LookHolds(p, Step(n, e, p, a))
  {
    hide Flow, Slot, Local, Transfer;
  }

  lemma {:induction false} VisiblySafeRunKeepsInv(n: nat, s: System, ms: seq<Move>)
    requires PolicyInv(n, s) && Obeys(n, s, ms, VisiblySafe)
    ensures PolicyInv(n, Exec(n, s, ms))
    decreases |ms|
  {
    hide Side, Ledger, LookHolds, Step;
    if ms != [] {
      match ms[0] {
        case MoveA(act) =>
          VisiblySafeIsDisciplined(n, s.a, s.b, act);
          StepKeepsInv(n, s.a, s.b, act);
          StepKeepsLooks(n, s.a, s.b, act);
        case MoveB(act) =>
          VisiblySafeIsDisciplined(n, s.b, s.a, act);
          StepKeepsInv(n, s.b, s.a, act);
          StepKeepsLooks(n, s.b, s.a, act);
      }
      VisiblySafeRunKeepsInv(n, Next(n, s, ms[0]), ms[1..]);
    }
  }

  lemma LaxerPolicy(n: nat, s: System, ms: seq<Move>, p: Policy, q: Policy)
    requires Obeys(n, s, ms, p) && forall x, y :: p(x, y) ==> q(x, y)
    ensures Obeys(n, s, ms, q)
  {
    AlongLaxer(n, s, ms, RuleOf(p), RuleOf(q));
  }

  // ------------------------------------------------- a policy that never starts a reset

  /** The channel has been established at both ends all along. */
  predicate Untouched(e: End) {
    && e.state.Established? && !e.pc.ClearedTx? && !e.pc.ClearedRx?
    && (e.pc.Saw? ==> e.pc.peer == Established)
    && (LookOf(e).Some? ==> LookOf(e).value == Established)
  }

  lemma UntouchedStep(n: nat, e: End, p: End, a: Action, policy: Policy)
    requires Untouched(e) && Untouched(p) && !policy(Established, Established)
    requires PolicyAllows(policy, n, e, a)
    ensures Untouched(Step(n, e, p, a)) && Allowed(n, e, p, a)
  {
  }

  lemma {:induction false} UntouchedRun(n: nat, s: System, ms: seq<Move>, policy: Policy)
    requires Inv(n, s) && Untouched(s.a) && Untouched(s.b) && !policy(Established, Established)
    requires Obeys(n, s, ms, policy)
    ensures Inv(n, Exec(n, s, ms))
    decreases |ms|
  {
    hide Side, Ledger, Untouched, Step, Allowed, PolicyAllows;
    if ms != [] {
      match ms[0] {
        case MoveA(act) =>
          UntouchedStep(n, s.a, s.b, act, policy);
          StepKeepsInv(n, s.a, s.b, act);
        case MoveB(act) =>
          UntouchedStep(n, s.b, s.a, act, policy);
          StepKeepsInv(n, s.b, s.a, act);
      }
      UntouchedRun(n, Next(n, s, ms[0]), ms[1..], policy);
    }
  }

  // --------------------------------------------------------------- a laxer rule is not

  /** The least a policy must allow for a reset ever to happen. */
  predicate OnlyFirst(own: LinkState, seen: LinkState) {
    own.Established? && seen.Established?
  }

  lemma PolicyIsLenient(policy: Policy)
    ensures Lenient(RuleOf(policy))
  {
  }

  /** For every pair of states the rule excludes, a peer in that state can be committed. */
  lemma CommittedPeerIsReachable(n: nat, s: System, own: LinkState, peer: LinkState)
    returns (ms: seq<Move>, t: System)
    requires Zeroed(n, s) && !VisiblySafe(own, peer)
    ensures Reaches(n, s, ms, t, RuleOf(OnlyFirst))
    ensures t.a.state == own && t.b.state == peer && t.a.pc.Idle? && Committed(t.b)
  {
    hide Reaches;
    if peer.Sync? {
      ms, t := AckAgainstSync(n, s);
    } else if own.Established? {
      ms, t := EstablishedAgainstAck(n, s);
    } else {
      ms, t := AckAgainstAck(n, s);
    }
  }

  /** B has reset and A has seen it. */
  lemma SeenReset(n: nat, s: System) returns (ms: seq<Move>, t: System)
    requires Zeroed(n, s)
    ensures Reaches(n, s, ms, t, RuleOf(OnlyFirst))
    ensures t.a.pc == Saw(Sync) && t.a.state.Established? && t.b.state.Sync? && t.b.pc.Idle?
  {
    var rule := RuleOf(OnlyFirst);
    assert Reaches(n, s, [], s, rule);
    hide Reaches;
    ms, t := Do(n, s, [], s, rule, MoveB(Look));
    ms, t := Do(n, s, ms, t, rule, MoveB(Reset));
    ms, t := Do(n, s, ms, t, rule, MoveB(Notify));
    ms, t := Do(n, s, ms, t, rule, MoveA(Observe));
  }

  /** A has answered B's reset and B has seen the answer. */
  lemma AckAgainstSync(n: nat, s: System) returns (ms: seq<Move>, t: System)
    requires Zeroed(n, s)
    ensures Reaches(n, s, ms, t, RuleOf(OnlyFirst))
    ensures t.a.state.Ack? && t.b.state.Sync? && t.a.pc.Idle? && Committed(t.b)
  {
    var rule := RuleOf(OnlyFirst);
    PolicyIsLenient(OnlyFirst);
    hide Reaches, Finish;
    ms, t := SeenReset(n, s);
    FinishFollowsTable(n, t.a, t.b);
    ms, t := FinishA(n, s, ms, t, rule);
    ms, t := Do(n, s, ms, t, rule, MoveB(Observe));
  }

  /** B has answered A's reset. */
  lemma Answered(n: nat, s: System) returns (ms: seq<Move>, t: System)
    requires Zeroed(n, s)
    ensures Reaches(n, s, ms, t, RuleOf(OnlyFirst))
    ensures t.a.state.Sync? && t.b.state.Ack? && t.a.pc.Idle? && t.b.pc.Idle?
  {
    var rule := RuleOf(OnlyFirst);
    PolicyIsLenient(OnlyFirst);
    assert Reaches(n, s, [], s, rule);
    hide Reaches, Finish;
    ms, t := Do(n, s, [], s, rule, MoveA(Look));
    ms, t := Do(n, s, ms, t, rule, MoveA(Reset));
    ms, t := Do(n, s, ms, t, rule, MoveA(Notify));
    ms, t := Do(n, s, ms, t, rule, MoveB(Observe));
    FinishFollowsTable(n, t.b, t.a);
    ms, t := FinishB(n, s, ms, t, rule);
  }

  /** A's reset has been answered and B has seen A established. */
  lemma EstablishedAgainstAck(n: nat, s: System) returns (ms: seq<Move>, t: System)
    requires Zeroed(n, s)
    ensures Reaches(n, s, ms, t, RuleOf(OnlyFirst))
    ensures t.a.state.Established? && t.b.state.Ack? && t.a.pc.Idle? && Committed(t.b)
  {
    var rule := RuleOf(OnlyFirst);
    PolicyIsLenient(OnlyFirst);
    hide Reaches, Finish;
    ms, t := Answered(n, s);
    ms, t := Do(n, s, ms, t, rule, MoveA(Observe));
    FinishFollowsTable(n, t.a, t.b);
    ms, t := FinishA(n, s, ms, t, rule);
    ms, t := Do(n, s, ms, t, rule, MoveB(Observe));
  }

  /** Both ends look before either resets. */
  lemma BothInSync(n: nat, s: System) returns (ms: seq<Move>, t: System)
    requires Zeroed(n, s)
    ensures Reaches(n, s, ms, t, RuleOf(OnlyFirst))
    ensures t.a.state.Sync? && t.b.state.Sync? && t.a.pc == Saw(Sync) && t.b.pc == Saw(Sync)
  {
    var rule := RuleOf(OnlyFirst);
    assert Reaches(n, s, [], s, rule);
    hide Reaches, Finish;
    ms, t := Do(n, s, [], s, rule, MoveA(Look));
    ms, t := Do(n, s, ms, t, rule, MoveB(Look));
    ms, t := Do(n, s, ms, t, rule, MoveA(Reset));
    ms, t := Do(n, s, ms, t, rule, MoveB(Reset));
    ms, t := Do(n, s, ms, t, rule, MoveA(Notify));
    ms, t := Do(n, s, ms, t, rule, MoveB(Notify));
    ms, t := Do(n, s, ms, t, rule, MoveA(Observe));
    ms, t := Do(n, s, ms, t, rule, MoveB(Observe));
  }

  /** Both ends have answered each other's reset and B has seen A's answer. */
  lemma AckAgainstAck(n: nat, s: System) returns (ms: seq<Move>, t: System)
    requires Zeroed(n, s)
    ensures Reaches(n, s, ms, t, RuleOf(OnlyFirst))
    ensures t.a.state.Ack? && t.b.state.Ack? && t.a.pc.Idle? && Committed(t.b)
  {
    var rule := RuleOf(OnlyFirst);
    PolicyIsLenient(OnlyFirst);
    hide Reaches, Finish;
    ms, t := BothInSync(n, s);
    FinishFollowsTable(n, t.a, t.b);
    ms, t := FinishA(n, s, ms, t, rule);
    FinishFollowsTable(n, t.b, t.a);
    ms, t := FinishB(n, s, ms, t, rule);
    ms, t := Do(n, s, ms, t, rule, MoveB(Observe));
  }

  lemma ZeroedIsPolicyInv(n: nat, s: System)
    requires n < WRAP && Zeroed(n, s)
    ensures PolicyInv(n, s)
  {
    ZeroedIsInv(n, s);
  }

  /**
   A policy that goes beyond the rule has a run from zeroed channels that leaves both ends
   at rest and established, and the channel broken for good.
   */
  lemma LaxPolicyFails(n: nat, s: System, policy: Policy, own: LinkState, seen: LinkState)
    returns (ms: seq<Move>, t: System)
    requires 0 < n < WRAP && Zeroed(n, s)
    requires policy(Established, Established) && policy(own, seen) && !VisiblySafe(own, seen)
    ensures Obeys(n, s, ms, policy) && t == Exec(n, s, ms) && Broken(n, t)
  {
    hide Broken, Committed;
    var rule := RuleOf(policy);
    ms, t := CommittedPeerIsReachable(n, s, own, seen);
    LaxerPolicy(n, s, ms, OnlyFirst, policy);
    var ms', t' := Do(n, s, ms, t, rule, MoveA(Look));
    assert Inv(n, t') by {
      LaxerPolicy(n, s, ms, OnlyFirst, VisiblySafe);
      ZeroedIsPolicyInv(n, s);
      VisiblySafeRunKeepsInv(n, s, ms);
      StepKeepsInv(n, t.a, t.b, Look);
    }
    PolicyIsLenient(policy);
    hide Inv, Reaches, Lenient;
    ms, t := Do(n, s, ms', t', rule, MoveA(Reset));
    ms, t := CommittedPeerSetsTrap(n, s, ms, t', rule);
    ms, t := TrapSprings(n, s, ms, t, rule);
    assert Obeys(n, s, ms, policy) && t == Exec(n, s, ms) by {
      ReachesObeys(n, s, ms, t, policy);
    }
  }

  lemma ReachesObeys(n: nat, s: System, ms: seq<Move>, t: System, policy: Policy)
    requires Reaches(n, s, ms, t, RuleOf(policy))
    ensures Obeys(n, s, ms, policy) && t == Exec(n, s, ms)
  {
  }

  /** Every run from zeroed channels that obeys the policy is sound. */
  ghost predicate SafePolicy(n: nat, s: System, policy: Policy) {
    forall ms :: Obeys(n, s, ms, policy) ==> Sound(n, Exec(n, s, ms))
  }

  lemma VisiblySafeIsSafe(n: nat, s: System, policy: Policy)
    requires n < WRAP && Zeroed(n, s) && forall x, y :: policy(x, y) ==> VisiblySafe(x, y)
    ensures SafePolicy(n, s, policy)
  {
    ZeroedIsPolicyInv(n, s);
    forall ms | Obeys(n, s, ms, policy) ensures Sound(n, Exec(n, s, ms)) {
      LaxerPolicy(n, s, ms, policy, VisiblySafe);
      VisiblySafeRunKeepsInv(n, s, ms);
      InvIsSound(n, Exec(n, s, ms));
    }
  }

  lemma NoFirstResetIsSafe(n: nat, s: System, policy: Policy)
    requires n < WRAP && Zeroed(n, s) && !policy(Established, Established)
    ensures SafePolicy(n, s, policy)
  {
    ZeroedIsInv(n, s);
    forall ms | Obeys(n, s, ms, policy) ensures Sound(n, Exec(n, s, ms)) {
      UntouchedRun(n, s, ms, policy);
      InvIsSound(n, Exec(n, s, ms));
    }
  }

  /**
   All safe policies: a policy is safe if and only if it never lets a first reset happen or
   allows nothing beyond the visibly safe resets. So `VisiblySafe` is the weakest rule
   among the safe ones that permit any reset at all.
   */
  lemma SafePoliciesExactly(n: nat, s: System, policy: Policy)
    requires 0 < n < WRAP && Zeroed(n, s)
    ensures SafePolicy(n, s, policy) <==>
      !policy(Established, Established) || forall x, y :: policy(x, y) ==> VisiblySafe(x, y)
  {
    if !policy(Established, Established) {
      NoFirstResetIsSafe(n, s, policy);
    } else if x, y :| policy(x, y) && !VisiblySafe(x, y) {
      var ms, t := LaxPolicyFails(n, s, policy, x, y);
      assert Obeys(n, s, ms, policy) && !Safe(n, Exec(n, s, ms));
    } else {
      VisiblySafeIsSafe(n, s, policy);
    }
  }
}
