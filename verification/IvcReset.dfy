/**
 When a reset is safe. The handler treats a peer in ACK as stopped, but a peer whose own
 handler is under way may still go on to ESTABLISHED. A reset made at that moment lets one
 endpoint clear its counters while the other is using them, and one direction of the
 channel is then dead. The lemmas here say exactly when that can happen.
 */
module IvcReset {
  import opened IvcProtocol
  import opened IvcRuns
  import opened IvcSafety

  /** Every disciplined continuation is sound. */
  ghost predicate AlwaysSafe(n: nat, s: System) {
    forall ms :: Disciplined(n, s, ms) ==> Sound(n, Exec(n, s, ms))
  }

  // ------------------------------------------------------------------ a dead direction

  /** Both ends are established, B's write finds its ring full and A's read finds the same ring empty. */
  predicate Blocked(n: nat, s: System) {
    && s.a.state.Established? && s.b.state.Established?
    && Full(n, s.b.wCount, s.a.rCount) && Empty(n, s.b.wCount, s.a.rCount)
  }

  /** Blocked now and for as long as nobody resets. */
  ghost predicate Jammed(n: nat, s: System) {
    forall ms :: Quiet(ms) ==> Blocked(n, Exec(n, s, ms))
  }

  /** Some disciplined continuation jams the channel. */
  ghost predicate CanJam(n: nat, s: System) {
    exists ms :: Disciplined(n, s, ms) && Jammed(n, Exec(n, s, ms))
  }

  /** Nothing under way at an established end that would change its state or counters. */
  predicate Settled(e: End) {
    && e.state.Established? && !e.pc.Down? && e.pc != Saw(Sync) && !e.pc.ClearedTx? && !e.pc.ClearedRx?
  }

  /** B counts from zero while A believes it has taken a frame. */
  predicate OutOfStep(s: System) {
    && Settled(s.a) && Settled(s.b)
    && s.b.wCount == 0 && !s.b.pc.Writing?
    && s.a.rCount == 1 && !s.a.pc.Reading? && !s.a.pc.Copied?
  }

  lemma StaysOutOfStep(n: nat, s: System, m: Move)
    requires n < WRAP - 1 && OutOfStep(s) && !m.act.Reset? && !m.act.Restart?
    ensures OutOfStep(Next(n, s, m))
  {
  }

  lemma {:induction false} OutOfStepIsJammed(n: nat, s: System, ms: seq<Move>)
    requires n < WRAP - 1 && OutOfStep(s) && Quiet(ms)
    ensures Blocked(n, Exec(n, s, ms))
    decreases |ms|
  {
    if ms != [] {
      StaysOutOfStep(n, s, ms[0]);
      OutOfStepIsJammed(n, Next(n, s, ms[0]), ms[1..]);
    }
  }

  /** What a reset at the wrong moment ends in: both ends at rest, established, and out of step. */
  ghost predicate Broken(n: nat, t: System) {
    && t.a.pc.Idle? && t.b.pc.Idle? && t.a.state.Established? && t.b.state.Established?
    && !Safe(n, t)
    && (n < WRAP - 1 ==> Jammed(n, t))
  }

  /** Two established ends have their rings in order, whatever they are doing. */
  lemma EstablishedFlow(n: nat, e: End, p: End)
    requires Side(n, e, p) && Side(n, p, e) && e.state.Established? && p.state.Established?
    ensures Flow(n, p, e)
  {
    hide Flow, Slot;
  }

  /** Under the invariant no ring is both full and empty. */
  lemma InvIsNotJammed(n: nat, s: System)
    requires 0 < n && Inv(n, s)
    ensures !Jammed(n, s)
  {
    hide Full, Empty, Slot, Transfer, Handshake, Ledger;
    assert Quiet([]);
    assert Exec(n, s, []) == s;
    if Blocked(n, s) {
      EstablishedFlow(n, s.a, s.b);
      WrappedCounters(|s.b.sent|, |s.a.got|, n);
    }
  }

  // ----------------------------------------------------------------------- the trap

  /** B is established while A, still in SYNC, is about to act on an older sight of B. */
  predicate Trap(n: nat, s: System) {
    && Local(n, s.a) && Local(n, s.b)
    && s.b.state.Established? && s.b.pc.Idle? && s.b.sent == []
    && s.a.state.Sync? && s.a.got == [] && (s.a.pc == Saw(Ack) || s.a.pc == Saw(Sync))
  }

  /** B publishes a frame and then sees that A is in SYNC. */
  lemma TrapFilled(n: nat, s: System, ms: seq<Move>, t: System, rule: Rule)
    returns (ms': seq<Move>, t': System)
    requires 0 < n < WRAP && Trap(n, t) && Reaches(n, s, ms, t, rule) && Lenient(rule)
    ensures Reaches(n, s, ms', t', rule)
    ensures t'.a == t.a && t'.b.pc == Saw(Sync) && t'.b.state.Established?
    ensures t'.b.wCount == 1 && |t'.b.slots| == n
  {
    hide Reaches;
    assert !Full(n, t.b.wCount, t.a.rCount);
    ms', t' := Do(n, s, ms, t, rule, MoveB(StartWrite));
    assert Slot(n, 0) == 0;
    ms', t' := Do(n, s, ms', t', rule, MoveB(Publish));
    ms', t' := Do(n, s, ms', t', rule, MoveB(Notify));
    ms', t' := Do(n, s, ms', t', rule, MoveB(Observe));
  }

  /** A clears its counters and becomes established. */
  lemma TrapEntered(n: nat, s: System, ms: seq<Move>, t: System, rule: Rule)
    returns (ms': seq<Move>, t': System)
    requires Reaches(n, s, ms, t, rule) && Lenient(rule)
    requires t.a.state.Sync? && (t.a.pc == Saw(Ack) || t.a.pc == Saw(Sync)) && t.b.state.Established?
    ensures Reaches(n, s, ms', t', rule)
    ensures t'.b == t.b && t'.a.state.Established? && t'.a.pc.Idle?
    ensures t'.a.rCount == 0 && t'.a.rPos == 0 && t'.a.got == []
  {
    hide Reaches;
    ms', t' := FinishA(n, s, ms, t, rule);
    if t.a.pc == Saw(Sync) {
      ms', t' := Do(n, s, ms', t', rule, MoveA(Observe));
      ms', t' := FinishA(n, s, ms', t', rule);
    }
  }

  /** A takes B's frame. */
  lemma TrapRead(n: nat, s: System, ms: seq<Move>, t: System, rule: Rule)
    returns (ms': seq<Move>, t': System)
    requires 0 < n < WRAP && Reaches(n, s, ms, t, rule) && Lenient(rule)
    requires t.a.state.Established? && t.a.pc.Idle? && t.a.rCount == 0 && t.a.rPos == 0 && t.a.got == []
    requires t.b.wCount == 1 && |t.b.slots| == n
    ensures Reaches(n, s, ms', t', rule)
    ensures t'.b == t.b && t'.a.state.Established? && t'.a.pc.Idle? && t'.a.rCount == 1 && |t'.a.got| == 1
  {
    hide Reaches;
    assert !Empty(n, t.b.wCount, t.a.rCount);
    ms', t' := Do(n, s, ms, t, rule, MoveA(StartRead));
    ms', t' := Do(n, s, ms', t', rule, MoveA(CopyOut));
    ms', t' := Do(n, s, ms', t', rule, MoveA(Consume));
    ms', t' := Do(n, s, ms', t', rule, MoveA(Notify));
  }

  /** B, acting on its older sight of A, clears its counters and establishes the channel again. */
  lemma TrapSprings(n: nat, s: System, ms: seq<Move>, t: System, rule: Rule)
    returns (ms': seq<Move>, t': System)
    requires 0 < n < WRAP && Trap(n, t) && Reaches(n, s, ms, t, rule) && Lenient(rule)
    ensures Reaches(n, s, ms', t', rule) && Broken(n, t')
  {
    hide Reaches, Finish;
    ms', t' := TrapFilled(n, s, ms, t, rule);
    ms', t' := TrapEntered(n, s, ms', t', rule);
    ms', t' := TrapRead(n, s, ms', t', rule);
    FinishFollowsTable(n, t'.b, t'.a);
    ms', t' := FinishB(n, s, ms', t', rule);
    ms', t' := Do(n, s, ms', t', rule, MoveB(Observe));
    FinishFollowsTable(n, t'.b, t'.a);
    ms', t' := FinishB(n, s, ms', t', rule);
    assert !Flow(n, t'.b, t'.a);
    if n < WRAP - 1 {
      forall qs | Quiet(qs) ensures Blocked(n, Exec(n, t', qs)) {
        OutOfStepIsJammed(n, t', qs);
      }
    }
  }

  /** A committed endpoint finishes its handler established, with nothing sent. */
  lemma CommittedFinishes(n: nat, e: End, p: End)
    requires Local(n, e) && Committed(e)
    ensures var r := Finish(n, e, p);
      Local(n, r) && r.state.Established? && r.pc.Idle? && r.sent == []
  {
    FirstSlot(n);
    if e.pc.Saw? {
      FinishFollowsTable(n, e, p);
      hide Finish, Slot;
    } else {
      assert e.state.Sync? && e.pc.next == Established;
      hide Slot;
    }
  }

  /** Before such a reset the endpoint has taken nothing that its peer still counts. */
  lemma NothingTaken(n: nat, e: End, p: End)
    requires Side(n, e, p) && Side(n, p, e) && MayReset(e) && Committed(p)
    ensures e.got == [] && !e.state.Sync? && (p.state.Sync? ==> e.state.Ack?)
  {
  }

  /** A reset by A while B is committed leads to the trap. */
  lemma CommittedPeerSetsTrap(n: nat, s: System, ms: seq<Move>, t: System, rule: Rule)
    returns (ms': seq<Move>, t': System)
    requires Inv(n, t) && MayReset(t.a) && Committed(t.b)
    requires Reaches(n, s, ms, Next(n, t, MoveA(Reset)), rule) && Lenient(rule)
    ensures Reaches(n, s, ms', t', rule) && Trap(n, t')
  {
    hide Flow, Handle, Slot, Reaches, Finish;
    NothingTaken(n, t.a, t.b);
    ms', t' := Do(n, s, ms, Next(n, t, MoveA(Reset)), rule, MoveA(Notify));
    ms', t' := Do(n, s, ms', t', rule, MoveA(Observe));
    CommittedFinishes(n, t.b, t'.a);
    ms', t' := FinishB(n, s, ms', t', rule);
  }

  // -------------------------------------------------------------------- exactly when

  lemma AllowedIsLenient()
    ensures Lenient(Allowed)
  {
  }

  lemma ResetByAIsSafeExactly(n: nat, s: System)
    requires 0 < n && Inv(n, s) && MayReset(s.a)
    ensures AlwaysSafe(n, Next(n, s, MoveA(Reset))) <==> !Committed(s.b)
    ensures n < WRAP - 1 ==> (CanJam(n, Next(n, s, MoveA(Reset))) <==> Committed(s.b))
  {
    assert n < WRAP;
    hide Inv, Safe, Lenient, AtMostOnce;
    var s' := Next(n, s, MoveA(Reset));
    if Committed(s.b) {
      AllowedIsLenient();
      var ms, t := CommittedPeerSetsTrap(n, s', [], s, Allowed);
      ms, t := TrapSprings(n, s', ms, t, Allowed);
      assert Disciplined(n, s', ms);
    } else {
      assert Inv(n, s') by {
        ResetInv(n, s);
      }
      forall ms | Disciplined(n, s', ms) ensures Sound(n, Exec(n, s', ms)) && !Jammed(n, Exec(n, s', ms)) {
        DisciplinedRunKeepsInv(n, s', ms);
        InvIsSound(n, Exec(n, s', ms));
        InvIsNotJammed(n, Exec(n, s', ms));
      }
    }
  }

  lemma ResetInv(n: nat, s: System)
    requires Inv(n, s) && MayReset(s.a) && !Committed(s.b)
    ensures Inv(n, Next(n, s, MoveA(Reset)))
  {
    hide Side, Ledger, Step, Committed;
    StepKeepsInv(n, s.a, s.b, Reset);
  }

  lemma SwappedAlwaysSafe(n: nat, s: System)
    requires AlwaysSafe(n, s)
    ensures AlwaysSafe(n, Swap(s))
  {
    forall ms | Disciplined(n, Swap(s), ms) ensures Sound(n, Exec(n, Swap(s), ms)) {
      SwappedRun(n, s, Mirror(ms), Allowed);
      SwappedRun(n, Swap(s), ms, Allowed);
    }
  }

  lemma ResetByBIsSafeExactly(n: nat, s: System)
    requires 0 < n && Inv(n, s) && MayReset(s.b)
    ensures AlwaysSafe(n, Next(n, s, MoveB(Reset))) <==> !Committed(s.a)
    ensures n < WRAP - 1 ==> (CanJam(n, Swap(Next(n, s, MoveB(Reset)))) <==> Committed(s.a))
  {
    var t := Next(n, s, MoveB(Reset));
    ResetByAIsSafeExactly(n, Swap(s));
    assert Next(n, Swap(s), MoveA(Reset)) == Swap(t) && Swap(Swap(t)) == t;
    if AlwaysSafe(n, t) {
      SwappedAlwaysSafe(n, t);
    } else if AlwaysSafe(n, Swap(t)) {
      SwappedAlwaysSafe(n, Swap(t));
    }
  }

  /**
   After every disciplined run from zeroed channels of at least one frame, restarts
   included, a reset by either endpoint keeps every disciplined continuation safe if and
   only if its peer is not committed to ESTABLISHED. If it is, some continuation leaves
   both ends established for good with the ring towards the resetting end dead.
   */
  lemma ResetIsSafeExactly(n: nat, s: System, ms: seq<Move>)
    requires 0 < n < WRAP && Zeroed(n, s) && Disciplined(n, s, ms)
    ensures var t := Exec(n, s, ms); var ra, rb := Next(n, t, MoveA(Reset)), Next(n, t, MoveB(Reset));
      && (MayReset(t.a) ==> (AlwaysSafe(n, ra) <==> !Committed(t.b)))
      && (MayReset(t.b) ==> (AlwaysSafe(n, rb) <==> !Committed(t.a)))
      && (MayReset(t.a) && n < WRAP - 1 ==> (CanJam(n, ra) <==> Committed(t.b)))
      && (MayReset(t.b) && n < WRAP - 1 ==> (CanJam(n, Swap(rb)) <==> Committed(t.a)))
  {
    hide AlwaysSafe, CanJam;
    var t := Exec(n, s, ms);
    ZeroedIsInv(n, s);
    DisciplinedRunKeepsInv(n, s, ms);
    if MayReset(t.a) {
      ResetByAIsSafeExactly(n, t);
    }
    if MayReset(t.b) {
      ResetByBIsSafeExactly(n, t);
    }
  }
}
