/**
 Resynchronising after a restart. `tegra_ivc_channel_sync` computes the lost positions
 from the counters, which wrap at two to the 32.
 */
module IvcResync {
  import opened Bits
  import opened Options
  import opened IvcProtocol
  import opened IvcRuns
  import opened IvcSafety

  /**
   Whatever the positions were, resynchronising restores the right ones exactly when
   reducing the two frame counts modulo two to the 32 does not change them modulo the
   ring size.
   */
  lemma SyncRestoresExactly(n: nat, me: End)
    requires n > 0 && Counted(n, me)
    ensures PositionsRight(n, SyncPositions(n, me)) <==> SyncRight(n, me)
  {
  }

  lemma ReduceTwice(k: nat, n: nat)
    requires n > 0 && WRAP % n == 0
    ensures k % WRAP % n == k % n
  {
    var q, r, c := k / WRAP, k % WRAP, WRAP / n;
    assert WRAP == c * n + WRAP % n == c * n;
    assert r == r / n * n + r % n;
    assert k == q * WRAP + r;
    assert q * WRAP == q * c * n by {
      assert q * (c * n) == q * c * n;
    }
    assert k == (q * c + r / n) * n + r % n by {
      assert (q * c + r / n) * n == q * c * n + r / n * n;
    }
    DivModUnique(k, n, q * c + r / n, r % n);
  }

  // ------------------------------------------------------------------ the safe rules

  /** Resets are disciplined, and the caller resynchronises after certain cuts only. */
  predicate CutRule(cuts: Cuts, n: nat, me: End, peer: End, a: Action) {
    ResetAllowed(me, peer, a) && ResyncAfter(cuts, me, a)
  }

  function ResyncRule(cuts: Cuts): (rule: Rule) {
    (n: nat, me, peer, a) => CutRule(cuts, n, me, peer, a)
  }

  lemma ResyncRuleIsLenient(cuts: Cuts)
    ensures Lenient(ResyncRule(cuts))
  {
  }

  /** No resynchronisation in the middle of clearing; and the positions come out right, or nothing has been sent. */
  predicate GoodCuts(n: nat, cuts: Cuts) {
    !cuts(HalfCleared) && ((n > 0 && WRAP % n == 0) || forall cut :: cuts(cut) ==> cut == Unannounced)
  }

  lemma GoodCutsAllow(n: nat, e: End, p: End, a: Action, cuts: Cuts)
    requires Side(n, e, p) && GoodCuts(n, cuts) && CutRule(cuts, n, e, p, a)
    ensures Allowed(n, e, p, a)
  {
    hide Flow, Handshake, Transfer;
    if n > 0 && WRAP % n == 0 {
      ReduceTwice(|e.sent|, n);
      ReduceTwice(|e.got|, n);
    }
  }

  lemma {:induction false} GoodCutsKeepInv(n: nat, s: System, ms: seq<Move>, cuts: Cuts)
    requires Inv(n, s) && GoodCuts(n, cuts) && Along(n, s, ms, ResyncRule(cuts))
    ensures Inv(n, Exec(n, s, ms))
    decreases |ms|
  {
    hide Side, Ledger, Step, Allowed, GoodCuts, CutRule;
    if ms != [] {
      match ms[0] {
        case MoveA(act) =>
          GoodCutsAllow(n, s.a, s.b, act, cuts);
          StepKeepsInv(n, s.a, s.b, act);
        case MoveB(act) =>
          GoodCutsAllow(n, s.b, s.a, act, cuts);
          StepKeepsInv(n, s.b, s.a, act);
      }
      GoodCutsKeepInv(n, Next(n, s, ms[0]), ms[1..], cuts);
    }
  }

  // ----------------------------------------------------------------------- transfers

  /** A sends a frame, all but the decision to notify. */
  lemma Push(n: nat, s: System, ms: seq<Move>, t: System, rule: Rule, f: Frame) returns (ms': seq<Move>, t': System)
    requires Reaches(n, s, ms, t, rule) && Lenient(rule)
    requires t.a.pc.Idle? && t.a.state.Established? && t.a.wPos < |t.a.slots| && !Full(n, t.a.wCount, t.b.rCount)
    ensures Reaches(n, s, ms', t', rule) && ms' == ms + [MoveA(StartWrite), MoveA(Poke(f)), MoveA(Publish)]
    ensures t'.b == t.b && t'.a.sent == t.a.sent + [f] && t'.a.slots == t.a.slots[t.a.wPos := f]
    ensures t'.a.history == t.a.history + [f] && t'.a.received == t.a.received && t'.a.got == t.a.got
    ensures t'.a.pc.Published? && t'.a.state.Established? && t'.a.wCount == (t.a.wCount + 1) % WRAP
  {
    hide Reaches, Full, Occupancy;
    ms', t' := Do(n, s, ms, t, rule, MoveA(StartWrite));
    ms', t' := Do(n, s, ms', t', rule, MoveA(Poke(f)));
    ms', t' := Do(n, s, ms', t', rule, MoveA(Publish));
  }

  /** B receives what the slot at its position holds. */
  lemma Receive(n: nat, s: System, ms: seq<Move>, t: System, rule: Rule) returns (ms': seq<Move>, t': System)
    requires Reaches(n, s, ms, t, rule) && Lenient(rule)
    requires t.b.pc.Idle? && t.b.state.Established? && t.b.rPos < |t.a.slots| && !Empty(n, t.a.wCount, t.b.rCount)
    ensures Reaches(n, s, ms', t', rule)
    ensures ms' == ms + [MoveB(StartRead), MoveB(CopyOut), MoveB(Consume), MoveB(Notify)]
    ensures t'.a == t.a && t'.b.got == t.b.got + [t.a.slots[t.b.rPos]]
    ensures t'.b.received == t.b.received + [t.a.slots[t.b.rPos]]
    ensures t'.b.pc.Idle? && t'.b.state.Established? && t'.b.rCount == (t.b.rCount + 1) % WRAP
    ensures t'.b.rPos == Bump(n, t.b.rPos) && t'.b.slots == t.b.slots && t'.b.sent == t.b.sent
  {
    hide Reaches, Empty, Occupancy, Bump;
    ms', t' := Do(n, s, ms, t, rule, MoveB(StartRead));
    ms', t' := Do(n, s, ms', t', rule, MoveB(CopyOut));
    ms', t' := Do(n, s, ms', t', rule, MoveB(Consume));
    ms', t' := Do(n, s, ms', t', rule, MoveB(Notify));
  }

  // ---------------------------------------------------- a ring size that does not divide

  /** The ring from A to B is empty after `k` frames. */
  predicate Passed(n: nat, s: System, k: nat) {
    && Inv(n, s) && s.b.pc.Idle? && s.a.state.Established? && s.b.state.Established?
    && |s.a.sent| == |s.b.got| == k
  }

  /** Then there is room, and after one more frame there is data. */
  lemma PassedCounters(n: nat, e: End, p: End)
    requires 0 < n && Pair(n, e, p) && e.state.Established? && p.state.Established? && p.pc.Idle?
    requires Active(e) && |e.sent| - |p.got| <= 1
    ensures |e.sent| == |p.got| ==> !Full(n, e.wCount, p.rCount)
    ensures |e.sent| == |p.got| + 1 ==> !Empty(n, e.wCount, p.rCount)
    ensures !e.pc.Down? ==> e.wPos == |e.sent| % n < n
    ensures p.rPos == |p.got| % n < n && |e.slots| == n
    ensures e.wCount == |e.sent| % WRAP && p.rCount == |p.got| % WRAP && e.rCount == |e.got| % WRAP
  {
    hide Transfer, Handshake, Ledger;
    WrappedCounters(|e.sent|, |p.got|, n);
  }

  /** Runs without resets or resynchronisations keep the invariant. */
  lemma PlainRun(n: nat, s: System, ms: seq<Move>)
    requires Inv(n, s) && forall i :: 0 <= i < |ms| ==> !ms[i].act.Reset? && !ms[i].act.Resync?
    ensures Inv(n, Exec(n, s, ms))
  {
    hide Inv, Exec;
    PlainIsDisciplined(n, s, ms);
    DisciplinedRunKeepsInv(n, s, ms);
  }

  lemma {:induction false} PlainIsDisciplined(n: nat, s: System, ms: seq<Move>)
    requires forall i :: 0 <= i < |ms| ==> !ms[i].act.Reset? && !ms[i].act.Resync?
    ensures Disciplined(n, s, ms)
    decreases |ms|
  {
    hide Next;
    if ms != [] {
      PlainIsDisciplined(n, Next(n, s, ms[0]), ms[1..]);
    }
  }

  /** So do such moves at the end of a run. */
  lemma PlainMore(n: nat, s: System, ms: seq<Move>, t: System, more: seq<Move>, t': System, rule: Rule)
    requires Reaches(n, s, ms, t, rule) && Reaches(n, s, ms + more, t', rule) && Inv(n, t)
    requires forall i :: 0 <= i < |more| ==> !more[i].act.Reset? && !more[i].act.Resync?
    ensures Inv(n, t')
  {
    hide Inv;
    ExecAppend(n, s, ms, more);
    PlainRun(n, t, more);
  }

  /** One more frame through the ring, the one the slot held before. */
  lemma PassOne(n: nat, s: System, ms: seq<Move>, t: System, rule: Rule, k: nat)
    returns (ms': seq<Move>, t': System)
    requires 0 < n && Reaches(n, s, ms, t, rule) && Lenient(rule) && Passed(n, t, k) && t.a.pc.Idle?
    ensures Reaches(n, s, ms', t', rule) && Passed(n, t', k + 1) && t'.a.pc.Published? && t'.a.slots == t.a.slots
  {
    hide Reaches, Pair, Full, Empty, Bump;
    PassedCounters(n, t.a, t.b);
    var f := t.a.slots[t.a.wPos];
    ms', t' := Push(n, s, ms, t, rule, f);
    PlainMore(n, s, ms, t, [MoveA(StartWrite), MoveA(Poke(f)), MoveA(Publish)], t', rule);
    PassedCounters(n, t'.a, t'.b);
    var ms1, t1 := ms', t';
    ms', t' := Receive(n, s, ms', t', rule);
    PlainMore(n, s, ms1, t1, [MoveB(StartRead), MoveB(CopyOut), MoveB(Consume), MoveB(Notify)], t', rule);
  }

  /** Any number of frames can go through. */
  lemma {:induction false} PassMany(n: nat, s: System, rule: Rule, k: nat) returns (ms: seq<Move>, t: System)
    requires 0 < n < WRAP && Zeroed(n, s) && Lenient(rule)
    ensures Reaches(n, s, ms, t, rule) && Passed(n, t, k) && t.a.pc.Idle? && t.a.slots == s.a.slots
    decreases k
  {
    if k == 0 {
      ms, t := [], s;
      ZeroedIsInv(n, s);
    } else {
      hide Reaches, Pair, Notified, Lenient;
      ms, t := PassMany(n, s, rule, k - 1);
      ms, t := PassOne(n, s, ms, t, rule, k - 1);
      PublishedThenIdle(n, t.a, t.b);
      ms, t := QuietMoveA(n, s, ms, t, rule, Notify, k);
    }
  }

  lemma PublishedThenIdle(n: nat, e: End, p: End)
    requires e.pc.Published?
    ensures Step(n, e, p, Notify).pc.Idle?
  {
  }

  /** A move of A that leaves its logs and its slots alone. */
  lemma QuietMoveA(n: nat, s: System, ms: seq<Move>, t: System, rule: Rule, a: Action, k: nat)
    returns (ms': seq<Move>, t': System)
    requires Reaches(n, s, ms, t, rule) && Lenient(rule) && Passed(n, t, k)
    requires a.Notify? || a.Observe? || a.StartWrite? || a.Restart?
    ensures Reaches(n, s, ms', t', rule) && Passed(n, t', k) && t'.a.slots == t.a.slots
    ensures t'.a == Step(n, t.a, t.b, a) && t'.b == t.b
  {
    hide Reaches, Pair, Notified;
    ms', t' := Do(n, s, ms, t, rule, MoveA(a));
    StepKeepsInv(n, t.a, t.b, a);
    StepKeepsLogs(n, t.a, t.b, a);
  }

  lemma StepKeepsLogs(n: nat, e: End, p: End, a: Action)
    requires a.Notify? || a.Observe? || a.StartWrite? || a.Restart?
    ensures var e' := Step(n, e, p, a); e'.sent == e.sent && e'.slots == e.slots && e'.state == e.state
  {
  }

  /** After some two to the 32 frames A goes down, at a chosen cut, with the wrong position in its counter. */
  lemma DownAfterWrap(n: nat, s: System, rule: Rule, cut: Cut) returns (ms: seq<Move>, t: System, k: nat)
    requires 0 < n < WRAP && WRAP % n != 0 && Zeroed(n, s) && Lenient(rule)
    requires cut != HalfCleared && cut != Unannounced
    ensures Reaches(n, s, ms, t, rule) && Passed(n, t, k) && t.a.slots == s.a.slots
    ensures t.a.pc == Down(cut, None) && k % WRAP % n != k % n
    ensures k == if cut == Unnotified then WRAP + 1 else WRAP
  {
    hide Reaches, Pair, Full, Occupancy;
    k := WRAP;
    ms, t := PassMany(n, s, rule, k);
    PassedCounters(n, t.a, t.b);
    if cut == InHandler {
      ms, t := QuietMoveA(n, s, ms, t, rule, Observe, k);
    } else if cut == InTransfer {
      ms, t := QuietMoveA(n, s, ms, t, rule, StartWrite, k);
    } else if cut == Unnotified {
      ms, t := PassOne(n, s, ms, t, rule, k);
      k := k + 1;
    }
    WrapMisplaces(n, k);
    ms, t := QuietMoveA(n, s, ms, t, rule, Restart, k);
  }

  lemma WrapMisplaces(n: nat, k: nat)
    requires 0 < n && WRAP % n != 0 && (k == WRAP || k == WRAP + 1)
    ensures k % WRAP % n != k % n
  {
    var q, r := WRAP / n, WRAP % n;
    assert WRAP == q * n + r;
    if k == WRAP {
      DivModUnique(0, n, 0, 0);
    } else if n > 1 {
      DivModUnique(1, n, 0, 1);
      if r + 1 == n {
        DivModUnique(k, n, q + 1, 0);
      } else {
        DivModUnique(k, n, q, r + 1);
      }
    }
  }

  /**
   For a ring size that does not divide two to the 32, and any cut but the two in which a
   handler or a reset has touched the shared words: a run of about that many frames, a
   restart of A at the cut and a resynchronisation, after which A sends `f` and B receives
   in its place what another slot held before.
   */
  lemma ResyncMisdelivers(n: nat, s: System, cuts: Cuts, cut: Cut, f: Frame)
    returns (ms: seq<Move>, t: System, k: nat)
    requires 0 < n < WRAP && WRAP % n != 0 && Zeroed(n, s)
    requires cuts(cut) && cut != HalfCleared && cut != Unannounced
    ensures Along(n, s, ms, ResyncRule(cuts)) && t == Exec(n, s, ms)
    ensures |t.a.sent| == |t.b.got| == k + 1
    ensures t.a.sent[k] == f && t.b.got[k] == s.a.slots[k % n]
    ensures Active(t.a) && k == if cut == Unnotified then WRAP + 1 else WRAP
  {
    hide Full, Empty, Occupancy, Reaches, Pair, Bump;
    var rule := ResyncRule(cuts);
    ResyncRuleIsLenient(cuts);
    ms, t, k := DownAfterWrap(n, s, rule, cut);
    PassedCounters(n, t.a, t.b);
    ms, t := Do(n, s, ms, t, rule, MoveA(Resync));
    ms, t := Push(n, s, ms, t, rule, f);
    assert !Empty(n, t.a.wCount, t.b.rCount) by {
      CountFollows(k);
      WrappedCounters(k + 1, k, n);
    }
    ms, t := Receive(n, s, ms, t, rule);
    ReachesAlong(n, s, ms, t, rule);
  }

  lemma ReachesAlong(n: nat, s: System, ms: seq<Move>, t: System, rule: Rule)
    requires Reaches(n, s, ms, t, rule)
    ensures Along(n, s, ms, rule) && t == Exec(n, s, ms)
  {
  }

  // ------------------------------------------------------------- a handler cut in half

  /** A sends a frame, B takes it, and A resets. */
  lemma TakenThenReset(n: nat, s: System, rule: Rule, f: Frame) returns (ms: seq<Move>, t: System)
    requires 0 < n < WRAP && Zeroed(n, s) && Lenient(rule)
    requires forall me: End, peer: End :: !Committed(peer) ==> rule(n, me, peer, Reset)
    ensures Reaches(n, s, ms, t, rule)
    ensures t.b.pc.Idle? && t.b.state.Established? && t.b.received == [f]
    ensures t.a.state.Sync? && t.a.wCount == 1 && t.a.slots == s.a.slots[0 := f] && t.a.history == [f]
  {
    assert Reaches(n, s, [], s, rule);
    hide Reaches;
    assert !Full(n, 0, 0) && !Empty(n, 1, 0);
    ms, t := Push(n, s, [], s, rule, f);
    ms, t := Receive(n, s, ms, t, rule);
    ms, t := Do(n, s, ms, t, rule, MoveA(Notify));
    ms, t := Do(n, s, ms, t, rule, MoveA(Reset));
    ms, t := Do(n, s, ms, t, rule, MoveA(Notify));
  }

  /**
   For every ring size: B takes a frame, A resets, and B restarts in its handler after
   clearing its counters and before storing its state. If it resynchronises, it takes the
   same frame again.
   */
  lemma TakenTwice(n: nat, s: System, cuts: Cuts, f: Frame) returns (ms: seq<Move>, t: System)
    requires 0 < n < WRAP && Zeroed(n, s) && cuts(HalfCleared)
    ensures Along(n, s, ms, ResyncRule(cuts)) && t == Exec(n, s, ms)
    ensures t.a.history == [f] && t.b.received == [f, f]
  {
    var rule := ResyncRule(cuts);
    ResyncRuleIsLenient(cuts);
    ms, t := TakenThenReset(n, s, rule, f);
    hide Reaches;
    ms, t := Do(n, s, ms, t, rule, MoveB(Observe));
    ms, t := Do(n, s, ms, t, rule, MoveB(Proceed));
    ms, t := Do(n, s, ms, t, rule, MoveB(Proceed));
    ms, t := Do(n, s, ms, t, rule, MoveB(Restart));
    ms, t := Do(n, s, ms, t, rule, MoveB(Resync));
    assert t.b.rPos == 0 && t.b.rCount == 0 by {
      DivModUnique(0, n, 0, 0);
    }
    assert !Empty(n, 1, 0);
    ms, t := Receive(n, s, ms, t, rule);
    ReachesAlong(n, s, ms, t, rule);
  }

  lemma TwiceIsNotOnce(f: Frame)
    ensures !Subsequence([f, f], [f])
  {
    forall g: seq<nat> ensures !Picks([f, f], [f], g) {
      assert |g| == 2 ==> !(g[0] < 1 && g[1] < 1 && g[0] < g[1]);
    }
  }

  // -------------------------------------------------------------------- exactly when

  /** Every run from zeroed channels with disciplined resets that resynchronises after these cuts only is sound. */
  ghost predicate ResyncIsSafe(n: nat, s: System, cuts: Cuts) {
    forall ms :: Along(n, s, ms, ResyncRule(cuts)) ==> Sound(n, Exec(n, s, ms))
  }

  /**
   Resynchronising is safe in every run if and only if it never follows a restart between
   the first clear of a handler and its store, and either the ring size divides two to the
   32 or it only ever follows a restart between storing a state and announcing it.
   */
  lemma ResyncIsSafeExactly(n: nat, s: System, cuts: Cuts)
    requires 0 < n < WRAP && Zeroed(n, s)
    ensures ResyncIsSafe(n, s, cuts) <==>
      !cuts(HalfCleared) && (WRAP % n == 0 || forall cut :: cuts(cut) ==> cut == Unannounced)
  {
    hide Inv, Safe, Along, Picks;
    if cuts(HalfCleared) {
      var ms, t := TakenTwice(n, s, cuts, []);
      TwiceIsNotOnce([]);
      assert !Sound(n, t);
    } else if WRAP % n == 0 || forall cut :: cuts(cut) ==> cut == Unannounced {
      ZeroedIsInv(n, s);
      forall ms | Along(n, s, ms, ResyncRule(cuts)) ensures Sound(n, Exec(n, s, ms)) {
        GoodCutsKeepInv(n, s, ms, cuts);
        InvIsSound(n, Exec(n, s, ms));
      }
    } else {
      var cut :| cuts(cut) && cut != Unannounced;
      Misdelivery(n, s, cuts, cut);
    }
  }

  lemma Misdelivery(n: nat, s: System, cuts: Cuts, cut: Cut)
    requires 0 < n < WRAP && WRAP % n != 0 && Zeroed(n, s)
    requires cuts(cut) && cut != HalfCleared && cut != Unannounced
    ensures !ResyncIsSafe(n, s, cuts)
  {
    hide Along;
    var k0 := if cut == Unnotified then WRAP + 1 else WRAP;
    var f := s.a.slots[k0 % n] + [0];
    var ms, t, k := ResyncMisdelivers(n, s, cuts, cut, f);
    assert !Flow(n, t.a, t.b);
    assert !Safe(n, t);
  }

  /** So a caller that resynchronises after every restart is not safe, whatever the ring size. */
  lemma ResyncAlwaysIsUnsafe(n: nat, s: System)
    requires 0 < n < WRAP && Zeroed(n, s)
    ensures !ResyncIsSafe(n, s, cut => true)
  {
    ResyncIsSafeExactly(n, s, cut => true);
  }
}
