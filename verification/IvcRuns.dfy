/**
 Runs of the protocol: appending runs, extending a run move by move, and exchanging the
 two endpoints.
 */
module IvcRuns {
  import opened Options
  import opened IvcProtocol

  lemma {:induction false} ExecAppend(n: nat, s: System, ms: seq<Move>, ms': seq<Move>)
    ensures Exec(n, s, ms + ms') == Exec(n, Exec(n, s, ms), ms')
    decreases |ms|
  {
    if ms == [] {
      assert ms + ms' == ms';
    } else {
      assert (ms + ms')[0] == ms[0] && (ms + ms')[1..] == ms[1..] + ms';
      ExecAppend(n, Next(n, s, ms[0]), ms[1..], ms');
    }
  }

  lemma {:induction false} AlongAppend(n: nat, s: System, ms: seq<Move>, ms': seq<Move>, rule: Rule)
    ensures Along(n, s, ms + ms', rule) <==> Along(n, s, ms, rule) && Along(n, Exec(n, s, ms), ms', rule)
    decreases |ms|
  {
    if ms == [] {
      assert ms + ms' == ms';
    } else {
      assert (ms + ms')[0] == ms[0] && (ms + ms')[1..] == ms[1..] + ms';
      AlongAppend(n, Next(n, s, ms[0]), ms[1..], ms', rule);
    }
  }

  /** A run that obeys a rule obeys every laxer one. */
  lemma {:induction false} AlongLaxer(n: nat, s: System, ms: seq<Move>, rule: Rule, laxer: Rule)
    requires Along(n, s, ms, rule)
    requires forall me: End, peer: End, a: Action :: rule(n, me, peer, a) ==> laxer(n, me, peer, a)
    ensures Along(n, s, ms, laxer)
    decreases |ms|
  {
    if ms != [] {
      AlongLaxer(n, Next(n, s, ms[0]), ms[1..], rule, laxer);
    }
  }

  /** Nobody resets or restarts. */
  predicate Quiet(ms: seq<Move>) {
    forall i :: 0 <= i < |ms| ==> !ms[i].act.Reset? && !ms[i].act.Restart?
  }

  /** A rule that restrains resets and resynchronisations only. */
  ghost predicate Lenient(rule: Rule) {
    forall n: nat, me: End, peer: End, a: Action :: !a.Reset? && !a.Resync? ==> rule(n, me, peer, a)
  }

  /** A run of `ms` from `s` that reaches `t` with every move permitted. */
  ghost predicate Reaches(n: nat, s: System, ms: seq<Move>, t: System, rule: Rule) {
    Exec(n, s, ms) == t && Along(n, s, ms, rule)
  }

  /** One more move. */
  lemma Do(n: nat, s: System, ms: seq<Move>, t: System, rule: Rule, m: Move)
    returns (ms': seq<Move>, t': System)
    requires Reaches(n, s, ms, t, rule) && Permits(n, t, m, rule)
    ensures ms' == ms + [m] && t' == Next(n, t, m) && Reaches(n, s, ms', t', rule)
  {
    ms', t' := ms + [m], Next(n, t, m);
    ExecAppend(n, s, ms, [m]);
    AlongAppend(n, s, ms, [m], rule);
    assert Exec(n, t, [m]) == t' by {
      assert [m][1..] == [];
    }
    assert Along(n, t, [m], rule) by {
      assert [m][1..] == [];
    }
  }

  /** The rest of A's handler, at most four steps. */
  lemma FinishA(n: nat, s: System, ms: seq<Move>, t: System, rule: Rule)
    returns (ms': seq<Move>, t': System)
    requires Reaches(n, s, ms, t, rule) && Lenient(rule)
    ensures t' == System(Finish(n, t.a, t.b), t.b) && Reaches(n, s, ms', t', rule)
  {
    hide Reaches, Handle, Notified;
    ms', t' := Do(n, s, ms, t, rule, MoveA(Proceed));
    ms', t' := Do(n, s, ms', t', rule, MoveA(Proceed));
    ms', t' := Do(n, s, ms', t', rule, MoveA(Proceed));
    ms', t' := Do(n, s, ms', t', rule, MoveA(Notify));
  }

  lemma FinishB(n: nat, s: System, ms: seq<Move>, t: System, rule: Rule)
    returns (ms': seq<Move>, t': System)
    requires Reaches(n, s, ms, t, rule) && Lenient(rule)
    ensures t' == System(t.a, Finish(n, t.b, t.a)) && Reaches(n, s, ms', t', rule)
  {
    hide Reaches, Handle, Notified;
    ms', t' := Do(n, s, ms, t, rule, MoveB(Proceed));
    ms', t' := Do(n, s, ms', t', rule, MoveB(Proceed));
    ms', t' := Do(n, s, ms', t', rule, MoveB(Proceed));
    ms', t' := Do(n, s, ms', t', rule, MoveB(Notify));
  }

  /** A handler that saw the peer in state `x` does what the table says for it, and nothing else. */
  lemma FinishFollowsTable(n: nat, me: End, peer: End)
    requires me.pc.Saw?
    ensures Finish(n, me, peer) ==
      var row := Table(me.state, me.pc.peer);
      var e := if row.clears then
          me.(wCount := 0, wPos := 0, base := me.base + |me.sent|, sent := [], dataWait := None, roomWait := None,
              rCount := 0, rPos := 0, got := [])
        else me;
      e.(state := row.next, kicks := if row.notifies then me.kicks + 1 else me.kicks, pc := Idle)
  {
    var row := Table(me.state, me.pc.peer);
    if row.clears {
      assert Handle(me) == ClearTx(me, row.next);
    } else {
      assert Handle(me) == me.(state := row.next, pc := if row.notifies then Stored else Idle);
    }
  }

  /** What a restart cuts short, by the access before it that moved the endpoint on. */
  lemma RestartAfter(n: nat, e: End, p: End, a: Action)
    requires Step(n, e, p, a).pc != e.pc && !e.pc.Down? && !a.Restart?
    ensures var e' := Step(n, e, p, a);
      Restarted(e').pc.cut ==
        match a
        case Observe => InHandler
        case Proceed => if e'.state != e.state || e'.pc.Stored? then Unannounced
                        else if e'.pc.Idle? then AtRest else HalfCleared
        case Reset => Unannounced
        case StartWrite => InTransfer
        case StartRead => InTransfer
        case CopyOut => InTransfer
        case Publish => Unnotified
        case Consume => Unnotified
        case _ => AtRest
  {
    hide Full, Empty, Occupancy;
  }

  // ------------------------------------------------------------- the endpoints are alike

  function Swap(s: System): (r: System) {
    System(s.b, s.a)
  }

  function Mirror(ms: seq<Move>): (r: seq<Move>) {
    if ms == [] then []
    else [if ms[0].MoveA? then MoveB(ms[0].act) else MoveA(ms[0].act)] + Mirror(ms[1..])
  }

  /** Exchanging the endpoints exchanges them throughout the run. */
  lemma {:induction false} SwappedRun(n: nat, s: System, ms: seq<Move>, rule: Rule)
    ensures Exec(n, Swap(s), Mirror(ms)) == Swap(Exec(n, s, ms))
    ensures Along(n, Swap(s), Mirror(ms), rule) == Along(n, s, ms, rule)
    ensures Mirror(Mirror(ms)) == ms
    decreases |ms|
  {
    if ms != [] {
      assert Next(n, Swap(s), Mirror(ms)[0]) == Swap(Next(n, s, ms[0]));
      assert Mirror(ms)[1..] == Mirror(ms[1..]);
      SwappedRun(n, Next(n, s, ms[0]), ms[1..], rule);
    }
  }
}
