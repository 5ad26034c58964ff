/**
  How often fn runs for one leader of `SemanticLocal`. "Similar questions share one call" is not all there is: a call
  that has found its leader and enters the flight group only after the flight is over flies again.
 */
module SemanticLocalFlights {
  import opened Cosine
  import opened Downstream
  import opened SemanticLocal
  import opened SemanticLocalCalls
  import opened Wrappers
  import Core = RedisCoalesce

  /** The calls that have run fn for x, or are running it. */
  function FlownOn(s: State, x: Leader): set<CallId> {
    set c | c in s.calls && c in s.leaderOf && s.leaderOf[c] == x && (InFlight(s.calls[c].phase) || c in s.results)
  }

  /** The calls that have found x and have not yet entered its flight group. */
  function WaitingOn(s: State, x: Leader): set<CallId> {
    set c | c in s.calls && s.calls[c].phase == Settled(x)
  }

  predicate Removed(s: State, x: Leader) {
    x.id in s.made && s.made[x.id].leader == x && x !in Leaders(s.byScope, s.made[x.id].scope)
  }

  /** For a removed leader, a step at most turns a waiting call into a flown one. */
  lemma StepFliesWaiting(m: Measure, s: State, a: Step, x: Leader)
    requires IsSqrt(m.sqrt) && Inv(m, s) && Enabled(s, a) && Removed(s, x)
    ensures var t := Apply(m, s, a);
      && Removed(t, x)
      && FlownOn(s, x) <= FlownOn(t, x) && FlownOn(t, x) + WaitingOn(t, x) <= FlownOn(s, x) + WaitingOn(s, x)
  {
    hide Apply, Enabled, Inv, StoreOk, FlightsOk, MadeOk, FlownOn, WaitingOn, OnLeader;
    var t := Apply(m, s, a);
    RemovedLasts(m, s, a, x);
    forall c ensures c in FlownOn(s, x) ==> c in FlownOn(t, x)
             ensures c in FlownOn(t, x) + WaitingOn(t, x) ==> c in FlownOn(s, x) + WaitingOn(s, x)
    {
      if c == a.c {
        ActorFlies(m, s, a, x);
      } else {
        OthersFly(m, s, a, c, x);
      }
    }
  }

  lemma RemovedLasts(m: Measure, s: State, a: Step, x: Leader)
    requires IsSqrt(m.sqrt) && Inv(m, s) && Enabled(s, a) && Removed(s, x)
    ensures Removed(Apply(m, s, a), x)
    ensures a.FindLeader? ==> a.c in Apply(m, s, a).leaderOf && Apply(m, s, a).leaderOf[a.c] != x
  {
    hide Similar, Chosen, Settle, CallsOk;
    if a.FindLeader? {
      ChosenStored(m, s, s.calls[a.c].scope, Leader(a.id, s.calls[a.c].emb));
    }
  }

  lemma OthersFly(m: Measure, s: State, a: Step, c: CallId, x: Leader)
    requires IsSqrt(m.sqrt) && Inv(m, s) && Enabled(s, a) && c != a.c
    ensures c in FlownOn(s, x) <==> c in FlownOn(Apply(m, s, a), x)
    ensures c in WaitingOn(s, x) <==> c in WaitingOn(Apply(m, s, a), x)
  {
    hide Apply, Enabled, CallOk, StoreOk, FlightsOk, MadeOk;
    if c in s.calls {
      StepKeepsFacts(m, s, a, c);
    } else {
      NoNewcomer(m, s, a, c);
    }
  }

  lemma ActorFlies(m: Measure, s: State, a: Step, x: Leader)
    requires IsSqrt(m.sqrt) && Inv(m, s) && Enabled(s, a) && Removed(s, x)
    ensures var t := Apply(m, s, a);
      && (a.c in FlownOn(s, x) ==> a.c in FlownOn(t, x))
      && (a.c in FlownOn(t, x) + WaitingOn(t, x) ==> a.c in FlownOn(s, x) + WaitingOn(s, x))
  {
    hide Inv, CallsOk, Removed, Apply, Enabled;
    RemovedLasts(m, s, a, x);
    InvCalls(m, s);
    ActorOnLeader(m, s, a);
  }

  /** Where a step leaves the acting call with its leader. */
  lemma ActorOnLeader(m: Measure, s: State, a: Step)
    requires IsSqrt(m.sqrt) && CallsOk(m, s) && Enabled(s, a)
    ensures var t := Apply(m, s, a);
      a.c in t.calls &&
      if a.Arrive? then a.c !in s.calls && a.c !in t.leaderOf && !t.calls[a.c].phase.Settled?
      else if a.FindLeader? then
        && a.c !in s.leaderOf && a.c in t.leaderOf && t.calls[a.c].phase == Settled(t.leaderOf[a.c])
        && a.c !in t.results
      else
        && a.c in s.calls
        && (a.c in t.leaderOf <==> a.c in s.leaderOf) && (a.c in s.leaderOf ==> t.leaderOf[a.c] == s.leaderOf[a.c])
        && !t.calls[a.c].phase.Settled?
        && (a.c in s.leaderOf ==>
              if a.EnterFlight? then s.calls[a.c].phase == Settled(s.leaderOf[a.c]) && a.c !in s.results
              else if a.Collect? then
                !InFlight(s.calls[a.c].phase) && !InFlight(t.calls[a.c].phase) && (a.c in t.results <==> a.c in s.results)
              else InFlight(s.calls[a.c].phase) && (InFlight(t.calls[a.c].phase) || a.c in t.results))
  {
    hide Similar, Chosen, Settle, Remove, FlightOn;
    if !a.Arrive? {
      assert CallOk(m, s, a.c);
    }
  }

  lemma InvCalls(m: Measure, s: State)
    requires IsSqrt(m.sqrt) && Inv(m, s)
    ensures CallsOk(m, s)
  {
  }

  /** Once a leader is removed, only calls that had found it before can still run fn for it. */
  lemma {:induction false} OnlyWaitingFly(m: Measure, s: State, steps: seq<Step>, x: Leader)
    requires IsSqrt(m.sqrt) && Inv(m, s) && Legal(m, s, steps) && Removed(s, x)
    ensures var t := After(m, s, steps);
      FlownOn(s, x) <= FlownOn(t, x) && FlownOn(t, x) + WaitingOn(t, x) <= FlownOn(s, x) + WaitingOn(s, x)
    decreases |steps|
  {
    hide Apply, Enabled, Inv, FlownOn, WaitingOn, Removed;
    if steps != [] {
      StepKeepsInv(m, s, steps[0]);
      StepFliesWaiting(m, s, steps[0], x);
      OnlyWaitingFly(m, Apply(m, s, steps[0]), steps[1..], x);
    }
  }

  /** When a flight closes, its leader is removed, and every other flight for it is over. */
  lemma ClosedAndRemoved(m: Measure, s: State, c: CallId)
    requires IsSqrt(m.sqrt) && Inv(m, s) && Enabled(s, CloseFlight(c))
    ensures var x, t := s.calls[c].phase.leader, Apply(m, s, CloseFlight(c));
      && Removed(t, x) && c in FlownOn(t, x) && x.id !in t.flights
      && (forall d :: d in FlownOn(t, x) && d != c ==> d in s.results && t.calls[d].phase.Returned?)
  {
    hide Similar, Chosen, Settle, Remove;
    var x := s.calls[c].phase.leader;
    assert CallOk(m, s, c);
    assert PastRemoval(s, c, x);
    var scope := s.made[x.id].scope;
    assert x in Leaders(s.byScope, scope) ==> StoredOk(s, scope, x);
    forall d | d in s.calls && InFlight(s.calls[d].phase) && d in s.leaderOf && s.leaderOf[d] == x ensures d == c {
      assert CallOk(m, s, d);
    }
  }

  /**
    In every run, at each end of a flight for a leader, by c: every other flight for it is over; whatever comes after,
    fn runs for it at most once more for each call that at that moment had found the leader and not yet entered its
    flight group. At its first end fn has run once: once in all, plus those.
   */
  lemma FlightsAfterClose(m: Measure, before: seq<Step>, c: CallId, rest: seq<Step>)
    requires IsSqrt(m.sqrt) && Legal(m, Init, before) && Enabled(After(m, Init, before), CloseFlight(c))
    requires Legal(m, Apply(m, After(m, Init, before), CloseFlight(c)), rest)
    ensures var s := After(m, Init, before);
      var x, s1 := s.calls[c].phase.leader, Apply(m, s, CloseFlight(c));
      var t := After(m, s1, rest);
      && c in FlownOn(s1, x)
      && (forall d :: d in FlownOn(s1, x) && d != c ==> d in s1.calls && s1.calls[d].phase.Returned?)
      && FlownOn(s1, x) <= FlownOn(t, x) <= FlownOn(s1, x) + WaitingOn(s1, x)
      && |FlownOn(t, x) - FlownOn(s1, x)| <= |WaitingOn(s1, x)|
      && ((forall d :: d in s.results && d in s.leaderOf ==> s.leaderOf[d] != x) ==>
            FlownOn(s1, x) == {c} && |FlownOn(t, x)| <= 1 + |WaitingOn(s1, x)|)
  {
    hide Apply, Inv, Removed, WaitingOn;
    InitOk(m);
    RunKeepsInv(m, Init, before);
    var s := After(m, Init, before);
    var x, s1 := s.calls[c].phase.leader, Apply(m, s, CloseFlight(c));
    ClosedAndRemoved(m, s, c);
    StepKeepsInv(m, s, CloseFlight(c));
    OnlyWaitingFly(m, s1, rest, x);
    var t := After(m, s1, rest);
    Core.SubsetSize(FlownOn(t, x) - FlownOn(s1, x), WaitingOn(s1, x));
    if forall d :: d in s.results && d in s.leaderOf ==> s.leaderOf[d] != x {
      forall d | d in FlownOn(s1, x) ensures d == c {
        StillLedBy(m, s, c, d, x);
      }
      assert FlownOn(s1, x) == {c};
      Core.SubsetSize(FlownOn(t, x), {c} + WaitingOn(s1, x));
    }
  }

  lemma InitOk(m: Measure)
    requires IsSqrt(m.sqrt)
    ensures Inv(m, Init)
  {
  }

  lemma StillLedBy(m: Measure, s: State, c: CallId, d: CallId, x: Leader)
    requires IsSqrt(m.sqrt) && Inv(m, s) && Enabled(s, CloseFlight(c)) && d in FlownOn(Apply(m, s, CloseFlight(c)), x)
    ensures d in s.leaderOf && s.leaderOf[d] == x
  {
    hide Inv;
  }

  /** Whether fn can run again for a leader is decided when its flight closes: exactly if some call has found it and waits. */
  lemma SecondFlightIffWaiting(m: Measure, s: State, c: CallId)
    requires IsSqrt(m.sqrt) && Inv(m, s) && Enabled(s, CloseFlight(c))
    ensures var x, s1 := s.calls[c].phase.leader, Apply(m, s, CloseFlight(c));
      (exists rest :: Legal(m, s1, rest) && FlownOn(After(m, s1, rest), x) != FlownOn(s1, x))
      <==> WaitingOn(s1, x) != {}
  {
    hide Inv, Removed;
    var x, s1 := s.calls[c].phase.leader, Apply(m, s, CloseFlight(c));
    ClosedAndRemoved(m, s, c);
    StepKeepsInv(m, s, CloseFlight(c));
    if WaitingOn(s1, x) == {} {
      forall rest | Legal(m, s1, rest) ensures FlownOn(After(m, s1, rest), x) == FlownOn(s1, x) {
        OnlyWaitingFly(m, s1, rest, x);
      }
    } else {
      var d :| d in WaitingOn(s1, x);
      WaitingFlies(m, s1, d, x);
    }
  }

  lemma WaitingFlies(m: Measure, s: State, d: CallId, x: Leader)
    requires IsSqrt(m.sqrt) && Inv(m, s) && d in WaitingOn(s, x) && x.id !in s.flights
    ensures var rest := [EnterFlight(d)];
      Legal(m, s, rest) && d in FlownOn(After(m, s, rest), x) && d !in FlownOn(s, x)
  {
    hide Similar, Chosen, Settle, Remove;
    assert CallOk(m, s, d);
    var t := Apply(m, s, EnterFlight(d));
    var rest := [EnterFlight(d)];
    assert rest[1..] == [];
    assert Legal(m, t, []) && After(m, t, []) == t;
  }

  // ---------------------------------------------------------------------------------------------------
  // A run in which fn runs twice for one leader
  // ---------------------------------------------------------------------------------------------------

  ghost predicate LeadsTo(m: Measure, steps: seq<Step>, s: State)
    requires IsSqrt(m.sqrt)
  {
    Legal(m, Init, steps) && After(m, Init, steps) == s
  }

  lemma {:induction false} Extend(m: Measure, s: State, steps: seq<Step>, a: Step)
    requires IsSqrt(m.sqrt) && Legal(m, s, steps) && Enabled(After(m, s, steps), a)
    ensures Legal(m, s, steps + [a])
    ensures After(m, s, steps + [a]) == Apply(m, After(m, s, steps), a)
    decreases |steps|
  {
    hide Apply, Enabled;
    if steps == [] {
      assert [a][1..] == [] && [] + [a] == [a];
    } else {
      assert (steps + [a])[1..] == steps[1..] + [a];
      Extend(m, Apply(m, s, steps[0]), steps[1..], a);
    }
  }

  lemma Then(m: Measure, steps: seq<Step>, s: State, a: Step) returns (more: seq<Step>, t: State)
    requires IsSqrt(m.sqrt) && LeadsTo(m, steps, s) && Enabled(s, a)
    ensures LeadsTo(m, more, t) && t == Apply(m, s, a)
  {
    Extend(m, Init, steps, a);
    more, t := steps + [a], Apply(m, s, a);
  }

  /** Two calls with one vector find one leader; the second enters only after the first flight, and flies again. */
  lemma FliesTwice(m: Measure, scope: string, emb: Vector, out: Outcome) returns (steps: seq<Step>, s: State)
    requires IsSqrt(m.sqrt) && m.threshold <= 1.0 && NonZero(emb)
    ensures LeadsTo(m, steps, s) && FlownOn(s, Leader(0, emb)) == {0, 1}
  {
    var x := Leader(0, emb);
    steps, s := BothFind(m, scope, emb);
    hide Similar, Chosen, Settle, Remove, LeadsTo;
    steps, s := Then(m, steps, s, EnterFlight(0));
    steps, s := Then(m, steps, s, FnReturns(0, out));
    steps, s := Then(m, steps, s, RemoveLeader(0));
    steps, s := Then(m, steps, s, CloseFlight(0));
    steps, s := Then(m, steps, s, EnterFlight(1));
    assert FlownOn(s, x) == {0, 1};
  }

  lemma BothFind(m: Measure, scope: string, emb: Vector) returns (steps: seq<Step>, s: State)
    requires IsSqrt(m.sqrt) && m.threshold <= 1.0 && NonZero(emb)
    ensures LeadsTo(m, steps, s)
    ensures var x := Leader(0, emb);
      && s.calls == map[0 := Call(scope, emb, Settled(x)), 1 := Call(scope, emb, Settled(x))]
      && s.leaderOf == map[0 := x, 1 := x] && s.flights == map[] && s.results == map[]
  {
    hide LeadsTo, Similar, Chosen, Settle;
    steps, s := StartBoth(m, scope, emb);
    FindsNone(m, scope, Leader(0, emb));
    steps, s := Then(m, steps, s, FindLeader(0, 0));
    FindsAlike(m, scope, Leader(0, emb), Leader(1, emb));
    steps, s := Then(m, steps, s, FindLeader(1, 1));
  }

  lemma FindsNone(m: Measure, scope: string, x: Leader)
    requires IsSqrt(m.sqrt)
    ensures Chosen(m, map[], scope, x) == x && Settle(m, map[], scope, x) == map[scope := [x]]
  {
    hide Similar;
    assert Leaders(map[], scope) + [x] == [x];
  }

  lemma FindsAlike(m: Measure, scope: string, x: Leader, y: Leader)
    requires IsSqrt(m.sqrt) && m.threshold <= 1.0 && x.emb == y.emb && NonZero(x.emb)
    ensures Chosen(m, map[scope := [x]], scope, y) == x
  {
    CosineSelf(m.sqrt, x.emb);
    FirstIs(m, [x], x.emb, 0);
    assert [x][0] == x;
  }

  lemma StartBoth(m: Measure, scope: string, emb: Vector) returns (steps: seq<Step>, s: State)
    requires IsSqrt(m.sqrt) && NonZero(emb)
    ensures LeadsTo(m, steps, s)
    ensures s == Init.(calls := map[0 := Call(scope, emb, Entering), 1 := Call(scope, emb, Entering)])
  {
    steps, s := [], Init;
    steps, s := Then(m, steps, s, Arrive(0, scope, emb));
    steps, s := Then(m, steps, s, Arrive(1, scope, emb));
  }
}
