/**
  What the callers of `SemanticLocal.Merge` get, in terms of the steps of the run: the text of the flight they were on,
  which is exactly what that flight's fn returned.
 */
module SemanticLocalAnswers {
  import opened Cosine
  import opened Downstream
  import opened SemanticLocal
  import opened SemanticLocalCalls
  import opened SemanticLocalFlights
  import opened Wrappers

  /** What w's fn has returned, as far as the state holds it. */
  predicate Holds(s: State, w: CallId, out: Outcome) {
    && w in s.calls
    && ((s.calls[w].phase.Landing? && s.calls[w].phase.out == out) || (s.calls[w].phase.Landed? && s.calls[w].phase.out == out)
        || (w in s.results && s.results[w] == out))
  }

  predicate HoldsAny(s: State, w: CallId) {
    w in s.calls && (s.calls[w].phase.Landing? || s.calls[w].phase.Landed? || w in s.results)
  }

  lemma StepTellsOutcome(m: Measure, s: State, a: Step, w: CallId)
    requires IsSqrt(m.sqrt) && Inv(m, s) && Enabled(s, a)
    ensures HoldsAny(Apply(m, s, a), w) <==> HoldsAny(s, w) || (a.FnReturns? && a.c == w) || (a.RunAlone? && a.c == w)
    ensures (a.FnReturns? || a.RunAlone?) && a.c == w ==> !HoldsAny(s, w)
    ensures forall out :: Holds(Apply(m, s, a), w, out) <==>
      Holds(s, w, out) || a == FnReturns(w, out) || a == RunAlone(w, out)
  {
    hide Apply, Enabled, StoreOk, MadeOk;
    if a.c == w {
      ActorTellsOutcome(m, s, a);
    } else if w in s.calls {
      StepKeepsFacts(m, s, a, w);
      OthersResult(m, s, a, w);
    } else {
      NoNewcomer(m, s, a, w);
    }
  }

  lemma OthersResult(m: Measure, s: State, a: Step, w: CallId)
    requires IsSqrt(m.sqrt) && Enabled(s, a) && a.c != w
    ensures w in s.results ==> w in Apply(m, s, a).results && Apply(m, s, a).results[w] == s.results[w]
  {
    hide Similar, Chosen, Settle, Remove;
  }

  lemma ActorTellsOutcome(m: Measure, s: State, a: Step)
    requires IsSqrt(m.sqrt) && CallsOk(m, s) && FlightsOk(s) && Enabled(s, a)
    ensures var t, w := Apply(m, s, a), a.c;
      && (HoldsAny(t, w) <==> HoldsAny(s, w) || a.FnReturns? || a.RunAlone?)
      && (a.FnReturns? || a.RunAlone? ==> !HoldsAny(s, w))
      && (forall out :: Holds(t, w, out) <==> Holds(s, w, out) || a == FnReturns(w, out) || a == RunAlone(w, out))
  {
    hide Similar, Chosen, Settle, Remove, OnLeader, FlightOn;
    if !a.Arrive? {
      assert CallOk(m, s, a.c);
    }
  }

  lemma {:induction false} OutcomesAreTold(m: Measure, s: State, steps: seq<Step>, w: CallId, out: Outcome)
    requires IsSqrt(m.sqrt) && Inv(m, s) && Legal(m, s, steps)
    ensures Holds(After(m, s, steps), w, out) <==> Holds(s, w, out) || FnReturns(w, out) in steps || RunAlone(w, out) in steps
    ensures HoldsAny(s, w) ==> FnReturns(w, out) !in steps && RunAlone(w, out) !in steps
    decreases |steps|
  {
    hide Apply, Enabled, Inv, Holds, HoldsAny;
    if steps != [] {
      StepTellsOutcome(m, s, steps[0], w);
      StepKeepsInv(m, s, steps[0]);
      OutcomesAreTold(m, Apply(m, s, steps[0]), steps[1..], w, out);
      assert forall a :: a in steps <==> a == steps[0] || a in steps[1..];
    }
  }

  /** fn returns at most once for a call. */
  lemma {:induction false} OneReturn(m: Measure, s: State, steps: seq<Step>, w: CallId, a: Outcome, b: Outcome)
    requires IsSqrt(m.sqrt) && Inv(m, s) && Legal(m, s, steps)
    requires (FnReturns(w, a) in steps || RunAlone(w, a) in steps) && (FnReturns(w, b) in steps || RunAlone(w, b) in steps)
    ensures a == b
    decreases |steps|
  {
    hide Apply, Enabled, Inv, HoldsAny;
    var x := steps[0];
    assert forall e :: e in steps <==> e == x || e in steps[1..];
    var t := Apply(m, s, x);
    StepTellsOutcome(m, s, x, w);
    StepKeepsInv(m, s, x);
    if x.c == w && (x.FnReturns? || x.RunAlone?) {
      OutcomesAreTold(m, t, steps[1..], w, a);
      OutcomesAreTold(m, t, steps[1..], w, b);
    } else {
      OneReturn(m, t, steps[1..], w, a, b);
    }
  }

  // ---------------------------------------------------------------------------------------------------
  // Calls without a vector
  // ---------------------------------------------------------------------------------------------------

  /** On its own: never settles on a leader. */
  predicate Isolated(s: State, c: CallId) {
    c in s.calls && c !in s.leaderOf && (s.calls[c].phase.Alone? || s.calls[c].phase.Returned?)
  }

  lemma StepIsolates(m: Measure, s: State, a: Step, c: CallId)
    requires IsSqrt(m.sqrt) && CallsOk(m, s) && Enabled(s, a)
    ensures Isolated(Apply(m, s, a), c) <==> Isolated(s, c) || (a.Arrive? && a.c == c && a.emb == [])
    ensures a.RunAlone? && a.c == c ==> Isolated(s, c)
    ensures a.FnReturns? && a.c == c ==> c in s.leaderOf
    ensures c in s.leaderOf ==> c in Apply(m, s, a).leaderOf
  {
    hide Apply, Enabled, OnLeader, FlightOn, CallsOk;
    if a.c == c {
      ActorIsolates(m, s, a);
    } else if c in s.calls {
      StepKeepsFacts(m, s, a, c);
    } else {
      NoNewcomer(m, s, a, c);
      assert c !in s.leaderOf by { LeadersAreCalls(m, s); }
    }
  }

  lemma LeadersAreCalls(m: Measure, s: State)
    requires IsSqrt(m.sqrt) && CallsOk(m, s)
    ensures s.leaderOf.Keys <= s.calls.Keys
  {
  }

  lemma ActorIsolates(m: Measure, s: State, a: Step)
    requires IsSqrt(m.sqrt) && CallsOk(m, s) && Enabled(s, a)
    ensures var t, c := Apply(m, s, a), a.c;
      && (Isolated(t, c) <==> Isolated(s, c) || (a.Arrive? && a.emb == []))
      && (a.RunAlone? ==> Isolated(s, c)) && (a.FnReturns? ==> c in s.leaderOf)
      && (c in s.leaderOf ==> c in t.leaderOf)
  {
    hide Similar, Chosen, Settle, Remove, FlightOn;
    if !a.Arrive? {
      assert CallOk(m, s, a.c);
    }
  }

  /** A call runs fn for itself, without a leader, exactly if it has no vector. */
  lemma {:induction false} IsolatedIff(m: Measure, s: State, steps: seq<Step>, c: CallId)
    requires IsSqrt(m.sqrt) && Inv(m, s) && Legal(m, s, steps)
    ensures Isolated(After(m, s, steps), c) <==>
      Isolated(s, c) || exists a :: a in steps && a.Arrive? && a.c == c && a.emb == []
    ensures forall out :: RunAlone(c, out) in steps ==> Isolated(After(m, s, steps), c)
    ensures (c in s.leaderOf || exists out :: FnReturns(c, out) in steps) ==> c in After(m, s, steps).leaderOf
    decreases |steps|
  {
    hide Apply, Enabled, Isolated, MadeOk, StoreOk, FlightsOk, CallsOk;
    if steps != [] {
      StepIsolates(m, s, steps[0], c);
      StepKeepsInv(m, s, steps[0]);
      IsolatedIff(m, Apply(m, s, steps[0]), steps[1..], c);
      assert forall a :: a in steps <==> a == steps[0] || a in steps[1..];
    }
  }

  // ---------------------------------------------------------------------------------------------------
  // The answers
  // ---------------------------------------------------------------------------------------------------

  /**
    What a call gets, in every run. With a leader: exactly what fn returned on the flight it was on, its own or that of
    the flyer it joined, which is on the same leader. Without one, which is to say without a vector: exactly what its
    own fn returned. A call whose own fn was run always gets that.
   */
  lemma AnswerIs(m: Measure, steps: seq<Step>, c: CallId)
    requires IsSqrt(m.sqrt) && Legal(m, Init, steps)
    requires var s := After(m, Init, steps); c in s.calls && s.calls[c].phase.Returned?
    ensures var s := After(m, Init, steps);
      var Returned(out, w) := s.calls[c].phase;
      && (c in s.leaderOf ==> FnReturns(w, out) in steps && w in s.leaderOf && s.leaderOf[w] == s.leaderOf[c])
      && (c !in s.leaderOf ==> w == c && RunAlone(c, out) in steps)
      && (c in s.leaderOf <==> !exists a :: a in steps && a.Arrive? && a.c == c && a.emb == [])
      && (forall sent :: FnReturns(c, sent) in steps || RunAlone(c, sent) in steps ==> out == sent)
  {
    InitOk(m);
    RunKeepsInv(m, Init, steps);
    var s := After(m, Init, steps);
    var Returned(out, w) := s.calls[c].phase;
    assert CallOk(m, s, c);
    OutcomesAreTold(m, Init, steps, w, out);
    assert Holds(s, w, out);
    IsolatedIff(m, Init, steps, w);
    IsolatedIff(m, Init, steps, c);
    forall sent | FnReturns(c, sent) in steps || RunAlone(c, sent) in steps ensures out == sent {
      OutcomesAreTold(m, Init, steps, c, sent);
      assert Holds(s, c, sent);
      ResultIsOwn(m, s, c);
    }
  }

  /** Who has flown has its own flight's result. */
  lemma ResultIsOwn(m: Measure, s: State, c: CallId)
    requires IsSqrt(m.sqrt) && Inv(m, s) && c in s.results
    ensures c in s.calls && s.calls[c].phase.Returned? && s.calls[c].phase.out == s.results[c]
  {
    hide Similar, OnLeader, FlightOn;
    assert CallOk(m, s, c);
  }

  /** A run to the end: two calls with one vector are on one flight, and both get its text. */
  lemma OneFlightForBoth(m: Measure, scope: string, emb: Vector, text: string) returns (steps: seq<Step>, s: State)
    requires IsSqrt(m.sqrt) && m.threshold <= 1.0 && NonZero(emb)
    ensures LeadsTo(m, steps, s)
    ensures 0 in s.calls && s.calls[0].phase == Returned(Answered(text), 0)
    ensures 1 in s.calls && s.calls[1].phase == Returned(Answered(text), 0)
  {
    steps, s := BothFind(m, scope, emb);
    hide Similar, Chosen, Settle, Remove, LeadsTo;
    steps, s := Then(m, steps, s, EnterFlight(0));
    steps, s := Then(m, steps, s, EnterFlight(1));
    steps, s := Then(m, steps, s, FnReturns(0, Answered(text)));
    steps, s := Then(m, steps, s, RemoveLeader(0));
    steps, s := Then(m, steps, s, CloseFlight(0));
    steps, s := Then(m, steps, s, Collect(1));
  }
}
