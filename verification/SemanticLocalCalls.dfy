/**
  Concurrent calls of `SemanticLocal.Merge` (internal/coalesce/semantic_local.go). The two critical sections are
  one step each, the functions `Settle` and `Remove` that `LeaderTable` implements. singleflight is taken by its
  contract: per group at most one flight at a time, and whoever asks while it is registered waits for its result.
  A flight is named by the call that flies it.

  `made` and `leaderOf` are history for the proofs; no step reads them, except that a new leader is a fresh one.
 */
module SemanticLocalCalls {
  import opened Downstream
  import opened Wrappers
  import opened Cosine
  import opened SemanticLocal

  type CallId = nat

  datatype Phase =
    | Entering                                 // before the first critical section
    | Settled(leader: Leader)                  // knows its leader, g.Do is next
    | Flying(leader: Leader)                   // runs fn
    | Landing(leader: Leader, out: Outcome)    // fn has returned, the removal is next
    | Landed(leader: Leader, out: Outcome)     // removed, the flight is still registered
    | Joined(leader: Leader, flyer: CallId)    // waits for the flight's result
    | Alone                                    // no vector: runs fn for itself
    | Returned(out: Outcome, flyer: CallId)

  datatype Call = Call(scope: string, emb: Vector, phase: Phase)

  datatype Made = Made(leader: Leader, scope: string, creator: CallId)

  datatype State = State(
    byScope: Store,
    calls: map<CallId, Call>,
    flights: map<nat, CallId>,           // leader id to the registered flight
    results: map<CallId, Outcome>,       // flights that are over
    made: map<nat, Made>,
    leaderOf: map<CallId, Leader>)

  datatype Step =
    | Arrive(c: CallId, scope: string, emb: Vector)
    | FindLeader(c: CallId, id: nat)
    | EnterFlight(c: CallId)
    | FnReturns(c: CallId, out: Outcome)
    | RemoveLeader(c: CallId)
    | CloseFlight(c: CallId)
    | Collect(c: CallId)
    | RunAlone(c: CallId, out: Outcome)

  const Init := State(map[], map[], map[], map[], map[], map[])

  predicate Enabled(s: State, a: Step) {
    match a
    case Arrive(c, _, _) => c !in s.calls
    case FindLeader(c, id) => c in s.calls && s.calls[c].phase.Entering? && id !in s.made
    case EnterFlight(c) => c in s.calls && s.calls[c].phase.Settled?
    case FnReturns(c, _) => c in s.calls && s.calls[c].phase.Flying?
    case RemoveLeader(c) => c in s.calls && s.calls[c].phase.Landing?
    case CloseFlight(c) => c in s.calls && s.calls[c].phase.Landed?
    case Collect(c) => c in s.calls && s.calls[c].phase.Joined? && s.calls[c].phase.flyer in s.results
    case RunAlone(c, _) => c in s.calls && s.calls[c].phase.Alone?
  }

  function Goto(s: State, c: CallId, p: Phase): State
    requires c in s.calls
  {
    s.(calls := s.calls[c := s.calls[c].(phase := p)])
  }

  ghost function Apply(m: Measure, s: State, a: Step): State
    requires IsSqrt(m.sqrt) && Enabled(s, a)
  {
    match a
    case Arrive(c, scope, emb) =>
      s.(calls := s.calls[c := Call(scope, emb, if emb == [] then Alone else Entering)])
    case FindLeader(c, id) =>
      var Call(scope, emb, _) := s.calls[c];
      var fresh' := Leader(id, emb);
      var leader := Chosen(m, s.byScope, scope, fresh');
      Goto(s, c, Settled(leader)).(byScope := Settle(m, s.byScope, scope, fresh'),
                                   made := if leader == fresh' then s.made[id := Made(leader, scope, c)] else s.made,
                                   leaderOf := s.leaderOf[c := leader])
    case EnterFlight(c) =>
      var leader := s.calls[c].phase.leader;
      if leader.id in s.flights then Goto(s, c, Joined(leader, s.flights[leader.id]))
      else Goto(s, c, Flying(leader)).(flights := s.flights[leader.id := c])
    case FnReturns(c, out) => Goto(s, c, Landing(s.calls[c].phase.leader, out))
    case RemoveLeader(c) =>
      var Call(scope, _, Landing(leader, out)) := s.calls[c];
      Goto(s, c, Landed(leader, out)).(byScope := Remove(s.byScope, scope, leader))
    case CloseFlight(c) =>
      var Landed(leader, out) := s.calls[c].phase;
      Goto(s, c, Returned(out, c)).(flights := s.flights - {leader.id}, results := s.results[c := out])
    case Collect(c) =>
      var w := s.calls[c].phase.flyer;
      Goto(s, c, Returned(s.results[w], w))
    case RunAlone(c, out) => Goto(s, c, Returned(out, c)).(results := s.results[c := out])
  }

  ghost predicate Legal(m: Measure, s: State, steps: seq<Step>)
    requires IsSqrt(m.sqrt)
    decreases |steps|
  {
    steps == [] || (Enabled(s, steps[0]) && Legal(m, Apply(m, s, steps[0]), steps[1..]))
  }

  ghost function After(m: Measure, s: State, steps: seq<Step>): State
    requires IsSqrt(m.sqrt) && Legal(m, s, steps)
    decreases |steps|
  {
    if steps == [] then s else After(m, Apply(m, s, steps[0]), steps[1..])
  }

  // ---------------------------------------------------------------------------------------------------
  // What every reachable state keeps
  // ---------------------------------------------------------------------------------------------------

  /** The leader a call is at work on. */
  function LeaderOf(p: Phase): Option<Leader> {
    match p
    case Settled(x) => Some(x)
    case Flying(x) => Some(x)
    case Landing(x, _) => Some(x)
    case Landed(x, _) => Some(x)
    case Joined(x, _) => Some(x)
    case _ => None
  }

  /** The call has settled on x: it made x, or reached the threshold against it, in x's scope. */
  ghost predicate OnLeader(m: Measure, s: State, c: CallId, x: Leader)
    requires IsSqrt(m.sqrt) && c in s.calls
  {
    && c in s.leaderOf && s.leaderOf[c] == x
    && x.id in s.made && s.made[x.id].leader == x && s.made[x.id].scope == s.calls[c].scope
    && (if s.made[x.id].creator == c then s.calls[c].emb == x.emb else Similar(m, x.emb, s.calls[c].emb))
  }

  predicate InFlight(p: Phase) {
    p.Flying? || p.Landing? || p.Landed?
  }

  ghost predicate CallOk(m: Measure, s: State, c: CallId)
    requires IsSqrt(m.sqrt) && c in s.calls
  {
    match s.calls[c].phase
    case Entering => c !in s.leaderOf && c !in s.results
    case Settled(x) => OnLeader(m, s, c, x) && c !in s.results
    case Flying(x) => OnLeader(m, s, c, x) && x.id in s.flights && s.flights[x.id] == c && c !in s.results
    case Landing(x, _) => OnLeader(m, s, c, x) && x.id in s.flights && s.flights[x.id] == c && c !in s.results
    case Landed(x, _) => OnLeader(m, s, c, x) && x.id in s.flights && s.flights[x.id] == c && c !in s.results
    case Joined(x, w) => OnLeader(m, s, c, x) && FlightOn(s, w, x) && c != w
    case Alone => c !in s.leaderOf && c !in s.results
    case Returned(out, w) =>
      && w in s.results && s.results[w] == out
      && (c in s.leaderOf ==> OnLeader(m, s, c, s.leaderOf[c]) && FlightOn(s, w, s.leaderOf[c]))
      && (c !in s.leaderOf ==> w == c)
  }

  /** w flies, or has flown, on x. */
  predicate FlightOn(s: State, w: CallId, x: Leader) {
    && w in s.calls && w in s.leaderOf && s.leaderOf[w] == x
    && (InFlight(s.calls[w].phase) || w in s.results)
  }

  ghost predicate FlightsOk(s: State) {
    && (forall id :: id in s.flights ==>
          var w := s.flights[id];
          w in s.calls && InFlight(s.calls[w].phase) && s.calls[w].phase.leader.id == id)
    && (forall w :: w in s.results ==> w in s.calls && s.calls[w].phase.Returned? && s.calls[w].phase.flyer == w)
  }

  ghost predicate MadeOk(s: State) {
    forall id :: id in s.made ==>
      var Made(x, scope, c) := s.made[id];
      x.id == id && c in s.calls && c in s.leaderOf && s.leaderOf[c] == x
  }

  /** Somebody's work on x is past the removal. */
  predicate PastRemoval(s: State, c: CallId, x: Leader)
    requires c in s.calls
  {
    c in s.leaderOf && s.leaderOf[c] == x && (s.calls[c].phase.Landed? || s.calls[c].phase.Returned?)
  }

  /** A stored leader is a made one of that scope, stored once, and no call on it is past its removal. */
  ghost predicate StoredOk(s: State, scope: string, x: Leader) {
    && x.id in s.made && s.made[x.id].leader == x && s.made[x.id].scope == scope
    && forall c :: c in s.calls ==> !PastRemoval(s, c, x)
  }

  /** No two leaders of a list reach the threshold against each other, and no list is kept empty. */
  ghost predicate Apart(m: Measure, leaders: seq<Leader>)
    requires IsSqrt(m.sqrt)
  {
    leaders != [] && PairwiseApart(m, leaders)
  }

  ghost predicate PairwiseApart(m: Measure, leaders: seq<Leader>)
    requires IsSqrt(m.sqrt)
  {
    forall i, j :: 0 <= i < j < |leaders| ==> ApartFrom(m, leaders[i], leaders[j])
  }

  ghost predicate ApartFrom(m: Measure, x: Leader, y: Leader)
    requires IsSqrt(m.sqrt)
  {
    x.id != y.id && !Similar(m, x.emb, y.emb)
  }

  ghost predicate StoreOk(m: Measure, s: State)
    requires IsSqrt(m.sqrt)
  {
    forall scope :: scope in s.byScope ==>
      Apart(m, s.byScope[scope]) && forall x :: x in s.byScope[scope] ==> StoredOk(s, scope, x)
  }

  ghost predicate CallsOk(m: Measure, s: State)
    requires IsSqrt(m.sqrt)
  {
    s.leaderOf.Keys <= s.calls.Keys && forall c :: c in s.calls ==> CallOk(m, s, c)
  }

  ghost predicate Inv(m: Measure, s: State)
    requires IsSqrt(m.sqrt)
  {
    CallsOk(m, s) && FlightsOk(s) && MadeOk(s) && StoreOk(m, s)
  }

  /** What a call settles on is its own new leader, or a stored one that it reaches the threshold against. */
  lemma ChosenStored(m: Measure, s: State, scope: string, new': Leader)
    requires IsSqrt(m.sqrt) && StoreOk(m, s) && new'.id !in s.made
    ensures var x := Chosen(m, s.byScope, scope, new');
      x != new' ==> scope in s.byScope && x in s.byScope[scope] && StoredOk(s, scope, x) && Similar(m, x.emb, new'.emb)
                    && Settle(m, s.byScope, scope, new') == s.byScope
    ensures var x := Chosen(m, s.byScope, scope, new');
      x == new' ==> Settle(m, s.byScope, scope, new') == s.byScope[scope := Leaders(s.byScope, scope) + [new']]
                    && forall i :: 0 <= i < |Leaders(s.byScope, scope)| ==>
                         !Similar(m, Leaders(s.byScope, scope)[i].emb, new'.emb)
  {
    hide Similar;
    var leaders := Leaders(s.byScope, scope);
    if FirstSimilar(m, leaders, new'.emb).Some? {
      var i :| 0 <= i < |leaders| && leaders[i] == FirstSimilar(m, leaders, new'.emb).value
               && Similar(m, leaders[i].emb, new'.emb);
      assert leaders[i] in s.byScope[scope];
    }
  }

  lemma OnLeaderLasts(m: Measure, s: State, a: Step, c: CallId)
    requires IsSqrt(m.sqrt) && CallsOk(m, s) && Enabled(s, a) && c in s.calls && c in s.leaderOf
    requires OnLeader(m, s, c, s.leaderOf[c])
    ensures c in Apply(m, s, a).calls && OnLeader(m, Apply(m, s, a), c, s.leaderOf[c])
  {
    hide Similar, Chosen, Settle, Remove;
    if a.FindLeader? {
      assert CallOk(m, s, a.c);
    }
  }

  lemma FlightLasts(m: Measure, s: State, a: Step, w: CallId, x: Leader)
    requires IsSqrt(m.sqrt) && CallsOk(m, s) && Enabled(s, a) && FlightOn(s, w, x)
    ensures FlightOn(Apply(m, s, a), w, x)
  {
    hide Similar, Chosen, Settle, Remove, OnLeader;
    if a.FindLeader? {
      assert CallOk(m, s, a.c);
    }
  }

  /** What a step of somebody else leaves alone. */
  lemma StepKeepsFacts(m: Measure, s: State, a: Step, c: CallId)
    requires IsSqrt(m.sqrt) && CallsOk(m, s) && Enabled(s, a) && c in s.calls && a.c != c
    ensures var t := Apply(m, s, a);
      && c in t.calls && t.calls[c] == s.calls[c]
      && (c in t.leaderOf <==> c in s.leaderOf) && (c in s.leaderOf ==> t.leaderOf[c] == s.leaderOf[c])
      && (c in t.results <==> c in s.results)
      && (forall w :: w in s.results ==> w in t.results && t.results[w] == s.results[w])
      && (forall id :: id in s.flights && s.flights[id] == c ==> id in t.flights && t.flights[id] == c)
  {
    hide Similar, Chosen, Settle, Remove, OnLeader, FlightOn;
    if !a.Arrive? {
      assert CallOk(m, s, a.c);
    }
  }

  /** A step of somebody else keeps what a call's phase needs of the state. */
  lemma StepKeepsOthers(m: Measure, s: State, a: Step, c: CallId)
    requires IsSqrt(m.sqrt) && CallsOk(m, s) && Enabled(s, a) && c in s.calls && a.c != c
    ensures CallOk(m, Apply(m, s, a), c)
  {
    hide Apply, Enabled, OnLeader, FlightOn;
    assert CallOk(m, s, c);
    StepKeepsFacts(m, s, a, c);
    if LeaderOf(s.calls[c].phase).Some? {
      UnfoldOnLeader(m, s, c);
    }
    if c in s.leaderOf && OnLeader(m, s, c, s.leaderOf[c]) {
      OnLeaderLasts(m, s, a, c);
    }
    match s.calls[c].phase
    case Joined(x, w) => FlightLasts(m, s, a, w, x);
    case Returned(_, w) => if c in s.leaderOf { FlightLasts(m, s, a, w, s.leaderOf[c]); }
    case _ =>
  }

  lemma UnfoldOnLeader(m: Measure, s: State, c: CallId)
    requires IsSqrt(m.sqrt) && c in s.calls && CallOk(m, s, c) && LeaderOf(s.calls[c].phase).Some?
    ensures c in s.leaderOf && s.leaderOf[c] == LeaderOf(s.calls[c].phase).value
    ensures OnLeader(m, s, c, s.leaderOf[c])
  {
    hide Similar;
  }

  /** A call that enters, flies or leaves a flight. */
  lemma StepKeepsFlyer(m: Measure, s: State, a: Step)
    requires IsSqrt(m.sqrt) && CallsOk(m, s) && FlightsOk(s) && Enabled(s, a)
    requires a.EnterFlight? || a.FnReturns? || a.RemoveLeader? || a.CloseFlight?
    ensures CallOk(m, Apply(m, s, a), a.c)
  {
    hide Similar, Chosen, Settle, Remove, OnLeader;
    assert CallOk(m, s, a.c);
    UnfoldOnLeader(m, s, a.c);
    OnLeaderLasts(m, s, a, a.c);
    if a.EnterFlight? && s.calls[a.c].phase.leader.id in s.flights {
      JoinsSameLeader(m, s, a.c);
    }
  }

  lemma StepKeepsWaiter(m: Measure, s: State, a: Step)
    requires IsSqrt(m.sqrt) && CallsOk(m, s) && FlightsOk(s) && Enabled(s, a)
    requires a.Arrive? || a.Collect? || a.RunAlone?
    ensures CallOk(m, Apply(m, s, a), a.c)
  {
    hide Similar, Chosen, Settle, Remove, OnLeader;
    if !a.Arrive? {
      assert CallOk(m, s, a.c);
    }
    if a.Collect? {
      UnfoldOnLeader(m, s, a.c);
      OnLeaderLasts(m, s, a, a.c);
    }
  }

  /** The flight registered for a leader's group is one on that leader. */
  lemma JoinsSameLeader(m: Measure, s: State, c: CallId)
    requires IsSqrt(m.sqrt) && CallsOk(m, s) && FlightsOk(s) && c in s.calls && s.calls[c].phase.Settled?
    requires s.calls[c].phase.leader.id in s.flights
    ensures var x := s.calls[c].phase.leader; s.flights[x.id] != c && FlightOn(s, s.flights[x.id], x)
  {
    hide Similar;
    var w := s.flights[s.calls[c].phase.leader.id];
    assert CallOk(m, s, c) && CallOk(m, s, w);
  }

  lemma StepKeepsFinder(m: Measure, s: State, a: Step)
    requires IsSqrt(m.sqrt) && Inv(m, s) && Enabled(s, a) && a.FindLeader?
    ensures CallOk(m, Apply(m, s, a), a.c)
  {
    hide Similar, Chosen, Settle, Remove;
    assert CallOk(m, s, a.c);
    ChosenStored(m, s, s.calls[a.c].scope, Leader(a.id, s.calls[a.c].emb));
    var x := Chosen(m, s.byScope, s.calls[a.c].scope, Leader(a.id, s.calls[a.c].emb));
    if x.id in s.made {
      assert s.made[x.id].creator in s.leaderOf;
    }
  }

  lemma StepKeepsCalls(m: Measure, s: State, a: Step)
    requires IsSqrt(m.sqrt) && Inv(m, s) && Enabled(s, a)
    ensures CallsOk(m, Apply(m, s, a))
  {
    var t := Apply(m, s, a);
    forall c | c in t.calls ensures CallOk(m, t, c) {
      if c != a.c {
        StepKeepsOthers(m, s, a, c);
      } else if a.FindLeader? {
        StepKeepsFinder(m, s, a);
      } else if a.Arrive? || a.Collect? || a.RunAlone? {
        StepKeepsWaiter(m, s, a);
      } else {
        StepKeepsFlyer(m, s, a);
      }
    }
  }

  lemma StepKeepsFlights(m: Measure, s: State, a: Step)
    requires IsSqrt(m.sqrt) && CallsOk(m, s) && FlightsOk(s) && Enabled(s, a)
    ensures FlightsOk(Apply(m, s, a))
  {
    hide Apply, Enabled, CallsOk;
    var t := Apply(m, s, a);
    forall id | id in t.flights
      ensures var w := t.flights[id]; w in t.calls && InFlight(t.calls[w].phase) && t.calls[w].phase.leader.id == id
    {
      StepKeepsFlight(m, s, a, id);
    }
    forall w | w in t.results ensures w in t.calls && t.calls[w].phase.Returned? && t.calls[w].phase.flyer == w {
      StepKeepsResult(m, s, a, w);
    }
  }

  /** What a step does to the register of flights, and to the acting call's place in it. */
  lemma StepWritesFlights(m: Measure, s: State, a: Step)
    requires IsSqrt(m.sqrt) && Enabled(s, a)
    ensures var t := Apply(m, s, a);
      && t.flights == (if a.EnterFlight? && s.calls[a.c].phase.leader.id !in s.flights then
                         s.flights[s.calls[a.c].phase.leader.id := a.c]
                       else if a.CloseFlight? then s.flights - {s.calls[a.c].phase.leader.id}
                       else s.flights)
      && a.c in t.calls
      && (a.FnReturns? || a.RemoveLeader? || (a.EnterFlight? && s.calls[a.c].phase.leader.id !in s.flights) ==>
            InFlight(t.calls[a.c].phase) && t.calls[a.c].phase.leader == s.calls[a.c].phase.leader)
  {
    hide Similar, Chosen, Settle, Remove;
  }

  lemma StepKeepsFlight(m: Measure, s: State, a: Step, id: nat)
    requires IsSqrt(m.sqrt) && CallsOk(m, s) && FlightsOk(s) && Enabled(s, a) && id in Apply(m, s, a).flights
    ensures var t := Apply(m, s, a);
      var w := t.flights[id];
      w in t.calls && InFlight(t.calls[w].phase) && t.calls[w].phase.leader.id == id
  {
    hide Apply, OnLeader, FlightOn, CallOk;
    StepWritesFlights(m, s, a);
    if id in s.flights && s.flights[id] != a.c {
      StepKeepsFacts(m, s, a, s.flights[id]);
    }
  }

  lemma StepKeepsResult(m: Measure, s: State, a: Step, w: CallId)
    requires IsSqrt(m.sqrt) && CallsOk(m, s) && FlightsOk(s) && Enabled(s, a) && w in Apply(m, s, a).results
    ensures var t := Apply(m, s, a); w in t.calls && t.calls[w].phase.Returned? && t.calls[w].phase.flyer == w
  {
    hide Similar, Chosen, Settle, Remove, OnLeader, FlightOn, CallsOk;
  }

  lemma StepKeepsMade(m: Measure, s: State, a: Step)
    requires IsSqrt(m.sqrt) && CallsOk(m, s) && MadeOk(s) && Enabled(s, a)
    ensures MadeOk(Apply(m, s, a))
  {
    hide Similar;
    if a.FindLeader? {
      assert CallOk(m, s, a.c);
    }
  }

  lemma StepKeepsStored(m: Measure, s: State, a: Step, scope: string, x: Leader)
    requires IsSqrt(m.sqrt) && CallsOk(m, s) && FlightsOk(s) && Enabled(s, a) && StoredOk(s, scope, x)
    requires !(a.RemoveLeader? && s.calls[a.c].phase.leader == x)
    ensures StoredOk(Apply(m, s, a), scope, x)
  {
    hide Similar, Apply, Enabled, CallsOk, FlightsOk;
    var t := Apply(m, s, a);
    StepKeepsMadeOf(m, s, a, x);
    forall c | c in t.calls ensures !PastRemoval(t, c, x) {
      if c == a.c {
        ActorNotPast(m, s, a, scope, x);
      } else if c in s.calls {
        StepKeepsFacts(m, s, a, c);
      } else {
        NoNewcomer(m, s, a, c);
      }
    }
  }

  lemma StepKeepsMadeOf(m: Measure, s: State, a: Step, x: Leader)
    requires IsSqrt(m.sqrt) && Enabled(s, a) && x.id in s.made
    ensures x.id in Apply(m, s, a).made && Apply(m, s, a).made[x.id] == s.made[x.id]
  {
    hide Similar, Chosen, Settle, Remove;
  }

  lemma NoNewcomer(m: Measure, s: State, a: Step, c: CallId)
    requires IsSqrt(m.sqrt) && Enabled(s, a) && c !in s.calls && c != a.c
    ensures c !in Apply(m, s, a).calls
  {
    hide Similar, Chosen, Settle, Remove;
  }

  lemma ActorNotPast(m: Measure, s: State, a: Step, scope: string, x: Leader)
    requires IsSqrt(m.sqrt) && CallsOk(m, s) && FlightsOk(s) && Enabled(s, a) && StoredOk(s, scope, x)
    requires !(a.RemoveLeader? && s.calls[a.c].phase.leader == x)
    ensures a.c in Apply(m, s, a).calls && !PastRemoval(Apply(m, s, a), a.c, x)
  {
    hide Similar, Chosen, Settle, Remove;
    if !a.Arrive? {
      assert CallOk(m, s, a.c) && !PastRemoval(s, a.c, x);
    }
    if a.Collect? {
      assert !PastRemoval(s, s.calls[a.c].phase.flyer, x);
    }
  }

  lemma {:induction false} WithoutStaysApart(m: Measure, xs: seq<Leader>, x: Leader)
    requires IsSqrt(m.sqrt) && PairwiseApart(m, xs)
    ensures PairwiseApart(m, Without(xs, x))
  {
    hide Similar, IsSqrt;
    if xs != [] {
      var n := |xs| - 1;
      var ys := Without(xs[..n], x);
      WithoutStaysApart(m, xs[..n], x);
      forall i | 0 <= i < |ys| ensures ApartFrom(m, ys[i], xs[n]) {
        assert ys[i] in xs[..n];
        var j :| 0 <= j < n && xs[j] == ys[i];
      }
    }
  }

  lemma StepKeepsStore(m: Measure, s: State, a: Step)
    requires IsSqrt(m.sqrt) && Inv(m, s) && Enabled(s, a)
    ensures StoreOk(m, Apply(m, s, a))
  {
    var t := Apply(m, s, a);
    forall scope | scope in t.byScope
      ensures Apart(m, t.byScope[scope]) && forall x :: x in t.byScope[scope] ==> StoredOk(t, scope, x)
    {
      if a.FindLeader? {
        FinderKeepsList(m, s, a, scope);
      } else if a.RemoveLeader? {
        RemoverKeepsList(m, s, a, scope);
      } else {
        OthersKeepList(m, s, a, scope);
      }
    }
  }

  lemma OthersKeepList(m: Measure, s: State, a: Step, scope: string)
    requires IsSqrt(m.sqrt) && Inv(m, s) && Enabled(s, a) && !a.FindLeader? && !a.RemoveLeader?
    ensures Apply(m, s, a).byScope == s.byScope
    ensures scope in s.byScope ==> forall x :: x in s.byScope[scope] ==> StoredOk(Apply(m, s, a), scope, x)
  {
    hide Similar, StoredOk;
    if scope in s.byScope {
      forall x | x in s.byScope[scope] ensures StoredOk(Apply(m, s, a), scope, x) {
        StepKeepsStored(m, s, a, scope, x);
      }
    }
  }

  lemma RemoverKeepsList(m: Measure, s: State, a: Step, scope: string)
    requires IsSqrt(m.sqrt) && Inv(m, s) && Enabled(s, a) && a.RemoveLeader? && scope in Apply(m, s, a).byScope
    ensures var xs := Apply(m, s, a).byScope[scope];
      Apart(m, xs) && forall x :: x in xs ==> StoredOk(Apply(m, s, a), scope, x)
  {
    hide Similar, StoredOk;
    var Call(own, _, Landing(leader, _)) := s.calls[a.c];
    var t := Apply(m, s, a);
    if scope == own && scope in s.byScope {
      WithoutStaysApart(m, s.byScope[scope], leader);
    }
    forall x | x in t.byScope[scope] ensures StoredOk(t, scope, x) {
      assert scope in s.byScope && x in s.byScope[scope] && StoredOk(s, scope, x);
      if x == leader {
        assert CallOk(m, s, a.c) && scope != own;
        StoredIn(s, scope, x);
      }
      StepKeepsStored(m, s, a, scope, x);
    }
  }

  lemma StoredIn(s: State, scope: string, x: Leader)
    requires StoredOk(s, scope, x)
    ensures x.id in s.made && s.made[x.id] == Made(x, scope, s.made[x.id].creator)
  {
  }

  lemma FinderKeepsList(m: Measure, s: State, a: Step, scope: string)
    requires IsSqrt(m.sqrt) && Inv(m, s) && Enabled(s, a) && a.FindLeader? && scope in Apply(m, s, a).byScope
    ensures var xs := Apply(m, s, a).byScope[scope];
      Apart(m, xs) && forall x :: x in xs ==> StoredOk(Apply(m, s, a), scope, x)
  {
    hide Similar, StoredOk, Chosen, Settle;
    var t := Apply(m, s, a);
    var own, new' := s.calls[a.c].scope, Leader(a.id, s.calls[a.c].emb);
    ChosenStored(m, s, own, new');
    forall x | x in t.byScope[scope] ensures StoredOk(t, scope, x) {
      if scope in s.byScope && x in s.byScope[scope] {
        StepKeepsStored(m, s, a, scope, x);
      } else {
        NewIsStored(m, s, a);
      }
    }
    if scope in s.byScope {
      forall i | 0 <= i < |s.byScope[scope]| ensures s.byScope[scope][i].id != a.id {
        StoredIn(s, scope, s.byScope[scope][i]);
      }
    }
  }

  lemma LeaderIsMade(m: Measure, s: State, c: CallId)
    requires IsSqrt(m.sqrt) && CallsOk(m, s) && c in s.leaderOf
    ensures s.leaderOf[c].id in s.made
  {
    hide Similar, FlightOn;
    assert CallOk(m, s, c);
  }

  lemma NewIsStored(m: Measure, s: State, a: Step)
    requires IsSqrt(m.sqrt) && Inv(m, s) && Enabled(s, a) && a.FindLeader?
    requires var new' := Leader(a.id, s.calls[a.c].emb); Chosen(m, s.byScope, s.calls[a.c].scope, new') == new'
    ensures StoredOk(Apply(m, s, a), s.calls[a.c].scope, Leader(a.id, s.calls[a.c].emb))
  {
    hide Similar, Chosen, Settle, FlightsOk, StoreOk, FlightOn, CallOk;
    var t, new' := Apply(m, s, a), Leader(a.id, s.calls[a.c].emb);
    forall c | c in t.calls ensures !PastRemoval(t, c, new') {
      if c != a.c {
        StepKeepsFacts(m, s, a, c);
        if c in s.leaderOf {
          LeaderIsMade(m, s, c);
        }
      }
    }
  }

  lemma StepKeepsInv(m: Measure, s: State, a: Step)
    requires IsSqrt(m.sqrt) && Inv(m, s) && Enabled(s, a)
    ensures Inv(m, Apply(m, s, a))
  {
    hide Apply;
    StepKeepsCalls(m, s, a);
    StepKeepsFlights(m, s, a);
    StepKeepsMade(m, s, a);
    StepKeepsStore(m, s, a);
  }

  lemma {:induction false} RunKeepsInv(m: Measure, s: State, steps: seq<Step>)
    requires IsSqrt(m.sqrt) && Inv(m, s) && Legal(m, s, steps)
    ensures Inv(m, After(m, s, steps))
    decreases |steps|
  {
    if steps != [] {
      StepKeepsInv(m, s, steps[0]);
      RunKeepsInv(m, Apply(m, s, steps[0]), steps[1..]);
    }
  }

  // ---------------------------------------------------------------------------------------------------
  // The results
  // ---------------------------------------------------------------------------------------------------

  /** Inside `Merge`: called, and not yet returned. */
  predicate Inside(s: State, c: CallId) {
    c in s.calls && !s.calls[c].phase.Returned?
  }

  /**
    In every run: no two leaders stored under a scope reach the threshold against each other, in either order; the
    call that made a stored leader is still inside `Merge`; and so nothing is stored once no call is inside.
   */
  lemma StoredLeaders(m: Measure, steps: seq<Step>)
    requires IsSqrt(m.sqrt) && Legal(m, Init, steps)
    ensures var s := After(m, Init, steps);
      && (forall scope, i, j | scope in s.byScope && 0 <= i < |s.byScope[scope]| && 0 <= j < |s.byScope[scope]| && i != j
            :: !Similar(m, s.byScope[scope][i].emb, s.byScope[scope][j].emb))
      && (forall scope, x | scope in s.byScope && x in s.byScope[scope]
            :: x.id in s.made && s.made[x.id].scope == scope && Inside(s, s.made[x.id].creator))
      && ((forall c :: !Inside(s, c)) ==> s.byScope == map[])
  {
    RunKeepsInv(m, Init, steps);
    var s := After(m, Init, steps);
    forall scope, i, j | scope in s.byScope && 0 <= i < |s.byScope[scope]| && 0 <= j < |s.byScope[scope]| && i != j
      ensures !Similar(m, s.byScope[scope][i].emb, s.byScope[scope][j].emb)
    {
      SimilarSymmetric(m, s.byScope[scope][i].emb, s.byScope[scope][j].emb);
      assert i < j ==> ApartFrom(m, s.byScope[scope][i], s.byScope[scope][j]);
      assert j < i ==> ApartFrom(m, s.byScope[scope][j], s.byScope[scope][i]);
    }
    forall scope, x | scope in s.byScope && x in s.byScope[scope]
      ensures x.id in s.made && s.made[x.id].scope == scope && Inside(s, s.made[x.id].creator)
    {
      assert StoredOk(s, scope, x);
      assert !PastRemoval(s, s.made[x.id].creator, x);
    }
    if s.byScope != map[] {
      var scope :| scope in s.byScope;
      assert s.byScope[scope][0] in s.byScope[scope];
    }
  }

  /**
    In every run, two calls that are handed the result of one flight are of the same scope and share a leader that
    each of them made or reached the threshold against; for a threshold of at most 1 their own vectors are then at
    cosine at least 2t^2 - 1.
   */
  lemma SharersAreSimilar(m: Measure, steps: seq<Step>, c: CallId, d: CallId)
    requires IsSqrt(m.sqrt) && m.threshold > 0.0 && Legal(m, Init, steps) && c != d
    requires var s := After(m, Init, steps);
      && c in s.calls && s.calls[c].phase.Returned? && d in s.calls && s.calls[d].phase.Returned?
      && s.calls[c].phase.flyer == s.calls[d].phase.flyer
    ensures var s := After(m, Init, steps);
      && s.calls[c].phase.out == s.calls[d].phase.out
      && s.calls[c].scope == s.calls[d].scope
      && (exists x :: OnLeader(m, s, c, x) && OnLeader(m, s, d, x))
      && (m.threshold <= 1.0 ==>
            Comparable(s.calls[c].emb, s.calls[d].emb)
            && Cos(m.sqrt, s.calls[c].emb, s.calls[d].emb) >= SharedBound(m))
  {
    RunKeepsInv(m, Init, steps);
    var s := After(m, Init, steps);
    assert CallOk(m, s, c) && CallOk(m, s, d);
    var w := s.calls[c].phase.flyer;
    assert CallOk(m, s, w);
    var x := s.leaderOf[w];
    assert OnLeader(m, s, c, x) && OnLeader(m, s, d, x);
    if m.threshold <= 1.0 {
      var u, v := s.calls[c].emb, s.calls[d].emb;
      if s.made[x.id].creator != c {
        SimilarSymmetric(m, x.emb, u);
      }
      if s.made[x.id].creator != d {
        SimilarSymmetric(m, x.emb, v);
      }
      if s.made[x.id].creator == c {
        RepresentativeItself(m, v, x.emb);
      } else if s.made[x.id].creator == d {
        RepresentativeItself(m, u, x.emb);
      } else {
        SharedRepresentative(m, u, v, x.emb);
      }
    }
  }

  /** Once a made leader is no longer stored, no call that has not settled on it already ever does. */
  lemma {:induction false} NoJoinAfterRemoval(m: Measure, s: State, steps: seq<Step>, c: CallId, x: Leader)
    requires IsSqrt(m.sqrt) && Inv(m, s) && Legal(m, s, steps)
    requires x.id in s.made && s.made[x.id].leader == x
    requires x !in Leaders(s.byScope, s.made[x.id].scope)
    requires c in s.leaderOf ==> s.leaderOf[c] != x
    ensures var t := After(m, s, steps); c in t.leaderOf ==> t.leaderOf[c] != x
    decreases |steps|
  {
    if steps != [] {
      StepKeepsInv(m, s, steps[0]);
      StepKeepsOut(m, s, steps[0], c, x);
      NoJoinAfterRemoval(m, Apply(m, s, steps[0]), steps[1..], c, x);
    }
  }

  lemma StepKeepsOut(m: Measure, s: State, a: Step, c: CallId, x: Leader)
    requires IsSqrt(m.sqrt) && Inv(m, s) && Enabled(s, a)
    requires x.id in s.made && s.made[x.id].leader == x
    requires x !in Leaders(s.byScope, s.made[x.id].scope)
    requires c in s.leaderOf ==> s.leaderOf[c] != x
    ensures var t := Apply(m, s, a);
      && x.id in t.made && t.made[x.id] == s.made[x.id]
      && x !in Leaders(t.byScope, t.made[x.id].scope)
      && (c in t.leaderOf ==> t.leaderOf[c] != x)
  {
    hide Similar, Chosen, Settle, CallsOk;
    if a.FindLeader? {
      ChosenStored(m, s, s.calls[a.c].scope, Leader(a.id, s.calls[a.c].emb));
    }
  }
}
