/**
  What the callers of `SemanticRedis.Merge` get: whose text, and when an error; who is left on its own; who cleans up.
  Everything is said in terms of the steps of the run.
 */
module SemanticRedisAnswers {
  import opened Cosine
  import opened RedisSets
  import opened SemanticRedis
  import opened SemanticRedisGroups
  import opened Wrappers
  import Downstream
  import Core = RedisCoalesce
  import CoreRuns = RedisCoalesceRuns

  // ---------------------------------------------------------------------------------------------------
  // Calls that are merged
  // ---------------------------------------------------------------------------------------------------

  /** The inner steps of a run are those of the run of the lock/result protocol in it, but for the arrivals. */
  lemma {:induction false} CoreStepsAreInner(cfg: Config, s: State, steps: seq<Step>, x: Core.Step)
    requires cfg.Valid() && Inv(cfg, s) && Legal(cfg, s, steps) && !x.Arrive?
    ensures x in CoreSteps(cfg, s, steps) <==> Inner(x) in steps
    decreases |steps|
  {
    hide Apply, Enabled, Inv, CoreStep;
    if steps == [] {
      NoCoreSteps(cfg, s);
    } else {
      var t := Apply(cfg, s, steps[0]);
      StepProjects(cfg, s, steps[0]);
      StepKeepsInv(cfg, s, steps[0]);
      CoreStepsAreInner(cfg, t, steps[1..], x);
      assert Inner(x) in steps <==> Inner(x) == steps[0] || Inner(x) in steps[1..];
      var p := CoreStep(cfg, s, steps[0]);
      assert CoreSteps(cfg, s, steps) == p + CoreSteps(cfg, t, steps[1..]);
      assert x in p <==> Inner(x) == steps[0];
    }
  }

  /**
    What a call that went through a group gets, in every run: exactly what its own fn returned, exactly if its fn was
    run; else what the fn of another member of the group returned, as the store carries it; and an error of its own
    exactly if it gave up or timed out.
   */
  lemma MergedAnswerIs(cfg: Config, steps: seq<Step>, c: CallId)
    requires cfg.Valid() && Legal(cfg, Init, steps)
    requires var s := After(cfg, Init, steps);
      c in s.calls && s.calls[c].phase.Finished? && s.calls[c].phase.merged.Some?
    ensures var s := After(cfg, Init, steps);
      var g, answer := s.calls[c].phase.merged.value, s.calls[c].phase.answer;
      && (forall out :: answer == Core.Own(out) <==> Inner(Core.FnReturns(c, out)) in steps)
      && (answer.Shared? ==>
            var w := answer.writer;
            && w != c && w in s.calls && GroupOf(s.calls[w]) == Some(g)
            && exists sent :: Inner(Core.FnReturns(w, sent)) in steps && CoreRuns.Carries(sent, answer.out))
      && (answer.Nothing? <==> Inner(Core.GiveUp(c)) in steps || Inner(Core.TimeOut(c)) in steps)
  {
    hide Core.Legal, Core.After, CoreSteps, Represented, Core.Apply;
    InitOk(cfg);
    RunKeepsInv(cfg, Init, steps);
    RunProjects(cfg, Init, steps);
    var s, p := After(cfg, Init, steps), CoreSteps(cfg, Init, steps);
    var answer := s.calls[c].phase.answer;
    assert CallOk(cfg, s, c);
    CoreRuns.AnswerIs(cfg.core, p, c);
    forall out ensures answer == Core.Own(out) <==> Inner(Core.FnReturns(c, out)) in steps {
      CoreStepsAreInner(cfg, Init, steps, Core.FnReturns(c, out));
    }
    CoreStepsAreInner(cfg, Init, steps, Core.GiveUp(c));
    CoreStepsAreInner(cfg, Init, steps, Core.TimeOut(c));
    if answer.Shared? {
      var w := answer.writer;
      var sent :| Core.FnReturns(w, sent) in p && CoreRuns.Carries(sent, answer.out);
      CoreStepsAreInner(cfg, Init, steps, Core.FnReturns(w, sent));
      assert CallOk(cfg, s, w);
    }
  }

  // ---------------------------------------------------------------------------------------------------
  // Calls that are not
  // ---------------------------------------------------------------------------------------------------

  predicate Ended(s: State, c: CallId, answer: Core.Answer) {
    c in s.calls && s.calls[c].phase == Finished(None, answer)
  }

  lemma StepTellsEnd(cfg: Config, s: State, a: Step, c: CallId, answer: Core.Answer)
    requires cfg.Valid() && Enabled(s, a)
    ensures Ended(Apply(cfg, s, a), c, answer) <==>
      Ended(s, c, answer) || (a.RunAlone? && a.c == c && answer == Core.Own(a.out)) || (a == Fail(c) && answer == Core.Nothing)
  {
    hide Similar, Core.Apply, Core.Enabled, Config.Valid, Lists, HasVec, Active;
  }

  lemma {:induction false} EndIsTold(cfg: Config, s: State, steps: seq<Step>, c: CallId, answer: Core.Answer)
    requires cfg.Valid() && Legal(cfg, s, steps)
    ensures Ended(After(cfg, s, steps), c, answer) <==>
      || Ended(s, c, answer)
      || (answer.Own? && RunAlone(c, answer.out) in steps) || (answer.Nothing? && Fail(c) in steps)
    decreases |steps|
  {
    hide Apply, Enabled, Ended;
    if steps != [] {
      StepTellsEnd(cfg, s, steps[0], c, answer);
      EndIsTold(cfg, Apply(cfg, s, steps[0]), steps[1..], c, answer);
      assert forall a :: a in steps <==> a == steps[0] || a in steps[1..];
    }
  }

  /**
    What a call gets that went through no group, in every run, and keeps for good: exactly what its fn returned, if it
    ran that on its own, and an error exactly if its SMEMBERS failed. It never gets another call's answer.
   */
  lemma UnmergedAnswerIs(cfg: Config, steps: seq<Step>, c: CallId)
    requires cfg.Valid() && Legal(cfg, Init, steps)
    ensures var s := After(cfg, Init, steps);
      && (forall out :: RunAlone(c, out) in steps <==> c in s.calls && s.calls[c].phase == Finished(None, Core.Own(out)))
      && (Fail(c) in steps <==> c in s.calls && s.calls[c].phase == Finished(None, Core.Nothing))
      && (c in s.calls && s.calls[c].phase.Finished? && s.calls[c].phase.merged.None? ==> !s.calls[c].phase.answer.Shared?)
  {
    var s := After(cfg, Init, steps);
    forall out ensures RunAlone(c, out) in steps <==> Ended(s, c, Core.Own(out)) {
      EndIsTold(cfg, Init, steps, c, Core.Own(out));
    }
    EndIsTold(cfg, Init, steps, c, Core.Nothing);
    if c in s.calls && s.calls[c].phase.Finished? && s.calls[c].phase.merged.None? {
      EndIsTold(cfg, Init, steps, c, s.calls[c].phase.answer);
    }
  }

  /** The step leaves its caller without a group: it has no vector, or found as many groups as are allowed. */
  predicate Isolates(cfg: Config, a: Step, c: CallId) {
    || (a.Arrive? && a.c == c && a.emb == [])
    || (a.ListActive? && a.c == c && |a.listing| >= cfg.maxActive)
  }

  /** On its own, without a group and without an error. */
  predicate Isolated(s: State, c: CallId) {
    c in s.calls && (s.calls[c].phase.Alone? || (s.calls[c].phase.Finished? && s.calls[c].phase.merged.None?
                                                  && s.calls[c].phase.answer.Own?))
  }

  lemma StepIsolates(cfg: Config, s: State, a: Step, c: CallId)
    requires cfg.Valid() && Enabled(s, a)
    ensures Isolated(Apply(cfg, s, a), c) <==> Isolated(s, c) || Isolates(cfg, a, c)
  {
    hide Similar, Core.Apply, Core.Enabled, Config.Valid, Lists, HasVec, Active;
  }

  /** A call runs fn for itself, in no group, exactly if it has no vector or its SMEMBERS named maxActive groups or more. */
  lemma {:induction false} IsolatedIff(cfg: Config, s: State, steps: seq<Step>, c: CallId)
    requires cfg.Valid() && Legal(cfg, s, steps)
    ensures Isolated(After(cfg, s, steps), c) <==> Isolated(s, c) || exists a :: a in steps && Isolates(cfg, a, c)
    decreases |steps|
  {
    hide Apply, Enabled, Isolated, Isolates;
    if steps != [] {
      StepIsolates(cfg, s, steps[0], c);
      IsolatedIff(cfg, Apply(cfg, s, steps[0]), steps[1..], c);
      assert forall a :: a in steps <==> a == steps[0] || a in steps[1..];
    }
  }

  // ---------------------------------------------------------------------------------------------------
  // Who cleans up
  // ---------------------------------------------------------------------------------------------------

  /** The clean-up is for leaders: in these phases the answer is the call's own. */
  ghost predicate LeadersOnly(s: State) {
    forall c :: c in s.calls && (s.calls[c].phase.DroppingVec? || s.calls[c].phase.Leaving?) ==> s.calls[c].phase.answer.Own?
  }

  /** A leader that has finished. */
  predicate Left(s: State, c: CallId) {
    c in s.calls && s.calls[c].phase.Finished? && s.calls[c].phase.merged.Some? && s.calls[c].phase.answer.Own?
  }

  lemma StepTellsLeader(cfg: Config, s: State, a: Step, c: CallId)
    requires cfg.Valid() && LeadersOnly(s) && Enabled(s, a)
    ensures var t := Apply(cfg, s, a);
      && (c in t.calls && (t.calls[c].phase.DroppingVec? || t.calls[c].phase.Leaving?) ==> t.calls[c].phase.answer.Own?)
      && (Left(t, c) <==> Left(s, c) || a == Leave(c))
      && (Left(t, c) || (c in t.calls && t.calls[c].phase.Leaving?) <==>
            Left(s, c) || (c in s.calls && s.calls[c].phase.Leaving?) || a == DropVec(c))
  {
    hide Apply, Core.Enabled, Config.Valid, Lists;
    if !a.Inner? && a.c == c {
      ActorTellsLeader(cfg, s, a);
    } else if c in s.calls {
      StepKeepsPhase(cfg, s, a, c);
    } else {
      NobodyNew(cfg, s, a, c);
    }
  }

  lemma NobodyNew(cfg: Config, s: State, a: Step, c: CallId)
    requires cfg.Valid() && Enabled(s, a) && c !in s.calls && (a.Inner? || a.c != c)
    ensures c !in Apply(cfg, s, a).calls
  {
    hide Similar, Core.Apply, Core.Enabled, Config.Valid, Lists, HasVec, Active;
  }

  lemma ActorTellsLeader(cfg: Config, s: State, a: Step)
    requires cfg.Valid() && Enabled(s, a) && !a.Inner?
    requires a.c in s.calls && (s.calls[a.c].phase.DroppingVec? || s.calls[a.c].phase.Leaving?) ==>
               s.calls[a.c].phase.answer.Own?
    ensures var t, c := Apply(cfg, s, a), a.c;
      && c in t.calls
      && (t.calls[c].phase.DroppingVec? || t.calls[c].phase.Leaving? ==> t.calls[c].phase.answer.Own?)
      && !Left(s, c) && (Left(t, c) <==> a.Leave?)
      && (t.calls[c].phase.Leaving? <==> a.DropVec?) && (c in s.calls && s.calls[c].phase.Leaving? <==> a.Leave?)
  {
    hide Similar, Core.Apply, Core.Enabled, Config.Valid, Lists, HasVec, Active;
  }

  lemma {:induction false} LeaderIsTold(cfg: Config, s: State, steps: seq<Step>, c: CallId)
    requires cfg.Valid() && LeadersOnly(s) && Legal(cfg, s, steps)
    ensures var t := After(cfg, s, steps);
      && LeadersOnly(t)
      && (Left(t, c) <==> Left(s, c) || Leave(c) in steps)
      && (Left(t, c) || (c in t.calls && t.calls[c].phase.Leaving?) <==>
            Left(s, c) || (c in s.calls && s.calls[c].phase.Leaving?) || DropVec(c) in steps)
    decreases |steps|
  {
    hide Apply, Enabled;
    if steps != [] {
      var t := Apply(cfg, s, steps[0]);
      forall b | b in t.calls && (t.calls[b].phase.DroppingVec? || t.calls[b].phase.Leaving?)
        ensures t.calls[b].phase.answer.Own?
      {
        StepTellsLeader(cfg, s, steps[0], b);
      }
      StepTellsLeader(cfg, s, steps[0], c);
      LeaderIsTold(cfg, t, steps[1..], c);
      assert forall a :: a in steps <==> a == steps[0] || a in steps[1..];
    }
  }

  /** Of the calls that went through a group exactly those that ran fn delete its vector and remove it; both, always. */
  lemma CleansUpIff(cfg: Config, steps: seq<Step>, c: CallId)
    requires cfg.Valid() && Legal(cfg, Init, steps)
    requires var s := After(cfg, Init, steps);
      c in s.calls && s.calls[c].phase.Finished? && s.calls[c].phase.merged.Some?
    ensures var own := After(cfg, Init, steps).calls[c].phase.answer.Own?;
      && (own <==> DropVec(c) in steps) && (own <==> Leave(c) in steps)
      && (own <==> exists out :: Inner(Core.FnReturns(c, out)) in steps)
  {
    hide Apply, Enabled;
    LeaderIsTold(cfg, Init, steps, c);
    MergedAnswerIs(cfg, steps, c);
    var answer := After(cfg, Init, steps).calls[c].phase.answer;
    if answer.Own? {
      assert Inner(Core.FnReturns(c, answer.out)) in steps;
    }
  }

  // ---------------------------------------------------------------------------------------------------
  // Runs to the end
  // ---------------------------------------------------------------------------------------------------

  /** At the cap a call answers for itself, with fn's own text. */
  lemma AloneAtCap(cfg: Config, scope: string, emb: Vector, text: string) returns (steps: seq<Step>, s: State)
    requires cfg.Valid() && NonZero(emb) && cfg.maxActive == 1
    ensures LeadsTo(cfg, steps, s)
    ensures 1 in s.calls && s.calls[1] == Call(scope, emb, Finished(None, Core.Own(Downstream.Answered(text))))
  {
    hide Similar;
    steps, s := [], Init;
    steps, s := Then(cfg, steps, s, Arrive(0, scope, emb));
    steps, s := Then(cfg, steps, s, ListActive(0, []));
    steps, s := Then(cfg, steps, s, AddGroup(0, "a"));
    steps, s := Then(cfg, steps, s, Arrive(1, scope, emb));
    assert Lists(["a"], {"a"});
    steps, s := Then(cfg, steps, s, ListActive(1, ["a"]));
    steps, s := Then(cfg, steps, s, RunAlone(1, Downstream.Answered(text)));
  }

  /** Two calls with one vector share one execution and its text, and the group is gone in the end. */
  lemma OneExecutionForBoth(cfg: Config, scope: string, emb: Vector, text: string)
    returns (steps: seq<Step>, s: State)
    requires cfg.Valid() && NonZero(emb) && cfg.maxActive >= 2 && cfg.measure.threshold <= 1.0
    ensures LeadsTo(cfg, steps, s)
    ensures var out := Downstream.Answered(text);
      && 0 in s.calls && s.calls[0].phase == Finished(Some("a"), Core.Own(out))
      && 1 in s.calls && s.calls[1].phase == Finished(Some("a"), Core.Shared(out, 0))
    ensures s.core.executed == {0} && "a" in s.cleaned
  {
    hide LeadsTo, Apply, Enabled;
    steps, s := BothJoin(cfg, scope, emb);
    steps, s := LeaderRuns(cfg, steps, s, text);
    steps, s := FollowerReads(cfg, steps, s, text);
    steps, s := BothReturn(cfg, steps, s, text);
    steps, s := LeaderCleans(cfg, steps, s, text);
  }

  lemma LeaderRuns(cfg: Config, before: seq<Step>, s: State, text: string) returns (steps: seq<Step>, t: State)
    requires cfg.Valid() && LeadsTo(cfg, before, s)
    requires s.core == Core.Init.(calls := map[0 := Core.Call("a", Core.Reading), 1 := Core.Call("a", Core.Reading)])
    ensures LeadsTo(cfg, steps, t) && t == s.(core := t.core)
    ensures t.core.calls ==
      map[0 := Core.Call("a", Core.Storing(0, Downstream.Answered(text))), 1 := Core.Call("a", Core.Reading)]
    ensures t.core.now == 0 && t.core.executed == {0}
  {
    hide LeadsTo, Similar;
    steps, t := Then(cfg, before, s, Inner(Core.GetResult(0)));
    steps, t := Then(cfg, steps, t, Inner(Core.TryLock(0)));
    steps, t := Then(cfg, steps, t, Inner(Core.FnReturns(0, Downstream.Answered(text))));
  }

  lemma FollowerReads(cfg: Config, before: seq<Step>, s: State, text: string) returns (steps: seq<Step>, t: State)
    requires cfg.Valid() && LeadsTo(cfg, before, s)
    requires s.core.calls ==
      map[0 := Core.Call("a", Core.Storing(0, Downstream.Answered(text))), 1 := Core.Call("a", Core.Reading)]
    requires s.core.now == 0
    ensures LeadsTo(cfg, steps, t) && t == s.(core := t.core) && t.core.executed == s.core.executed
    ensures var out := Downstream.Answered(text);
      t.core.calls ==
      map[0 := Core.Call("a", Core.Releasing(0, out)), 1 := Core.Call("a", Core.Returned(Core.Shared(out, 0)))]
  {
    hide LeadsTo, Similar;
    steps, t := Then(cfg, before, s, Inner(Core.SetResult(0)));
    steps, t := Then(cfg, steps, t, Inner(Core.GetResult(1)));
  }

  lemma BothReturn(cfg: Config, before: seq<Step>, s: State, text: string) returns (steps: seq<Step>, t: State)
    requires cfg.Valid() && LeadsTo(cfg, before, s)
    requires 0 in s.calls && s.calls[0].phase == Merging("a") && 1 in s.calls && s.calls[1].phase == Merging("a")
    requires var out := Downstream.Answered(text);
      s.core.calls ==
      map[0 := Core.Call("a", Core.Releasing(0, out)), 1 := Core.Call("a", Core.Returned(Core.Shared(out, 0)))]
    ensures LeadsTo(cfg, steps, t) && t.core.executed == s.core.executed
    ensures var out := Downstream.Answered(text);
      && 0 in t.calls && t.calls[0].phase == DroppingVec("a", Core.Own(out))
      && 1 in t.calls && t.calls[1].phase == Finished(Some("a"), Core.Shared(out, 0))
  {
    hide LeadsTo, Similar;
    steps, t := Then(cfg, before, s, Inner(Core.DelLock(0)));
    steps, t := Then(cfg, steps, t, Return(1));
    steps, t := Then(cfg, steps, t, Return(0));
  }

  lemma LeaderCleans(cfg: Config, before: seq<Step>, s: State, text: string) returns (steps: seq<Step>, t: State)
    requires cfg.Valid() && LeadsTo(cfg, before, s)
    requires 0 in s.calls && s.calls[0].phase == DroppingVec("a", Core.Own(Downstream.Answered(text)))
    requires 1 in s.calls
    ensures LeadsTo(cfg, steps, t) && t.core == s.core && "a" in t.cleaned
    ensures 0 in t.calls && t.calls[0].phase == Finished(Some("a"), Core.Own(Downstream.Answered(text)))
    ensures 1 in t.calls && t.calls[1] == s.calls[1]
  {
    hide LeadsTo, Similar;
    steps, t := Then(cfg, before, s, DropVec(0));
    steps, t := Then(cfg, steps, t, Leave(0));
  }
}
