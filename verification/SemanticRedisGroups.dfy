/**
  How often fn runs for one group of `SemanticRedis`. A run of the semantic merger contains a run of the lock/result
  protocol, with group ids as slots; so what `RedisCoalesce` says of a key holds of a group. Joining one group is not
  yet sharing one execution.
 */
module SemanticRedisGroups {
  import opened Cosine
  import opened RedisSets
  import Downstream
  import opened SemanticRedis
  import opened Wrappers
  import Core = RedisCoalesce

  // ---------------------------------------------------------------------------------------------------
  // The run of the lock/result protocol inside a run
  // ---------------------------------------------------------------------------------------------------

  /** The step of the inner protocol that a step amounts to, if any: settling on a group is arriving at its slot. */
  ghost function CoreStep(cfg: Config, s: State, a: Step): seq<Core.Step>
    requires cfg.Valid() && Enabled(s, a)
  {
    match a
    case Inner(step) => [step]
    case Compare(c) =>
      var g := s.calls[c].phase.todo[0];
      if HasVec(s, g) && Similar(cfg.measure, s.calls[c].emb, s.vecs[g].emb) then [Core.Arrive(c, g)] else []
    case PublishVec(c) => [Core.Arrive(c, s.calls[c].phase.group)]
    case _ => []
  }

  ghost function CoreSteps(cfg: Config, s: State, steps: seq<Step>): seq<Core.Step>
    requires cfg.Valid() && Legal(cfg, s, steps)
    decreases |steps|
  {
    if steps == [] then [] else CoreStep(cfg, s, steps[0]) + CoreSteps(cfg, Apply(cfg, s, steps[0]), steps[1..])
  }

  lemma StepProjects(cfg: Config, s: State, a: Step)
    requires cfg.Valid() && Inv(cfg, s) && Enabled(s, a)
    ensures var p, t := CoreStep(cfg, s, a), Apply(cfg, s, a);
      && |p| <= 1 && (p == [] ==> t.core == s.core)
      && (p != [] ==> Core.Enabled(s.core, p[0]) && t.core == Core.Apply(cfg.core, s.core, p[0]))
      && (a.Inner? ==> p == [a.step]) && (!a.Inner? && p != [] ==> p[0].Arrive?)
  {
    hide Similar, Config.Valid, Lists, Core.Inv, Represented, Active;
    if !a.Inner? && !a.Arrive? {
      assert CallOk(cfg, s, a.c);
    }
  }

  /** For every run from a state in order there is a run of the lock/result protocol that ends in the same keys and calls. */
  lemma {:induction false} RunProjects(cfg: Config, s: State, steps: seq<Step>)
    requires cfg.Valid() && Inv(cfg, s) && Legal(cfg, s, steps)
    ensures var p := CoreSteps(cfg, s, steps);
      Core.Legal(cfg.core, s.core, p) && Core.After(cfg.core, s.core, p) == After(cfg, s, steps).core
    decreases |steps|
  {
    hide Apply, Enabled, Inv, CoreStep, Core.Apply, Core.Enabled;
    if steps != [] {
      Unfold(cfg, s, steps);
      RunProjects(cfg, Apply(cfg, s, steps[0]), steps[1..]);
    }
  }

  /** The projection of a run, one step at a time. */
  lemma Unfold(cfg: Config, s: State, steps: seq<Step>)
    requires cfg.Valid() && Inv(cfg, s) && Legal(cfg, s, steps) && steps != []
    ensures var p, t := CoreSteps(cfg, s, steps), Apply(cfg, s, steps[0]);
      && Inv(cfg, t)
      && if CoreStep(cfg, s, steps[0]) == [] then p == CoreSteps(cfg, t, steps[1..]) && t.core == s.core
         else
           && p != [] && p[0] == CoreStep(cfg, s, steps[0])[0] && p[1..] == CoreSteps(cfg, t, steps[1..])
           && Core.Enabled(s.core, p[0]) && t.core == Core.Apply(cfg.core, s.core, p[0])
  {
    hide Apply, Enabled, Inv, CoreStep, Core.Apply, Core.Enabled;
    StepProjects(cfg, s, steps[0]);
    StepKeepsInv(cfg, s, steps[0]);
  }

  // Properties of every state of a run, in terms of the merger's own steps.

  /** No call has been between SETNX and DEL for as long as the lock lives. */
  ghost predicate TimelyRun(cfg: Config, s: State, steps: seq<Step>)
    requires cfg.Valid() && Legal(cfg, s, steps)
    decreases |steps|
  {
    Core.Timely(cfg.core, s.core) && (steps != [] ==> TimelyRun(cfg, Apply(cfg, s, steps[0]), steps[1..]))
  }

  /** A result of the group is there, unexpired, in every state. */
  ghost predicate StoredThroughout(cfg: Config, s: State, steps: seq<Step>, g: string)
    requires cfg.Valid() && Legal(cfg, s, steps)
    decreases |steps|
  {
    Core.Stored(s.core, g) && (steps != [] ==> StoredThroughout(cfg, Apply(cfg, s, steps[0]), steps[1..], g))
  }

  /** In no state does a group have two leaders. */
  ghost predicate SoloRun(cfg: Config, s: State, steps: seq<Step>)
    requires cfg.Valid() && Legal(cfg, s, steps)
    decreases |steps|
  {
    Core.OneLeader(s.core) && (steps != [] ==> SoloRun(cfg, Apply(cfg, s, steps[0]), steps[1..]))
  }

  /** No SETNX is sent beside a leader that has led for its lock's whole life. */
  ghost predicate NoOverdueLock(cfg: Config, s: State, steps: seq<Step>)
    requires cfg.Valid() && Legal(cfg, s, steps)
    decreases |steps|
  {
    steps != [] ==>
      && (steps[0].Inner? && steps[0].step.TryLock? ==>
            steps[0].step.c in s.core.calls && !Core.Overdue(cfg.core, s.core, s.core.calls[steps[0].step.c].slot))
      && NoOverdueLock(cfg, Apply(cfg, s, steps[0]), steps[1..])
  }

  lemma {:induction false} TimelyProjects(cfg: Config, s: State, steps: seq<Step>)
    requires cfg.Valid() && Inv(cfg, s) && Legal(cfg, s, steps) && TimelyRun(cfg, s, steps)
    ensures var p := CoreSteps(cfg, s, steps); Core.Legal(cfg.core, s.core, p) && Core.TimelyRun(cfg.core, s.core, p)
    decreases |steps|
  {
    hide Apply, Enabled, Inv, CoreStep, CoreSteps, Core.Apply, Core.Enabled, Core.Timely;
    RunProjects(cfg, s, steps);
    if steps == [] {
      NoCoreSteps(cfg, s);
    } else {
      Unfold(cfg, s, steps);
      TimelyProjects(cfg, Apply(cfg, s, steps[0]), steps[1..]);
    }
  }

  lemma NoCoreSteps(cfg: Config, s: State)
    requires cfg.Valid()
    ensures CoreSteps(cfg, s, []) == []
  {
  }

  lemma {:induction false} StoredProjects(cfg: Config, s: State, steps: seq<Step>, g: string)
    requires cfg.Valid() && Inv(cfg, s) && Legal(cfg, s, steps) && StoredThroughout(cfg, s, steps, g)
    ensures var p := CoreSteps(cfg, s, steps);
      Core.Legal(cfg.core, s.core, p) && Core.StoredThroughout(cfg.core, s.core, p, g)
    decreases |steps|
  {
    hide Apply, Enabled, Inv, CoreStep, CoreSteps, Core.Apply, Core.Enabled, Core.Stored;
    RunProjects(cfg, s, steps);
    if steps == [] {
      NoCoreSteps(cfg, s);
    } else {
      Unfold(cfg, s, steps);
      StoredProjects(cfg, Apply(cfg, s, steps[0]), steps[1..], g);
    }
  }

  lemma {:induction false} SoloProjects(cfg: Config, s: State, steps: seq<Step>)
    requires cfg.Valid() && Inv(cfg, s) && Legal(cfg, s, steps)
    ensures var p := CoreSteps(cfg, s, steps);
      Core.Legal(cfg.core, s.core, p) && (SoloRun(cfg, s, steps) <==> Core.SoloRun(cfg.core, s.core, p))
    decreases |steps|
  {
    hide Apply, Enabled, Inv, CoreStep, CoreSteps, Core.Apply, Core.Enabled, Core.OneLeader;
    RunProjects(cfg, s, steps);
    if steps == [] {
      NoCoreSteps(cfg, s);
    } else {
      var t := Apply(cfg, s, steps[0]);
      Unfold(cfg, s, steps);
      SoloProjects(cfg, t, steps[1..]);
      if Core.SoloRun(cfg.core, t.core, CoreSteps(cfg, t, steps[1..])) {
        Core.NowOneLeader(cfg.core, t.core, CoreSteps(cfg, t, steps[1..]));
      }
    }
  }

  lemma {:induction false} NoOverdueProjects(cfg: Config, s: State, steps: seq<Step>)
    requires cfg.Valid() && Inv(cfg, s) && Legal(cfg, s, steps)
    ensures var p := CoreSteps(cfg, s, steps);
      Core.Legal(cfg.core, s.core, p) && (NoOverdueLock(cfg, s, steps) <==> Core.NoOverdueLock(cfg.core, s.core, p))
    decreases |steps|
  {
    hide Apply, Enabled, Inv, CoreStep, CoreSteps, Core.Apply, Core.Overdue;
    RunProjects(cfg, s, steps);
    if steps == [] {
      NoCoreSteps(cfg, s);
    } else {
      StepProjects(cfg, s, steps[0]);
      Unfold(cfg, s, steps);
      NoOverdueProjects(cfg, Apply(cfg, s, steps[0]), steps[1..]);
    }
  }

  // ---------------------------------------------------------------------------------------------------
  // One leader per group
  // ---------------------------------------------------------------------------------------------------

  /** Who has executed fn on a group's slot has joined or made that group. */
  lemma ExecutorsAreMembers(cfg: Config, s: State, g: string, c: CallId)
    requires cfg.Valid() && Inv(cfg, s) && c in Core.ExecutionsOn(s.core, g)
    ensures c in s.calls && GroupOf(s.calls[c]) == Some(g) && g in s.groups && Represented(cfg, s, c, g)
  {
    hide Core.Inv, Similar;
    assert CallOk(cfg, s, c);
  }

  /** In every timely run at most one call per group leads, under its own lock, and its DEL removes no other. */
  lemma GroupsExclude(cfg: Config, steps: seq<Step>)
    requires cfg.Valid() && Legal(cfg, Init, steps) && TimelyRun(cfg, Init, steps)
    ensures var s := After(cfg, Init, steps).core;
      && (forall c, d | c in s.calls && d in s.calls && Core.Leads(s.calls[c]) && Core.Leads(s.calls[d])
                        && s.calls[c].slot == s.calls[d].slot :: c == d)
      && (forall c :: c in s.calls && Core.Leads(s.calls[c]) ==> Core.Locked(s, s.calls[c].slot))
      && (forall c :: Core.Enabled(s, Core.DelLock(c)) ==>
            s.calls[c].slot in s.locks && s.locks[s.calls[c].slot].owner == c)
  {
    hide Core.Legal, Core.After, Core.TimelyRun, TimelyRun, CoreSteps;
    InitOk(cfg);
    RunProjects(cfg, Init, steps);
    TimelyProjects(cfg, Init, steps);
    Core.MutualExclusion(cfg.core, CoreSteps(cfg, Init, steps));
  }

  /** The runs with one leader per group throughout are exactly those without a SETNX beside an overdue leader. */
  lemma GroupExclusionIff(cfg: Config, steps: seq<Step>)
    requires cfg.Valid() && Legal(cfg, Init, steps)
    ensures SoloRun(cfg, Init, steps) <==> NoOverdueLock(cfg, Init, steps)
  {
    InitOk(cfg);
    SoloProjects(cfg, Init, steps);
    NoOverdueProjects(cfg, Init, steps);
    Core.ExclusionIff(cfg.core, CoreSteps(cfg, Init, steps));
  }

  // ---------------------------------------------------------------------------------------------------
  // Executions while a result is stored
  // ---------------------------------------------------------------------------------------------------

  /**
    `before` is a timely run up to a SET of a group's result, by c; `rest` is any continuation throughout which a result
    of the group stays there. At the SET every other execution for the group is over; after it fn runs for the group at
    most once for each member that at that moment was between GET and SETNX; and whoever sends its GET later, having
    joined before or after, does not execute. At the group's first SET fn has run once.
   */
  lemma GroupExecutionsAfterSet(cfg: Config, before: seq<Step>, c: CallId, rest: seq<Step>)
    requires cfg.Valid() && Legal(cfg, Init, before) && TimelyRun(cfg, Init, before)
    requires var s := After(cfg, Init, before);
      && Enabled(s, Inner(Core.SetResult(c)))
      && Legal(cfg, Apply(cfg, s, Inner(Core.SetResult(c))), rest)
      && StoredThroughout(cfg, Apply(cfg, s, Inner(Core.SetResult(c))), rest, s.core.calls[c].slot)
    ensures var s := After(cfg, Init, before);
      var g, s1 := s.core.calls[c].slot, Apply(cfg, s, Inner(Core.SetResult(c)));
      var t := After(cfg, s1, rest);
      && c in Core.ExecutionsOn(s1.core, g)
      && (forall d :: d in Core.ExecutionsOn(s1.core, g) && d != c ==> s1.core.calls[d].phase.Returned?)
      && Core.ExecutionsOn(s1.core, g) <= Core.ExecutionsOn(t.core, g)
           <= Core.ExecutionsOn(s1.core, g) + Core.Pending(s1.core, g)
      && |Core.ExecutionsOn(t.core, g) - Core.ExecutionsOn(s1.core, g)| <= |Core.Pending(s1.core, g)|
      && (forall d :: Core.BeforeGet(s1.core, d) ==> Core.ServedFromStore(t.core, d, g))
      && (g !in s.core.results ==> Core.ExecutionsOn(s1.core, g) == {c})
  {
    hide Core.Legal, Core.After, Core.TimelyRun, Core.StoredThroughout, TimelyRun, StoredThroughout, CoreSteps, Inv;
    hide Core.ExecutionsOn, Core.Pending, Core.BeforeGet, Core.ServedFromStore;
    InitOk(cfg);
    RunKeepsInv(cfg, Init, before);
    RunProjects(cfg, Init, before);
    TimelyProjects(cfg, Init, before);
    var s := After(cfg, Init, before);
    var g, s1 := s.core.calls[c].slot, Apply(cfg, s, Inner(Core.SetResult(c)));
    StepKeepsInv(cfg, s, Inner(Core.SetResult(c)));
    RunProjects(cfg, s1, rest);
    StoredProjects(cfg, s1, rest, g);
    Core.ExecutionsAfterSet(cfg.core, CoreSteps(cfg, Init, before), c, CoreSteps(cfg, s1, rest));
    if g !in s.core.results {
      Core.ExecutionsBounded(cfg.core, CoreSteps(cfg, Init, before), c, CoreSteps(cfg, s1, rest));
    }
  }

  /**
    Right after a SET of a group's result: some continuation with the result in place runs fn for the group again if
    and only if some member is between GET and SETNX.
   */
  lemma GroupExecutesAgainIff(cfg: Config, s: State, c: CallId, g: string)
    requires cfg.Valid() && Inv(cfg, s)
    requires c in s.core.calls && s.core.calls[c].slot == g && s.core.calls[c].phase.Releasing? && Core.Stored(s.core, g)
    ensures (exists rest :: Legal(cfg, s, rest) && StoredThroughout(cfg, s, rest, g)
                            && Core.ExecutionsOn(After(cfg, s, rest).core, g) != Core.ExecutionsOn(s.core, g))
            <==> Core.Pending(s.core, g) != {}
  {
    hide Inv, Apply, Enabled, CoreSteps, Core.Apply, Core.Stored;
    ExecutedAreCalls(cfg, s);
    if Core.Pending(s.core, g) == {} {
      forall rest | Legal(cfg, s, rest) && StoredThroughout(cfg, s, rest, g)
        ensures Core.ExecutionsOn(After(cfg, s, rest).core, g) == Core.ExecutionsOn(s.core, g)
      {
        RunProjects(cfg, s, rest);
        StoredProjects(cfg, s, rest, g);
        Core.OnlyPendingExecute(cfg.core, s.core, CoreSteps(cfg, s, rest), g);
      }
    } else {
      var d :| d in Core.Pending(s.core, g);
      NotYetExecuted(cfg, s, d);
      PendingMemberGetsIn(cfg, s, c, d, g);
    }
  }

  lemma ExecutedAreCalls(cfg: Config, s: State)
    requires cfg.Valid() && Inv(cfg, s)
    ensures s.core.executed <= s.core.calls.Keys
  {
  }

  lemma PendingMemberGetsIn(cfg: Config, s: State, c: CallId, d: CallId, g: string)
    requires cfg.Valid()
    requires c in s.core.calls && s.core.calls[c].slot == g && s.core.calls[c].phase.Releasing? && Core.Stored(s.core, g)
    requires d in Core.Pending(s.core, g) && d !in s.core.executed
    ensures var rest := [Inner(Core.DelLock(c)), Inner(Core.TryLock(d))];
      && Legal(cfg, s, rest) && StoredThroughout(cfg, s, rest, g)
      && d in Core.ExecutionsOn(After(cfg, s, rest).core, g) && d !in Core.ExecutionsOn(s.core, g)
  {
    var s1 := Apply(cfg, s, Inner(Core.DelLock(c)));
    var s2 := Apply(cfg, s1, Inner(Core.TryLock(d)));
    var rest := [Inner(Core.DelLock(c)), Inner(Core.TryLock(d))];
    assert rest[1..] == [Inner(Core.TryLock(d))] && rest[1..][1..] == [];
    assert Legal(cfg, s2, []) && Legal(cfg, s1, rest[1..]) && Legal(cfg, s, rest);
    assert After(cfg, s2, []) == s2 && After(cfg, s1, rest[1..]) == s2 && After(cfg, s, rest) == s2;
    assert StoredThroughout(cfg, s2, [], g) && StoredThroughout(cfg, s1, rest[1..], g);
  }

  // ---------------------------------------------------------------------------------------------------
  // Executions after the clean-up, whatever becomes of the result
  // ---------------------------------------------------------------------------------------------------

  /** The members of a group that are still at their GET or SETNX. */
  function Late(s: State, g: string): set<CallId> {
    set c | c in s.core.calls && s.core.calls[c].slot == g && (s.core.calls[c].phase.Reading? || s.core.calls[c].phase.Locking?)
  }

  /** A step of the inner protocol, other than an arrival at the slot, at most turns a late call into an execution. */
  lemma InnerStepExecutesLate(cfg: Core.Config, s: Core.State, a: Core.Step, g: string, c: CallId)
    requires Core.Enabled(s, a) && s.executed <= s.calls.Keys && (a.Arrive? ==> a.slot != g)
    ensures var t := Core.Apply(cfg, s, a);
      && (c in s.calls ==> c in t.calls && t.calls[c].slot == s.calls[c].slot)
      && (c in s.executed ==> c in t.executed)
      && (c in t.executed && c !in s.executed ==> c in s.calls && s.calls[c].phase.Locking?)
      && (c in t.calls && t.calls[c].slot == g && (t.calls[c].phase.Reading? || t.calls[c].phase.Locking?) ==>
            c in s.calls && (s.calls[c].phase.Reading? || s.calls[c].phase.Locking?))
  {
    hide Core.Encode, Core.Decode;
  }

  /** Nobody arrives at the slot of a group that has been cleaned up. */
  lemma NoArrivalAfterCleanup(cfg: Config, s: State, a: Step, g: string)
    requires cfg.Valid() && Inv(cfg, s) && Enabled(s, a) && g in s.cleaned
    ensures var p := CoreStep(cfg, s, a); p != [] && p[0].Arrive? ==> p[0].slot != g
    ensures g in Apply(cfg, s, a).cleaned
  {
    hide Apply, Similar, Config.Valid, Lists, Core.Inv, Represented, Active;
    StepWrites(cfg, s, a);
    assert Published(s, g) && Cleaned(s, g);
    if a.PublishVec? {
      assert CallOk(cfg, s, a.c);
    }
  }

  lemma StepExecutesLate(cfg: Config, s: State, a: Step, g: string)
    requires cfg.Valid() && Inv(cfg, s) && Enabled(s, a) && g in s.cleaned
    ensures var t := Apply(cfg, s, a);
      && g in t.cleaned && Core.ExecutionsOn(s.core, g) <= Core.ExecutionsOn(t.core, g)
      && Core.ExecutionsOn(t.core, g) + Late(t, g) <= Core.ExecutionsOn(s.core, g) + Late(s, g)
  {
    hide Apply, Enabled, CoreStep, Core.Apply, Core.Enabled, CallsOk, GroupsOk, SetsOk;
    var p, t := CoreStep(cfg, s, a), Apply(cfg, s, a);
    StepProjects(cfg, s, a);
    NoArrivalAfterCleanup(cfg, s, a, g);
    if p != [] {
      forall c ensures c in Core.ExecutionsOn(s.core, g) ==> c in Core.ExecutionsOn(t.core, g)
               ensures c in Core.ExecutionsOn(t.core, g) + Late(t, g) ==> c in Core.ExecutionsOn(s.core, g) + Late(s, g)
      {
        InnerStepExecutesLate(cfg.core, s.core, p[0], g, c);
      }
    }
  }

  /** After a group's clean-up fn runs for it at most once more for each member then at its GET or SETNX. */
  lemma {:induction false} OnlyLateExecute(cfg: Config, s: State, steps: seq<Step>, g: string)
    requires cfg.Valid() && Inv(cfg, s) && Legal(cfg, s, steps) && g in s.cleaned
    ensures var t := After(cfg, s, steps);
      && Core.ExecutionsOn(s.core, g) <= Core.ExecutionsOn(t.core, g)
      && Core.ExecutionsOn(t.core, g) + Late(t, g) <= Core.ExecutionsOn(s.core, g) + Late(s, g)
      && |Core.ExecutionsOn(t.core, g) - Core.ExecutionsOn(s.core, g)| <= |Late(s, g)|
    decreases |steps|
  {
    hide Apply, Enabled, Inv, Late, Core.ExecutionsOn;
    var t := After(cfg, s, steps);
    if steps != [] {
      StepKeepsInv(cfg, s, steps[0]);
      StepExecutesLate(cfg, s, steps[0], g);
      OnlyLateExecute(cfg, Apply(cfg, s, steps[0]), steps[1..], g);
    }
    Core.SubsetSize(Core.ExecutionsOn(t.core, g) - Core.ExecutionsOn(s.core, g), Late(s, g));
  }

  /** And it can run again, in some continuation, if and only if there is such a member. */
  lemma ExecutesAfterCleanupIff(cfg: Config, s: State, g: string)
    requires cfg.Valid() && Inv(cfg, s) && g in s.cleaned
    ensures (exists rest :: Legal(cfg, s, rest)
                            && Core.ExecutionsOn(After(cfg, s, rest).core, g) != Core.ExecutionsOn(s.core, g))
            <==> Late(s, g) != {}
  {
    hide Inv;
    if Late(s, g) == {} {
      forall rest | Legal(cfg, s, rest)
        ensures Core.ExecutionsOn(After(cfg, s, rest).core, g) == Core.ExecutionsOn(s.core, g)
      {
        OnlyLateExecute(cfg, s, rest, g);
      }
    } else {
      var d :| d in Late(s, g);
      NotYetExecuted(cfg, s, d);
      var rest := LateGetsIn(cfg, s, d, g);
    }
  }

  lemma NotYetExecuted(cfg: Config, s: State, d: CallId)
    requires cfg.Valid() && Inv(cfg, s) && d in s.core.calls
    requires s.core.calls[d].phase.Reading? || s.core.calls[d].phase.Locking?
    ensures d !in s.core.executed
  {
    assert Core.CallOk(s.core, d);
  }

  /** Let result and lock run out, and then let the late member go on. */
  lemma LateGetsIn(cfg: Config, s: State, d: CallId, g: string) returns (rest: seq<Step>)
    requires cfg.Valid() && d in Late(s, g) && d !in s.core.executed
    ensures Legal(cfg, s, rest)
    ensures d in Core.ExecutionsOn(After(cfg, s, rest).core, g) && d !in Core.ExecutionsOn(s.core, g)
  {
    var a := if g in s.core.results then s.core.results[g].until else s.core.now;
    var b := if g in s.core.locks then s.core.locks[g].until else s.core.now;
    var last := if a < b then b else a;
    var wait := Inner(Core.Tick(if last < s.core.now then 0 else last - s.core.now));
    var s1 := Apply(cfg, s, wait);
    assert !Core.Locked(s1.core, g) && !Core.Stored(s1.core, g);
    var more := LateLocks(cfg, s1, d, g);
    rest := [wait] + more;
    assert rest[1..] == more;
  }

  lemma LateLocks(cfg: Config, s: State, d: CallId, g: string) returns (rest: seq<Step>)
    requires cfg.Valid() && d in Late(s, g) && !Core.Locked(s.core, g) && !Core.Stored(s.core, g)
    ensures Legal(cfg, s, rest)
    ensures d in Core.ExecutionsOn(After(cfg, s, rest).core, g)
  {
    var lock := Inner(Core.TryLock(d));
    if s.core.calls[d].phase.Reading? {
      var get := Inner(Core.GetResult(d));
      LockingGetsIn(cfg, Apply(cfg, s, get), d, g);
      rest := [get] + [lock];
      assert rest[1..] == [lock];
    } else {
      LockingGetsIn(cfg, s, d, g);
      rest := [lock];
    }
  }

  lemma LockingGetsIn(cfg: Config, s: State, d: CallId, g: string)
    requires cfg.Valid() && d in s.core.calls && s.core.calls[d] == Core.Call(g, Core.Locking) && !Core.Locked(s.core, g)
    ensures var rest := [Inner(Core.TryLock(d))];
      Legal(cfg, s, rest) && d in Core.ExecutionsOn(After(cfg, s, rest).core, g)
  {
    var lock := Inner(Core.TryLock(d));
    var t := Apply(cfg, s, lock);
    assert [lock][1..] == [];
    assert Legal(cfg, t, []) && After(cfg, t, []) == t;
  }

  // ---------------------------------------------------------------------------------------------------
  // One group, two executions
  // ---------------------------------------------------------------------------------------------------

  /**
    A run in which nothing goes wrong with the group - it is found, nobody drops it, no time passes and the result is
    there - and yet its two members, with one and the same vector, both run fn.
   */
  lemma GroupExecutesTwice(cfg: Config, scope: string, emb: Vector, out: Downstream.Outcome)
    returns (steps: seq<Step>, s: State)
    requires cfg.Valid() && NonZero(emb) && cfg.maxActive >= 2 && cfg.measure.threshold <= 1.0
    ensures LeadsTo(cfg, steps, s)
    ensures 0 in s.calls && s.calls[0] == Call(scope, emb, Merging("a"))
    ensures 1 in s.calls && s.calls[1] == Call(scope, emb, Merging("a"))
    ensures Core.ExecutionsOn(s.core, "a") == {0, 1}
    ensures Core.Stored(s.core, "a") && HasVec(s, "a") && s.dropped == {} && s.core.now == 0
  {
    hide LeadsTo, Similar, Core.Stored, HasVec, Core.ExecutionsOn;
    steps, s := BothJoin(cfg, scope, emb);
    var before := s;
    steps, s := FirstOfGroup(cfg, steps, s, out);
    SecondOfGroup(cfg, s, out);
    steps, s := Then(cfg, steps, s, Inner(Core.TryLock(1)));
    assert HasVec(s, "a") by { SameVec(before, s, "a"); }
  }

  lemma SameVec(s: State, t: State, g: string)
    requires HasVec(s, g) && t.vecs == s.vecs && t.core.now == s.core.now
    ensures HasVec(t, g)
  {
  }

  lemma BothJoin(cfg: Config, scope: string, emb: Vector) returns (steps: seq<Step>, s: State)
    requires cfg.Valid() && NonZero(emb) && cfg.maxActive >= 2 && cfg.measure.threshold <= 1.0
    ensures LeadsTo(cfg, steps, s)
    ensures s.calls == map[0 := Call(scope, emb, Merging("a")), 1 := Call(scope, emb, Merging("a"))]
    ensures s.core == Core.Init.(calls := map[0 := Core.Call("a", Core.Reading), 1 := Core.Call("a", Core.Reading)])
    ensures HasVec(s, "a") && s.dropped == {}
  {
    CosineSelf(cfg.measure.sqrt, emb);
    assert Similar(cfg.measure, emb, emb);
    hide LeadsTo, Similar;
    steps, s := FirstAdds(cfg, scope, emb);
    steps, s := Then(cfg, steps, s, PublishVec(0));
    steps, s := Then(cfg, steps, s, Compare(1));
  }

  /** Both find no result; the first one leads, executes, stores and releases. */
  lemma FirstOfGroup(cfg: Config, before: seq<Step>, s: State, out: Downstream.Outcome)
    returns (steps: seq<Step>, t: State)
    requires cfg.Valid() && LeadsTo(cfg, before, s)
    requires s.core == Core.Init.(calls := map[0 := Core.Call("a", Core.Reading), 1 := Core.Call("a", Core.Reading)])
    ensures LeadsTo(cfg, steps, t) && t == s.(core := t.core)
    ensures t.core.calls == map[0 := Core.Call("a", Core.Returned(Core.Own(out))), 1 := Core.Call("a", Core.Locking)]
    ensures t.core.now == 0 && t.core.locks == map[] && t.core.executed == {0} && Core.Stored(t.core, "a")
  {
    hide LeadsTo, Apply, Enabled;
    steps, t := FirstLeads(cfg, before, s);
    steps, t := FirstFinishes(cfg, steps, t, out);
  }

  lemma FirstLeads(cfg: Config, before: seq<Step>, s: State) returns (steps: seq<Step>, t: State)
    requires cfg.Valid() && LeadsTo(cfg, before, s)
    requires s.core == Core.Init.(calls := map[0 := Core.Call("a", Core.Reading), 1 := Core.Call("a", Core.Reading)])
    ensures LeadsTo(cfg, steps, t) && t == s.(core := t.core)
    ensures t.core.calls == map[0 := Core.Call("a", Core.Running(0)), 1 := Core.Call("a", Core.Locking)]
    ensures t.core.now == 0 && t.core.locks.Keys == {"a"} && t.core.executed == {0}
  {
    hide LeadsTo, Similar;
    steps, t := Then(cfg, before, s, Inner(Core.GetResult(0)));
    steps, t := Then(cfg, steps, t, Inner(Core.GetResult(1)));
    steps, t := Then(cfg, steps, t, Inner(Core.TryLock(0)));
  }

  lemma FirstFinishes(cfg: Config, before: seq<Step>, s: State, out: Downstream.Outcome)
    returns (steps: seq<Step>, t: State)
    requires cfg.Valid() && LeadsTo(cfg, before, s)
    requires s.core.calls == map[0 := Core.Call("a", Core.Running(0)), 1 := Core.Call("a", Core.Locking)]
    requires s.core.now == 0 && s.core.locks.Keys == {"a"} && s.core.executed == {0}
    ensures LeadsTo(cfg, steps, t) && t == s.(core := t.core)
    ensures t.core.calls == map[0 := Core.Call("a", Core.Returned(Core.Own(out))), 1 := Core.Call("a", Core.Locking)]
    ensures t.core.now == 0 && t.core.locks == map[] && t.core.executed == {0} && Core.Stored(t.core, "a")
  {
    hide LeadsTo, Similar;
    steps, t := FirstStores(cfg, before, s, out);
    steps, t := Then(cfg, steps, t, Inner(Core.DelLock(0)));
    assert t.core.locks.Keys == {};
  }

  lemma FirstStores(cfg: Config, before: seq<Step>, s: State, out: Downstream.Outcome)
    returns (steps: seq<Step>, t: State)
    requires cfg.Valid() && LeadsTo(cfg, before, s)
    requires s.core.calls == map[0 := Core.Call("a", Core.Running(0)), 1 := Core.Call("a", Core.Locking)]
    requires s.core.now == 0
    ensures LeadsTo(cfg, steps, t) && t == s.(core := t.core)
    ensures t.core.calls == map[0 := Core.Call("a", Core.Releasing(0, out)), 1 := Core.Call("a", Core.Locking)]
    ensures t.core.now == 0 && t.core.locks == s.core.locks && t.core.executed == s.core.executed
    ensures Core.Stored(t.core, "a")
  {
    hide LeadsTo, Apply, Enabled, Core.Stored;
    FnReturnsFirst(cfg, s, out);
    steps, t := Then(cfg, before, s, Inner(Core.FnReturns(0, out)));
    SetsFirst(cfg, t, out);
    steps, t := Then(cfg, steps, t, Inner(Core.SetResult(0)));
  }

  lemma FnReturnsFirst(cfg: Config, s: State, out: Downstream.Outcome)
    requires cfg.Valid()
    requires s.core.calls == map[0 := Core.Call("a", Core.Running(0)), 1 := Core.Call("a", Core.Locking)]
    ensures Enabled(s, Inner(Core.FnReturns(0, out)))
    ensures var t := Apply(cfg, s, Inner(Core.FnReturns(0, out)));
      && t == s.(core := t.core)
      && t.core == s.core.(calls := t.core.calls, outcomes := t.core.outcomes)
      && t.core.calls == map[0 := Core.Call("a", Core.Storing(0, out)), 1 := Core.Call("a", Core.Locking)]
  {
  }

  lemma SetsFirst(cfg: Config, s: State, out: Downstream.Outcome)
    requires cfg.Valid()
    requires s.core.calls == map[0 := Core.Call("a", Core.Storing(0, out)), 1 := Core.Call("a", Core.Locking)]
    ensures Enabled(s, Inner(Core.SetResult(0)))
    ensures var t := Apply(cfg, s, Inner(Core.SetResult(0)));
      && t == s.(core := t.core)
      && t.core == s.core.(calls := t.core.calls, results := t.core.results)
      && t.core.calls == map[0 := Core.Call("a", Core.Releasing(0, out)), 1 := Core.Call("a", Core.Locking)]
      && Core.Stored(t.core, "a")
  {
  }

  lemma SecondOfGroup(cfg: Config, s: State, out: Downstream.Outcome)
    requires cfg.Valid()
    requires s.core.calls == map[0 := Core.Call("a", Core.Returned(Core.Own(out))), 1 := Core.Call("a", Core.Locking)]
    requires s.core.now == 0 && s.core.locks == map[] && s.core.executed == {0} && Core.Stored(s.core, "a")
    ensures Enabled(s, Inner(Core.TryLock(1)))
    ensures var t := Apply(cfg, s, Inner(Core.TryLock(1)));
      && t == s.(core := t.core) && t.core.now == 0 && Core.Stored(t.core, "a")
      && Core.ExecutionsOn(t.core, "a") == {0, 1}
  {
  }
}
