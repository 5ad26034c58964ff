/**
  Whole runs of `SemanticRedis`: when a group's vector is there, when its id is out of the active set, and exactly
  when a call joins a group instead of making one of its own. "Merging works" is not a property of the code; this is
  what takes its place.
 */
module SemanticRedisRuns {
  import opened Cosine
  import opened RedisSets
  import opened SemanticRedis
  import opened Wrappers
  import Core = RedisCoalesce

  /** The state before step i of a run. */
  ghost function At(cfg: Config, steps: seq<Step>, i: nat): State
    requires cfg.Valid() && Legal(cfg, Init, steps) && i <= |steps|
  {
    Prefix(cfg, Init, steps, i);
    After(cfg, Init, steps[..i])
  }

  lemma {:induction false} Prefix(cfg: Config, s: State, steps: seq<Step>, i: nat)
    requires cfg.Valid() && Legal(cfg, s, steps) && i <= |steps|
    ensures Legal(cfg, s, steps[..i])
    ensures i < |steps| ==>
      && Legal(cfg, s, steps[..i + 1])
      && Enabled(After(cfg, s, steps[..i]), steps[i])
      && After(cfg, s, steps[..i + 1]) == Apply(cfg, After(cfg, s, steps[..i]), steps[i])
    decreases i
  {
    hide Apply, Enabled;
    if i == 0 {
      assert steps[..0] == [] && (steps != [] ==> steps[..1][1..] == [] && steps[..1][0] == steps[0]);
    } else {
      var rest := steps[1..];
      Prefix(cfg, Apply(cfg, s, steps[0]), rest, i - 1);
      assert steps[..i][1..] == rest[..i - 1];
      assert i < |steps| ==> steps[..i + 1][1..] == rest[..i] && rest[i - 1] == steps[i];
    }
  }

  lemma Next(cfg: Config, steps: seq<Step>, i: nat)
    requires cfg.Valid() && Legal(cfg, Init, steps) && i < |steps|
    ensures Enabled(At(cfg, steps, i), steps[i])
    ensures At(cfg, steps, i + 1) == Apply(cfg, At(cfg, steps, i), steps[i])
  {
    hide Apply, Enabled, Legal, After;
    Prefix(cfg, Init, steps, i);
  }

  lemma AtEnds(cfg: Config, steps: seq<Step>)
    requires cfg.Valid() && Legal(cfg, Init, steps)
    ensures At(cfg, steps, 0) == Init && At(cfg, steps, |steps|) == After(cfg, Init, steps)
  {
    assert steps[..0] == [] && steps[..|steps|] == steps;
  }

  lemma Reachable(cfg: Config, steps: seq<Step>, i: nat)
    requires cfg.Valid() && Legal(cfg, Init, steps) && i <= |steps|
    ensures Inv(cfg, At(cfg, steps, i))
  {
    hide Apply, Enabled, Inv;
    InitOk(cfg);
    Prefix(cfg, Init, steps, i);
    RunKeepsInv(cfg, Init, steps[..i]);
  }

  // ---------------------------------------------------------------------------------------------------
  // When a group's vector is there
  // ---------------------------------------------------------------------------------------------------

  /** Step k is the SET of g's vector. */
  ghost predicate SetAt(cfg: Config, steps: seq<Step>, k: nat, g: string)
    requires cfg.Valid() && Legal(cfg, Init, steps) && k < |steps|
  {
    var s := At(cfg, steps, k);
    steps[k].PublishVec? && steps[k].c in s.calls && s.calls[steps[k].c].phase == Publishing(g)
  }

  /** Step k is a leader's DEL of g's vector. */
  ghost predicate DelAt(cfg: Config, steps: seq<Step>, k: nat, g: string)
    requires cfg.Valid() && Legal(cfg, Init, steps) && k < |steps|
  {
    var s := At(cfg, steps, k);
    && steps[k].DropVec? && steps[k].c in s.calls
    && s.calls[steps[k].c].phase.DroppingVec? && s.calls[steps[k].c].phase.group == g
  }

  ghost predicate SetBefore(cfg: Config, steps: seq<Step>, i: nat, g: string)
    requires cfg.Valid() && Legal(cfg, Init, steps) && i <= |steps|
  {
    exists k: nat :: k < i && SetAt(cfg, steps, k, g)
  }

  ghost predicate DelBefore(cfg: Config, steps: seq<Step>, i: nat, g: string)
    requires cfg.Valid() && Legal(cfg, Init, steps) && i <= |steps|
  {
    exists k: nat :: k < i && DelAt(cfg, steps, k, g)
  }

  /** What the run so far says of g's vector is what the state holds. */
  ghost predicate VecTold(cfg: Config, steps: seq<Step>, i: nat, g: string)
    requires cfg.Valid() && Legal(cfg, Init, steps) && i <= |steps|
  {
    var s := At(cfg, steps, i);
    && (SetBefore(cfg, steps, i, g) <==> Published(s, g))
    && (DelBefore(cfg, steps, i, g) ==> Published(s, g))
    && (g in s.vecs <==> SetBefore(cfg, steps, i, g) && !DelBefore(cfg, steps, i, g))
    && (g in s.vecs ==> forall k: nat :: k < i && SetAt(cfg, steps, k, g) ==>
          s.vecs[g].until == At(cfg, steps, k).core.now + cfg.vecTTL)
  }

  lemma OneMoreSet(cfg: Config, steps: seq<Step>, i: nat, g: string)
    requires cfg.Valid() && Legal(cfg, Init, steps) && i < |steps|
    ensures SetBefore(cfg, steps, i + 1, g) <==> SetBefore(cfg, steps, i, g) || SetAt(cfg, steps, i, g)
    ensures DelBefore(cfg, steps, i + 1, g) <==> DelBefore(cfg, steps, i, g) || DelAt(cfg, steps, i, g)
  {
    hide SetAt, DelAt, Legal, Config.Valid;
  }

  /** What a step does to one group's vector and to whether it has been published. */
  lemma StepMovesVec(cfg: Config, s: State, a: Step, g: string)
    requires cfg.Valid() && Inv(cfg, s) && Enabled(s, a)
    ensures var t := Apply(cfg, s, a);
      var set', del := a.PublishVec? && s.calls[a.c].phase == Publishing(g), a.DropVec? && s.calls[a.c].phase.group == g;
      && (Published(t, g) <==> Published(s, g) || set')
      && (set' ==> !Published(s, g) && g in t.vecs && t.vecs[g].until == s.core.now + cfg.vecTTL)
      && (del ==> Published(s, g) && g !in t.vecs)
      && (!set' && !del ==> (g in t.vecs <==> g in s.vecs) && (g in s.vecs ==> t.vecs[g] == s.vecs[g]))
  {
    hide Apply, Core.Enabled, Core.Inv, Config.Valid, Lists, HasVec, Active, Similar, Represented;
    StepWrites(cfg, s, a);
    StepGrows(cfg, s, a);
    if a.PublishVec? || a.DropVec? {
      assert CallOk(cfg, s, a.c);
    }
    if a.PublishVec? {
      StepKeepsGroup(cfg, s, a, a.c);
    }
    if g in s.groups {
      assert GroupOk(s, g);
      var c := s.groups[g].creator;
      if a.Inner? || a.c != c {
        StepKeepsPhase(cfg, s, a, c);
      } else if !a.PublishVec? {
        NotYetPublished(cfg, s, a, g);
      }
    } else if a.AddGroup? {
      ActorKeepsGroup(cfg, s, a);
    }
  }

  /** A creator leaves `Publishing` by its SET only. */
  lemma NotYetPublished(cfg: Config, s: State, a: Step, g: string)
    requires cfg.Valid() && Enabled(s, a) && g in s.groups && GroupOk(s, g)
    requires !a.Inner? && a.c == s.groups[g].creator && !a.PublishVec?
    ensures !s.calls[a.c].phase.Publishing?
  {
    hide Core.Enabled;
  }

  lemma {:induction false} VecIsTold(cfg: Config, steps: seq<Step>, i: nat, g: string)
    requires cfg.Valid() && Legal(cfg, Init, steps) && i <= |steps|
    ensures VecTold(cfg, steps, i, g)
    decreases i
  {
    hide Apply, Config.Valid, Legal, At, Inv;
    if i == 0 {
      AtEnds(cfg, steps);
    } else {
      var k := i - 1;
      VecIsTold(cfg, steps, k, g);
      Reachable(cfg, steps, k);
      Next(cfg, steps, k);
      OneMoreSet(cfg, steps, k, g);
      StepMovesVec(cfg, At(cfg, steps, k), steps[k], g);
    }
  }

  /**
    Exactly when a GET of g's vector finds it: its SET has been, less than vecTTL ago, and no leader's DEL of it has.
   */
  lemma VecIsThereIff(cfg: Config, steps: seq<Step>, i: nat, g: string)
    requires cfg.Valid() && Legal(cfg, Init, steps) && i <= |steps|
    ensures HasVec(At(cfg, steps, i), g) <==>
      && !DelBefore(cfg, steps, i, g)
      && exists k: nat :: k < i && SetAt(cfg, steps, k, g)
                          && At(cfg, steps, i).core.now < At(cfg, steps, k).core.now + cfg.vecTTL
  {
    hide Legal, At, SetAt, DelAt, DelBefore, Config.Valid;
    VecIsTold(cfg, steps, i, g);
  }

  // ---------------------------------------------------------------------------------------------------
  // When a group's id is out of the active set
  // ---------------------------------------------------------------------------------------------------

  /** A group is out of its scope's active set exactly when its leader or a caller that missed its vector removed it. */
  ghost predicate OutsideTold(s: State) {
    && s.cleaned + s.dropped <= s.groups.Keys
    && forall g :: g in s.groups ==> (g !in Active(s, s.groups[g].scope) <==> g in s.cleaned || g in s.dropped)
  }

  lemma StepMovesActive(cfg: Config, s: State, a: Step, scope: string)
    requires cfg.Valid() && Enabled(s, a)
    ensures Active(Apply(cfg, s, a), scope) ==
      if a.AddGroup? && s.calls[a.c].scope == scope then Active(s, scope) + {a.id}
      else if a.DropMember? && s.calls[a.c].scope == scope then Active(s, scope) - {s.calls[a.c].phase.id}
      else if a.Leave? && s.calls[a.c].scope == scope then Active(s, scope) - {s.calls[a.c].phase.group}
      else Active(s, scope)
  {
    hide Similar, Core.Apply, Core.Enabled, Lists, Config.Valid, HasVec;
  }

  lemma StepKeepsOutside(cfg: Config, s: State, a: Step)
    requires cfg.Valid() && Inv(cfg, s) && OutsideTold(s) && Enabled(s, a)
    ensures OutsideTold(Apply(cfg, s, a))
  {
    hide Apply, Core.Enabled, Core.Inv, Config.Valid, Lists, HasVec, Active, Similar, Represented;
    var t := Apply(cfg, s, a);
    StepWrites(cfg, s, a);
    if a.DropMember? || a.Leave? {
      assert CallOk(cfg, s, a.c);
    }
    forall g | g in t.groups
      ensures g !in Active(t, t.groups[g].scope) <==> g in t.cleaned || g in t.dropped
    {
      StepMovesActive(cfg, s, a, t.groups[g].scope);
    }
  }

  lemma {:induction false} OutsideIsTold(cfg: Config, steps: seq<Step>, i: nat)
    requires cfg.Valid() && Legal(cfg, Init, steps) && i <= |steps|
    ensures OutsideTold(At(cfg, steps, i))
    decreases i
  {
    hide Apply, Enabled, Legal, At, Inv, Config.Valid;
    if i == 0 {
      AtEnds(cfg, steps);
    } else {
      OutsideIsTold(cfg, steps, i - 1);
      Reachable(cfg, steps, i - 1);
      Next(cfg, steps, i - 1);
      StepKeepsOutside(cfg, At(cfg, steps, i - 1), steps[i - 1]);
    }
  }

  /** c's next GET is that of g's vector. */
  predicate GetsNext(s: State, c: CallId, g: string) {
    c in s.calls && s.calls[c].phase.Scanning? && s.calls[c].phase.todo != [] && s.calls[c].phase.todo[0] == g
  }

  /** Step k is c's GET of g's vector, and finds none. */
  ghost predicate MissAt(cfg: Config, steps: seq<Step>, k: nat, c: CallId, g: string)
    requires cfg.Valid() && Legal(cfg, Init, steps) && k < |steps|
  {
    steps[k] == Compare(c) && GetsNext(At(cfg, steps, k), c, g) && !HasVec(At(cfg, steps, k), g)
  }

  predicate BetweenAddAndSet(s: State, g: string) {
    && g in s.groups && s.groups[g].creator in s.calls
    && s.calls[s.groups[g].creator].phase == Publishing(g)
  }

  /**
    Why a GET of g's vector can find nothing: g's creator is between SADD and SET, the vector's time is over, or g's
    leader has deleted it. A group that anybody drops is one of these cases at an earlier GET by that same caller.
   */
  lemma DropComesFromMiss(cfg: Config, steps: seq<Step>, n: nat, g: string) returns (k: nat, c: CallId)
    requires cfg.Valid() && Legal(cfg, Init, steps) && n <= |steps| && g in At(cfg, steps, n).dropped
    ensures k < n && MissAt(cfg, steps, k, c, g)
    ensures exists j: nat :: k < j < n && steps[j] == DropMember(c)
    ensures var s := At(cfg, steps, k);
      || BetweenAddAndSet(s, g) || (g in s.vecs && s.core.now >= s.vecs[g].until) || DelBefore(cfg, steps, k, g)
  {
    hide Legal, Config.Valid;
    var j, b := DropAt(cfg, steps, n, g);
    k := DroppingComesFromMiss(cfg, steps, j, b, g);
    c := b;
    Reachable(cfg, steps, k);
    VecIsTold(cfg, steps, k, g);
    var s := At(cfg, steps, k);
    assert CallOk(cfg, s, c);
    assert InScope(s, s.calls[c].phase.todo[0], s.calls[c].scope);
    assert GroupOk(s, g);
  }

  /** The SREM that dropped g. */
  lemma {:induction false} DropAt(cfg: Config, steps: seq<Step>, n: nat, g: string) returns (j: nat, c: CallId)
    requires cfg.Valid() && Legal(cfg, Init, steps) && n <= |steps| && g in At(cfg, steps, n).dropped
    ensures j < n && steps[j] == DropMember(c)
    ensures var s := At(cfg, steps, j); c in s.calls && s.calls[c].phase.Dropping? && s.calls[c].phase.id == g
    decreases n
  {
    hide Apply, Legal, At, Config.Valid;
    AtEnds(cfg, steps);
    var i := n - 1;
    Next(cfg, steps, i);
    StepWrites(cfg, At(cfg, steps, i), steps[i]);
    if g in At(cfg, steps, i).dropped {
      j, c := DropAt(cfg, steps, i, g);
    } else {
      j, c := i, steps[i].c;
    }
  }

  /** The GET after which a caller is about to remove g. */
  lemma {:induction false} DroppingComesFromMiss(cfg: Config, steps: seq<Step>, n: nat, c: CallId, g: string)
    returns (k: nat)
    requires cfg.Valid() && Legal(cfg, Init, steps) && n <= |steps|
    requires var s := At(cfg, steps, n); c in s.calls && s.calls[c].phase.Dropping? && s.calls[c].phase.id == g
    ensures k < n && MissAt(cfg, steps, k, c, g)
    decreases n
  {
    hide Apply, Legal, At, Config.Valid;
    AtEnds(cfg, steps);
    var i := n - 1;
    Next(cfg, steps, i);
    var s := At(cfg, steps, i);
    if c in s.calls && s.calls[c].phase.Dropping? && s.calls[c].phase.id == g {
      k := DroppingComesFromMiss(cfg, steps, i, c, g);
    } else {
      BecomesDropping(cfg, s, steps[i], c, g);
      k := i;
    }
  }

  lemma BecomesDropping(cfg: Config, s: State, a: Step, c: CallId, g: string)
    requires cfg.Valid() && Enabled(s, a)
    requires var t := Apply(cfg, s, a); c in t.calls && t.calls[c].phase.Dropping? && t.calls[c].phase.id == g
    requires !(c in s.calls && s.calls[c].phase.Dropping? && s.calls[c].phase.id == g)
    ensures a == Compare(c) && GetsNext(s, c, g) && !HasVec(s, g)
  {
    hide Similar, Core.Apply, Core.Enabled, Lists, Config.Valid, HasVec, Active;
  }

  // ---------------------------------------------------------------------------------------------------
  // When a call joins a group
  // ---------------------------------------------------------------------------------------------------

  // Below, step m is d's SMEMBERS and L its listing, below the cap; the run has come to step n.

  ghost predicate ListsBelowCap(cfg: Config, steps: seq<Step>, m: nat, d: CallId, L: seq<string>)
    requires cfg.Valid()
  {
    m < |steps| && steps[m] == ListActive(d, L) && |L| < cfg.maxActive
  }

  /** Since its SMEMBERS, d's GET of g's vector has found none. */
  ghost predicate Missed(cfg: Config, steps: seq<Step>, m: nat, n: nat, d: CallId, g: string)
    requires cfg.Valid() && Legal(cfg, Init, steps) && n <= |steps|
  {
    exists k: nat :: m < k < n && MissAt(cfg, steps, k, d, g)
  }

  /** Since its SMEMBERS, d's GET of g's vector has failed. */
  ghost predicate Failed(cfg: Config, steps: seq<Step>, m: nat, n: nat, d: CallId, g: string)
    requires cfg.Valid() && Legal(cfg, Init, steps) && n <= |steps|
  {
    exists k: nat :: m < k < n && FailAt(cfg, steps, k, d, g)
  }

  ghost predicate FailAt(cfg: Config, steps: seq<Step>, k: nat, d: CallId, g: string)
    requires cfg.Valid() && Legal(cfg, Init, steps) && k < |steps|
  {
    steps[k] == Skip(d) && GetsNext(At(cfg, steps, k), d, g)
  }

  /** d's vector reaches the threshold against the group's. */
  ghost predicate Alike(cfg: Config, s: State, d: CallId, g: string)
    requires cfg.Valid()
  {
    d in s.calls && g in s.groups && Similar(cfg.measure, s.calls[d].emb, s.groups[g].emb)
  }

  /** d has no reason to join g. */
  ghost predicate PassedOver(cfg: Config, steps: seq<Step>, m: nat, n: nat, d: CallId, g: string)
    requires cfg.Valid() && Legal(cfg, Init, steps) && n <= |steps|
  {
    || Missed(cfg, steps, m, n, d, g) || Failed(cfg, steps, m, n, d, g)
    || !Alike(cfg, At(cfg, steps, n), d, g)
  }

  /** d is about to make a group of its own, or has. */
  predicate OnItsOwn(s: State, d: CallId) {
    d in s.calls &&
    match GroupOf(s.calls[d])
    case None => s.calls[d].phase == Scanning([])
    case Some(g) => g in s.groups && s.groups[g].creator == d
  }

  predicate JoinedGroup(s: State, d: CallId, g: string) {
    d in s.calls && GroupOf(s.calls[d]) == Some(g) && g in s.groups && s.groups[g].creator != d
  }

  /** How far d has got: the first p of the listing are dealt with, none of them joined, and the rest is untouched. */
  ghost predicate ScanTold(cfg: Config, steps: seq<Step>, m: nat, n: nat, d: CallId, L: seq<string>, p: nat)
    requires cfg.Valid() && Legal(cfg, Init, steps) && n <= |steps|
  {
    var s := At(cfg, steps, n);
    && p <= |L| && d in s.calls
    && (forall q :: 0 <= q < |L| ==> IdTold(cfg, steps, m, n, d, L[q], q < p))
    && ScanPlace(cfg, s, d, L, p)
  }

  ghost predicate IdTold(cfg: Config, steps: seq<Step>, m: nat, n: nat, d: CallId, g: string, dealtWith: bool)
    requires cfg.Valid() && Legal(cfg, Init, steps) && n <= |steps|
  {
    && g in At(cfg, steps, n).groups
    && if dealtWith then PassedOver(cfg, steps, m, n, d, g)
       else !Missed(cfg, steps, m, n, d, g) && !Failed(cfg, steps, m, n, d, g)
  }

  ghost predicate ScanPlace(cfg: Config, s: State, d: CallId, L: seq<string>, p: nat)
    requires cfg.Valid() && p <= |L| && d in s.calls
  {
    match s.calls[d].phase
    case Scanning(todo) => todo == L[p..]
    case Dropping(id, todo) => p > 0 && id == L[p - 1] && todo == L[p..]
    case _ => if OnItsOwn(s, d) then p == |L| else p < |L| && JoinedGroup(s, d, L[p]) && Alike(cfg, s, d, L[p])
  }

  lemma OneMoreMiss(cfg: Config, steps: seq<Step>, m: nat, n: nat, d: CallId, g: string)
    requires cfg.Valid() && Legal(cfg, Init, steps) && m < n < |steps|
    ensures Missed(cfg, steps, m, n + 1, d, g) <==> Missed(cfg, steps, m, n, d, g) || MissAt(cfg, steps, n, d, g)
    ensures Failed(cfg, steps, m, n + 1, d, g) <==> Failed(cfg, steps, m, n, d, g) || FailAt(cfg, steps, n, d, g)
  {
    hide MissAt, FailAt, Legal, Config.Valid;
  }

  /** d's own steps, from its listing on. */
  lemma ScanStep(cfg: Config, s: State, a: Step, d: CallId)
    requires cfg.Valid() && Inv(cfg, s) && Enabled(s, a) && !a.Inner? && a.c == d && d in s.calls
    ensures var t := Apply(cfg, s, a);
      d in t.calls &&
      match s.calls[d].phase
      case Scanning(todo) =>
        if todo == [] then t.calls[d].phase == Publishing(a.id) && OnItsOwn(t, d)
        else
          var g := todo[0];
          g in s.groups && s.groups[g].creator != d &&
          if a.Skip? then t.calls[d].phase == Scanning(todo[1..])
          else
            && a.Compare?
            && t.calls[d].phase == if !HasVec(s, g) then Dropping(g, todo[1..])
                                   else if Alike(cfg, s, d, g) then Merging(g)
                                   else Scanning(todo[1..])
      case Dropping(_, todo) => t.calls[d].phase == Scanning(todo)
      case _ => !a.Compare? && !a.Skip?
  {
    hide Core.Enabled, Core.Inv, Config.Valid, Lists, Represented, Active, Similar;
    assert CallOk(cfg, s, d);
    if s.calls[d].phase.Scanning? && s.calls[d].phase.todo != [] {
      var g := s.calls[d].phase.todo[0];
      assert InScope(s, g, s.calls[d].scope);
      assert GroupOk(s, g);
    }
  }

  lemma AlikeLasts(cfg: Config, s: State, a: Step, d: CallId, g: string)
    requires cfg.Valid() && Enabled(s, a) && d in s.calls && g in s.groups
    ensures g in Apply(cfg, s, a).groups && (Alike(cfg, Apply(cfg, s, a), d, g) <==> Alike(cfg, s, d, g))
  {
    hide Apply, Enabled, Config.Valid, Similar;
    StepKeepsFacts(cfg, s, a);
  }

  /** One step of the run, for one listed id: what has been passed over stays so, and only d's own GETs count. */
  lemma IdStep(cfg: Config, steps: seq<Step>, m: nat, n: nat, d: CallId, g: string, dealtWith: bool)
    requires cfg.Valid() && Legal(cfg, Init, steps) && m < n < |steps|
    requires d in At(cfg, steps, n).calls && IdTold(cfg, steps, m, n, d, g, dealtWith)
    ensures g in At(cfg, steps, n + 1).groups
    ensures dealtWith || !(MissAt(cfg, steps, n, d, g) || FailAt(cfg, steps, n, d, g)) ==>
              IdTold(cfg, steps, m, n + 1, d, g, dealtWith)
    ensures MissAt(cfg, steps, n, d, g) || FailAt(cfg, steps, n, d, g) || !Alike(cfg, At(cfg, steps, n), d, g) ==>
              IdTold(cfg, steps, m, n + 1, d, g, true)
  {
    hide Apply, Enabled, Config.Valid, Legal, At, Missed, Failed, MissAt, FailAt, Alike;
    Next(cfg, steps, n);
    OneMoreMiss(cfg, steps, m, n, d, g);
    AlikeLasts(cfg, At(cfg, steps, n), steps[n], d, g);
  }

  /** A step of another call, or one of d's that is no GET of a vector, moves nothing. */
  lemma ScanRests(cfg: Config, steps: seq<Step>, m: nat, n: nat, d: CallId, L: seq<string>, p: nat)
    requires cfg.Valid() && Legal(cfg, Init, steps) && m < n < |steps| && ScanTold(cfg, steps, m, n, d, L, p)
    requires steps[n] != Compare(d) && steps[n] != Skip(d)
    requires d in At(cfg, steps, n + 1).calls && ScanPlace(cfg, At(cfg, steps, n + 1), d, L, p)
    ensures ScanTold(cfg, steps, m, n + 1, d, L, p)
  {
    hide Apply, Enabled, Config.Valid, Legal, At, IdTold, ScanPlace;
    forall q | 0 <= q < |L| ensures IdTold(cfg, steps, m, n + 1, d, L[q], q < p) {
      IdStep(cfg, steps, m, n, d, L[q], q < p);
    }
  }

  /** d's GET of L[p], the next one in turn. */
  lemma ScanGets(cfg: Config, steps: seq<Step>, m: nat, n: nat, d: CallId, L: seq<string>, p: nat) returns (p': nat)
    requires cfg.Valid() && Legal(cfg, Init, steps) && m < n < |steps| && ScanTold(cfg, steps, m, n, d, L, p)
    requires forall i, j :: 0 <= i < j < |L| ==> L[i] != L[j]
    requires steps[n] == Compare(d) || steps[n] == Skip(d)
    ensures ScanTold(cfg, steps, m, n + 1, d, L, p')
  {
    hide Apply, Core.Enabled, Lists, Config.Valid, Legal, At, Inv, IdTold, HasVec, Alike;
    var s, t := At(cfg, steps, n), At(cfg, steps, n + 1);
    Next(cfg, steps, n);
    Reachable(cfg, steps, n);
    ScanStep(cfg, s, steps[n], d);
    var g := L[p];
    assert L[p..][0] == g && L[p..][1..] == L[p + 1..];
    assert GetsNext(s, d, g);
    p' := if t.calls[d].phase.Merging? then p else p + 1;
    forall q | 0 <= q < |L| ensures IdTold(cfg, steps, m, n + 1, d, L[q], q < p') {
      IdStep(cfg, steps, m, n, d, L[q], q < p);
      assert q != p ==> !GetsNext(s, d, L[q]);
    }
    StepWrites(cfg, s, steps[n]);
    AlikeLasts(cfg, s, steps[n], d, g);
  }

  lemma {:induction false} ScanIsTold(cfg: Config, steps: seq<Step>, m: nat, n: nat, d: CallId, L: seq<string>)
    returns (p: nat)
    requires cfg.Valid() && Legal(cfg, Init, steps) && ListsBelowCap(cfg, steps, m, d, L) && m < n <= |steps|
    ensures ScanTold(cfg, steps, m, n, d, L, p)
    decreases n
  {
    hide Apply, Enabled, Config.Valid, Legal, At, Inv, Missed, Failed, PassedOver, ScanPlace;
    if n == m + 1 {
      p := 0;
      ScanBegins(cfg, steps, m, d, L);
    } else {
      var i := n - 1;
      p := ScanIsTold(cfg, steps, m, i, d, L);
      if steps[i] == Compare(d) || steps[i] == Skip(d) {
        ListingIsDistinct(cfg, steps, m, d, L);
        p := ScanGets(cfg, steps, m, i, d, L, p);
      } else {
        Next(cfg, steps, i);
        Reachable(cfg, steps, i);
        PlaceKept(cfg, At(cfg, steps, i), steps[i], d, L, p);
        ScanRests(cfg, steps, m, i, d, L, p);
      }
    }
  }

  lemma ListingIsDistinct(cfg: Config, steps: seq<Step>, m: nat, d: CallId, L: seq<string>)
    requires cfg.Valid() && Legal(cfg, Init, steps) && ListsBelowCap(cfg, steps, m, d, L)
    ensures forall i, j :: 0 <= i < j < |L| ==> L[i] != L[j]
  {
    hide Apply, Config.Valid, Legal, At;
    Next(cfg, steps, m);
    var s := At(cfg, steps, m);
    ListedOnce(L, Active(s, s.calls[d].scope));
  }

  lemma ScanBegins(cfg: Config, steps: seq<Step>, m: nat, d: CallId, L: seq<string>)
    requires cfg.Valid() && Legal(cfg, Init, steps) && ListsBelowCap(cfg, steps, m, d, L)
    ensures ScanTold(cfg, steps, m, m + 1, d, L, 0)
  {
    hide Config.Valid, Legal, At, Core.Inv, Similar, PassedOver;
    Next(cfg, steps, m);
    Reachable(cfg, steps, m);
    var s := At(cfg, steps, m);
    ListedInScope(s, L, s.calls[d].scope);
    assert forall q :: 0 <= q < |L| ==> InScope(s, L[q], s.calls[d].scope);
  }

  lemma PlaceKept(cfg: Config, s: State, a: Step, d: CallId, L: seq<string>, p: nat)
    requires cfg.Valid() && Inv(cfg, s) && Enabled(s, a) && a != Compare(d) && a != Skip(d)
    requires p <= |L| && d in s.calls && ScanPlace(cfg, s, d, L, p)
    requires p < |L| ==> L[p] in s.groups
    ensures d in Apply(cfg, s, a).calls && ScanPlace(cfg, Apply(cfg, s, a), d, L, p)
  {
    hide Apply, Core.Enabled, Config.Valid, Lists, HasVec, Active, Inv, Alike;
    StepWrites(cfg, s, a);
    if p < |L| {
      AlikeLasts(cfg, s, a, d, L[p]);
    }
    if a.Inner? || a.c != d {
      StepKeepsPhase(cfg, s, a, d);
    } else {
      ScanStep(cfg, s, a, d);
    }
    if GroupOf(s.calls[d]).Some? {
      StepKeepsGroup(cfg, s, a, d);
    }
  }

  /**
    Exactly when a call ends up in a group it did not make, and in which: the first on its listing whose vector it
    read (neither missed nor failed) and reached the threshold against.
   */
  lemma JoinsIff(cfg: Config, steps: seq<Step>, m: nat, n: nat, d: CallId, L: seq<string>, g: string)
    requires cfg.Valid() && Legal(cfg, Init, steps) && ListsBelowCap(cfg, steps, m, d, L) && m < n <= |steps|
    requires var s := At(cfg, steps, n); d in s.calls && GroupOf(s.calls[d]).Some?
    ensures JoinedGroup(At(cfg, steps, n), d, g) <==>
      exists q :: 0 <= q < |L| && L[q] == g && !PassedOver(cfg, steps, m, n, d, L[q])
                  && forall r :: 0 <= r < q ==> PassedOver(cfg, steps, m, n, d, L[r])
  {
    hide Legal, At, Config.Valid, Missed, Failed, Alike;
    var p := ScanIsTold(cfg, steps, m, n, d, L);
    assert forall q :: 0 <= q < p ==> IdTold(cfg, steps, m, n, d, L[q], true);
    if p < |L| {
      assert IdTold(cfg, steps, m, n, d, L[p], false);
    }
  }

  /**
    Exactly when a call makes a group of its own although it is below the cap: every group on its listing that it
    reaches the threshold against is one whose vector it missed or failed to read.
   */
  lemma OnItsOwnIff(cfg: Config, steps: seq<Step>, m: nat, n: nat, d: CallId, L: seq<string>)
    requires cfg.Valid() && Legal(cfg, Init, steps) && ListsBelowCap(cfg, steps, m, d, L) && m < n <= |steps|
    requires var s := At(cfg, steps, n); d in s.calls && (s.calls[d].phase == Scanning([]) || GroupOf(s.calls[d]).Some?)
    ensures OnItsOwn(At(cfg, steps, n), d) <==>
      forall q :: 0 <= q < |L| && Alike(cfg, At(cfg, steps, n), d, L[q]) ==>
        Missed(cfg, steps, m, n, d, L[q]) || Failed(cfg, steps, m, n, d, L[q])
  {
    hide Legal, At, Config.Valid, Missed, Failed, Alike;
    var p := ScanIsTold(cfg, steps, m, n, d, L);
    assert forall q :: 0 <= q < p ==> IdTold(cfg, steps, m, n, d, L[q], true);
    if p < |L| {
      assert IdTold(cfg, steps, m, n, d, L[p], false);
    }
  }

  /** Exactly when a group is on a listing: added before, and removed neither by its leader nor by anybody else. */
  lemma ListedIff(cfg: Config, steps: seq<Step>, m: nat, d: CallId, L: seq<string>, g: string)
    requires cfg.Valid() && Legal(cfg, Init, steps) && m < |steps| && steps[m] == ListActive(d, L)
    ensures var s := At(cfg, steps, m);
      d in s.calls && (g in L <==> InScope(s, g, s.calls[d].scope) && g !in s.cleaned && g !in s.dropped)
  {
    hide Apply, Core.Enabled, Legal, At, Config.Valid, CallsOk, GroupsOk, Core.Inv;
    Next(cfg, steps, m);
    Reachable(cfg, steps, m);
    OutsideIsTold(cfg, steps, m);
    var s := At(cfg, steps, m);
    var scope := s.calls[d].scope;
    assert g in L <==> g in Active(s, scope) by {
      assert g in L <==> g in (set id | id in L);
    }
    assert g in Active(s, scope) ==> InScope(s, g, scope);
  }

  lemma {:induction false} ClockRuns(cfg: Config, steps: seq<Step>, i: nat, j: nat)
    requires cfg.Valid() && Legal(cfg, Init, steps) && i <= j <= |steps|
    ensures At(cfg, steps, i).core.now <= At(cfg, steps, j).core.now
    decreases j - i
  {
    hide Apply, Enabled, Legal, At, Config.Valid;
    if i < j {
      ClockRuns(cfg, steps, i, j - 1);
      Next(cfg, steps, j - 1);
      StepRunsClock(cfg, At(cfg, steps, j - 1), steps[j - 1]);
    }
  }

  lemma StepRunsClock(cfg: Config, s: State, a: Step)
    requires cfg.Valid() && Enabled(s, a)
    ensures s.core.now <= Apply(cfg, s, a).core.now
  {
    hide Similar, Lists, Config.Valid, HasVec, Active, Core.Apply, Core.Enabled;
    if a.Inner? {
      InnerRunsClock(cfg.core, s.core, a.step);
    }
  }

  lemma InnerRunsClock(cfg: Core.Config, s: Core.State, a: Core.Step)
    requires Core.Enabled(s, a)
    ensures s.now <= Core.Apply(cfg, s, a).now
  {
    hide Core.Encode, Core.Decode;
  }

  lemma {:induction false} AlikeAlways(cfg: Config, steps: seq<Step>, i: nat, j: nat, d: CallId, g: string)
    requires cfg.Valid() && Legal(cfg, Init, steps) && i <= j <= |steps| && Alike(cfg, At(cfg, steps, i), d, g)
    ensures Alike(cfg, At(cfg, steps, j), d, g)
    decreases j - i
  {
    hide Apply, Enabled, Legal, At, Config.Valid, Similar;
    if i < j {
      AlikeAlways(cfg, steps, i, j - 1, d, g);
      Next(cfg, steps, j - 1);
      AlikeLasts(cfg, At(cfg, steps, j - 1), steps[j - 1], d, g);
    }
  }

  /** In this order of commands g's vector is there all along: its SET comes first, and neither DEL nor expiry by n. */
  lemma VecStays(cfg: Config, steps: seq<Step>, k: nat, i: nat, n: nat, g: string)
    requires cfg.Valid() && Legal(cfg, Init, steps) && k < i <= n <= |steps|
    requires SetAt(cfg, steps, k, g) && !DelBefore(cfg, steps, n, g)
    requires At(cfg, steps, n).core.now < At(cfg, steps, k).core.now + cfg.vecTTL
    ensures HasVec(At(cfg, steps, i), g)
  {
    hide Legal, At, SetAt, DelAt, Config.Valid;
    ClockRuns(cfg, steps, i, n);
    VecIsThereIff(cfg, steps, i, g);
  }

  /**
    An order of commands that guarantees merging. g's SET comes before d's SMEMBERS, by when nobody has removed g from
    the active set; up to step n g's vector is neither deleted nor over its time, and d's GET of it does not fail. If d
    then reaches the threshold against g, it makes no group of its own: once settled it is in g, or in a group that its
    listing has before g.
   */
  lemma JoinsIfInOrder(cfg: Config, steps: seq<Step>, k: nat, m: nat, n: nat, d: CallId, L: seq<string>, g: string)
    requires cfg.Valid() && Legal(cfg, Init, steps) && ListsBelowCap(cfg, steps, m, d, L) && k < m < n <= |steps|
    requires SetAt(cfg, steps, k, g) && !DelBefore(cfg, steps, n, g)
    requires At(cfg, steps, n).core.now < At(cfg, steps, k).core.now + cfg.vecTTL
    requires var s := At(cfg, steps, m);
      d in s.calls && InScope(s, g, s.calls[d].scope) && g !in s.cleaned && g !in s.dropped && Alike(cfg, s, d, g)
    requires !Failed(cfg, steps, m, n, d, g)
    ensures !OnItsOwn(At(cfg, steps, n), d)
    ensures var s := At(cfg, steps, n);
      d in s.calls && GroupOf(s.calls[d]).Some? ==>
        exists q, r :: 0 <= q <= r < |L| && JoinedGroup(s, d, L[q]) && L[r] == g
  {
    hide Legal, At, Config.Valid, SetAt, DelAt, DelBefore, Alike, HasVec, Failed;
    ListedIff(cfg, steps, m, d, L, g);
    var r :| 0 <= r < |L| && L[r] == g;
    AlikeAlways(cfg, steps, m, n, d, g);
    if Missed(cfg, steps, m, n, d, g) {
      var i: nat :| m < i < n && MissAt(cfg, steps, i, d, g);
      VecStays(cfg, steps, k, i, n, g);
    }
    var p := ScanIsTold(cfg, steps, m, n, d, L);
    assert IdTold(cfg, steps, m, n, d, L[r], r < p);
  }

  /**
    For a similar group whose vector was there all through d's search: d makes a group of its own only if that group
    was not listed or its GET failed, and in either case d is not in it.
   */
  lemma LeftThoughLive(cfg: Config, steps: seq<Step>, m: nat, n: nat, d: CallId, L: seq<string>, g: string)
    requires cfg.Valid() && Legal(cfg, Init, steps) && ListsBelowCap(cfg, steps, m, d, L) && m < n <= |steps|
    requires var s := At(cfg, steps, n); d in s.calls && (s.calls[d].phase == Scanning([]) || GroupOf(s.calls[d]).Some?)
    requires Alike(cfg, At(cfg, steps, n), d, g)
    requires forall i: nat :: m < i < n ==> HasVec(At(cfg, steps, i), g)
    ensures OnItsOwn(At(cfg, steps, n), d) ==> g !in L || Failed(cfg, steps, m, n, d, g)
    ensures g !in L || Failed(cfg, steps, m, n, d, g) ==> !JoinedGroup(At(cfg, steps, n), d, g)
  {
    hide Legal, At, Config.Valid, Alike, HasVec, Failed;
    OnItsOwnIff(cfg, steps, m, n, d, L);
    if GroupOf(At(cfg, steps, n).calls[d]).Some? {
      JoinsIff(cfg, steps, m, n, d, L, g);
    }
  }
}
