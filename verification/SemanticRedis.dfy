/**
  Semantic coalescing across instances (internal/coalesce/semantic_redis.go): per scope a set of active group
  ids, per group a representative vector, and per group the lock/result protocol of `RedisCoalesce`, run on the
  group id as slot. Again every Redis command is a step of its own.

  `groups`, `cleaned` and `dropped` are history for the proofs; no step reads them, except that a new id is a fresh one.
 */
module SemanticRedis {
  import opened Downstream
  import opened Wrappers
  import opened Cosine
  import opened RedisSets
  import Core = RedisCoalesce

  type CallId = Core.CallId

  datatype Config = Config(core: Core.Config, measure: Measure, maxActive: int, vecTTL: int) {
    ghost predicate Valid() {
      core.Valid() && IsSqrt(measure.sqrt) && measure.threshold > 0.0 && maxActive > 0 && vecTTL > 0
    }
  }

  const VEC_GRACE := 60_000
  const DEFAULT_THRESHOLD := 0.95
  const DEFAULT_MAX_ACTIVE := 256
  const DEFAULT_VEC_TTL := 300_000

  /**
    The constructor's defaults. The vector's life is computed from the times as passed in, so it outlives lock and
    result only as said: with both times left to their defaults as 0 it is 60 s, under a lock of 120 s.
   */
  function NewConfig(sqrt: real -> real, lockTTL: int, resultTTL: int, threshold: real, maxActive: int): (cfg: Config)
    ensures IsSqrt(sqrt) ==> cfg.Valid()
    ensures maxActive > 0 ==> cfg.maxActive == maxActive
    ensures threshold > 0.0 ==> cfg.measure.threshold == threshold
    ensures maxActive <= 0 ==> cfg.maxActive == 256
    ensures threshold <= 0.0 ==> cfg.measure.threshold == 0.95
    ensures cfg.core == Core.NewConfig(lockTTL, resultTTL)
    ensures cfg.vecTTL == (if lockTTL + resultTTL + 60_000 <= 0 then 300_000 else lockTTL + resultTTL + 60_000)
    ensures cfg.vecTTL > cfg.core.lockTTL + cfg.core.resultTTL
            <==> (lockTTL > 0 && resultTTL > 0)
                 || (lockTTL + resultTTL + 60_000 <= 0 && cfg.core.lockTTL + cfg.core.resultTTL < 300_000)
  {
    var vec := lockTTL + resultTTL + VEC_GRACE;
    Config(Core.NewConfig(lockTTL, resultTTL),
           Measure(sqrt, if threshold <= 0.0 then DEFAULT_THRESHOLD else threshold),
           if maxActive <= 0 then DEFAULT_MAX_ACTIVE else maxActive,
           if vec <= 0 then DEFAULT_VEC_TTL else vec)
  }

  datatype Phase =
    | Listing                                           // SMEMBERS is next
    | Scanning(todo: seq<string>)                       // ids still to be compared, in the order listed
    | Dropping(id: string, todo: seq<string>)           // no vector under id: SREM id is next
    | Publishing(group: string)                         // SADD of the new group done, SET vec is next
    | Merging(group: string)                            // inside doKeysWithRole
    | DroppingVec(group: string, answer: Core.Answer)   // led the group: DEL vec is next
    | Leaving(group: string, answer: Core.Answer)       // SREM group is next
    | Alone                                             // no vector, or too many groups: runs fn for itself
    | Finished(merged: Option<string>, answer: Core.Answer)

  datatype Call = Call(scope: string, emb: Vector, phase: Phase)

  datatype Vec = Vec(emb: Vector, until: int)

  datatype Group = Group(scope: string, emb: Vector, creator: CallId)

  datatype State = State(
    core: Core.State,
    active: map<string, set<string>>,
    vecs: map<string, Vec>,
    calls: map<CallId, Call>,
    groups: map<string, Group>,
    cleaned: set<string>,    // left behind by their leader: DEL of the vector, SREM of the id
    dropped: set<string>)    // removed by a caller that found no vector

  datatype Step =
    | Arrive(c: CallId, scope: string, emb: Vector)
    | ListActive(c: CallId, listing: seq<string>)
    | Compare(c: CallId)
    | Skip(c: CallId)
    | DropMember(c: CallId)
    | AddGroup(c: CallId, id: string)
    | PublishVec(c: CallId)
    | Inner(step: Core.Step)
    | Return(c: CallId)
    | DropVec(c: CallId)
    | Leave(c: CallId)
    | RunAlone(c: CallId, out: Outcome)
    | Fail(c: CallId)

  const Init := State(Core.Init, map[], map[], map[], map[], {}, {})

  function Active(s: State, scope: string): set<string> {
    if scope in s.active then s.active[scope] else {}
  }

  predicate HasVec(s: State, id: string) {
    id in s.vecs && s.core.now < s.vecs[id].until
  }

  ghost predicate Enabled(s: State, a: Step) {
    match a
    case Arrive(c, _, _) => c !in s.calls
    case ListActive(c, listing) =>
      c in s.calls && s.calls[c].phase.Listing? && Lists(listing, Active(s, s.calls[c].scope))
    case Compare(c) => c in s.calls && s.calls[c].phase.Scanning? && s.calls[c].phase.todo != []
    case Skip(c) => c in s.calls && s.calls[c].phase.Scanning? && s.calls[c].phase.todo != []
    case DropMember(c) => c in s.calls && s.calls[c].phase.Dropping?
    case AddGroup(c, id) =>
      c in s.calls && s.calls[c].phase.Scanning? && s.calls[c].phase.todo == [] && id !in s.groups
    case PublishVec(c) => c in s.calls && s.calls[c].phase.Publishing?
    case Inner(step) => !step.Arrive? && Core.Enabled(s.core, step)
    case Return(c) =>
      c in s.calls && s.calls[c].phase.Merging? && c in s.core.calls && s.core.calls[c].phase.Returned?
    case DropVec(c) => c in s.calls && s.calls[c].phase.DroppingVec?
    case Leave(c) => c in s.calls && s.calls[c].phase.Leaving?
    case RunAlone(c, _) => c in s.calls && s.calls[c].phase.Alone?
    case Fail(c) => c in s.calls && s.calls[c].phase.Listing?
  }

  function Goto(s: State, c: CallId, p: Phase): State
    requires c in s.calls
  {
    s.(calls := s.calls[c := s.calls[c].(phase := p)])
  }

  /** The group is settled: the call enters the lock/result protocol on it. */
  function Enter(s: State, c: CallId, group: string): State
    requires c in s.calls
  {
    Goto(s, c, Merging(group)).(core := s.core.(calls := s.core.calls[c := Core.Call(group, Core.Reading)]))
  }

  ghost function Apply(cfg: Config, s: State, a: Step): State
    requires cfg.Valid() && Enabled(s, a)
  {
    match a
    case Arrive(c, scope, emb) =>
      s.(calls := s.calls[c := Call(scope, emb, if emb == [] then Alone else Listing)])
    case ListActive(c, listing) =>
      if |listing| >= cfg.maxActive then Goto(s, c, Alone) else Goto(s, c, Scanning(listing))
    case Compare(c) =>
      var todo := s.calls[c].phase.todo;
      var id := todo[0];
      if !HasVec(s, id) then Goto(s, c, Dropping(id, todo[1..]))
      else if Similar(cfg.measure, s.calls[c].emb, s.vecs[id].emb) then Enter(s, c, id)
      else Goto(s, c, Scanning(todo[1..]))
    case Skip(c) => Goto(s, c, Scanning(s.calls[c].phase.todo[1..]))
    case DropMember(c) =>
      var Call(scope, _, Dropping(id, todo)) := s.calls[c];
      Goto(s, c, Scanning(todo)).(active := s.active[scope := Active(s, scope) - {id}], dropped := s.dropped + {id})
    case AddGroup(c, id) =>
      var k := s.calls[c];
      Goto(s, c, Publishing(id)).(active := s.active[k.scope := Active(s, k.scope) + {id}],
                                     groups := s.groups[id := Group(k.scope, k.emb, c)])
    case PublishVec(c) =>
      var Call(_, emb, Publishing(group)) := s.calls[c];
      Enter(s, c, group).(vecs := s.vecs[group := Vec(emb, s.core.now + cfg.vecTTL)])
    case Inner(step) => s.(core := Core.Apply(cfg.core, s.core, step))
    case Return(c) =>
      var group := s.calls[c].phase.group;
      var answer := s.core.calls[c].phase.answer;
      if answer.Own? then Goto(s, c, DroppingVec(group, answer)) else Goto(s, c, Finished(Some(group), answer))
    case DropVec(c) =>
      var DroppingVec(group, answer) := s.calls[c].phase;
      Goto(s, c, Leaving(group, answer)).(vecs := s.vecs - {group})
    case Leave(c) =>
      var Call(scope, _, Leaving(group, answer)) := s.calls[c];
      Goto(s, c, Finished(Some(group), answer)).(active := s.active[scope := Active(s, scope) - {group}],
                                                 cleaned := s.cleaned + {group})
    case RunAlone(c, out) => Goto(s, c, Finished(None, Core.Own(out)))
    case Fail(c) => Goto(s, c, Finished(None, Core.Nothing))
  }

  ghost predicate Legal(cfg: Config, s: State, steps: seq<Step>)
    requires cfg.Valid()
    decreases |steps|
  {
    steps == [] || (Enabled(s, steps[0]) && Legal(cfg, Apply(cfg, s, steps[0]), steps[1..]))
  }

  ghost function After(cfg: Config, s: State, steps: seq<Step>): State
    requires cfg.Valid() && Legal(cfg, s, steps)
    decreases |steps|
  {
    if steps == [] then s else After(cfg, Apply(cfg, s, steps[0]), steps[1..])
  }

  // ---------------------------------------------------------------------------------------------------
  // What every reachable state keeps
  // ---------------------------------------------------------------------------------------------------

  /** The group a call has settled on. */
  function GroupOf(k: Call): Option<string> {
    match k.phase
    case Publishing(g) => Some(g)
    case Merging(g) => Some(g)
    case DroppingVec(g, _) => Some(g)
    case Leaving(g, _) => Some(g)
    case Finished(merged, _) => merged
    case _ => None
  }

  /** The group belongs to the scope. */
  predicate InScope(s: State, g: string, scope: string) {
    g in s.groups && s.groups[g].scope == scope
  }

  predicate AllInScope(s: State, ids: seq<string>, scope: string) {
    forall i :: 0 <= i < |ids| ==> InScope(s, ids[i], scope)
  }

  /** The vector of the group has been written. */
  predicate Published(s: State, g: string) {
    g in s.groups && s.groups[g].creator in s.calls && !s.calls[s.groups[g].creator].phase.Publishing?
  }

  /** c made the group's representative, or reached the threshold against it. */
  ghost predicate Represented(cfg: Config, s: State, c: CallId, g: string)
    requires cfg.Valid() && c in s.calls && g in s.groups
  {
    if s.groups[g].creator == c then s.calls[c].emb == s.groups[g].emb
    else Similar(cfg.measure, s.calls[c].emb, s.groups[g].emb)
  }

  ghost predicate Joined(cfg: Config, s: State, c: CallId, g: string)
    requires cfg.Valid() && c in s.calls
  {
    && InScope(s, g, s.calls[c].scope) && Published(s, g) && Represented(cfg, s, c, g)
    && c in s.core.calls && s.core.calls[c].slot == g
  }

  ghost predicate CallOk(cfg: Config, s: State, c: CallId)
    requires cfg.Valid() && c in s.calls
  {
    var k := s.calls[c];
    match k.phase
    case Listing => c !in s.core.calls
    case Scanning(todo) => c !in s.core.calls && AllInScope(s, todo, k.scope)
    case Dropping(id, todo) => c !in s.core.calls && InScope(s, id, k.scope) && AllInScope(s, todo, k.scope)
    case Publishing(g) => c !in s.core.calls && InScope(s, g, k.scope) && s.groups[g].creator == c
    case Merging(g) => Joined(cfg, s, c, g)
    case DroppingVec(g, a) => Joined(cfg, s, c, g) && s.core.calls[c].phase == Core.Returned(a)
    case Leaving(g, a) => Joined(cfg, s, c, g) && s.core.calls[c].phase == Core.Returned(a) && g !in s.vecs
    case Alone => c !in s.core.calls
    case Finished(None, _) => c !in s.core.calls
    case Finished(Some(g), a) => Joined(cfg, s, c, g) && s.core.calls[c].phase == Core.Returned(a)
  }

  predicate GroupOk(s: State, g: string)
    requires g in s.groups
  {
    var Group(scope, emb, c) := s.groups[g];
    && c in s.calls && s.calls[c].scope == scope && s.calls[c].emb == emb && GroupOf(s.calls[c]) == Some(g)
  }

  ghost predicate SetsOk(s: State) {
    && (forall scope, id :: id in Active(s, scope) ==> InScope(s, id, scope))
    && (forall g :: g in s.vecs ==> Published(s, g) && s.vecs[g].emb == s.groups[g].emb)
    && (forall g :: g in s.cleaned ==> Published(s, g) && Cleaned(s, g))
  }

  /** Nothing of the group is left for a newcomer to find. */
  predicate Cleaned(s: State, g: string) {
    g in s.groups && g !in s.vecs && g !in Active(s, s.groups[g].scope)
  }

  ghost predicate Inv(cfg: Config, s: State)
    requires cfg.Valid()
  {
    && Core.Inv(s.core)
    && s.core.calls.Keys <= s.calls.Keys
    && CallsOk(cfg, s)
    && GroupsOk(s)
    && SetsOk(s)
  }

  ghost predicate CallsOk(cfg: Config, s: State)
    requires cfg.Valid()
  {
    forall c :: c in s.calls ==> CallOk(cfg, s, c)
  }

  ghost predicate GroupsOk(s: State) {
    forall g :: g in s.groups ==> GroupOk(s, g)
  }

  /** What never changes once it is there: a call's scope and vector, a group, its publication, its vector's loss. */
  ghost predicate Grows(s: State, t: State) {
    && (forall c :: c in s.calls ==>
          c in t.calls && t.calls[c].scope == s.calls[c].scope && t.calls[c].emb == s.calls[c].emb)
    && (forall g :: g in s.groups ==> g in t.groups && t.groups[g] == s.groups[g])
    && (forall g :: Published(s, g) ==> Published(t, g) && (g !in s.vecs ==> g !in t.vecs))
  }

  /** What a step does to the vectors, the groups and the cleaned-up groups. */
  lemma StepWrites(cfg: Config, s: State, a: Step)
    requires cfg.Valid() && Enabled(s, a)
    ensures var t := Apply(cfg, s, a);
      && t.vecs == (if a.PublishVec? then
                      s.vecs[s.calls[a.c].phase.group := Vec(s.calls[a.c].emb, s.core.now + cfg.vecTTL)]
                    else if a.DropVec? then s.vecs - {s.calls[a.c].phase.group}
                    else s.vecs)
      && t.groups == (if a.AddGroup? then s.groups[a.id := Group(s.calls[a.c].scope, s.calls[a.c].emb, a.c)]
                      else s.groups)
      && t.cleaned == (if a.Leave? then s.cleaned + {s.calls[a.c].phase.group} else s.cleaned)
      && t.dropped == (if a.DropMember? then s.dropped + {s.calls[a.c].phase.id} else s.dropped)
  {
    hide Similar, Core.Apply, Core.Enabled, Config.Valid, Lists, HasVec, Active;
  }

  /** The acting call never changes groups, and comes out of a step of its group with the vector published. */
  lemma ActorKeepsGroup(cfg: Config, s: State, a: Step)
    requires cfg.Valid() && Enabled(s, a) && !a.Inner? && !a.Arrive?
    ensures var t, k := Apply(cfg, s, a), s.calls[a.c];
      && a.c in t.calls && t.calls[a.c].scope == k.scope && t.calls[a.c].emb == k.emb
      && (GroupOf(k).Some? ==> GroupOf(t.calls[a.c]) == GroupOf(k) && !t.calls[a.c].phase.Publishing?)
      && (a.AddGroup? ==> t.calls[a.c].phase == Publishing(a.id))
  {
    hide Similar, Core.Apply, Core.Enabled, Config.Valid, Lists, HasVec, Active;
    ActorStaysItself(cfg, s, a);
  }

  lemma ActorStaysItself(cfg: Config, s: State, a: Step)
    requires cfg.Valid() && Enabled(s, a) && !a.Inner? && !a.Arrive?
    ensures var t, k := Apply(cfg, s, a), s.calls[a.c];
      a.c in t.calls && t.calls[a.c] == k.(phase := t.calls[a.c].phase)
  {
    hide Similar, Core.Apply, Core.Enabled, Config.Valid, Lists, HasVec, Active;
  }

  /** A step of somebody else leaves a call's phase alone. */
  lemma StepKeepsPhase(cfg: Config, s: State, a: Step, c: CallId)
    requires cfg.Valid() && Enabled(s, a) && c in s.calls && (a.Inner? || a.c != c)
    ensures c in Apply(cfg, s, a).calls && Apply(cfg, s, a).calls[c] == s.calls[c]
  {
    hide Similar, Core.Apply, Core.Enabled, Config.Valid, Lists, HasVec, Active;
  }

  lemma StepKeepsFacts(cfg: Config, s: State, a: Step)
    requires cfg.Valid() && Enabled(s, a)
    ensures var t := Apply(cfg, s, a);
      && (forall c :: c in s.calls ==>
            c in t.calls && t.calls[c].scope == s.calls[c].scope && t.calls[c].emb == s.calls[c].emb)
      && (forall g :: g in s.groups ==> g in t.groups && t.groups[g] == s.groups[g])
  {
    hide Apply, Core.Enabled, Config.Valid, Lists, HasVec, Active, GroupOf;
    var t := Apply(cfg, s, a);
    StepWrites(cfg, s, a);
    forall c | c in s.calls
      ensures c in t.calls && t.calls[c].scope == s.calls[c].scope && t.calls[c].emb == s.calls[c].emb
    {
      if a.Inner? || a.c != c {
        StepKeepsPhase(cfg, s, a, c);
      } else {
        ActorKeepsGroup(cfg, s, a);
      }
    }
  }

  /** A call that has settled on a group stays with it. */
  lemma StepKeepsGroup(cfg: Config, s: State, a: Step, c: CallId)
    requires cfg.Valid() && Enabled(s, a) && c in s.calls && GroupOf(s.calls[c]).Some?
    ensures var t := Apply(cfg, s, a);
      c in t.calls && t.calls[c].scope == s.calls[c].scope && t.calls[c].emb == s.calls[c].emb
      && GroupOf(t.calls[c]) == GroupOf(s.calls[c])
      && (t.calls[c].phase.Publishing? ==> s.calls[c].phase.Publishing? && (a.Inner? || a.c != c))
  {
    hide Apply, Core.Enabled, Config.Valid, Lists, HasVec, Active, GroupOf;
    if a.Inner? || a.c != c {
      StepKeepsPhase(cfg, s, a, c);
    } else {
      ActorKeepsGroup(cfg, s, a);
    }
  }

  lemma StepKeepsPublished(cfg: Config, s: State, a: Step, g: string)
    requires cfg.Valid() && CallsOk(cfg, s) && GroupsOk(s) && Enabled(s, a) && Published(s, g)
    ensures var t := Apply(cfg, s, a); Published(t, g) && (g !in s.vecs ==> g !in t.vecs)
  {
    hide Apply, Core.Enabled, Config.Valid, Lists, HasVec, Active, Joined;
    assert GroupOk(s, g);
    StepWrites(cfg, s, a);
    StepKeepsGroup(cfg, s, a, s.groups[g].creator);
    if a.PublishVec? {
      assert CallOk(cfg, s, a.c);
    }
  }

  lemma StepGrows(cfg: Config, s: State, a: Step)
    requires cfg.Valid() && CallsOk(cfg, s) && GroupsOk(s) && Enabled(s, a)
    ensures Grows(s, Apply(cfg, s, a))
  {
    hide Apply, Enabled, Config.Valid;
    StepKeepsFacts(cfg, s, a);
    var t := Apply(cfg, s, a);
    forall g | Published(s, g) ensures Published(t, g) && (g !in s.vecs ==> g !in t.vecs) {
      StepKeepsPublished(cfg, s, a, g);
    }
  }

  lemma JoinedLasts(cfg: Config, s: State, t: State, c: CallId, g: string)
    requires cfg.Valid() && c in s.calls && Joined(cfg, s, c, g) && Grows(s, t)
    requires c in t.core.calls && t.core.calls[c].slot == g
    ensures Joined(cfg, t, c, g)
  {
    hide Similar;
  }

  /** Steps of the inner protocol keep every call and its slot, and keep what has been returned. */
  lemma InnerStepKeepsCalls(cfg: Core.Config, s: Core.State, a: Core.Step)
    requires !a.Arrive? && Core.Enabled(s, a)
    ensures var t := Core.Apply(cfg, s, a);
      t.calls.Keys == s.calls.Keys
      && forall c :: c in s.calls ==> t.calls[c].slot == s.calls[c].slot
                                      && (s.calls[c].phase.Returned? ==> t.calls[c] == s.calls[c])
  {
    hide Core.Decode, Core.Encode;
  }

  /** The inner protocol's calls, seen from the outside: a step may add one, and keeps what `JoinedLasts` needs. */
  lemma StepKeepsInnerCalls(cfg: Config, s: State, a: Step, c: CallId)
    requires cfg.Valid() && Enabled(s, a) && (a.Inner? || a.c != c)
    ensures var t := Apply(cfg, s, a);
      (c in t.core.calls <==> c in s.core.calls)
      && (c in s.core.calls ==> t.core.calls[c].slot == s.core.calls[c].slot
                                && (s.core.calls[c].phase.Returned? ==> t.core.calls[c] == s.core.calls[c]))
  {
    hide Similar, Core.Apply, Core.Enabled, Config.Valid;
    if a.Inner? {
      InnerStepKeepsCalls(cfg.core, s.core, a.step);
    }
  }

  lemma StepKeepsOthers(cfg: Config, s: State, a: Step, c: CallId)
    requires cfg.Valid() && Inv(cfg, s) && Enabled(s, a) && c in s.calls && (a.Inner? || a.c != c)
    ensures CallOk(cfg, Apply(cfg, s, a), c)
  {
    var t := Apply(cfg, s, a);
    StepGrows(cfg, s, a);
    StepKeepsInnerCalls(cfg, s, a, c);
    StepKeepsPhase(cfg, s, a, c);
    assert CallOk(cfg, s, c);
    KeepCallOk(cfg, s, t, c);
  }

  lemma KeepCallOk(cfg: Config, s: State, t: State, c: CallId)
    requires cfg.Valid() && c in s.calls && CallOk(cfg, s, c) && Grows(s, t)
    requires c in t.calls && t.calls[c] == s.calls[c]
    requires c in t.core.calls <==> c in s.core.calls
    requires c in s.core.calls ==>
      t.core.calls[c].slot == s.core.calls[c].slot
      && (s.core.calls[c].phase.Returned? ==> t.core.calls[c] == s.core.calls[c])
    ensures CallOk(cfg, t, c)
  {
    hide Joined, Similar;
    if GroupOf(s.calls[c]).Some? && !s.calls[c].phase.Publishing? {
      var g := GroupOf(s.calls[c]).value;
      UnfoldJoined(cfg, s, c, g);
      JoinedLasts(cfg, s, t, c, g);
    }
  }

  lemma UnfoldJoined(cfg: Config, s: State, c: CallId, g: string)
    requires cfg.Valid() && c in s.calls && Joined(cfg, s, c, g)
    ensures c in s.core.calls && s.core.calls[c].slot == g && Published(s, g)
  {
  }

  lemma ListedInScope(s: State, listing: seq<string>, scope: string)
    requires SetsOk(s) && Lists(listing, Active(s, scope))
    ensures AllInScope(s, listing, scope)
  {
    forall i | 0 <= i < |listing| ensures InScope(s, listing[i], scope) {
      assert listing[i] in (set id | id in listing);
    }
  }

  /** Looking for a group: `ListActive`, `Compare`, `Skip`, `DropMember`, `AddGroup`. */
  predicate Searches(a: Step) {
    a.ListActive? || a.Compare? || a.Skip? || a.DropMember? || a.AddGroup?
  }

  lemma StepKeepsSearcher(cfg: Config, s: State, a: Step)
    requires cfg.Valid() && CallsOk(cfg, s) && GroupsOk(s) && SetsOk(s) && Enabled(s, a) && Searches(a)
    ensures CallOk(cfg, Apply(cfg, s, a), a.c)
  {
    hide Similar, Config.Valid, Lists;
    assert CallOk(cfg, s, a.c);
    if a.ListActive? {
      ListedInScope(s, a.listing, s.calls[a.c].scope);
    }
    if a.Compare? {
      assert GroupOk(s, s.calls[a.c].phase.todo[0]);
    }
  }

  lemma StepKeepsPublisher(cfg: Config, s: State, c: CallId)
    requires cfg.Valid() && CallsOk(cfg, s) && GroupsOk(s) && Enabled(s, PublishVec(c))
    ensures CallOk(cfg, Apply(cfg, s, PublishVec(c)), c)
  {
    hide Similar, Config.Valid, Lists;
    assert CallOk(cfg, s, c);
    assert GroupOk(s, s.calls[c].phase.group);
  }

  lemma StepKeepsMember(cfg: Config, s: State, a: Step)
    requires cfg.Valid() && CallsOk(cfg, s) && GroupsOk(s)
    requires Enabled(s, a) && (a.Return? || a.DropVec? || a.Leave?)
    ensures CallOk(cfg, Apply(cfg, s, a), a.c)
  {
    hide Similar, Config.Valid, Lists, Joined, Core.Apply, Core.Enabled, Active, HasVec, Grows;
    var g := s.calls[a.c].phase.group;
    assert CallOk(cfg, s, a.c);
    UnfoldJoined(cfg, s, a.c, g);
    StepGrows(cfg, s, a);
    JoinedLasts(cfg, s, Apply(cfg, s, a), a.c, g);
  }

  lemma StepKeepsLoner(cfg: Config, s: State, a: Step)
    requires cfg.Valid() && CallsOk(cfg, s) && s.core.calls.Keys <= s.calls.Keys
    requires Enabled(s, a) && (a.Arrive? || a.RunAlone? || a.Fail?)
    ensures CallOk(cfg, Apply(cfg, s, a), a.c)
  {
    hide Similar, Config.Valid, Lists, Joined, Core.Apply, Core.Enabled;
    if !a.Arrive? {
      assert CallOk(cfg, s, a.c);
    }
  }

  lemma StepKeepsGroups(cfg: Config, s: State, a: Step, g: string)
    requires cfg.Valid() && GroupsOk(s) && Enabled(s, a) && g in Apply(cfg, s, a).groups
    ensures GroupOk(Apply(cfg, s, a), g)
  {
    hide Apply, Core.Enabled, Config.Valid, Lists, HasVec, Active;
    StepWrites(cfg, s, a);
    if g in s.groups {
      assert GroupOk(s, g);
      StepKeepsGroup(cfg, s, a, s.groups[g].creator);
    } else {
      ActorKeepsGroup(cfg, s, a);
    }
  }

  lemma StepKeepsActive(cfg: Config, s: State, a: Step, scope: string, id: string)
    requires cfg.Valid() && SetsOk(s) && Enabled(s, a)
    requires id in Active(Apply(cfg, s, a), scope)
    ensures id in Active(s, scope) || a == AddGroup(a.c, id)
    ensures InScope(Apply(cfg, s, a), id, scope)
  {
    hide Similar, Core.Apply, Core.Enabled, Config.Valid, Lists;
    assert id in Active(s, scope) ==> InScope(s, id, scope);
  }

  lemma StepKeepsVec(cfg: Config, s: State, a: Step, g: string)
    requires cfg.Valid() && CallsOk(cfg, s) && SetsOk(s) && GroupsOk(s) && Enabled(s, a) && g in Apply(cfg, s, a).vecs
    ensures var t := Apply(cfg, s, a); Published(t, g) && t.vecs[g].emb == t.groups[g].emb
  {
    hide Apply, Core.Enabled, Config.Valid, Lists, HasVec, Active, Joined, GroupOf;
    StepWrites(cfg, s, a);
    if a.PublishVec? && s.calls[a.c].phase.group == g {
      assert CallOk(cfg, s, a.c) && GroupOk(s, g);
      StepKeepsGroup(cfg, s, a, a.c);
    } else {
      StepGrows(cfg, s, a);
      assert Published(s, g);
    }
  }

  lemma StepKeepsCleaned(cfg: Config, s: State, a: Step, g: string)
    requires cfg.Valid() && CallsOk(cfg, s) && SetsOk(s) && GroupsOk(s) && Enabled(s, a)
    requires g in Apply(cfg, s, a).cleaned
    ensures var t := Apply(cfg, s, a); Published(t, g) && Cleaned(t, g)
  {
    hide Apply, Core.Enabled, Config.Valid, Lists, HasVec, Active, GroupOf;
    StepWrites(cfg, s, a);
    StepGrows(cfg, s, a);
    if g in s.cleaned {
      assert Published(s, g) && Cleaned(s, g);
      CleanedStaysOut(cfg, s, a, g);
    } else {
      assert CallOk(cfg, s, a.c);
      LeaverIsOut(cfg, s, a.c);
    }
  }

  lemma LeaverIsOut(cfg: Config, s: State, c: CallId)
    requires cfg.Valid() && Enabled(s, Leave(c))
    ensures s.calls[c].phase.group !in Active(Apply(cfg, s, Leave(c)), s.calls[c].scope)
  {
  }

  /** A published group that is out of its scope's active set is never added again. */
  lemma CleanedStaysOut(cfg: Config, s: State, a: Step, g: string)
    requires cfg.Valid() && Enabled(s, a) && g in s.groups && g !in Active(s, s.groups[g].scope)
    ensures g !in Active(Apply(cfg, s, a), s.groups[g].scope)
  {
    hide Similar, Core.Apply, Core.Enabled, Config.Valid, Lists;
  }

  lemma StepKeepsSets(cfg: Config, s: State, a: Step)
    requires cfg.Valid() && CallsOk(cfg, s) && SetsOk(s) && GroupsOk(s) && Enabled(s, a)
    ensures SetsOk(Apply(cfg, s, a))
  {
    hide Apply, Enabled, Config.Valid, CallOk;
    var t := Apply(cfg, s, a);
    forall scope, id | id in Active(t, scope) ensures InScope(t, id, scope) {
      StepKeepsActive(cfg, s, a, scope, id);
    }
    forall g | g in t.vecs ensures Published(t, g) && t.vecs[g].emb == t.groups[g].emb {
      StepKeepsVec(cfg, s, a, g);
    }
    forall g | g in t.cleaned ensures Published(t, g) && Cleaned(t, g) {
      StepKeepsCleaned(cfg, s, a, g);
    }
  }

  lemma StepKeepsCore(cfg: Config, s: State, a: Step)
    requires cfg.Valid() && Inv(cfg, s) && Enabled(s, a)
    ensures Core.Inv(Apply(cfg, s, a).core)
  {
    match a
    case Inner(step) => Core.StepKeepsInv(cfg.core, s.core, step);
    case Compare(c) =>
      assert CallOk(cfg, s, c);
      Core.StepKeepsInv(cfg.core, s.core, Core.Arrive(c, s.calls[c].phase.todo[0]));
    case PublishVec(c) =>
      assert CallOk(cfg, s, c);
      Core.StepKeepsInv(cfg.core, s.core, Core.Arrive(c, s.calls[c].phase.group));
    case _ =>
  }

  lemma CallersInside(cfg: Config, s: State, a: Step)
    requires cfg.Valid() && Enabled(s, a) && s.core.calls.Keys <= s.calls.Keys
    ensures var t := Apply(cfg, s, a);
      t.core.calls.Keys <= t.calls.Keys && (forall c :: c in t.calls && c !in s.calls ==> a.Arrive? && a.c == c)
  {
    hide Similar, Core.Apply, Core.Enabled, Config.Valid, Lists, HasVec, Active;
    if a.Inner? {
      InnerStepKeepsCalls(cfg.core, s.core, a.step);
    }
  }

  lemma StepKeepsInv(cfg: Config, s: State, a: Step)
    requires cfg.Valid() && Inv(cfg, s) && Enabled(s, a)
    ensures Inv(cfg, Apply(cfg, s, a))
  {
    hide Apply, Enabled, Config.Valid, CallOk, GroupOk, SetsOk, Core.Inv;
    var t := Apply(cfg, s, a);
    StepKeepsCore(cfg, s, a);
    CallersInside(cfg, s, a);
    StepKeepsSets(cfg, s, a);
    forall c | c in t.calls ensures CallOk(cfg, t, c) {
      if a.Inner? || a.c != c {
        StepKeepsOthers(cfg, s, a, c);
      } else if Searches(a) {
        StepKeepsSearcher(cfg, s, a);
      } else if a.PublishVec? {
        StepKeepsPublisher(cfg, s, c);
      } else if a.Return? || a.DropVec? || a.Leave? {
        StepKeepsMember(cfg, s, a);
      } else {
        StepKeepsLoner(cfg, s, a);
      }
    }
    forall g | g in t.groups ensures GroupOk(t, g) {
      StepKeepsGroups(cfg, s, a, g);
    }
  }

  lemma {:induction false} RunKeepsInv(cfg: Config, s: State, steps: seq<Step>)
    requires cfg.Valid() && Inv(cfg, s) && Legal(cfg, s, steps)
    ensures Inv(cfg, After(cfg, s, steps))
    decreases |steps|
  {
    if steps != [] {
      StepKeepsInv(cfg, s, steps[0]);
      RunKeepsInv(cfg, Apply(cfg, s, steps[0]), steps[1..]);
    }
  }

  // ---------------------------------------------------------------------------------------------------
  // Who may share an answer
  // ---------------------------------------------------------------------------------------------------

  /** The execution of fn whose result c was handed, for a call that went through a group. */
  function AnsweredBy(s: State, c: CallId): Option<CallId> {
    if c in s.calls && s.calls[c].phase.Finished? && s.calls[c].phase.merged.Some?
    then Core.Source(c, s.calls[c].phase.answer) else None
  }

  lemma AnswerFromOwnGroup(cfg: Config, s: State, c: CallId)
    requires cfg.Valid() && Inv(cfg, s) && AnsweredBy(s, c).Some?
    ensures var g, w := s.calls[c].phase.merged.value, AnsweredBy(s, c).value;
      Joined(cfg, s, c, g) && w in s.core.calls && s.core.calls[w].slot == g && w in s.core.executed
  {
    assert CallOk(cfg, s, c);
    assert Core.CallOk(s.core, c);
  }

  /**
    In every run, two calls that are handed the answer of one execution are of the same scope, and each of them
    made the representative of one common group or reached the threshold against it. For a threshold of at most 1
    their own vectors are then at cosine at least 2t^2 - 1.
   */
  lemma SharersAreSimilar(cfg: Config, steps: seq<Step>, c: CallId, d: CallId)
    requires cfg.Valid() && Legal(cfg, Init, steps) && c != d
    requires var s := After(cfg, Init, steps); AnsweredBy(s, c).Some? && AnsweredBy(s, c) == AnsweredBy(s, d)
    ensures var s := After(cfg, Init, steps);
      && s.calls[c].scope == s.calls[d].scope
      && (exists g :: g in s.groups && Represented(cfg, s, c, g) && Represented(cfg, s, d, g))
      && (cfg.measure.threshold <= 1.0 ==>
            Comparable(s.calls[c].emb, s.calls[d].emb)
            && Cos(cfg.measure.sqrt, s.calls[c].emb, s.calls[d].emb) >= SharedBound(cfg.measure))
  {
    InitOk(cfg);
    RunKeepsInv(cfg, Init, steps);
    var s := After(cfg, Init, steps);
    AnswerFromOwnGroup(cfg, s, c);
    AnswerFromOwnGroup(cfg, s, d);
    RepresentedAreClose(cfg, s, c, d, s.calls[c].phase.merged.value);
  }

  lemma InitOk(cfg: Config)
    requires cfg.Valid()
    ensures Inv(cfg, Init)
  {
  }

  lemma RepresentedAreClose(cfg: Config, s: State, c: CallId, d: CallId, g: string)
    requires cfg.Valid() && c in s.calls && d in s.calls && g in s.groups && c != d
    requires Represented(cfg, s, c, g) && Represented(cfg, s, d, g)
    ensures cfg.measure.threshold <= 1.0 ==>
      Comparable(s.calls[c].emb, s.calls[d].emb)
      && Cos(cfg.measure.sqrt, s.calls[c].emb, s.calls[d].emb) >= SharedBound(cfg.measure)
  {
    var u, v, r := s.calls[c].emb, s.calls[d].emb, s.groups[g].emb;
    if cfg.measure.threshold <= 1.0 {
      if s.groups[g].creator == c {
        RepresentativeItself(cfg.measure, v, r);
      } else if s.groups[g].creator == d {
        RepresentativeItself(cfg.measure, u, r);
      } else {
        SharedRepresentative(cfg.measure, u, v, r);
      }
    }
  }

  // ---------------------------------------------------------------------------------------------------
  // After the clean-up
  // ---------------------------------------------------------------------------------------------------

  predicate NotIn(s: State, c: CallId, g: string) {
    c in s.calls ==> GroupOf(s.calls[c]) != Some(g)
  }

  /** The group a call comes to be in by a step: a new one of its own, or one whose vector it has read. */
  lemma GroupBecomes(cfg: Config, s: State, a: Step)
    requires cfg.Valid() && Enabled(s, a) && !a.Inner?
    ensures var t := Apply(cfg, s, a);
      a.c in t.calls
      && match GroupOf(t.calls[a.c])
         case None => true
         case Some(g) => (a.c in s.calls && GroupOf(s.calls[a.c]) == Some(g)) || g !in s.groups || g in s.vecs
  {
    hide Similar, Core.Apply, Core.Enabled, Config.Valid, Lists, Active;
  }

  lemma StepKeepsOut(cfg: Config, s: State, a: Step, c: CallId, g: string)
    requires cfg.Valid() && Inv(cfg, s) && Enabled(s, a) && g in s.cleaned && NotIn(s, c, g)
    ensures NotIn(Apply(cfg, s, a), c, g) && g in Apply(cfg, s, a).cleaned
  {
    hide Apply, Enabled, Config.Valid, CallsOk, GroupsOk, Core.Inv, GroupOf;
    assert Published(s, g) && Cleaned(s, g);
    StepWrites(cfg, s, a);
    if !a.Inner? && a.c == c {
      GroupBecomes(cfg, s, a);
    } else if c in s.calls {
      StepKeepsPhase(cfg, s, a, c);
    } else {
      CallersInside(cfg, s, a);
    }
  }

  /**
    Once a leader has cleaned its group up (vector deleted, then the id removed), no call that is not in the group
    already ever joins it - not one that lists the active set later, and not one that had listed it before.
   */
  lemma {:induction false} NoJoinAfterCleanup(cfg: Config, s: State, steps: seq<Step>, c: CallId, g: string)
    requires cfg.Valid() && Inv(cfg, s) && Legal(cfg, s, steps)
    requires g in s.cleaned && NotIn(s, c, g)
    ensures NotIn(After(cfg, s, steps), c, g)
    decreases |steps|
  {
    if steps != [] {
      StepKeepsInv(cfg, s, steps[0]);
      StepKeepsOut(cfg, s, steps[0], c, g);
      NoJoinAfterCleanup(cfg, Apply(cfg, s, steps[0]), steps[1..], c, g);
    }
  }

  // ---------------------------------------------------------------------------------------------------
  // The cap on active groups
  // ---------------------------------------------------------------------------------------------------

  /** The scope's calls that have not returned. */
  function InFlight(s: State, scope: string): set<CallId> {
    set c | c in s.calls && s.calls[c].scope == scope && !s.calls[c].phase.Finished?
  }

  /** Those past the check of the cap that may still add a group. */
  function MayAdd(s: State, scope: string): set<CallId> {
    set c | c in s.calls && s.calls[c].scope == scope && (s.calls[c].phase.Scanning? || s.calls[c].phase.Dropping?)
  }

  /** At most n calls of the scope are in flight, in every state of the run. */
  ghost predicate AtMost(cfg: Config, s: State, steps: seq<Step>, scope: string, n: nat)
    requires cfg.Valid() && Legal(cfg, s, steps)
    decreases |steps|
  {
    |InFlight(s, scope)| <= n && (steps != [] ==> AtMost(cfg, Apply(cfg, s, steps[0]), steps[1..], scope, n))
  }

  /** Members, and those that may still add one, stay below the cap plus the number of calls in flight. */
  predicate Capped(cfg: Config, s: State, scope: string, n: nat) {
    |Active(s, scope)| + |MayAdd(s, scope)| <= cfg.maxActive - 1 + n
  }

  lemma ActiveAfter(cfg: Config, s: State, a: Step, scope: string)
    requires cfg.Valid() && Enabled(s, a)
    ensures var t := Apply(cfg, s, a);
      Active(t, scope) <= Active(s, scope) + (if a.AddGroup? && s.calls[a.c].scope == scope then {a.id} else {})
  {
    hide Similar, Core.Apply, Core.Enabled, Lists, Config.Valid;
  }

  lemma MayAddAfter(cfg: Config, s: State, a: Step, scope: string)
    requires cfg.Valid() && Enabled(s, a)
    ensures var t := Apply(cfg, s, a);
      && MayAdd(t, scope) <= MayAdd(s, scope) + (if a.ListActive? then {a.c} else {})
      && (a.AddGroup? && s.calls[a.c].scope == scope ==> a.c in MayAdd(s, scope) && a.c !in MayAdd(t, scope))
      && (a.ListActive? && |a.listing| >= cfg.maxActive ==> a.c !in MayAdd(t, scope))
      && (a.ListActive? && s.calls[a.c].scope != scope ==> a.c !in MayAdd(t, scope))
  {
    hide Similar, Core.Apply, Core.Enabled, Lists, Config.Valid, Active;
  }

  lemma StepKeepsCap(cfg: Config, s: State, a: Step, scope: string, n: nat)
    requires cfg.Valid() && Enabled(s, a) && Capped(cfg, s, scope, n)
    requires |InFlight(Apply(cfg, s, a), scope)| <= n
    ensures Capped(cfg, Apply(cfg, s, a), scope, n)
  {
    hide Apply, Config.Valid;
    var t := Apply(cfg, s, a);
    var before, after := MayAdd(s, scope), MayAdd(t, scope);
    ActiveAfter(cfg, s, a, scope);
    MayAddAfter(cfg, s, a, scope);
    if a.AddGroup? && s.calls[a.c].scope == scope {
      Core.SubsetSize(after, before - {a.c});
      Core.SubsetSize(Active(t, scope), Active(s, scope) + {a.id});
    } else {
      Core.SubsetSize(Active(t, scope), Active(s, scope));
      if a.ListActive? && a.c in after {
        assert after <= InFlight(t, scope);
        Core.SubsetSize(after, InFlight(t, scope));
      } else {
        Core.SubsetSize(after, before);
      }
    }
  }

  /** With at most n concurrent calls in a scope, its active set never has more than maxActive - 1 + n members. */
  lemma ActiveSetCapped(cfg: Config, steps: seq<Step>, scope: string, n: nat)
    requires cfg.Valid() && Legal(cfg, Init, steps) && AtMost(cfg, Init, steps, scope, n)
    ensures |Active(After(cfg, Init, steps), scope)| <= cfg.maxActive - 1 + n
  {
    assert Active(Init, scope) == {} && MayAdd(Init, scope) == {};
    RunKeepsCap(cfg, Init, steps, scope, n);
  }

  lemma {:induction false} RunKeepsCap(cfg: Config, s: State, steps: seq<Step>, scope: string, n: nat)
    requires cfg.Valid() && Legal(cfg, s, steps) && AtMost(cfg, s, steps, scope, n) && Capped(cfg, s, scope, n)
    ensures Capped(cfg, After(cfg, s, steps), scope, n)
    decreases |steps|
  {
    if steps != [] {
      StepKeepsCap(cfg, s, steps[0], scope, n);
      RunKeepsCap(cfg, Apply(cfg, s, steps[0]), steps[1..], scope, n);
    }
  }

  // ---------------------------------------------------------------------------------------------------
  // Where merging fails
  // ---------------------------------------------------------------------------------------------------

  ghost predicate LeadsTo(cfg: Config, steps: seq<Step>, s: State)
    requires cfg.Valid()
  {
    Legal(cfg, Init, steps) && After(cfg, Init, steps) == s
  }

  lemma {:induction false} Extend(cfg: Config, s: State, steps: seq<Step>, a: Step)
    requires cfg.Valid() && Legal(cfg, s, steps) && Enabled(After(cfg, s, steps), a)
    ensures Legal(cfg, s, steps + [a])
    ensures After(cfg, s, steps + [a]) == Apply(cfg, After(cfg, s, steps), a)
    decreases |steps|
  {
    hide Apply, Enabled;
    if steps == [] {
      assert [a][1..] == [] && [] + [a] == [a];
    } else {
      assert (steps + [a])[1..] == steps[1..] + [a];
      Extend(cfg, Apply(cfg, s, steps[0]), steps[1..], a);
    }
  }

  lemma Then(cfg: Config, steps: seq<Step>, s: State, a: Step) returns (more: seq<Step>, t: State)
    requires cfg.Valid() && LeadsTo(cfg, steps, s) && Enabled(s, a)
    ensures LeadsTo(cfg, more, t) && t == Apply(cfg, s, a)
  {
    Extend(cfg, Init, steps, a);
    more, t := steps + [a], Apply(cfg, s, a);
  }

  /** Two calls with one and the same vector are each executing fn, in a group of their own. */
  predicate ExecutedTwice(s: State, scope: string, emb: Vector) {
    && 0 in s.calls && s.calls[0] == Call(scope, emb, Merging("a"))
    && 1 in s.calls && s.calls[1] == Call(scope, emb, Merging("b"))
    && {0, 1} <= s.core.executed
  }

  /**
    SADD and SET of the vector are two commands. A call that lists the new id before its vector is there takes it
    for a dead one and removes it: the first group is then published but in nobody's sight, and two calls with one
    and the same vector each run fn.
   */
  lemma OrphanedGroup(cfg: Config, scope: string, emb: Vector) returns (steps: seq<Step>, s: State)
    requires cfg.Valid() && NonZero(emb) && cfg.maxActive >= 2
    ensures LeadsTo(cfg, steps, s) && ExecutedTwice(s, scope, emb)
    ensures HasVec(s, "a") && "a" in s.dropped && Active(s, scope) == {"b"}
  {
    hide Similar;
    steps, s := FirstAdds(cfg, scope, emb);
    steps, s := Then(cfg, steps, s, Compare(1));
    steps, s := Then(cfg, steps, s, DropMember(1));
    assert s.calls[1] == Call(scope, emb, Scanning([])) by { assert ["a"][1..] == []; }
    assert Active(s, scope) == {};
    steps, s := Then(cfg, steps, s, PublishVec(0));
    steps, s := Then(cfg, steps, s, AddGroup(1, "b"));
    steps, s := Then(cfg, steps, s, PublishVec(1));
    steps, s := BothExecute(cfg, steps, s, scope, emb);
  }

  /** Or each of the two lists the active set before the other's SADD; nobody then removes anything. */
  lemma UnseenGroup(cfg: Config, scope: string, emb: Vector) returns (steps: seq<Step>, s: State)
    requires cfg.Valid() && NonZero(emb)
    ensures LeadsTo(cfg, steps, s) && ExecutedTwice(s, scope, emb)
    ensures HasVec(s, "a") && HasVec(s, "b") && s.dropped == {} && Active(s, scope) == {"a", "b"}
  {
    hide Similar;
    steps, s := BothList(cfg, scope, emb);
    steps, s := Then(cfg, steps, s, AddGroup(0, "a"));
    steps, s := Then(cfg, steps, s, AddGroup(1, "b"));
    assert Active(s, scope) == {"a", "b"};
    steps, s := Then(cfg, steps, s, PublishVec(0));
    steps, s := Then(cfg, steps, s, PublishVec(1));
    steps, s := BothExecute(cfg, steps, s, scope, emb);
  }

  lemma BothList(cfg: Config, scope: string, emb: Vector) returns (steps: seq<Step>, s: State)
    requires cfg.Valid() && NonZero(emb)
    ensures LeadsTo(cfg, steps, s)
    ensures s.calls == map[0 := Call(scope, emb, Scanning([])), 1 := Call(scope, emb, Scanning([]))]
    ensures s.core == Core.Init && s.vecs == map[] && s.groups == map[] && s.dropped == {} && Active(s, scope) == {}
  {
    hide Similar;
    steps, s := [], Init;
    steps, s := Then(cfg, steps, s, Arrive(0, scope, emb));
    steps, s := Then(cfg, steps, s, ListActive(0, []));
    steps, s := Then(cfg, steps, s, Arrive(1, scope, emb));
    steps, s := Then(cfg, steps, s, ListActive(1, []));
  }

  /** Or the second call's GET of the vector fails. */
  lemma UnreadGroup(cfg: Config, scope: string, emb: Vector) returns (steps: seq<Step>, s: State)
    requires cfg.Valid() && NonZero(emb) && cfg.maxActive >= 2
    ensures LeadsTo(cfg, steps, s) && ExecutedTwice(s, scope, emb)
    ensures HasVec(s, "a") && s.dropped == {} && Active(s, scope) == {"a", "b"}
  {
    hide Similar;
    steps, s := FirstAdds(cfg, scope, emb);
    steps, s := Then(cfg, steps, s, PublishVec(0));
    steps, s := Then(cfg, steps, s, Skip(1));
    assert s.calls[1] == Call(scope, emb, Scanning([])) by { assert ["a"][1..] == []; }
    steps, s := Then(cfg, steps, s, AddGroup(1, "b"));
    steps, s := Then(cfg, steps, s, PublishVec(1));
    assert Active(s, scope) == {"a", "b"};
    steps, s := BothExecute(cfg, steps, s, scope, emb);
  }

  /** Both calls find no result and take their groups' locks. */
  lemma BothExecute(cfg: Config, before: seq<Step>, s: State, scope: string, emb: Vector)
    returns (steps: seq<Step>, t: State)
    requires cfg.Valid() && LeadsTo(cfg, before, s)
    requires 0 in s.calls && s.calls[0] == Call(scope, emb, Merging("a"))
    requires 1 in s.calls && s.calls[1] == Call(scope, emb, Merging("b"))
    requires s.core == Core.Init.(calls := map[0 := Core.Call("a", Core.Reading), 1 := Core.Call("b", Core.Reading)])
    ensures LeadsTo(cfg, steps, t) && ExecutedTwice(t, scope, emb)
    ensures t == s.(core := t.core) && t.core.now == s.core.now
  {
    hide LeadsTo, Similar;
    steps, t := Then(cfg, before, s, Inner(Core.GetResult(0)));
    steps, t := Then(cfg, steps, t, Inner(Core.GetResult(1)));
    steps, t := Then(cfg, steps, t, Inner(Core.TryLock(0)));
    steps, t := Then(cfg, steps, t, Inner(Core.TryLock(1)));
  }

  /** The first call has added its group, and the second has listed it. */
  lemma FirstAdds(cfg: Config, scope: string, emb: Vector) returns (steps: seq<Step>, s: State)
    requires cfg.Valid() && NonZero(emb) && cfg.maxActive >= 2
    ensures LeadsTo(cfg, steps, s)
    ensures s.calls == map[0 := Call(scope, emb, Publishing("a")), 1 := Call(scope, emb, Scanning(["a"]))]
    ensures s.core == Core.Init && s.vecs == map[] && s.groups.Keys == {"a"} && Active(s, scope) == {"a"}
    ensures s.dropped == {}
  {
    hide Similar;
    steps, s := [], Init;
    steps, s := Then(cfg, steps, s, Arrive(0, scope, emb));
    steps, s := Then(cfg, steps, s, ListActive(0, []));
    steps, s := Then(cfg, steps, s, AddGroup(0, "a"));
    steps, s := Then(cfg, steps, s, Arrive(1, scope, emb));
    assert Lists(["a"], {"a"});
    steps, s := Then(cfg, steps, s, ListActive(1, ["a"]));
  }
}
