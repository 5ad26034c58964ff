/**
  `Create` command by command (internal/rules/redis_store.go): SETNX of the index entry, then SET of the record and
  SADD of the id, with any number of creations interleaved at every command. The interleaving refines the atomic
  `RuleStore.Create`, which happens at the SETNX.
 */
module RuleCreation {
  import opened RuleStore
  import opened Wrappers

  datatype Phase = Claiming | Writing | Adding | Done | Refused

  /** A creation under way, and the command that is next. Creations are told apart by their new ids. */
  datatype Job = Job(k: Creation, now: int, phase: Phase)

  datatype State = State(store: Store, jobs: map<string, Job>)

  datatype Step =
    | Begin(id: string, k: Creation, now: int)
    | Claim(id: string)
    | Write(id: string)
    | Add(id: string)

  predicate Enabled(s: State, a: Step) {
    match a
    case Begin(id, k, _) => id != "" && id !in s.jobs && id !in s.store.rules && k.key != ""
    case Claim(id) => id in s.jobs && s.jobs[id].phase.Claiming?
    case Write(id) => id in s.jobs && s.jobs[id].phase.Writing?
    case Add(id) => id in s.jobs && s.jobs[id].phase.Adding?
  }

  function JobRule(s: State, id: string): ExactRule
    requires id in s.jobs
  {
    Created(id, s.jobs[id].k, s.jobs[id].now)
  }

  function Goto(s: State, id: string, p: Phase): map<string, Job>
    requires id in s.jobs
  {
    s.jobs[id := s.jobs[id].(phase := p)]
  }

  function Apply(s: State, a: Step): State
    requires Enabled(s, a)
  {
    match a
    case Begin(id, k, now) => s.(jobs := s.jobs[id := Job(k, now, Claiming)])
    case Claim(id) =>
      var x := RuleIndex(JobRule(s, id));
      if x in s.store.idx then s.(jobs := Goto(s, id, Refused))
      else State(s.store.(idx := s.store.idx[x := id]), Goto(s, id, Writing))
    case Write(id) => State(s.store.(rules := s.store.rules[id := JobRule(s, id)]), Goto(s, id, Adding))
    case Add(id) => State(s.store.(ids := s.store.ids + {id}), Goto(s, id, Done))
  }

  predicate Legal(s: State, steps: seq<Step>)
    decreases |steps|
  {
    steps == [] || (Enabled(s, steps[0]) && Legal(Apply(s, steps[0]), steps[1..]))
  }

  function After(s: State, steps: seq<Step>): State
    requires Legal(s, steps)
    decreases |steps|
  {
    if steps == [] then s else After(Apply(s, steps[0]), steps[1..])
  }

  /** Past its SETNX, with success. */
  predicate Owns(j: Job) {
    j.phase.Writing? || j.phase.Adding? || j.phase.Done?
  }

  function Owners(s: State): set<string> {
    set id | id in s.jobs && Owns(s.jobs[id])
  }

  /** The store as it will be once every creation that has its index entry is through. */
  function Completed(s: State): Store {
    Store(s.store.rules + (map id | id in Owners(s) :: JobRule(s, id)), s.store.idx, s.store.ids + Owners(s))
  }

  predicate JobOk(s: State, id: string)
    requires id in s.jobs
  {
    var phase := s.jobs[id].phase;
    && id != "" && s.jobs[id].k.key != ""
    && (phase.Adding? || phase.Done? ==> id in s.store.rules && s.store.rules[id] == JobRule(s, id))
    && (phase.Done? ==> id in s.store.ids)
    && (phase.Claiming? || phase.Writing? || phase.Refused? ==> id !in s.store.rules)
  }

  ghost predicate Inv(s: State) {
    RuleStore.Inv(Completed(s)) && forall id :: id in s.jobs ==> JobOk(s, id)
  }

  lemma StepKeepsJobs(s: State, a: Step)
    requires (forall id :: id in s.jobs ==> JobOk(s, id)) && Enabled(s, a)
    ensures var t := Apply(s, a); forall id :: id in t.jobs ==> JobOk(t, id)
  {
    var t := Apply(s, a);
    forall id | id in t.jobs ensures JobOk(t, id) {
      if id in s.jobs {
        assert JobOk(s, id);
      }
    }
  }

  /** All but a successful SETNX. */
  lemma OtherStepsAreInvisible(s: State, a: Step)
    requires (forall id :: id in s.jobs ==> JobOk(s, id)) && Enabled(s, a)
    requires a.Claim? ==> RuleIndex(JobRule(s, a.id)) in s.store.idx
    ensures Completed(Apply(s, a)) == Completed(s)
  {
    hide RuleIndex, Created, JobOk;
    var t := Apply(s, a);
    assert Owners(t) == Owners(s);
    forall id | id in s.jobs && id in t.jobs ensures JobRule(t, id) == JobRule(s, id) {
    }
    SameCompleted(s, t, a);
  }

  lemma SameCompleted(s: State, t: State, a: Step)
    requires Owners(t) == Owners(s) && t.store.idx == s.store.idx
    requires forall id :: id in s.jobs ==> id in t.jobs && JobRule(t, id) == JobRule(s, id)
    requires t.store.rules == s.store.rules ||
             (a.Write? && a.id in Owners(s) && t.store.rules == s.store.rules[a.id := JobRule(s, a.id)])
    requires t.store.ids == s.store.ids || (a.Add? && a.id in Owners(s) && t.store.ids == s.store.ids + {a.id})
    ensures Completed(t) == Completed(s)
  {
    hide JobRule;
    assert Completed(t).rules == Completed(s).rules;
  }

  lemma ClaimIsCreate(s: State, id: string)
    requires (forall id :: id in s.jobs ==> JobOk(s, id)) && Enabled(s, Claim(id))
    requires RuleIndex(JobRule(s, id)) !in s.store.idx
    ensures Completed(Apply(s, Claim(id))) == Create(Completed(s), s.jobs[id].k, id, s.jobs[id].now).0
    ensures id !in Completed(s).rules
  {
    hide IndexString;
    var t := Apply(s, Claim(id));
    assert JobOk(s, id);
    assert Owners(t) == Owners(s) + {id};
    forall other | other in s.jobs ensures JobRule(t, other) == JobRule(s, other) {
    }
    var after := Create(Completed(s), s.jobs[id].k, id, s.jobs[id].now).0;
    assert Completed(t).rules == Completed(s).rules[id := JobRule(s, id)] by { OneMoreOwner(s, t, id); }
    assert Completed(t).ids == after.ids;
  }

  lemma OneMoreOwner(s: State, t: State, id: string)
    requires id in s.jobs && id !in Owners(s) && Owners(t) == Owners(s) + {id} && t.store.rules == s.store.rules
    requires forall other :: other in s.jobs ==> other in t.jobs && JobRule(t, other) == JobRule(s, other)
    ensures Completed(t).rules == Completed(s).rules[id := JobRule(s, id)]
  {
    hide JobRule;
  }

  /**
    What a step does to the completed store: only the SETNX counts, and it is the atomic creation, refused exactly
    when that is.
   */
  lemma StepRefines(s: State, a: Step)
    requires Inv(s) && Enabled(s, a)
    ensures var t := Apply(s, a);
      match a
      case Claim(id) =>
        var (after, r) := Create(Completed(s), s.jobs[id].k, id, s.jobs[id].now);
        Completed(t) == after && (t.jobs[id].phase.Refused? <==> r == Err(Conflict))
      case _ => Completed(t) == Completed(s)
    ensures Inv(Apply(s, a))
  {
    hide Completed;
    StepKeepsJobs(s, a);
    if a.Claim? {
      assert JobOk(s, a.id);
      CompletedIndex(s);
    }
    if a.Claim? && RuleIndex(JobRule(s, a.id)) !in s.store.idx {
      ClaimIsCreate(s, a.id);
      OpKeepsInv(Completed(s), DoCreate(s.jobs[a.id].k, a.id, s.jobs[a.id].now));
    } else {
      OtherStepsAreInvisible(s, a);
    }
  }

  lemma CompletedIndex(s: State)
    ensures Completed(s).idx == s.store.idx
  {
  }

  /** No creation is between its SETNX and its SADD. */
  predicate Quiet(s: State) {
    forall id :: id in s.jobs ==> !s.jobs[id].phase.Writing? && !s.jobs[id].phase.Adding?
  }

  /**
    However creations interleave, starting from a consistent store: at no point do two records share scope and key,
    and whenever none is half-way the store is consistent.
   */
  lemma {:induction false} InterleavedCreations(s: State, steps: seq<Step>)
    requires Inv(s) && Legal(s, steps)
    ensures var t := After(s, steps); Inv(t) && Unique(t.store) && (Quiet(t) ==> RuleStore.Inv(t.store))
    decreases |steps|
  {
    if steps == [] {
      assert forall id :: id in s.store.rules ==> id in Completed(s).rules;
      forall id | id in s.store.rules ensures Completed(s).rules[id] == s.store.rules[id] {
        if id in Owners(s) {
          assert JobOk(s, id);
        }
      }
      if Quiet(s) {
        forall id | id in Owners(s) ensures id in s.store.rules && id in s.store.ids {
          assert JobOk(s, id);
        }
        assert Completed(s).rules == s.store.rules && Completed(s).ids == s.store.ids;
      }
    } else {
      StepRefines(s, steps[0]);
      InterleavedCreations(Apply(s, steps[0]), steps[1..]);
    }
  }

  lemma ConsistentStart(st: Store)
    requires RuleStore.Inv(st)
    ensures Inv(State(st, map[]))
  {
    assert Owners(State(st, map[])) == {};
    assert Completed(State(st, map[])) == st;
  }
}
