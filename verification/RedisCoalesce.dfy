/**
  Cross-instance coalescing over Redis (internal/coalesce/redis.go): any number of callers, on any number of
  gateway instances, share one lock key and one result key per slot. Every Redis command is a step of its own,
  so any caller may run between any two commands of another, also between the two of the leader's pipeline.

  `owner` in a lock and `writer` in an entry are history for the proofs: the keys' values do not carry them and
  no step reads them.
 */
module RedisCoalesce {
  import opened Downstream
  import opened Wrappers

  // ---------------------------------------------------------------------------------------------------
  // What is stored, and what a reader makes of it
  // ---------------------------------------------------------------------------------------------------

  datatype StoredResult = StoredResult(ok: bool, text: string, err: string)

  const GENERIC_FAILURE := "coalesce redis: 下游失败"

  function Encode(o: Outcome): StoredResult {
    match o
    case Answered(t) => StoredResult(true, t, "")
    case Failed(m) => StoredResult(false, "", m)
  }

  function Decode(r: StoredResult): Outcome {
    if r.ok then Answered(r.text)
    else if r.err == "" then Failed(GENERIC_FAILURE)
    else Failed(r.err)
  }

  /** Texts survive the store; errors survive as their message, except that the empty message is replaced. */
  lemma StoreRoundTrip(o: Outcome)
    ensures Decode(Encode(o)) == o <==> o != Failed("")
    ensures Decode(Encode(o)).Answered? <==> o.Answered?
  {
  }

  // ---------------------------------------------------------------------------------------------------
  // State and steps
  // ---------------------------------------------------------------------------------------------------

  type CallId = nat

  /** Times in milliseconds. */
  datatype Config = Config(lockTTL: int, resultTTL: int) {
    predicate Valid() {
      lockTTL > 0 && resultTTL > 0
    }
  }

  const DEFAULT_LOCK_TTL := 120_000
  const DEFAULT_RESULT_TTL := 90_000
  const FOLLOWER_GRACE := 10_000

  function NewConfig(lockTTL: int, resultTTL: int): (cfg: Config)
    ensures cfg.Valid()
    ensures lockTTL > 0 ==> cfg.lockTTL == lockTTL
    ensures resultTTL > 0 ==> cfg.resultTTL == resultTTL
    ensures lockTTL <= 0 ==> cfg.lockTTL == 120_000
    ensures resultTTL <= 0 ==> cfg.resultTTL == 90_000
  {
    Config(if lockTTL <= 0 then DEFAULT_LOCK_TTL else lockTTL,
           if resultTTL <= 0 then DEFAULT_RESULT_TTL else resultTTL)
  }

  datatype Lock = Lock(owner: CallId, until: int)

  datatype Entry = Entry(record: StoredResult, writer: CallId, until: int)

  /** What a caller gets back: its own execution, a stored one, or an error of its own (cancelled, timed out, Redis). */
  datatype Answer = Own(out: Outcome) | Shared(out: Outcome, writer: CallId) | Nothing

  datatype Phase =
    | Reading                                // GET res is next
    | Locking                                // GET found nothing, SETNX lock is next
    | Running(since: int)                    // holds the lock, fn has not returned
    | Storing(since: int, out: Outcome)      // fn has returned, SET res is next
    | Releasing(since: int, out: Outcome)    // SET done, DEL lock is next
    | Polling(deadline: int)
    | Returned(answer: Answer)

  datatype Call = Call(slot: string, phase: Phase)

  datatype State = State(
    now: int,
    locks: map<string, Lock>,
    results: map<string, Entry>,
    calls: map<CallId, Call>,
    executed: set<CallId>,
    outcomes: map<CallId, Outcome>)

  datatype Step =
    | Arrive(c: CallId, slot: string)
    | GetResult(c: CallId)
    | TryLock(c: CallId)
    | FnReturns(c: CallId, out: Outcome)
    | SetResult(c: CallId)
    | DelLock(c: CallId)
    | Poll(c: CallId)
    | GiveUp(c: CallId)
    | TimeOut(c: CallId)
    | Tick(elapsed: nat)

  const Init := State(0, map[], map[], map[], {}, map[])

  /** A key whose time to live is over is gone. */
  predicate Locked(s: State, slot: string) {
    slot in s.locks && s.now < s.locks[slot].until
  }

  predicate Stored(s: State, slot: string) {
    slot in s.results && s.now < s.results[slot].until
  }

  predicate Enabled(s: State, a: Step) {
    match a
    case Arrive(c, _) => c !in s.calls
    case GetResult(c) => c in s.calls && s.calls[c].phase.Reading?
    case TryLock(c) => c in s.calls && s.calls[c].phase.Locking?
    case FnReturns(c, _) => c in s.calls && s.calls[c].phase.Running?
    case SetResult(c) => c in s.calls && s.calls[c].phase.Storing?
    case DelLock(c) => c in s.calls && s.calls[c].phase.Releasing?
    case Poll(c) => c in s.calls && s.calls[c].phase.Polling? && s.now <= s.calls[c].phase.deadline
    case GiveUp(c) =>
      c in s.calls && (s.calls[c].phase.Reading? || s.calls[c].phase.Locking? || s.calls[c].phase.Polling?)
    case TimeOut(c) => c in s.calls && s.calls[c].phase.Polling? && s.now > s.calls[c].phase.deadline
    case Tick(_) => true
  }

  function Goto(s: State, c: CallId, p: Phase): State
    requires c in s.calls
  {
    s.(calls := s.calls[c := s.calls[c].(phase := p)])
  }

  function ReadStored(e: Entry): Phase {
    Returned(Shared(Decode(e.record), e.writer))
  }

  function Apply(cfg: Config, s: State, a: Step): State
    requires Enabled(s, a)
  {
    match a
    case Arrive(c, slot) => s.(calls := s.calls[c := Call(slot, Reading)])
    case GetResult(c) =>
      var slot := s.calls[c].slot;
      if Stored(s, slot) then Goto(s, c, ReadStored(s.results[slot])) else Goto(s, c, Locking)
    case TryLock(c) =>
      var slot := s.calls[c].slot;
      if Locked(s, slot) then Goto(s, c, Polling(s.now + cfg.lockTTL + FOLLOWER_GRACE))
      else Goto(s, c, Running(s.now)).(locks := s.locks[slot := Lock(c, s.now + cfg.lockTTL)],
                                       executed := s.executed + {c})
    case FnReturns(c, out) => Goto(s, c, Storing(s.calls[c].phase.since, out)).(outcomes := s.outcomes[c := out])
    case SetResult(c) =>
      var Call(slot, Storing(since, out)) := s.calls[c];
      Goto(s, c, Releasing(since, out)).(results := s.results[slot := Entry(Encode(out), c, s.now + cfg.resultTTL)])
    case DelLock(c) =>
      var Call(slot, Releasing(_, out)) := s.calls[c];
      Goto(s, c, Returned(Own(out))).(locks := s.locks - {slot})
    case Poll(c) =>
      var slot := s.calls[c].slot;
      if Stored(s, slot) then Goto(s, c, ReadStored(s.results[slot])) else s
    case GiveUp(c) => Goto(s, c, Returned(Nothing))
    case TimeOut(c) => Goto(s, c, Returned(Nothing))
    case Tick(elapsed) => s.(now := s.now + elapsed)
  }

  /** The steps can be taken one after the other from s. */
  predicate Legal(cfg: Config, s: State, steps: seq<Step>)
    decreases |steps|
  {
    steps == [] || (Enabled(s, steps[0]) && Legal(cfg, Apply(cfg, s, steps[0]), steps[1..]))
  }

  /** The state the steps lead to. */
  function After(cfg: Config, s: State, steps: seq<Step>): State
    requires Legal(cfg, s, steps)
    decreases |steps|
  {
    if steps == [] then s else After(cfg, Apply(cfg, s, steps[0]), steps[1..])
  }

  // ---------------------------------------------------------------------------------------------------
  // Provenance: what holds in every reachable state, whatever the timing
  // ---------------------------------------------------------------------------------------------------

  /** Between SETNX and DEL. */
  predicate Leads(k: Call) {
    k.phase.Running? || k.phase.Storing? || k.phase.Releasing?
  }

  /** The call's own phase agrees with what the history records of it. */
  predicate CallOk(s: State, c: CallId)
    requires c in s.calls
  {
    match s.calls[c].phase
    case Reading => c !in s.executed
    case Locking => c !in s.executed
    case Running(since) => c in s.executed && c !in s.outcomes && since <= s.now
    case Storing(since, out) => c in s.executed && c in s.outcomes && s.outcomes[c] == out && since <= s.now
    case Releasing(since, out) =>
      c in s.executed && c in s.outcomes && s.outcomes[c] == out && since <= s.now && s.calls[c].slot in s.results
    case Polling(_) => c !in s.executed
    case Returned(Own(out)) =>
      c in s.executed && c in s.outcomes && s.outcomes[c] == out && s.calls[c].slot in s.results
    case Returned(Shared(out, w)) => c !in s.executed && ExecutionOf(s, w, s.calls[c].slot, out)
    case Returned(Nothing) => c !in s.executed
  }

  /** w ran `fn` on this slot, and `out` is what its result reads back as. */
  predicate ExecutionOf(s: State, w: CallId, slot: string, out: Outcome) {
    && w in s.executed && w in s.calls && w in s.outcomes
    && s.calls[w].slot == slot
    && out == Decode(Encode(s.outcomes[w]))
  }

  ghost predicate Inv(s: State) {
    && s.executed <= s.calls.Keys
    && s.outcomes.Keys <= s.executed
    && (forall c :: c in s.calls ==> CallOk(s, c))
    && (forall slot :: slot in s.results ==>
          ExecutionOf(s, s.results[slot].writer, slot, Decode(s.results[slot].record)))
  }

  lemma ExecutionLasts(cfg: Config, s: State, a: Step, w: CallId, slot: string, out: Outcome)
    requires Inv(s) && Enabled(s, a) && ExecutionOf(s, w, slot, out)
    ensures ExecutionOf(Apply(cfg, s, a), w, slot, out)
  {
    if a.FnReturns? {
      assert CallOk(s, a.c);
    }
  }

  /** A step of somebody else, or of the clock, leaves a call as it was, and forgets no result. */
  lemma StepKeepsFacts(cfg: Config, s: State, a: Step, c: CallId)
    requires Enabled(s, a) && c in s.calls && (a.Tick? || a.c != c)
    ensures var t := Apply(cfg, s, a);
      && c in t.calls && t.calls[c] == s.calls[c]
      && (c in t.executed <==> c in s.executed)
      && (c in t.outcomes <==> c in s.outcomes) && (c in s.outcomes ==> t.outcomes[c] == s.outcomes[c])
      && s.now <= t.now && s.results.Keys <= t.results.Keys
  {
    hide Decode, Encode;
  }

  /** So what is true of the call stays true. */
  lemma StepKeepsOthers(cfg: Config, s: State, a: Step, c: CallId)
    requires Inv(s) && Enabled(s, a) && c in s.calls && (a.Tick? || a.c != c)
    ensures CallOk(Apply(cfg, s, a), c)
  {
    hide Decode, Encode, Apply, Enabled, ExecutionOf;
    assert CallOk(s, c);
    StepKeepsFacts(cfg, s, a, c);
    if s.calls[c].phase.Returned? && s.calls[c].phase.answer.Shared? {
      var Shared(out, w) := s.calls[c].phase.answer;
      ExecutionLasts(cfg, s, a, w, s.calls[c].slot, out);
    }
  }

  lemma StepKeepsActor(cfg: Config, s: State, a: Step)
    requires Inv(s) && Enabled(s, a) && !a.Tick?
    ensures CallOk(Apply(cfg, s, a), a.c)
  {
    hide Decode, Encode;
    if !a.Arrive? {
      var slot := s.calls[a.c].slot;
      assert CallOk(s, a.c);
      if (a.GetResult? || a.Poll?) && Stored(s, slot) {
        var e := s.results[slot];
        ExecutionLasts(cfg, s, a, e.writer, slot, Decode(e.record));
      }
    }
  }

  lemma StepKeepsInv(cfg: Config, s: State, a: Step)
    requires Inv(s) && Enabled(s, a)
    ensures Inv(Apply(cfg, s, a))
  {
    var t := Apply(cfg, s, a);
    forall c | c in t.calls ensures CallOk(t, c) {
      if a.Tick? || a.c != c {
        StepKeepsOthers(cfg, s, a, c);
      } else {
        StepKeepsActor(cfg, s, a);
      }
    }
    forall slot | slot in t.results
      ensures ExecutionOf(t, t.results[slot].writer, slot, Decode(t.results[slot].record))
    {
      if a.SetResult? && slot == s.calls[a.c].slot {
        assert CallOk(s, a.c);
      } else {
        ExecutionLasts(cfg, s, a, s.results[slot].writer, slot, Decode(s.results[slot].record));
      }
    }
  }

  lemma {:induction false} RunKeepsInv(cfg: Config, s: State, steps: seq<Step>)
    requires Inv(s) && Legal(cfg, s, steps)
    ensures Inv(After(cfg, s, steps))
    decreases |steps|
  {
    if steps != [] {
      StepKeepsInv(cfg, s, steps[0]);
      RunKeepsInv(cfg, Apply(cfg, s, steps[0]), steps[1..]);
    }
  }

  /** The execution an answer comes from. */
  function Source(c: CallId, a: Answer): Option<CallId> {
    match a
    case Own(_) => Some(c)
    case Shared(_, w) => Some(w)
    case Nothing => None
  }

  /**
    Every answer handed out in any run is the caller's own execution or the decoded record of an execution on
    the same slot.
   */
  lemma AnswerProvenance(cfg: Config, steps: seq<Step>, c: CallId)
    requires Legal(cfg, Init, steps)
    requires var s := After(cfg, Init, steps); c in s.calls && s.calls[c].phase.Returned?
    ensures var s := After(cfg, Init, steps);
            match s.calls[c].phase.answer
            case Own(out) => c in s.executed && c in s.outcomes && s.outcomes[c] == out
            case Shared(out, w) => w != c && c !in s.executed && ExecutionOf(s, w, s.calls[c].slot, out)
            case Nothing => c !in s.executed
  {
    RunKeepsInv(cfg, Init, steps);
    assert CallOk(After(cfg, Init, steps), c);
  }

  // ---------------------------------------------------------------------------------------------------
  // Mutual exclusion, as far as it goes
  // ---------------------------------------------------------------------------------------------------

  /** No caller has been between SETNX and DEL for as long as the lock lives. */
  ghost predicate Timely(cfg: Config, s: State) {
    forall c :: c in s.calls && Leads(s.calls[c]) ==> s.now < s.calls[c].phase.since + cfg.lockTTL
  }

  ghost predicate TimelyRun(cfg: Config, s: State, steps: seq<Step>)
    requires Legal(cfg, s, steps)
    decreases |steps|
  {
    Timely(cfg, s) && (steps != [] ==> TimelyRun(cfg, Apply(cfg, s, steps[0]), steps[1..]))
  }

  /** Whoever leads has its own lock in place. */
  ghost predicate LeadersHoldLocks(cfg: Config, s: State) {
    forall c :: c in s.calls && Leads(s.calls[c]) ==> HoldsLock(cfg, s, c)
  }

  predicate HoldsLock(cfg: Config, s: State, c: CallId)
    requires c in s.calls && Leads(s.calls[c])
  {
    var slot := s.calls[c].slot;
    slot in s.locks && s.locks[slot] == Lock(c, s.calls[c].phase.since + cfg.lockTTL)
  }

  lemma StepKeepsLocks(cfg: Config, s: State, a: Step)
    requires Timely(cfg, s) && LeadersHoldLocks(cfg, s) && Enabled(s, a)
    ensures LeadersHoldLocks(cfg, Apply(cfg, s, a))
  {
    var t := Apply(cfg, s, a);
    if a.DelLock? {
      assert HoldsLock(cfg, s, a.c);
    }
    forall c | c in t.calls && Leads(t.calls[c]) ensures HoldsLock(cfg, t, c) {
      if c in s.calls && Leads(s.calls[c]) {
        assert HoldsLock(cfg, s, c);
      }
    }
  }

  lemma {:induction false} TimelyRunKeepsLocks(cfg: Config, s: State, steps: seq<Step>)
    requires Legal(cfg, s, steps) && TimelyRun(cfg, s, steps) && LeadersHoldLocks(cfg, s)
    ensures LeadersHoldLocks(cfg, After(cfg, s, steps)) && Timely(cfg, After(cfg, s, steps))
    decreases |steps|
  {
    if steps != [] {
      StepKeepsLocks(cfg, s, steps[0]);
      TimelyRunKeepsLocks(cfg, Apply(cfg, s, steps[0]), steps[1..]);
    }
  }

  /**
    In every run whose leaders are timely: at most one caller leads per slot, the slot stays locked all along its
    section, and a DEL only ever removes the lock of the caller that sends it.
   */
  lemma MutualExclusion(cfg: Config, steps: seq<Step>)
    requires Legal(cfg, Init, steps) && TimelyRun(cfg, Init, steps)
    ensures var s := After(cfg, Init, steps);
      && (forall c, d | c in s.calls && d in s.calls && Leads(s.calls[c]) && Leads(s.calls[d])
                        && s.calls[c].slot == s.calls[d].slot :: c == d)
      && (forall c :: c in s.calls && Leads(s.calls[c]) ==> Locked(s, s.calls[c].slot))
      && (forall c :: Enabled(s, DelLock(c)) ==>
            s.calls[c].slot in s.locks && s.locks[s.calls[c].slot].owner == c)
  {
    TimelyRunKeepsLocks(cfg, Init, steps);
    var s := After(cfg, Init, steps);
    forall c | c in s.calls && Leads(s.calls[c])
      ensures Locked(s, s.calls[c].slot) && s.locks[s.calls[c].slot].owner == c
    {
      assert HoldsLock(cfg, s, c);
    }
  }

  /**
    While c leads with its own lock in place, another caller that has reached SETNX gets in as well if and only if c
    has been leading for the lock's whole life.
   */
  lemma HolderLetsInIffOverdue(cfg: Config, s: State, c: CallId, d: CallId)
    requires c in s.calls && Leads(s.calls[c]) && HoldsLock(cfg, s, c)
    requires Enabled(s, TryLock(d)) && s.calls[d].slot == s.calls[c].slot
    ensures var t := Apply(cfg, s, TryLock(d));
      c in t.calls && Leads(t.calls[c])
      && (Leads(t.calls[d]) <==> s.now >= s.calls[c].phase.since + cfg.lockTTL)
  {
  }

  ghost predicate OneLeader(s: State) {
    forall c, d | c in s.calls && d in s.calls && Leads(s.calls[c]) && Leads(s.calls[d])
                  && s.calls[c].slot == s.calls[d].slot :: c == d
  }

  /** In no state of the run does a slot have two leaders. */
  ghost predicate SoloRun(cfg: Config, s: State, steps: seq<Step>)
    requires Legal(cfg, s, steps)
    decreases |steps|
  {
    OneLeader(s) && (steps != [] ==> SoloRun(cfg, Apply(cfg, s, steps[0]), steps[1..]))
  }

  /** Some caller on the slot has led for its lock's whole life. */
  predicate Overdue(cfg: Config, s: State, slot: string) {
    exists c :: c in s.calls && Leads(s.calls[c]) && s.calls[c].slot == slot
                && s.calls[c].phase.since + cfg.lockTTL <= s.now
  }

  /** What a step does to the leaders: a SETNX can add its sender, a DEL takes its sender away. */
  lemma StepMovesLeaders(cfg: Config, s: State, a: Step, c: CallId)
    requires Enabled(s, a)
    ensures var t := Apply(cfg, s, a);
      && (c in s.calls ==> c in t.calls && t.calls[c].slot == s.calls[c].slot)
      && (c in t.calls && Leads(t.calls[c]) ==>
            c in s.calls
            && if Leads(s.calls[c]) then a != DelLock(c) && t.calls[c].phase.since == s.calls[c].phase.since
               else a == TryLock(c) && !Locked(s, s.calls[c].slot) && t.calls[c].phase.since == s.now)
      && (c in s.calls && Leads(s.calls[c]) && a != DelLock(c) ==> Leads(t.calls[c]))
      && (a == TryLock(c) && !Locked(s, s.calls[c].slot) ==> Leads(t.calls[c]))
  {
    hide Encode, Decode;
  }

  lemma StepMovesLocks(cfg: Config, s: State, a: Step)
    requires Enabled(s, a)
    ensures Apply(cfg, s, a).locks ==
      if a.TryLock? && !Locked(s, s.calls[a.c].slot) then s.locks[s.calls[a.c].slot := Lock(a.c, s.now + cfg.lockTTL)]
      else if a.DelLock? then s.locks - {s.calls[a.c].slot}
      else s.locks
  {
    hide Encode, Decode;
  }

  /** One leader per slot is lost by nothing but a SETNX beside an overdue leader, and by every such one. */
  lemma StepKeepsOneLeader(cfg: Config, s: State, a: Step)
    requires OneLeader(s) && LeadersHoldLocks(cfg, s) && Enabled(s, a)
    ensures var t := Apply(cfg, s, a);
      && (OneLeader(t) <==> !(a.TryLock? && Overdue(cfg, s, s.calls[a.c].slot)))
      && (OneLeader(t) ==> LeadersHoldLocks(cfg, t))
  {
    hide Apply, Leads;
    var t := Apply(cfg, s, a);
    if a.TryLock? && Overdue(cfg, s, s.calls[a.c].slot) {
      OverdueLetsIn(cfg, s, a.c);
    } else {
      forall c, d | c in t.calls && d in t.calls && Leads(t.calls[c]) && Leads(t.calls[d])
                    && t.calls[c].slot == t.calls[d].slot ensures c == d {
        StepMovesLeaders(cfg, s, a, c);
        StepMovesLeaders(cfg, s, a, d);
        LockedUnlessOverdue(cfg, s, c);
        LockedUnlessOverdue(cfg, s, d);
      }
      forall c | c in t.calls && Leads(t.calls[c]) ensures HoldsLock(cfg, t, c) {
        StepMovesLeaders(cfg, s, a, c);
        if c in s.calls && Leads(s.calls[c]) {
          LockKept(cfg, s, a, c);
        } else {
          StepMovesLocks(cfg, s, a);
        }
      }
    }
  }

  lemma LockedUnlessOverdue(cfg: Config, s: State, c: CallId)
    requires LeadersHoldLocks(cfg, s)
    ensures c in s.calls && Leads(s.calls[c]) ==> Locked(s, s.calls[c].slot) || Overdue(cfg, s, s.calls[c].slot)
  {
    assert c in s.calls && Leads(s.calls[c]) ==> HoldsLock(cfg, s, c);
  }

  lemma OverdueLetsIn(cfg: Config, s: State, d: CallId)
    requires LeadersHoldLocks(cfg, s) && Enabled(s, TryLock(d)) && Overdue(cfg, s, s.calls[d].slot)
    ensures !OneLeader(Apply(cfg, s, TryLock(d)))
  {
    hide Apply;
    var c :| c in s.calls && Leads(s.calls[c]) && s.calls[c].slot == s.calls[d].slot
             && s.calls[c].phase.since + cfg.lockTTL <= s.now;
    assert HoldsLock(cfg, s, c);
    StepMovesLeaders(cfg, s, TryLock(d), c);
    StepMovesLeaders(cfg, s, TryLock(d), d);
  }

  /** A leader's lock stays, unless an overdue one's is taken. */
  lemma LockKept(cfg: Config, s: State, a: Step, c: CallId)
    requires OneLeader(s) && LeadersHoldLocks(cfg, s) && Enabled(s, a)
    requires a.TryLock? ==> !Overdue(cfg, s, s.calls[a.c].slot)
    requires c in s.calls && Leads(s.calls[c]) && a != DelLock(c)
    ensures c in Apply(cfg, s, a).calls && Leads(Apply(cfg, s, a).calls[c]) && HoldsLock(cfg, Apply(cfg, s, a), c)
  {
    hide Apply;
    assert HoldsLock(cfg, s, c);
    StepMovesLeaders(cfg, s, a, c);
    StepMovesLocks(cfg, s, a);
    LockedUnlessOverdue(cfg, s, c);
  }

  lemma {:induction false} SoloRunKeepsLocks(cfg: Config, s: State, steps: seq<Step>)
    requires Legal(cfg, s, steps) && SoloRun(cfg, s, steps) && LeadersHoldLocks(cfg, s)
    ensures OneLeader(After(cfg, s, steps)) && LeadersHoldLocks(cfg, After(cfg, s, steps))
    decreases |steps|
  {
    hide Apply, Enabled, OneLeader, LeadersHoldLocks;
    if steps != [] {
      StepKeepsOneLeader(cfg, s, steps[0]);
      NowOneLeader(cfg, Apply(cfg, s, steps[0]), steps[1..]);
      SoloRunKeepsLocks(cfg, Apply(cfg, s, steps[0]), steps[1..]);
    }
  }

  lemma NowOneLeader(cfg: Config, s: State, steps: seq<Step>)
    requires Legal(cfg, s, steps) && SoloRun(cfg, s, steps)
    ensures OneLeader(s)
  {
  }

  /**
    In every run that has had at most one leader per slot so far: a SETNX makes a second leader on its slot if and
    only if some leader there has led for its lock's whole life.
   */
  lemma SecondLeaderIffOverdue(cfg: Config, steps: seq<Step>, d: CallId)
    requires Legal(cfg, Init, steps) && SoloRun(cfg, Init, steps) && Enabled(After(cfg, Init, steps), TryLock(d))
    ensures var s := After(cfg, Init, steps);
      var t := Apply(cfg, s, TryLock(d));
      (exists c :: c in t.calls && c != d && t.calls[c].slot == t.calls[d].slot && Leads(t.calls[c]) && Leads(t.calls[d]))
      <==> Overdue(cfg, s, s.calls[d].slot)
  {
    SoloRunKeepsLocks(cfg, Init, steps);
    var s := After(cfg, Init, steps);
    forall c | c in s.calls && Leads(s.calls[c]) && s.calls[c].slot == s.calls[d].slot
      ensures var t := Apply(cfg, s, TryLock(d));
        Leads(t.calls[c]) && (Leads(t.calls[d]) <==> s.now >= s.calls[c].phase.since + cfg.lockTTL)
    {
      assert HoldsLock(cfg, s, c);
      HolderLetsInIffOverdue(cfg, s, c, d);
    }
  }

  /** No SETNX of the run is sent beside an overdue leader. */
  predicate NoOverdueLock(cfg: Config, s: State, steps: seq<Step>)
    requires Legal(cfg, s, steps)
    decreases |steps|
  {
    steps != [] ==>
      && (steps[0].TryLock? ==> !Overdue(cfg, s, s.calls[steps[0].c].slot))
      && NoOverdueLock(cfg, Apply(cfg, s, steps[0]), steps[1..])
  }

  /** Exactly the runs with mutual exclusion throughout. */
  lemma ExclusionIff(cfg: Config, steps: seq<Step>)
    requires Legal(cfg, Init, steps)
    ensures SoloRun(cfg, Init, steps) <==> NoOverdueLock(cfg, Init, steps)
  {
    ExclusionIffFrom(cfg, Init, steps);
  }

  /** In those runs a DEL only ever removes the entry of the caller that sends it. */
  lemma DelsAreOwn(cfg: Config, steps: seq<Step>, c: CallId)
    requires Legal(cfg, Init, steps) && NoOverdueLock(cfg, Init, steps)
    requires Enabled(After(cfg, Init, steps), DelLock(c))
    ensures var s := After(cfg, Init, steps);
      s.calls[c].slot in s.locks && s.locks[s.calls[c].slot].owner == c
  {
    ExclusionIff(cfg, steps);
    SoloRunKeepsLocks(cfg, Init, steps);
    assert HoldsLock(cfg, After(cfg, Init, steps), c);
  }

  /**
    And the first SETNX beside an overdue leader is all it takes: some continuation has that leader send a DEL that
    removes the new leader's entry.
   */
  lemma OverdueMeansForeignDel(cfg: Config, steps: seq<Step>, d: CallId) returns (rest: seq<Step>, c: CallId)
    requires Legal(cfg, Init, steps) && NoOverdueLock(cfg, Init, steps)
    requires var s := After(cfg, Init, steps); Enabled(s, TryLock(d)) && Overdue(cfg, s, s.calls[d].slot)
    ensures var s := After(cfg, Init, steps);
      var t, slot := Apply(cfg, s, TryLock(d)), s.calls[d].slot;
      && Legal(cfg, t, rest) && c != d
      && var u := After(cfg, t, rest);
         Enabled(u, DelLock(c)) && u.calls[c].slot == slot && slot in u.locks && u.locks[slot].owner == d
  {
    ExclusionIff(cfg, steps);
    SoloRunKeepsLocks(cfg, Init, steps);
    var s := After(cfg, Init, steps);
    var e :| e in s.calls && Leads(s.calls[e]) && s.calls[e].slot == s.calls[d].slot
             && s.calls[e].phase.since + cfg.lockTTL <= s.now;
    c := e;
    assert HoldsLock(cfg, s, c);
    var t := Apply(cfg, s, TryLock(d));
    rest := LeaderFinishes(cfg, t, c);
  }

  /** A leader's way to its DEL, with nobody else running. */
  lemma LeaderFinishes(cfg: Config, s: State, c: CallId) returns (rest: seq<Step>)
    requires c in s.calls && Leads(s.calls[c])
    ensures Legal(cfg, s, rest)
    ensures var u := After(cfg, s, rest);
      Enabled(u, DelLock(c)) && u.calls[c].slot == s.calls[c].slot && u.locks == s.locks
    decreases if s.calls[c].phase.Running? then 2 else if s.calls[c].phase.Storing? then 1 else 0
  {
    if s.calls[c].phase.Releasing? {
      rest := [];
    } else {
      var a := if s.calls[c].phase.Running? then FnReturns(c, Failed("")) else SetResult(c);
      var more := LeaderFinishes(cfg, Apply(cfg, s, a), c);
      rest := [a] + more;
      assert rest[1..] == more;
    }
  }

  lemma {:induction false} ExclusionIffFrom(cfg: Config, s: State, steps: seq<Step>)
    requires Legal(cfg, s, steps) && OneLeader(s) && LeadersHoldLocks(cfg, s)
    ensures SoloRun(cfg, s, steps) <==> NoOverdueLock(cfg, s, steps)
    decreases |steps|
  {
    hide Apply, Enabled, OneLeader, LeadersHoldLocks, Overdue;
    if steps != [] {
      var t := Apply(cfg, s, steps[0]);
      StepKeepsOneLeader(cfg, s, steps[0]);
      if OneLeader(t) {
        ExclusionIffFrom(cfg, t, steps[1..]);
      } else if SoloRun(cfg, t, steps[1..]) {
        NowOneLeader(cfg, t, steps[1..]);
      }
    }
  }

  /** One more step at the end of a run. */
  lemma {:induction false} Extend(cfg: Config, s: State, steps: seq<Step>, a: Step)
    requires Legal(cfg, s, steps) && Enabled(After(cfg, s, steps), a)
    ensures Legal(cfg, s, steps + [a])
    ensures After(cfg, s, steps + [a]) == Apply(cfg, After(cfg, s, steps), a)
    decreases |steps|
  {
    if steps == [] {
      assert [a][1..] == [] && [] + [a] == [a];
    } else {
      assert (steps + [a])[1..] == steps[1..] + [a];
      Extend(cfg, Apply(cfg, s, steps[0]), steps[1..], a);
    }
  }

  /** The run `steps` leads from the empty state to s. */
  predicate LeadsTo(cfg: Config, steps: seq<Step>, s: State) {
    Legal(cfg, Init, steps) && After(cfg, Init, steps) == s
  }

  lemma Then(cfg: Config, steps: seq<Step>, s: State, a: Step) returns (more: seq<Step>, t: State)
    requires LeadsTo(cfg, steps, s) && Enabled(s, a)
    ensures LeadsTo(cfg, more, t) && t == Apply(cfg, s, a) && more == steps + [a]
  {
    Extend(cfg, Init, steps, a);
    more, t := steps + [a], Apply(cfg, s, a);
  }

  /** And then the first leader's DEL, which carries no token, takes away the second one's lock. */
  lemma OverdueLeaderFreesForeignLock(cfg: Config, slot: string, out: Outcome) returns (steps: seq<Step>, s: State)
    requires cfg.Valid()
    ensures LeadsTo(cfg, steps, s) && Enabled(s, DelLock(0))
    ensures 1 in s.calls && s.calls[1].slot == slot && Leads(s.calls[1])
    ensures Locked(s, slot) && s.locks[slot].owner == 1
    ensures !Locked(Apply(cfg, s, DelLock(0)), slot)
  {
    steps, s := [], Init;
    steps, s := Then(cfg, steps, s, Arrive(0, slot));
    steps, s := Then(cfg, steps, s, GetResult(0));
    steps, s := Then(cfg, steps, s, TryLock(0));
    steps, s := Then(cfg, steps, s, Arrive(1, slot));
    steps, s := Then(cfg, steps, s, GetResult(1));
    steps, s := Then(cfg, steps, s, Tick(cfg.lockTTL));
    steps, s := Then(cfg, steps, s, TryLock(1));
    steps, s := Then(cfg, steps, s, FnReturns(0, out));
    steps, s := Then(cfg, steps, s, SetResult(0));
  }

  // ---------------------------------------------------------------------------------------------------
  // How often fn runs
  // ---------------------------------------------------------------------------------------------------

  /** The executions on a slot so far. */
  function ExecutionsOn(s: State, slot: string): set<CallId> {
    set c | c in s.executed && c in s.calls && s.calls[c].slot == slot
  }

  /** Callers that have read "no result" on the slot and have not yet tried its lock. */
  function Pending(s: State, slot: string): set<CallId> {
    set c | c in s.calls && s.calls[c].slot == slot && s.calls[c].phase.Locking?
  }

  /** A result is there, unexpired, in every state of the run. */
  predicate StoredThroughout(cfg: Config, s: State, steps: seq<Step>, slot: string)
    requires Legal(cfg, s, steps)
    decreases |steps|
  {
    Stored(s, slot) && (steps != [] ==> StoredThroughout(cfg, Apply(cfg, s, steps[0]), steps[1..], slot))
  }

  lemma StepExecutesPending(cfg: Config, s: State, a: Step, slot: string)
    requires s.executed <= s.calls.Keys && Enabled(s, a) && Stored(s, slot)
    ensures var t := Apply(cfg, s, a);
      && t.executed <= t.calls.Keys
      && ExecutionsOn(t, slot) + Pending(t, slot) <= ExecutionsOn(s, slot) + Pending(s, slot)
      && ExecutionsOn(s, slot) <= ExecutionsOn(t, slot)
  {
    hide Apply, Enabled, Stored;
    var t := Apply(cfg, s, a);
    forall c ensures c in t.executed ==> c in t.calls
             ensures c in ExecutionsOn(t, slot) + Pending(t, slot) ==> c in ExecutionsOn(s, slot) + Pending(s, slot)
             ensures c in ExecutionsOn(s, slot) ==> c in ExecutionsOn(t, slot)
    {
      StepExecutes(cfg, s, a, slot, c);
    }
  }

  lemma StepExecutes(cfg: Config, s: State, a: Step, slot: string, c: CallId)
    requires s.executed <= s.calls.Keys && Enabled(s, a) && Stored(s, slot)
    ensures var t := Apply(cfg, s, a);
      && (c in s.calls ==> c in t.calls && t.calls[c].slot == s.calls[c].slot)
      && (c in s.executed ==> c in t.executed)
      && (c in t.executed && c !in s.executed ==> c in s.calls && s.calls[c].phase.Locking?)
      && (c in t.calls && t.calls[c].phase.Locking? && t.calls[c].slot == slot ==> c in s.calls && s.calls[c].phase.Locking?)
  {
    hide Encode, Decode;
  }

  /** While a result is there, only callers that had already missed it can still execute. */
  lemma {:induction false} OnlyPendingExecute(cfg: Config, s: State, steps: seq<Step>, slot: string)
    requires s.executed <= s.calls.Keys && Legal(cfg, s, steps) && StoredThroughout(cfg, s, steps, slot)
    ensures var t := After(cfg, s, steps);
      ExecutionsOn(t, slot) + Pending(t, slot) <= ExecutionsOn(s, slot) + Pending(s, slot)
    ensures ExecutionsOn(s, slot) <= ExecutionsOn(After(cfg, s, steps), slot)
    decreases |steps|
  {
    hide Apply, Enabled, ExecutionsOn, Pending, Stored;
    if steps != [] {
      StepExecutesPending(cfg, s, steps[0], slot);
      OnlyPendingExecute(cfg, Apply(cfg, s, steps[0]), steps[1..], slot);
    }
  }

  /** A call that has nothing to do with the slot yet, or stands before its GET. */
  predicate BeforeGet(s: State, c: CallId) {
    c !in s.calls || s.calls[c].phase.Reading?
  }

  /** What becomes of such a call while a result is there: it never executes and never waits. */
  predicate ServedFromStore(s: State, c: CallId, slot: string) {
    c in s.calls && s.calls[c].slot == slot ==>
      && c !in s.executed
      && (s.calls[c].phase.Reading? || (s.calls[c].phase.Returned? && !s.calls[c].phase.answer.Own?))
  }

  lemma {:induction false} LateCallersAreServed(cfg: Config, s: State, steps: seq<Step>, slot: string, c: CallId)
    requires s.executed <= s.calls.Keys && Legal(cfg, s, steps) && StoredThroughout(cfg, s, steps, slot)
    requires ServedFromStore(s, c, slot)
    ensures ServedFromStore(After(cfg, s, steps), c, slot)
    decreases |steps|
  {
    if steps != [] {
      LateCallersAreServed(cfg, Apply(cfg, s, steps[0]), steps[1..], slot, c);
    }
  }

  /** Before anything was stored on a slot, its executions are still in the leader section. */
  lemma UnstoredExecutionsLead(s: State, slot: string, c: CallId)
    requires Inv(s) && slot !in s.results && c in ExecutionsOn(s, slot)
    ensures Leads(s.calls[c])
  {
    assert CallOk(s, c);
  }

  /**
    "fn runs once", as far as the code goes, at each SET. `before` is a timely run up to a SET on a slot, by c; `rest`
    is any continuation throughout which a result stays there. At the SET every other execution on the slot is over;
    after it, fn runs at most once for each caller that at that moment had read "no result" and not yet tried the
    lock; and a caller whose GET comes later gets a stored result, or gives up, without executing.
   */
  lemma ExecutionsAfterSet(cfg: Config, before: seq<Step>, c: CallId, rest: seq<Step>)
    requires Legal(cfg, Init, before) && TimelyRun(cfg, Init, before)
    requires var s := After(cfg, Init, before);
      && Enabled(s, SetResult(c))
      && Legal(cfg, Apply(cfg, s, SetResult(c)), rest)
      && StoredThroughout(cfg, Apply(cfg, s, SetResult(c)), rest, s.calls[c].slot)
    ensures var s := After(cfg, Init, before);
      var slot, s1 := s.calls[c].slot, Apply(cfg, s, SetResult(c));
      var t := After(cfg, s1, rest);
      && c in ExecutionsOn(s1, slot)
      && (forall d :: d in ExecutionsOn(s1, slot) && d != c ==> s1.calls[d].phase.Returned?)
      && ExecutionsOn(s1, slot) <= ExecutionsOn(t, slot) <= ExecutionsOn(s1, slot) + Pending(s1, slot)
      && |ExecutionsOn(t, slot) - ExecutionsOn(s1, slot)| <= |Pending(s1, slot)|
      && (forall d :: BeforeGet(s1, d) ==> ServedFromStore(t, d, slot))
  {
    hide Apply;
    RunKeepsInv(cfg, Init, before);
    TimelyRunKeepsLocks(cfg, Init, before);
    var s := After(cfg, Init, before);
    var slot, s1 := s.calls[c].slot, Apply(cfg, s, SetResult(c));
    StepKeepsInv(cfg, s, SetResult(c));
    SetEndsLead(cfg, s, c);
    OnlyPendingExecute(cfg, s1, rest, slot);
    var t := After(cfg, s1, rest);
    SubsetSize(ExecutionsOn(t, slot) - ExecutionsOn(s1, slot), Pending(s1, slot));
    forall d | BeforeGet(s1, d) ensures ServedFromStore(t, d, slot) {
      if d in s1.calls {
        assert CallOk(s1, d);
      }
      LateCallersAreServed(cfg, s1, rest, slot, d);
    }
  }

  /** The sender of a SET has executed, and everybody else who has executed on the slot has returned. */
  lemma SetEndsLead(cfg: Config, s: State, c: CallId)
    requires Inv(s) && LeadersHoldLocks(cfg, s) && Enabled(s, SetResult(c))
    ensures var slot, s1 := s.calls[c].slot, Apply(cfg, s, SetResult(c));
      && c in ExecutionsOn(s1, slot)
      && (forall d :: d in ExecutionsOn(s1, slot) ==> d in ExecutionsOn(s, slot))
      && (forall d :: d in ExecutionsOn(s1, slot) && d != c ==> s1.calls[d].phase.Returned?)
  {
    hide Encode, Decode;
    assert CallOk(s, c) && HoldsLock(cfg, s, c);
    forall d | d in ExecutionsOn(s, s.calls[c].slot) && d != c ensures s.calls[d].phase.Returned? {
      assert CallOk(s, d);
      assert Leads(s.calls[d]) ==> HoldsLock(cfg, s, d);
    }
  }

  /** At the first SET on a slot, fn has run once: once in all, plus at most once for each pending caller. */
  lemma ExecutionsBounded(cfg: Config, before: seq<Step>, c: CallId, rest: seq<Step>)
    requires Legal(cfg, Init, before) && TimelyRun(cfg, Init, before)
    requires var s := After(cfg, Init, before);
      && Enabled(s, SetResult(c)) && s.calls[c].slot !in s.results
      && Legal(cfg, Apply(cfg, s, SetResult(c)), rest)
      && StoredThroughout(cfg, Apply(cfg, s, SetResult(c)), rest, s.calls[c].slot)
    ensures var s := After(cfg, Init, before);
      var slot, s1 := s.calls[c].slot, Apply(cfg, s, SetResult(c));
      var t := After(cfg, s1, rest);
      && ExecutionsOn(s1, slot) == {c}
      && {c} <= ExecutionsOn(t, slot) <= {c} + Pending(s1, slot)
      && |ExecutionsOn(t, slot)| <= 1 + |Pending(s1, slot)|
      && (forall d :: BeforeGet(s1, d) ==> ServedFromStore(t, d, slot))
  {
    hide Apply;
    ExecutionsAfterSet(cfg, before, c, rest);
    RunKeepsInv(cfg, Init, before);
    TimelyRunKeepsLocks(cfg, Init, before);
    var s := After(cfg, Init, before);
    var slot, s1 := s.calls[c].slot, Apply(cfg, s, SetResult(c));
    SetEndsLead(cfg, s, c);
    assert HoldsLock(cfg, s, c);
    forall d | d in ExecutionsOn(s1, slot) ensures d == c {
      UnstoredExecutionsLead(s, slot, d);
      assert HoldsLock(cfg, s, d);
    }
    assert ExecutionsOn(s1, slot) == {c};
    SubsetSize(ExecutionsOn(After(cfg, s1, rest), slot), {c} + Pending(s1, slot));
  }

  lemma {:induction false} SubsetSize<T>(a: set<T>, b: set<T>)
    requires a <= b
    ensures |a| <= |b|
    decreases a
  {
    if a != {} {
      var x :| x in a;
      SubsetSize(a - {x}, b - {x});
    }
  }

  /**
    Whether fn can run again is decided at the SET: right after it, some continuation with the result in place
    executes fn once more if and only if a caller is pending.
   */
  lemma SecondExecutionIffPending(cfg: Config, s: State, c: CallId, slot: string)
    requires Inv(s)
    requires c in s.calls && s.calls[c].slot == slot && s.calls[c].phase.Releasing? && Stored(s, slot)
    ensures (exists rest :: Legal(cfg, s, rest) && StoredThroughout(cfg, s, rest, slot)
                            && ExecutionsOn(After(cfg, s, rest), slot) != ExecutionsOn(s, slot))
            <==> Pending(s, slot) != {}
  {
    if Pending(s, slot) == {} {
      forall rest | Legal(cfg, s, rest) && StoredThroughout(cfg, s, rest, slot)
        ensures ExecutionsOn(After(cfg, s, rest), slot) == ExecutionsOn(s, slot)
      {
        OnlyPendingExecute(cfg, s, rest, slot);
      }
    } else {
      var d :| d in Pending(s, slot);
      assert CallOk(s, d);
      var rest := PendingGetsIn(cfg, s, c, d, slot);
    }
  }

  /** The leader releases, and a pending caller takes the lock. */
  lemma PendingGetsIn(cfg: Config, s: State, c: CallId, d: CallId, slot: string) returns (rest: seq<Step>)
    requires c in s.calls && s.calls[c].slot == slot && s.calls[c].phase.Releasing? && Stored(s, slot)
    requires d in Pending(s, slot) && d !in s.executed
    ensures Legal(cfg, s, rest) && StoredThroughout(cfg, s, rest, slot)
    ensures d in ExecutionsOn(After(cfg, s, rest), slot) && d !in ExecutionsOn(s, slot)
  {
    var s1 := Apply(cfg, s, DelLock(c));
    var s2 := Apply(cfg, s1, TryLock(d));
    rest := [DelLock(c), TryLock(d)];
    assert rest[1..] == [TryLock(d)] && rest[1..][1..] == [];
    assert Legal(cfg, s2, []) && Legal(cfg, s1, rest[1..]) && Legal(cfg, s, rest);
    assert After(cfg, s2, []) == s2 && After(cfg, s1, rest[1..]) == s2 && After(cfg, s, rest) == s2;
    assert StoredThroughout(cfg, s2, [], slot) && StoredThroughout(cfg, s1, rest[1..], slot);
  }

  lemma {:induction false} ExtendTimely(cfg: Config, s: State, steps: seq<Step>, a: Step)
    requires Legal(cfg, s, steps) && TimelyRun(cfg, s, steps) && Enabled(After(cfg, s, steps), a)
    requires Timely(cfg, Apply(cfg, After(cfg, s, steps), a))
    ensures Legal(cfg, s, steps + [a]) && TimelyRun(cfg, s, steps + [a])
    decreases |steps|
  {
    hide Apply, Enabled, Timely;
    Extend(cfg, s, steps, a);
    if steps == [] {
      assert [a][1..] == [] && [] + [a] == [a];
    } else {
      assert (steps + [a])[1..] == steps[1..] + [a];
      ExtendTimely(cfg, Apply(cfg, s, steps[0]), steps[1..], a);
    }
  }

  ghost predicate LeadsTimelyTo(cfg: Config, steps: seq<Step>, s: State) {
    LeadsTo(cfg, steps, s) && TimelyRun(cfg, Init, steps)
  }

  lemma ThenTimely(cfg: Config, steps: seq<Step>, s: State, a: Step) returns (more: seq<Step>, t: State)
    requires LeadsTimelyTo(cfg, steps, s) && Enabled(s, a) && Timely(cfg, Apply(cfg, s, a))
    ensures LeadsTimelyTo(cfg, more, t) && t == Apply(cfg, s, a)
  {
    hide Apply, Enabled, Timely;
    ExtendTimely(cfg, Init, steps, a);
    more, t := Then(cfg, steps, s, a);
  }

  /** A timely run in which fn runs twice on a slot although the first result is there all along: the bound is met. */
  lemma SecondExecutionHappens(cfg: Config, slot: string, out: Outcome)
    returns (before: seq<Step>, s: State, rest: seq<Step>)
    requires cfg.Valid()
    ensures LeadsTimelyTo(cfg, before, s) && Enabled(s, SetResult(0)) && s.calls[0].slot == slot
    ensures slot !in s.results
    ensures var s1 := Apply(cfg, s, SetResult(0));
      && Pending(s1, slot) == {1}
      && Legal(cfg, s1, rest) && StoredThroughout(cfg, s1, rest, slot)
      && ExecutionsOn(After(cfg, s1, rest), slot) == {0, 1}
  {
    hide Enabled, LeadsTimelyTo;
    before, s := FirstResult(cfg, slot, out);
    LeadsTimely(cfg, before, s);
    SetMakesPending(cfg, s, slot, out);
    var s1 := Apply(cfg, s, SetResult(0));
    hide Apply;
    rest := PendingGetsIn(cfg, s1, 0, 1, slot);
    ExecutionsBounded(cfg, before, 0, rest);
    assert ExecutionsOn(After(cfg, s1, rest), slot) == {0, 1};
  }

  lemma LeadsTimely(cfg: Config, steps: seq<Step>, s: State)
    requires LeadsTimelyTo(cfg, steps, s)
    ensures Legal(cfg, Init, steps) && TimelyRun(cfg, Init, steps) && After(cfg, Init, steps) == s
  {
  }

  lemma SetMakesPending(cfg: Config, s: State, slot: string, out: Outcome)
    requires cfg.Valid()
    requires s.calls == map[0 := Call(slot, Storing(0, out)), 1 := Call(slot, Locking)]
    requires s.now == 0 && s.executed == {0}
    ensures Enabled(s, SetResult(0))
    ensures var s1 := Apply(cfg, s, SetResult(0));
      && 0 in s1.calls && s1.calls[0] == Call(slot, Releasing(0, out)) && Stored(s1, slot)
      && Pending(s1, slot) == {1} && s1.executed == {0}
      && ExecutionsOn(s1, slot) == {0}
  {
  }

  /** fn has returned to the first caller, and the second one has missed the result. */
  lemma FirstResult(cfg: Config, slot: string, out: Outcome) returns (before: seq<Step>, s: State)
    requires cfg.Valid()
    ensures LeadsTimelyTo(cfg, before, s)
    ensures s.calls == map[0 := Call(slot, Storing(0, out)), 1 := Call(slot, Locking)]
    ensures s.now == 0 && s.executed == {0} && s.results == map[]
  {
    hide LeadsTimelyTo;
    before, s := NoStepsYet(cfg);
    before, s := ThenTimely(cfg, before, s, Arrive(0, slot));
    before, s := ThenTimely(cfg, before, s, Arrive(1, slot));
    before, s := ThenTimely(cfg, before, s, GetResult(0));
    before, s := ThenTimely(cfg, before, s, GetResult(1));
    before, s := ThenTimely(cfg, before, s, TryLock(0));
    before, s := ThenTimely(cfg, before, s, FnReturns(0, out));
  }

  lemma NoStepsYet(cfg: Config) returns (steps: seq<Step>, s: State)
    ensures LeadsTimelyTo(cfg, steps, s) && s == Init
  {
    steps, s := [], Init;
  }
}
