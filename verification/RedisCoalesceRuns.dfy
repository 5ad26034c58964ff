/**
  Whole runs of `RedisCoalesce`, and what its callers get to see: whose text, when an error, for how long a result is
  there to be read. Everything is said in terms of the steps of the run.
 */
module RedisCoalesceRuns {
  import opened Downstream
  import opened RedisCoalesce
  import opened Wrappers

  /** What comes out of the store for what fn returned: the text as it is, an error as its message. */
  predicate Carries(sent: Outcome, got: Outcome) {
    match sent
    case Answered(text) => got == Answered(text)
    case Failed(message) => got == Failed(if message == "" then "coalesce redis: 下游失败" else message)
  }

  lemma StoreCarries(o: Outcome)
    ensures Carries(o, Decode(Encode(o)))
  {
  }

  // ---------------------------------------------------------------------------------------------------
  // Whose answer
  // ---------------------------------------------------------------------------------------------------

  /** The history records what fn returned: one outcome for a caller, and none that is not in the run. */
  lemma {:induction false} OutcomesAreTold(cfg: Config, s: State, steps: seq<Step>, c: CallId, out: Outcome)
    requires Inv(s) && Legal(cfg, s, steps)
    ensures var t := After(cfg, s, steps);
      (c in t.outcomes && t.outcomes[c] == out) <==> (c in s.outcomes && s.outcomes[c] == out) || FnReturns(c, out) in steps
    ensures c in s.outcomes ==> FnReturns(c, out) !in steps && c in After(cfg, s, steps).outcomes
    decreases |steps|
  {
    hide Apply, Enabled, Inv;
    if steps != [] {
      var t := Apply(cfg, s, steps[0]);
      StepTellsOutcome(cfg, s, steps[0], c);
      StepKeepsInv(cfg, s, steps[0]);
      OutcomesAreTold(cfg, t, steps[1..], c, out);
      assert FnReturns(c, out) in steps <==> FnReturns(c, out) == steps[0] || FnReturns(c, out) in steps[1..];
    }
  }

  lemma StepTellsOutcome(cfg: Config, s: State, a: Step, c: CallId)
    requires Inv(s) && Enabled(s, a)
    ensures var t := Apply(cfg, s, a);
      if a.FnReturns? && a.c == c then c !in s.outcomes && c in t.outcomes && t.outcomes[c] == a.out
      else (c in t.outcomes <==> c in s.outcomes) && (c in s.outcomes ==> t.outcomes[c] == s.outcomes[c])
  {
    hide Encode, Decode;
    if a.FnReturns? {
      assert CallOk(s, a.c);
    }
  }

  /** A caller that has given up or timed out, and no other, has an error that is nobody's outcome. */
  lemma {:induction false} NothingIsTold(cfg: Config, s: State, steps: seq<Step>, c: CallId)
    requires Legal(cfg, s, steps)
    ensures Empty(After(cfg, s, steps), c) <==> Empty(s, c) || GiveUp(c) in steps || TimeOut(c) in steps
    decreases |steps|
  {
    hide Apply, Enabled, Empty;
    if steps != [] {
      StepTellsNothing(cfg, s, steps[0], c);
      NothingIsTold(cfg, Apply(cfg, s, steps[0]), steps[1..], c);
      assert forall a :: a in steps <==> a == steps[0] || a in steps[1..];
    }
  }

  predicate Empty(s: State, c: CallId) {
    c in s.calls && s.calls[c].phase == Returned(Nothing)
  }

  lemma StepTellsNothing(cfg: Config, s: State, a: Step, c: CallId)
    requires Enabled(s, a)
    ensures Empty(Apply(cfg, s, a), c) <==> Empty(s, c) || a == GiveUp(c) || a == TimeOut(c)
  {
    hide Encode, Decode;
  }

  /**
    What a caller gets, in every run: exactly what its own fn returned, exactly if its fn was run; else what another
    caller's fn on the same slot returned, as the store carries it; and an error of its own exactly if it gave up or
    timed out.
   */
  lemma AnswerIs(cfg: Config, steps: seq<Step>, c: CallId)
    requires Legal(cfg, Init, steps)
    requires var s := After(cfg, Init, steps); c in s.calls && s.calls[c].phase.Returned?
    ensures var s := After(cfg, Init, steps);
      var answer := s.calls[c].phase.answer;
      && (forall out :: answer == Own(out) <==> FnReturns(c, out) in steps)
      && (answer.Shared? ==>
            var w := answer.writer;
            && w != c && w in s.calls && s.calls[w].slot == s.calls[c].slot
            && exists sent :: FnReturns(w, sent) in steps && Carries(sent, answer.out))
      && (answer.Nothing? <==> GiveUp(c) in steps || TimeOut(c) in steps)
  {
    InitInv();
    RunKeepsInv(cfg, Init, steps);
    AnswerProvenance(cfg, steps, c);
    NothingIsTold(cfg, Init, steps, c);
    var s := After(cfg, Init, steps);
    var answer := s.calls[c].phase.answer;
    forall out ensures answer == Own(out) <==> FnReturns(c, out) in steps {
      OutcomesAreTold(cfg, Init, steps, c, out);
      assert CallOk(s, c);
    }
    if answer.Shared? {
      var w := answer.writer;
      OutcomesAreTold(cfg, Init, steps, w, s.outcomes[w]);
      StoreCarries(s.outcomes[w]);
      assert FnReturns(w, s.outcomes[w]) in steps && Carries(s.outcomes[w], answer.out);
    }
  }

  lemma InitInv()
    ensures Inv(Init)
  {
  }

  // ---------------------------------------------------------------------------------------------------
  // For how long a result can be read, and by whom it was written
  // ---------------------------------------------------------------------------------------------------

  /** The state before step i of a run. */
  function At(cfg: Config, steps: seq<Step>, i: nat): State
    requires Legal(cfg, Init, steps) && i <= |steps|
  {
    Prefix(cfg, Init, steps, i);
    After(cfg, Init, steps[..i])
  }

  lemma {:induction false} Prefix(cfg: Config, s: State, steps: seq<Step>, i: nat)
    requires Legal(cfg, s, steps) && i <= |steps|
    ensures Legal(cfg, s, steps[..i])
    ensures i < |steps| ==>
      && Legal(cfg, s, steps[..i + 1])
      && Enabled(After(cfg, s, steps[..i]), steps[i])
      && After(cfg, s, steps[..i + 1]) == Apply(cfg, After(cfg, s, steps[..i]), steps[i])
    decreases i
  {
    hide Apply, Enabled;
    if i == 0 {
      assert steps[..0] == [] && (steps != [] ==> steps[..1][1..] == [] && steps[..1][0] == steps[0]);
    } else {
      var rest := steps[1..];
      Prefix(cfg, Apply(cfg, s, steps[0]), rest, i - 1);
      assert steps[..i][1..] == rest[..i - 1];
      assert i < |steps| ==> steps[..i + 1][1..] == rest[..i] && rest[i - 1] == steps[i];
    }
  }

  lemma Next(cfg: Config, steps: seq<Step>, i: nat)
    requires Legal(cfg, Init, steps) && i < |steps|
    ensures Enabled(At(cfg, steps, i), steps[i])
    ensures At(cfg, steps, i + 1) == Apply(cfg, At(cfg, steps, i), steps[i])
  {
    hide Apply, Enabled, Legal, After;
    Prefix(cfg, Init, steps, i);
  }

  lemma AtEnds(cfg: Config, steps: seq<Step>)
    requires Legal(cfg, Init, steps)
    ensures At(cfg, steps, 0) == Init && At(cfg, steps, |steps|) == After(cfg, Init, steps)
  {
    assert steps[..0] == [] && steps[..|steps|] == steps;
  }

  lemma Reachable(cfg: Config, steps: seq<Step>, i: nat)
    requires Legal(cfg, Init, steps) && i <= |steps|
    ensures Inv(At(cfg, steps, i))
  {
    hide Apply, Enabled, Inv;
    InitInv();
    Prefix(cfg, Init, steps, i);
    RunKeepsInv(cfg, Init, steps[..i]);
  }

  /** Step k is a SET of the slot's result. */
  predicate SetAt(cfg: Config, steps: seq<Step>, k: nat, slot: string)
    requires Legal(cfg, Init, steps) && k < |steps|
  {
    var s := At(cfg, steps, k);
    steps[k].SetResult? && steps[k].c in s.calls && s.calls[steps[k].c].slot == slot
  }

  /** Step k is the last SET of the slot's result before step i. */
  ghost predicate LastSet(cfg: Config, steps: seq<Step>, i: nat, slot: string, k: nat)
    requires Legal(cfg, Init, steps) && i <= |steps|
  {
    && k < i && SetAt(cfg, steps, k, slot)
    && forall j: nat :: k < j < i ==> !SetAt(cfg, steps, j, slot)
  }

  /** What the run says of the slot's key is what Redis holds. */
  ghost predicate ResultTold(cfg: Config, steps: seq<Step>, i: nat, slot: string)
    requires Legal(cfg, Init, steps) && i <= |steps|
  {
    var s := At(cfg, steps, i);
    && (slot in s.results <==> exists k: nat :: LastSet(cfg, steps, i, slot, k))
    && forall k: nat :: LastSet(cfg, steps, i, slot, k) ==>
         && slot in s.results
         && s.results[slot].writer == steps[k].c && s.results[slot].until == At(cfg, steps, k).now + cfg.resultTTL
         && steps[k].c in s.outcomes && s.results[slot].record == Encode(s.outcomes[steps[k].c])
  }

  lemma StepMovesResult(cfg: Config, s: State, a: Step, slot: string)
    requires Inv(s) && Enabled(s, a)
    ensures var t := Apply(cfg, s, a);
      if a.SetResult? && s.calls[a.c].slot == slot then
        && slot in t.results && t.results[slot].writer == a.c && t.results[slot].until == s.now + cfg.resultTTL
        && a.c in t.outcomes && t.results[slot].record == Encode(t.outcomes[a.c])
      else (slot in t.results <==> slot in s.results) && (slot in s.results ==> t.results[slot] == s.results[slot])
  {
    hide Encode, Decode;
    if a.SetResult? {
      assert CallOk(s, a.c);
    }
  }

  lemma OneMoreSet(cfg: Config, steps: seq<Step>, i: nat, slot: string, k: nat)
    requires Legal(cfg, Init, steps) && i < |steps|
    ensures LastSet(cfg, steps, i + 1, slot, k) <==>
      if SetAt(cfg, steps, i, slot) then k == i else LastSet(cfg, steps, i, slot, k)
  {
    hide SetAt, Legal;
    if k < i && SetAt(cfg, steps, i, slot) {
      assert !LastSet(cfg, steps, i + 1, slot, k);
    }
  }

  lemma {:induction false} ResultIsTold(cfg: Config, steps: seq<Step>, i: nat, slot: string)
    requires Legal(cfg, Init, steps) && i <= |steps|
    ensures ResultTold(cfg, steps, i, slot)
    decreases i
  {
    hide Apply, Legal, At, Inv, Encode, LastSet;
    if i == 0 {
      AtEnds(cfg, steps);
      forall k: nat ensures !LastSet(cfg, steps, 0, slot, k) {
        NoneBefore(cfg, steps, slot, k);
      }
    } else {
      var n := i - 1;
      ResultIsTold(cfg, steps, n, slot);
      Reachable(cfg, steps, n);
      Next(cfg, steps, n);
      StepMovesResult(cfg, At(cfg, steps, n), steps[n], slot);
      forall k: nat ensures LastSet(cfg, steps, i, slot, k) <==>
                            if SetAt(cfg, steps, n, slot) then k == n else LastSet(cfg, steps, n, slot, k) {
        OneMoreSet(cfg, steps, n, slot, k);
      }
      var s := At(cfg, steps, n);
      if slot in s.results {
        StepTellsOutcome(cfg, s, steps[n], s.results[slot].writer);
      }
    }
  }

  lemma NoneBefore(cfg: Config, steps: seq<Step>, slot: string, k: nat)
    requires Legal(cfg, Init, steps)
    ensures !LastSet(cfg, steps, 0, slot, k)
  {
  }

  /** A result can be read exactly if there has been a SET, the last one less than resultTTL ago. */
  lemma StoredIff(cfg: Config, steps: seq<Step>, i: nat, slot: string)
    requires Legal(cfg, Init, steps) && i <= |steps|
    ensures Stored(At(cfg, steps, i), slot) <==>
      exists k: nat :: LastSet(cfg, steps, i, slot, k) && At(cfg, steps, i).now < At(cfg, steps, k).now + cfg.resultTTL
  {
    hide Legal, At, LastSet;
    ResultIsTold(cfg, steps, i, slot);
    if slot in At(cfg, steps, i).results {
      var k: nat :| LastSet(cfg, steps, i, slot, k);
    }
  }

  /**
    A GET of the result, the first one or a poller's. If a result is there, the caller has, with this step, what the
    fn of the last SET's sender returned, as the store carries it: its text exactly, if it was a text. If none is
    there, the caller goes on to the lock, or goes on polling.
   */
  lemma GetIsAnswered(cfg: Config, steps: seq<Step>, i: nat, c: CallId)
    requires Legal(cfg, Init, steps) && i < |steps| && (steps[i] == GetResult(c) || steps[i] == Poll(c))
    ensures var s, t := At(cfg, steps, i), At(cfg, steps, i + 1);
      && c in s.calls && c in t.calls
      && var slot := s.calls[c].slot;
      if Stored(s, slot) then
        && t.calls[c].phase.Returned? && t.calls[c].phase.answer.Shared?
        && var got, w := t.calls[c].phase.answer.out, t.calls[c].phase.answer.writer;
        && (exists k: nat :: LastSet(cfg, steps, i, slot, k) && steps[k] == SetResult(w))
        && (exists sent :: FnReturns(w, sent) in steps[..i] && Carries(sent, got))
        && (forall text :: FnReturns(w, Answered(text)) in steps ==> got == Answered(text))
      else if steps[i] == Poll(c) then t.calls[c] == s.calls[c]
      else t.calls[c].phase == Locking
  {
    hide Legal, LastSet, Encode, Decode;
    Next(cfg, steps, i);
    var s := At(cfg, steps, i);
    var slot := s.calls[c].slot;
    if Stored(s, slot) {
      ResultIsTold(cfg, steps, i, slot);
      var k: nat :| LastSet(cfg, steps, i, slot, k);
      var w := s.results[slot].writer;
      var sent := s.outcomes[w];
      WhatWasSent(cfg, steps, i, w, sent);
      StoreCarries(sent);
      assert steps[k] == SetResult(w) by { LastIsSet(cfg, steps, i, slot, k); }
      forall text | FnReturns(w, Answered(text)) in steps ensures sent == Answered(text) {
        OneOutcome(cfg, steps, w, sent, Answered(text));
      }
    }
  }

  lemma LastIsSet(cfg: Config, steps: seq<Step>, i: nat, slot: string, k: nat)
    requires Legal(cfg, Init, steps) && i <= |steps| && LastSet(cfg, steps, i, slot, k)
    ensures k < i && steps[k].SetResult?
  {
  }

  lemma WhatWasSent(cfg: Config, steps: seq<Step>, i: nat, w: CallId, sent: Outcome)
    requires Legal(cfg, Init, steps) && i <= |steps|
    requires w in At(cfg, steps, i).outcomes && At(cfg, steps, i).outcomes[w] == sent
    ensures FnReturns(w, sent) in steps[..i] && FnReturns(w, sent) in steps
  {
    hide Apply, Enabled;
    InitInv();
    Prefix(cfg, Init, steps, i);
    OutcomesAreTold(cfg, Init, steps[..i], w, sent);
  }

  /** fn returns once for a caller. */
  lemma OneOutcome(cfg: Config, steps: seq<Step>, w: CallId, a: Outcome, b: Outcome)
    requires Legal(cfg, Init, steps) && FnReturns(w, a) in steps && FnReturns(w, b) in steps
    ensures a == b
  {
    InitInv();
    OutcomesAreTold(cfg, Init, steps, w, a);
    OutcomesAreTold(cfg, Init, steps, w, b);
  }

  // ---------------------------------------------------------------------------------------------------
  // How long a follower waits
  // ---------------------------------------------------------------------------------------------------

  /** Step k is c's SETNX, and does not succeed. */
  predicate RefusedAt(cfg: Config, steps: seq<Step>, k: nat, c: CallId)
    requires Legal(cfg, Init, steps) && k < |steps|
  {
    var s := At(cfg, steps, k);
    steps[k] == TryLock(c) && c in s.calls && Locked(s, s.calls[c].slot)
  }

  /** A caller that polls had its SETNX refused, and its time is LockTTL and ten seconds from then. */
  lemma {:induction false} PollerWasRefused(cfg: Config, steps: seq<Step>, i: nat, c: CallId) returns (k: nat)
    requires Legal(cfg, Init, steps) && i <= |steps|
    requires var s := At(cfg, steps, i); c in s.calls && s.calls[c].phase.Polling?
    ensures k < i && RefusedAt(cfg, steps, k, c)
    ensures At(cfg, steps, i).calls[c].phase.deadline == At(cfg, steps, k).now + cfg.lockTTL + 10_000
    decreases i
  {
    hide Apply, Legal, At;
    AtEnds(cfg, steps);
    var n := i - 1;
    Next(cfg, steps, n);
    var s := At(cfg, steps, n);
    BecomesPoller(cfg, s, steps[n], c);
    if c in s.calls && s.calls[c].phase.Polling? {
      k := PollerWasRefused(cfg, steps, n, c);
    } else {
      k := n;
    }
  }

  lemma BecomesPoller(cfg: Config, s: State, a: Step, c: CallId)
    requires Enabled(s, a)
    requires var t := Apply(cfg, s, a); c in t.calls && t.calls[c].phase.Polling?
    ensures var t := Apply(cfg, s, a);
      c in s.calls &&
      if s.calls[c].phase.Polling? then t.calls[c] == s.calls[c]
      else a == TryLock(c) && Locked(s, s.calls[c].slot) && t.calls[c].phase.deadline == s.now + cfg.lockTTL + 10_000
  {
    hide Encode, Decode;
  }

  /** So it polls as long as that is not over, and times out exactly once it is. */
  lemma WaitsIff(cfg: Config, steps: seq<Step>, i: nat, c: CallId) returns (k: nat)
    requires Legal(cfg, Init, steps) && i <= |steps|
    requires var s := At(cfg, steps, i); c in s.calls && s.calls[c].phase.Polling?
    ensures k < i && RefusedAt(cfg, steps, k, c)
    ensures var s, end := At(cfg, steps, i), At(cfg, steps, k).now + cfg.lockTTL + 10_000;
      && (Enabled(s, TimeOut(c)) <==> s.now > end)
      && (Enabled(s, Poll(c)) <==> s.now <= end)
  {
    hide Apply, Legal, At;
    k := PollerWasRefused(cfg, steps, i, c);
  }

  /** Nobody gets stuck: a caller that has not returned has a step of its own other than giving up. */
  lemma SomeStepIsOpen(s: State, c: CallId)
    requires c in s.calls && !s.calls[c].phase.Returned?
    ensures exists a :: Enabled(s, a) && !a.Tick? && !a.GiveUp? && a.c == c
  {
    match s.calls[c].phase
    case Reading => assert Enabled(s, GetResult(c));
    case Locking => assert Enabled(s, TryLock(c));
    case Running(_) => assert Enabled(s, FnReturns(c, Failed("")));
    case Storing(_, _) => assert Enabled(s, SetResult(c));
    case Releasing(_, _) => assert Enabled(s, DelLock(c));
    case Polling(deadline) => assert if s.now > deadline then Enabled(s, TimeOut(c)) else Enabled(s, Poll(c));
  }

  // ---------------------------------------------------------------------------------------------------
  // Two runs in which a follower is served
  // ---------------------------------------------------------------------------------------------------

  /** A caller that comes after the first one is done gets the first one's text. */
  lemma LateCallerGetsText(cfg: Config, slot: string, text: string) returns (steps: seq<Step>, s: State)
    requires cfg.Valid()
    ensures LeadsTo(cfg, steps, s)
    ensures 0 in s.calls && s.calls[0].phase == Returned(Own(Answered(text)))
    ensures 1 in s.calls && s.calls[1].phase == Returned(Shared(Answered(text), 0))
  {
    steps, s := [], Init;
    steps, s := Then(cfg, steps, s, Arrive(0, slot));
    steps, s := Then(cfg, steps, s, GetResult(0));
    steps, s := Then(cfg, steps, s, TryLock(0));
    steps, s := Then(cfg, steps, s, FnReturns(0, Answered(text)));
    steps, s := Then(cfg, steps, s, SetResult(0));
    steps, s := Then(cfg, steps, s, DelLock(0));
    steps, s := Then(cfg, steps, s, Arrive(1, slot));
    steps, s := Then(cfg, steps, s, GetResult(1));
  }

  /** And so does a caller that comes while the first one is at work, by polling. */
  lemma PollerGetsText(cfg: Config, slot: string, text: string) returns (steps: seq<Step>, s: State)
    requires cfg.Valid()
    ensures LeadsTo(cfg, steps, s)
    ensures 1 in s.calls && s.calls[1].phase == Returned(Shared(Answered(text), 0))
  {
    steps, s := [], Init;
    steps, s := Then(cfg, steps, s, Arrive(0, slot));
    steps, s := Then(cfg, steps, s, GetResult(0));
    steps, s := Then(cfg, steps, s, TryLock(0));
    steps, s := Then(cfg, steps, s, Arrive(1, slot));
    steps, s := Then(cfg, steps, s, GetResult(1));
    steps, s := Then(cfg, steps, s, TryLock(1));
    steps, s := Then(cfg, steps, s, FnReturns(0, Answered(text)));
    steps, s := Then(cfg, steps, s, SetResult(0));
    steps, s := Then(cfg, steps, s, Poll(1));
  }
}
