/**
  The breaker under concurrent use. The gateway shares one wrapper (internal/downstream/circuit.go) among its requests,
  so further calls are let in while earlier ones are still out, and reports of calls from before an open window arrive
  during and after it. A run is the log of the breaker's operations in the order in which its mutex let them in.
 */
module BreakerLoad {
  import opened CircuitBreaker
  import opened Wrappers

  function After(m: int, d: int, s: State, e: Event): State {
    match e
    case Allow(t) => Allowed(s, t)
    case Success => Closed
    case Fail(t) => AfterFail(m, d, s, t)
  }

  function RunFrom(m: int, d: int, s: State, log: seq<Event>): State
    decreases |log|
  {
    if log == [] then s else RunFrom(m, d, After(m, d, s, log[0]), log[1..])
  }

  /** An Allow that lets a call in. */
  predicate LetsIn(s: State, e: Event) {
    e.Allow? && !Refuses(s, e.at)
  }

  /** The times at which calls are let in. */
  function Starts(m: int, d: int, s: State, log: seq<Event>): seq<int>
    decreases |log|
  {
    if log == [] then []
    else (if LetsIn(s, log[0]) then [log[0].at] else []) + Starts(m, d, After(m, d, s, log[0]), log[1..])
  }

  /** How many calls are out after an operation. */
  function Out(s: State, i: int, e: Event): int {
    if LetsIn(s, e) then i + 1 else if e.Allow? then i else i - 1
  }

  /** Each call let in reports once, when it is back, and at no time are more than n of them out. */
  predicate AtMostOut(m: int, d: int, n: int, s: State, i: int, log: seq<Event>)
    decreases |log|
  {
    0 <= i <= n && (log != [] ==> AtMostOut(m, d, n, After(m, d, s, log[0]), Out(s, i, log[0]), log[1..]))
  }

  /** The clock does not run backwards, and no call succeeds. */
  predicate FailuresOnly(now: int, log: seq<Event>)
    decreases |log|
  {
    log != [] ==> !log[0].Success? && now <= log[0].at && FailuresOnly(log[0].at, log[1..])
  }

  /** What every breaker keeps: the count below the threshold, and a window of at most d from now. */
  predicate Sound(m: int, d: int, s: State, now: int) {
    0 <= s.failures < m && (s.openUntil.Some? ==> s.openUntil.value <= now + d)
  }

  /** Calls let in after j others start no earlier than this; b is the most that can be let in between two windows. */
  function EarliestUnder(b: int, d: int, s: State, i: nat, now: int, j: nat): int
    requires b > 0 && s.failures >= 0
  {
    match s.openUntil
    case Some(u) => (if now < u then u else now) + d * Rounds(b, j)
    case None => now + d * Rounds(b, s.failures + i + j)
  }

  lemma {:induction false} RoundsGrow(b: int, x: nat, y: nat)
    requires b > 0 && x <= y
    ensures 0 <= Rounds(b, x) <= Rounds(b, y)
    decreases y
  {
    RoundsNat(b, x);
    RoundsNat(b, y);
    if x >= b {
      RoundsGrow(b, x - b, y - b);
    }
  }

  /** More rounds, later start. */
  lemma Later(b: int, d: int, x: nat, y: nat)
    requires b > 0 && d > 0 && x <= y
    ensures 0 <= d * Rounds(b, x) <= d * Rounds(b, y)
  {
    RoundsGrow(b, x, y);
    ScaledBy(d, 0, Rounds(b, x));
    ScaledBy(d, Rounds(b, x), Rounds(b, y));
    assert Rounds(b, x) * d == d * Rounds(b, x);
  }

  /** What is bought with b calls is one window. */
  lemma OneWindow(b: int, d: int, x: nat)
    requires b > 0 && d > 0
    ensures d * Rounds(b, b + x) == d + d * Rounds(b, x)
  {
    assert Rounds(b, b + x) == 1 + Rounds(b, x);
    assert d * (1 + Rounds(b, x)) == d + d * Rounds(b, x);
  }

  /** One operation: the state stays sound, and no earlier start becomes possible. */
  lemma StepDelays(m: int, d: int, n: int, s: State, i: nat, now: int, e: Event, j: nat)
    requires m > 0 && d > 0 && n > 0 && Sound(m, d, s, now) && i <= n
    requires !e.Success? && now <= e.at && 0 <= Out(s, i, e) <= n
    requires LetsIn(s, e) ==> j > 0
    ensures var b, t := m - 1 + n, After(m, d, s, e);
      Sound(m, d, t, e.at)
      && EarliestUnder(b, d, t, Out(s, i, e), e.at, if LetsIn(s, e) then j - 1 else j) >= EarliestUnder(b, d, s, i, now, j)
  {
    var b := m - 1 + n;
    var t := After(m, d, s, e);
    if LetsIn(s, e) {
      if s.openUntil.Some? {
        Later(b, d, j, i + j);
      }
    } else if e.Fail? && s.failures + 1 >= m {
      Later(b, d, 0, j);
      if s.openUntil.None? {
        Later(b, d, s.failures + i + j, b + j);
        OneWindow(b, d, j);
      }
    }
  }

  /** With at most n calls out, a success-free stretch lets call j in no earlier than said, from any sound state. */
  lemma {:induction false} SpacingUnderLoad(m: int, d: int, n: int, s: State, i: nat, now: int, log: seq<Event>, j: nat)
    requires m > 0 && d > 0 && n > 0 && Sound(m, d, s, now)
    requires FailuresOnly(now, log) && AtMostOut(m, d, n, s, i, log)
    requires j < |Starts(m, d, s, log)|
    ensures Starts(m, d, s, log)[j] >= EarliestUnder(m - 1 + n, d, s, i, now, j)
    decreases |log|
  {
    hide EarliestUnder, Sound, Refuses;
    var e, rest := log[0], log[1..];
    var t := After(m, d, s, e);
    if LetsIn(s, e) && j == 0 {
      FirstIsInTime(m, d, n, s, i, now, e);
    } else {
      StepDelays(m, d, n, s, i, now, e, j);
      SpacingUnderLoad(m, d, n, t, Out(s, i, e), e.at, rest, if LetsIn(s, e) then j - 1 else j);
    }
  }

  lemma FirstIsInTime(m: int, d: int, n: int, s: State, i: nat, now: int, e: Event)
    requires m > 0 && d > 0 && n > 0 && Sound(m, d, s, now)
    requires LetsIn(s, e) && now <= e.at && Out(s, i, e) <= n
    ensures e.at >= EarliestUnder(m - 1 + n, d, s, i, now, 0)
  {
  }

  /** Call number k * (m - 1 + n), counting from 0, is let in at least k windows after the first. */
  lemma {:induction false} SpacedUnderLoad(m: int, d: int, n: int, s: State, i: nat, now: int, log: seq<Event>, k: nat)
    requires m > 0 && d > 0 && n > 0 && Sound(m, d, s, now)
    requires FailuresOnly(now, log) && AtMostOut(m, d, n, s, i, log)
    requires 0 <= k * (m - 1 + n) < |Starts(m, d, s, log)|
    ensures Starts(m, d, s, log)[k * (m - 1 + n)] >= Starts(m, d, s, log)[0] + k * d
    decreases |log|
  {
    hide EarliestUnder, Refuses;
    var b, e, rest := m - 1 + n, log[0], log[1..];
    var t := After(m, d, s, e);
    if !LetsIn(s, e) {
      SoundLasts(m, d, s, now, e);
      SpacedUnderLoad(m, d, n, t, Out(s, i, e), e.at, rest, k);
    } else if k > 0 {
      var j := k * b;
      assert j > 0 by { Multiple(k - 1, b); assert j == (k - 1) * b + b; }
      SoundLasts(m, d, s, now, e);
      SpacingUnderLoad(m, d, n, t, i + 1, e.at, rest, j - 1);
      AfterFirst(m, d, n, s, i, e, j);
      KRounds(b, 0, k);
      ScaledBy(d, k, Rounds(b, j));
    }
  }

  lemma SoundLasts(m: int, d: int, s: State, now: int, e: Event)
    requires m > 0 && d > 0 && Sound(m, d, s, now) && !e.Success? && now <= e.at
    ensures Sound(m, d, After(m, d, s, e), e.at)
  {
  }

  /** From a call that is let in, the spacing counts from its own start. */
  lemma AfterFirst(m: int, d: int, n: int, s: State, i: nat, e: Event, j: nat)
    requires m > 0 && d > 0 && n > 0 && 0 <= s.failures && LetsIn(s, e) && j > 0
    ensures EarliestUnder(m - 1 + n, d, After(m, d, s, e), i + 1, e.at, j - 1) >= e.at + d * Rounds(m - 1 + n, j)
  {
    var t := After(m, d, s, e);
    Later(m - 1 + n, d, j, t.failures + i + j);
  }

  lemma {:induction false} StartsRise(m: int, d: int, s: State, now: int, log: seq<Event>, x: nat, y: nat)
    requires FailuresOnly(now, log) && x <= y < |Starts(m, d, s, log)|
    ensures now <= Starts(m, d, s, log)[x] <= Starts(m, d, s, log)[y]
    decreases |log|
  {
    hide Refuses;
    var e, rest := log[0], log[1..];
    var t := After(m, d, s, e);
    if !LetsIn(s, e) {
      StartsRise(m, d, t, e.at, rest, x, y);
    } else if x > 0 {
      StartsRise(m, d, t, e.at, rest, x - 1, y - 1);
    } else if y > 0 {
      StartsRise(m, d, t, e.at, rest, y - 1, y - 1);
    }
  }

  /**
    With at most n calls out at a time, calls let in over a span T in a stretch without success number at most
    (maxFailures - 1 + n) * (T / openDuration + 1).
   */
  lemma RateBoundUnderLoad(m: int, d: int, n: int, s: State, i: nat, now: int, log: seq<Event>)
    requires m > 0 && d > 0 && n > 0 && Sound(m, d, s, now)
    requires FailuresOnly(now, log) && AtMostOut(m, d, n, s, i, log) && Starts(m, d, s, log) != []
    ensures var starts := Starts(m, d, s, log);
      var T := starts[|starts| - 1] - starts[0];
      T >= 0 && |starts| <= (m - 1 + n) * (T / d + 1)
  {
    hide Starts, FailuresOnly, AtMostOut, Sound;
    var starts, b := Starts(m, d, s, log), m - 1 + n;
    var last := |starts| - 1;
    var T := starts[last] - starts[0];
    StartsRise(m, d, s, now, log, 0, last);
    var k := T / d + 1;
    WholeWindows(T, d);
    assert k * b == b * k;
    Multiple(k, b);
    if last >= k * b {
      SpacedUnderLoad(m, d, n, s, i, now, log, k);
      StartsRise(m, d, s, now, log, k * b, last);
      assert false;
    }
  }

  lemma {:induction false} ReplayIsRun(m: int, d: int, log: seq<Event>)
    ensures Replay(m, d, log) == RunFrom(m, d, Closed, log)
  {
    if log != [] {
      var n := |log| - 1;
      ReplayIsRun(m, d, log[..n]);
      RunLast(m, d, Closed, log[..n], log[n]);
      assert log[..n] + [log[n]] == log;
    }
  }

  lemma {:induction false} RunLast(m: int, d: int, s: State, log: seq<Event>, e: Event)
    ensures RunFrom(m, d, s, log + [e]) == After(m, d, RunFrom(m, d, s, log), e)
    decreases |log|
  {
    if log == [] {
      assert [] + [e] == [e];
    } else {
      assert (log + [e])[1..] == log[1..] + [e];
      RunLast(m, d, After(m, d, s, log[0]), log[1..], e);
    }
  }

  /** The bound from every state a breaker can be in: after any operations at all, with any number up to n still out. */
  lemma RateBoundOfBreaker(m: int, d: int, n: int, past: seq<Event>, i: nat, now: int, log: seq<Event>)
    requires m > 0 && d > 0 && n > 0 && InOrder(past, now)
    requires var s := Replay(m, d, past);
      FailuresOnly(now, log) && AtMostOut(m, d, n, s, i, log) && Starts(m, d, s, log) != []
    ensures var starts := Starts(m, d, Replay(m, d, past), log);
      var T := starts[|starts| - 1] - starts[0];
      T >= 0 && |starts| <= (m - 1 + n) * (T / d + 1)
  {
    OpenMeansTripped(m, d, past);
    var s := Replay(m, d, past);
    if s.openUntil.Some? {
      var j, t :| Trips(m, past, j, t) && s.openUntil.value == t + d;
      assert past[j].at <= now;
    }
    RateBoundUnderLoad(m, d, n, s, i, now, log);
  }

  // ---------------------------------------------------------------------------------------------------
  // What reopens the breaker after a window
  // ---------------------------------------------------------------------------------------------------

  function Fails(times: seq<int>): seq<Event> {
    if times == [] then [] else [Fail(times[0])] + Fails(times[1..])
  }

  lemma {:induction false} FailsOpenIff(m: int, d: int, s: State, times: seq<int>)
    requires m > 0 && 0 <= s.failures < m
    ensures RunFrom(m, d, s, Fails(times)).openUntil.Some? <==> s.openUntil.Some? || s.failures + |times| >= m
    decreases |times|
  {
    if times != [] {
      FailsOpenIff(m, d, AfterFail(m, d, s, times[0]), times[1..]);
      assert Fails(times)[1..] == Fails(times[1..]);
    }
  }

  /**
    The first call let in after a window is no trial of its own: what opens the next window is the maxFailures-th
    failure reported from then on, and the reports of calls that were let in before the window count as well.
   */
  lemma ReopensIff(m: int, d: int, s: State, t: int, times: seq<int>)
    requires m > 0 && s.openUntil.Some? && s.openUntil.value <= t
    ensures LetsIn(s, Allow(t))
    ensures RunFrom(m, d, s, [Allow(t)] + Fails(times)).openUntil.Some? <==> |times| >= m
  {
    assert ([Allow(t)] + Fails(times))[1..] == Fails(times);
    FailsOpenIff(m, d, Closed, times);
  }

  // ---------------------------------------------------------------------------------------------------
  // The bound is met
  // ---------------------------------------------------------------------------------------------------

  /**
    What is left of a round at time t: p calls that come back at once, a calls that stay out, r reports; and `rounds`
    more rounds after it, one every d.
   */
  function Load(m: int, d: int, n: nat, t: int, p: nat, a: nat, r: nat, rounds: nat): seq<Event>
    requires m > 0
    decreases rounds, p, a, r
  {
    if p > 0 then [Allow(t), Fail(t)] + Load(m, d, n, t, p - 1, a, r, rounds)
    else if a > 0 then [Allow(t)] + Load(m, d, n, t, 0, a - 1, r, rounds)
    else if r > 0 then [Fail(t)] + Load(m, d, n, t, 0, 0, r - 1, rounds)
    else if rounds > 0 then Load(m, d, n, t + d, m - 1, n, n, rounds - 1)
    else []
  }

  /** The state such a round is in. */
  predicate InRound(m: int, d: int, n: nat, t: int, p: nat, a: nat, r: nat, s: State) {
    && p <= m - 1 && a <= n && r <= n && (p > 0 ==> a == n) && (a > 0 ==> r == n) && 0 <= s.failures < m
    && (if r < n then s.openUntil == Some(t + d)
        else s == State(m - 1 - p, None) || (p == m - 1 && a == n && s.openUntil == Some(t)))
  }

  lemma {:induction false} LoadServed(m: int, d: int, n: nat, t: int, p: nat, a: nat, r: nat, rounds: nat, s: State)
    requires m > 0 && d > 0 && n > 0 && InRound(m, d, n, t, p, a, r, s)
    ensures var log := Load(m, d, n, t, p, a, r, rounds);
      && FailuresOnly(t, log) && AtMostOut(m, d, n, s, if a > 0 then n - a else r, log)
      && |Starts(m, d, s, log)| == p + a + (m - 1 + n) * rounds
      && (forall x :: x in Starts(m, d, s, log) ==> t <= x <= t + rounds * d)
    decreases rounds, p, a, r
  {
    var log := Load(m, d, n, t, p, a, r, rounds);
    Multiple(rounds, d);
    if p > 0 {
      var s1 := After(m, d, s, Allow(t));
      var s2 := After(m, d, s1, Fail(t));
      assert log[1..][1..] == Load(m, d, n, t, p - 1, a, r, rounds) && log[1..][0] == Fail(t);
      LoadServed(m, d, n, t, p - 1, a, r, rounds, s2);
      assert Starts(m, d, s, log) == [t] + Starts(m, d, s1, log[1..]);
      assert Starts(m, d, s1, log[1..]) == Starts(m, d, s2, log[1..][1..]);
    } else if a > 0 {
      assert log[1..] == Load(m, d, n, t, 0, a - 1, r, rounds);
      LoadServed(m, d, n, t, 0, a - 1, r, rounds, After(m, d, s, Allow(t)));
    } else if r > 0 {
      assert log[1..] == Load(m, d, n, t, 0, 0, r - 1, rounds);
      LoadServed(m, d, n, t, 0, 0, r - 1, rounds, After(m, d, s, Fail(t)));
    } else if rounds > 0 {
      LoadServed(m, d, n, t + d, m - 1, n, n, rounds - 1, s);
      OneRoundMore(m - 1 + n, d, rounds);
      LaterStart(t, t + d, log);
    }
  }

  lemma OneRoundMore(b: int, d: int, rounds: nat)
    requires rounds > 0
    ensures b * rounds == b + b * (rounds - 1) && rounds * d == d + (rounds - 1) * d
  {
  }

  lemma LaterStart(now: int, t: int, log: seq<Event>)
    requires now <= t && FailuresOnly(t, log)
    ensures FailuresOnly(now, log)
  {
  }

  /** For all settings, any number of calls out, and any span of whole windows, some load reaches the bound. */
  lemma LoadMeetsBound(m: int, d: int, n: nat, rounds: nat)
    requires m > 0 && d > 0 && n > 0
    ensures exists log :: FailuresOnly(0, log) && AtMostOut(m, d, n, Closed, 0, log)
              && |Starts(m, d, Closed, log)| == (m - 1 + n) * (rounds + 1)
              && forall x :: x in Starts(m, d, Closed, log) ==> 0 <= x <= rounds * d
  {
    LoadServed(m, d, n, 0, m - 1, n, n, rounds, Closed);
    OneRoundMore(m - 1 + n, d, rounds + 1);
    var log := Load(m, d, n, 0, m - 1, n, n, rounds);
    assert FailuresOnly(0, log) && AtMostOut(m, d, n, Closed, 0, log);
  }
}
