/**
  The circuit breaker (internal/circuitbreaker/breaker.go) and the wrapper that calls it around the downstream
  answerer (internal/downstream/circuit.go). `time.Now()` is a parameter of each operation. What the code does
  decides: there is no half-open state with a single probe, the failure count restarts at 0 after the window.
 */
module CircuitBreaker {
  import opened Wrappers
  import opened Downstream

  const DEFAULT_MAX_FAILURES := 5
  const DEFAULT_OPEN_DURATION := 30_000

  /** The breaker's fields; `openUntil` is None for Go's zero time. */
  datatype State = State(failures: int, openUntil: Option<int>)

  const Closed := State(0, None)

  predicate Refuses(s: State, now: int) {
    s.openUntil.Some? && now < s.openUntil.value
  }

  function Allowed(s: State, now: int): State {
    if s.openUntil.Some? && now >= s.openUntil.value then Closed else s
  }

  function AfterFail(maxFailures: int, openDuration: int, s: State, now: int): State {
    if s.failures + 1 >= maxFailures then State(0, Some(now + openDuration)) else s.(failures := s.failures + 1)
  }

  class Breaker {
    const maxFailures: int
    const openDuration: int
    var failures: int
    var openUntil: Option<int>

    function View(): State
      reads this
    {
      State(failures, openUntil)
    }

    constructor (maxFailures: int, openDuration: int)
      ensures this.maxFailures > 0 && this.openDuration > 0 && View() == Closed
      ensures maxFailures > 0 ==> this.maxFailures == maxFailures
      ensures openDuration > 0 ==> this.openDuration == openDuration
      ensures maxFailures <= 0 ==> this.maxFailures == 5
      ensures openDuration <= 0 ==> this.openDuration == 30_000
    {
      this.maxFailures := if maxFailures <= 0 then DEFAULT_MAX_FAILURES else maxFailures;
      this.openDuration := if openDuration <= 0 then DEFAULT_OPEN_DURATION else openDuration;
      failures, openUntil := 0, None;
    }

    method Allow(now: int) returns (ok: bool)
      modifies this
      ensures ok == !Refuses(old(View()), now)
      ensures View() == Allowed(old(View()), now)
    {
      if openUntil != None {
        if now < openUntil.value {
          return false;
        }
        openUntil := None;
        failures := 0;
      }
      return true;
    }

    method Success()
      modifies this
      ensures View() == Closed
    {
      failures := 0;
      openUntil := None;
    }

    method Fail(now: int)
      modifies this
      ensures View() == AfterFail(maxFailures, openDuration, old(View()), now)
    {
      failures := failures + 1;
      if failures >= maxFailures {
        openUntil := Some(now + openDuration);
        failures := 0;
      }
    }
  }

  // ---------------------------------------------------------------------------------------------------
  // Any interleaving of the three operations
  // ---------------------------------------------------------------------------------------------------

  /** The operations in the order in which the mutex let them in. */
  datatype Event = Allow(at: int) | Success | Fail(at: int)

  function Replay(maxFailures: int, openDuration: int, log: seq<Event>): State {
    if log == [] then Closed
    else
      var s := Replay(maxFailures, openDuration, log[..|log| - 1]);
      match log[|log| - 1]
      case Allow(t) => Allowed(s, t)
      case Success => Closed
      case Fail(t) => AfterFail(maxFailures, openDuration, s, t)
  }

  /** How many failures the log ends in, counting back to the last success. */
  function FailuresSinceSuccess(log: seq<Event>): nat {
    if log == [] then 0
    else
      var n := FailuresSinceSuccess(log[..|log| - 1]);
      match log[|log| - 1]
      case Allow(_) => n
      case Success => 0
      case Fail(_) => n + 1
  }

  /** The clock does not run backwards. */
  ghost predicate InOrder(log: seq<Event>, now: int) {
    forall i :: 0 <= i < |log| && !log[i].Success? ==> log[i].at <= now
  }

  /** log[i] is a failure at time t, at least the maxFailures-th since the last success, and no success follows. */
  predicate Trips(maxFailures: int, log: seq<Event>, i: int, t: int) {
    && 0 <= i < |log| && log[i] == Fail(t)
    && FailuresSinceSuccess(log[..i + 1]) >= maxFailures
    && forall j :: i < j < |log| ==> log[j] != Success
  }

  lemma {:induction false} OpenMeansTripped(maxFailures: int, openDuration: int, log: seq<Event>)
    requires maxFailures > 0
    ensures var s := Replay(maxFailures, openDuration, log);
      && 0 <= s.failures < maxFailures && s.failures <= FailuresSinceSuccess(log)
      && (s.openUntil.Some? ==> exists i, t :: Trips(maxFailures, log, i, t) && s.openUntil.value == t + openDuration)
  {
    if log != [] {
      var n := |log| - 1;
      var init := log[..n];
      OpenMeansTripped(maxFailures, openDuration, init);
      var s := Replay(maxFailures, openDuration, log);
      if s.openUntil.Some? {
        if log[n].Fail? && s.openUntil == Some(log[n].at + openDuration) && FailuresSinceSuccess(log) >= maxFailures {
          assert log[..n + 1] == log;
          assert Trips(maxFailures, log, n, log[n].at);
        } else {
          var i, t :| Trips(maxFailures, init, i, t) && s.openUntil.value == t + openDuration;
          assert log[..i + 1] == init[..i + 1];
          assert Trips(maxFailures, log, i, t);
        }
      }
    }
  }

  /**
    However the operations interleave: the count stays below the threshold, and a refusal at time t means that some
    failure in (t - openDuration, t] was at least the maxFailures-th since the last success, with none after it.
   */
  lemma RefusalIsEarned(maxFailures: int, openDuration: int, log: seq<Event>, t: int)
    requires maxFailures > 0 && InOrder(log, t)
    ensures 0 <= Replay(maxFailures, openDuration, log).failures < maxFailures
    ensures Refuses(Replay(maxFailures, openDuration, log), t) ==>
      exists i, at :: Trips(maxFailures, log, i, at) && t - openDuration < at <= t
  {
    OpenMeansTripped(maxFailures, openDuration, log);
    var s := Replay(maxFailures, openDuration, log);
    if Refuses(s, t) {
      var i, at :| Trips(maxFailures, log, i, at) && s.openUntil.value == at + openDuration;
      assert log[i].at <= t;
    }
  }

  // ---------------------------------------------------------------------------------------------------
  // The wrapper
  // ---------------------------------------------------------------------------------------------------

  /** One use of the wrapper: when it asks, and, should it be let through, what the inner call does and until when. */
  datatype Call = Call(start: int, finish: int, out: Outcome)

  /** ErrOpen, or what the inner call came to. */
  datatype Reply = Refused | Passed(out: Outcome)

  function Serve(m: int, d: int, s: State, k: Call): State {
    if Refuses(s, k.start) then s
    else if k.out.Answered? then Closed
    else AfterFail(m, d, Allowed(s, k.start), k.finish)
  }

  /** `breakerAnswerer.Answer`: ask, call, report. */
  method Answer(br: Breaker, k: Call) returns (r: Reply)
    modifies br
    ensures r == if Refuses(old(br.View()), k.start) then Refused else Passed(k.out)
    ensures br.View() == Serve(br.maxFailures, br.openDuration, old(br.View()), k)
  {
    var ok := br.Allow(k.start);
    if !ok {
      return Refused;
    }
    if k.out.Failed? {
      br.Fail(k.finish);
    } else {
      br.Success();
    }
    r := Passed(k.out);
  }

  /** Uses one after the other, on a clock that does not run backwards. */
  predicate Serial(now: int, calls: seq<Call>)
    decreases |calls|
  {
    calls == [] || (now <= calls[0].start <= calls[0].finish && Serial(calls[0].finish, calls[1..]))
  }

  /** The start times of the inner calls. */
  function InnerStarts(m: int, d: int, s: State, calls: seq<Call>): seq<int>
    decreases |calls|
  {
    if calls == [] then []
    else (if Refuses(s, calls[0].start) then [] else [calls[0].start])
         + InnerStarts(m, d, Serve(m, d, s, calls[0]), calls[1..])
  }

  /** No inner call succeeds. */
  predicate SuccessFree(m: int, d: int, s: State, calls: seq<Call>)
    decreases |calls|
  {
    calls == [] ||
      ((Refuses(s, calls[0].start) || calls[0].out.Failed?) && SuccessFree(m, d, Serve(m, d, s, calls[0]), calls[1..]))
  }

  /** How many whole rounds of m failures there are in n. */
  function Rounds(m: int, n: int): int
    requires m > 0
    decreases n
  {
    if n < m then 0 else 1 + Rounds(m, n - m)
  }

  /** No inner call j from here on starts earlier than this: every m-th failure costs a wait of d. */
  function Earliest(m: int, d: int, s: State, now: int, j: nat): int
    requires m > 0
  {
    match s.openUntil
    case Some(u) => (if now < u then u else now) + d * Rounds(m, j)
    case None => now + d * Rounds(m, s.failures + j)
  }

  lemma {:induction false} Spacing(m: int, d: int, s: State, now: int, calls: seq<Call>, j: nat)
    requires m > 0 && d > 0 && 0 <= s.failures < m
    requires Serial(now, calls) && SuccessFree(m, d, s, calls)
    requires j < |InnerStarts(m, d, s, calls)|
    ensures InnerStarts(m, d, s, calls)[j] >= Earliest(m, d, s, now, j)
    decreases |calls|
  {
    var k, rest := calls[0], calls[1..];
    if Refuses(s, k.start) {
      Spacing(m, d, s, k.finish, rest, j);
    } else {
      FirstAllowed(m, d, s, calls, j);
    }
  }

  /** From an inner call on, the spacing counts from its own start. */
  lemma {:induction false} FirstAllowed(m: int, d: int, s: State, calls: seq<Call>, j: nat)
    requires m > 0 && d > 0 && 0 <= s.failures < m
    requires calls != [] && Serial(calls[0].start, calls) && SuccessFree(m, d, s, calls)
    requires !Refuses(s, calls[0].start)
    requires j < |InnerStarts(m, d, s, calls)|
    ensures InnerStarts(m, d, s, calls)[0] == calls[0].start
    ensures InnerStarts(m, d, s, calls)[j] >= calls[0].start + d * Rounds(m, Allowed(s, calls[0].start).failures + j)
    decreases |calls|, 0
  {
    var k, rest := calls[0], calls[1..];
    var t := Serve(m, d, s, k);
    var f := Allowed(s, k.start).failures;
    if j > 0 {
      Spacing(m, d, t, k.finish, rest, j - 1);
      if f + 1 >= m {
        assert d * (1 + Rounds(m, j - 1)) == d + d * Rounds(m, j - 1);
      }
    }
  }

  lemma {:induction false} KRounds(m: int, f: nat, k: nat)
    requires m > 0
    ensures Rounds(m, f + k * m) >= k
  {
    if k > 0 {
      assert k * m == (k - 1) * m + m;
      Multiple(k - 1, m);
      KRounds(m, f, k - 1);
    } else {
      RoundsNat(m, f);
    }
  }

  lemma Multiple(k: nat, m: int)
    requires m > 0
    ensures k * m >= 0
  {
  }

  lemma {:induction false} RoundsNat(m: int, n: nat)
    requires m > 0
    ensures Rounds(m, n) >= 0
    decreases n
  {
    if n >= m {
      RoundsNat(m, n - m);
    }
  }

  /**
    From any state a breaker can be in, in a stretch without success: the inner call number k*m (counting from 0)
    starts at least k open windows after the first.
   */
  lemma {:induction false} CallsAreSpaced(m: int, d: int, s: State, now: int, calls: seq<Call>, k: nat)
    requires m > 0 && d > 0 && 0 <= s.failures < m
    requires Serial(now, calls) && SuccessFree(m, d, s, calls)
    requires 0 <= k * m < |InnerStarts(m, d, s, calls)|
    ensures InnerStarts(m, d, s, calls)[k * m] >= InnerStarts(m, d, s, calls)[0] + k * d
    decreases |calls|
  {
    if Refuses(s, calls[0].start) {
      CallsAreSpaced(m, d, s, calls[0].finish, calls[1..], k);
    } else {
      FirstAllowed(m, d, s, calls, k * m);
      var f := Allowed(s, calls[0].start).failures;
      KRounds(m, f, k);
      ScaledBy(d, k, Rounds(m, f + k * m));
    }
  }

  lemma ScaledBy(d: int, a: int, b: int)
    requires d > 0 && a <= b
    ensures a * d <= d * b
  {
    assert d * b - a * d == d * (b - a);
  }

  lemma {:induction false} StartsInOrder(m: int, d: int, s: State, now: int, calls: seq<Call>, i: nat, j: nat)
    requires m > 0 && Serial(now, calls) && i <= j < |InnerStarts(m, d, s, calls)|
    ensures now <= InnerStarts(m, d, s, calls)[i] <= InnerStarts(m, d, s, calls)[j]
    decreases |calls|
  {
    var t, k, rest := Serve(m, d, s, calls[0]), calls[0], calls[1..];
    if Refuses(s, k.start) {
      StartsInOrder(m, d, t, k.finish, rest, i, j);
    } else if i > 0 {
      StartsInOrder(m, d, t, k.finish, rest, i - 1, j - 1);
    } else if j > 0 {
      StartsInOrder(m, d, t, k.finish, rest, j - 1, j - 1);
    }
  }

  lemma WholeWindows(T: int, d: int)
    requires T >= 0 && d > 0
    ensures T / d >= 0 && T < (T / d + 1) * d
  {
    assert T == d * (T / d) + T % d;
    assert (T / d + 1) * d == d * (T / d) + d;
  }

  /** So inner calls whose starts span a time T number at most maxFailures * (T / openDuration + 1). */
  lemma RateBound(m: int, d: int, s: State, now: int, calls: seq<Call>)
    requires m > 0 && d > 0 && 0 <= s.failures < m
    requires Serial(now, calls) && SuccessFree(m, d, s, calls) && InnerStarts(m, d, s, calls) != []
    ensures var starts := InnerStarts(m, d, s, calls);
      var T := starts[|starts| - 1] - starts[0];
      T >= 0 && |starts| <= m * (T / d + 1)
  {
    var starts := InnerStarts(m, d, s, calls);
    var n := |starts| - 1;
    var T := starts[n] - starts[0];
    StartsInOrder(m, d, s, now, calls, 0, n);
    var k := T / d + 1;
    WholeWindows(T, d);
    assert k * m == m * k;
    Multiple(k, m);
    if n >= k * m {
      CallsAreSpaced(m, d, s, now, calls, k);
      StartsInOrder(m, d, s, now, calls, k * m, n);
      assert false;
    }
  }

  function ServeAll(m: int, d: int, s: State, calls: seq<Call>): State
    decreases |calls|
  {
    if calls == [] then s else ServeAll(m, d, Serve(m, d, s, calls[0]), calls[1..])
  }

  /** The wrapper never leaves the states the bound is about. */
  lemma {:induction false} ServeKeepsCount(m: int, d: int, s: State, calls: seq<Call>)
    requires m > 0 && 0 <= s.failures < m
    ensures 0 <= ServeAll(m, d, s, calls).failures < m
    decreases |calls|
  {
    if calls != [] {
      ServeKeepsCount(m, d, Serve(m, d, s, calls[0]), calls[1..]);
    }
  }

  /** The bound holds from every state that uses of a new breaker's wrapper, successful or not, can lead to. */
  lemma RateBoundFromStart(m: int, d: int, past: seq<Call>, now: int, calls: seq<Call>)
    requires m > 0 && d > 0
    requires var s := ServeAll(m, d, Closed, past);
      Serial(now, calls) && SuccessFree(m, d, s, calls) && InnerStarts(m, d, s, calls) != []
    ensures var starts := InnerStarts(m, d, ServeAll(m, d, Closed, past), calls);
      var T := starts[|starts| - 1] - starts[0];
      T >= 0 && |starts| <= m * (T / d + 1)
  {
    ServeKeepsCount(m, d, Closed, past);
    RateBound(m, d, ServeAll(m, d, Closed, past), now, calls);
  }

  /** A call after the window is a trial, one failure of which reopens the breaker, if and only if maxFailures is 1. */
  lemma TrialReopensIff(m: int, d: int, s: State, k: Call)
    requires m > 0 && d > 0 && s.openUntil.Some? && s.openUntil.value <= k.start && k.out.Failed?
    ensures !Refuses(s, k.start)
    ensures Refuses(Serve(m, d, s, k), k.finish) <==> m == 1
  {
  }

  // The bound is met: m instantaneous failures at time t, m at time t + d, and so on.

  /** What is left of the burst at time t, r failures into a round, with `rounds` more rounds to come after it. */
  function Burst(m: int, d: int, t: int, r: nat, rounds: nat): seq<Call>
    requires r < m
    decreases rounds, m - r
  {
    [Call(t, t, Failed(""))] +
    (if r + 1 < m then Burst(m, d, t, r + 1, rounds)
     else if rounds > 0 then Burst(m, d, t + d, 0, rounds - 1)
     else [])
  }

  lemma {:induction false} BurstServed(m: int, d: int, s: State, t: int, r: nat, rounds: nat)
    requires r < m && d > 0
    requires s == State(r, None) || (r == 0 && s == State(0, Some(t)))
    ensures var calls := Burst(m, d, t, r, rounds);
      && Serial(t, calls) && SuccessFree(m, d, s, calls)
      && |InnerStarts(m, d, s, calls)| == m - r + m * rounds
      && forall x :: x in InnerStarts(m, d, s, calls) ==> t <= x <= t + rounds * d
    decreases rounds, m - r
  {
    hide InnerStarts, SuccessFree, Serve;
    Multiple(rounds, d);
    if r + 1 < m {
      FailureServed(m, d, s, t, r, Burst(m, d, t, r + 1, rounds));
      BurstServed(m, d, State(r + 1, None), t, r + 1, rounds);
    } else if rounds > 0 {
      FailureServed(m, d, s, t, r, Burst(m, d, t + d, 0, rounds - 1));
      BurstServed(m, d, State(0, Some(t + d)), t + d, 0, rounds - 1);
      assert m * rounds == m + m * (rounds - 1) && rounds * d == d + (rounds - 1) * d;
    } else {
      FailureServed(m, d, s, t, r, []);
      NothingServed(m, d, State(0, Some(t + d)));
    }
  }

  /** One failure of the burst, and what is to come after it. */
  lemma FailureServed(m: int, d: int, s: State, t: int, r: nat, rest: seq<Call>)
    requires r < m && d > 0
    requires s == State(r, None) || (r == 0 && s == State(0, Some(t)))
    ensures var calls := [Call(t, t, Failed(""))] + rest;
      var s' := if r + 1 < m then State(r + 1, None) else State(0, Some(t + d));
      && (Serial(t, rest) ==> Serial(t, calls))
      && (SuccessFree(m, d, s', rest) ==> SuccessFree(m, d, s, calls))
      && InnerStarts(m, d, s, calls) == [t] + InnerStarts(m, d, s', rest)
  {
    assert ([Call(t, t, Failed(""))] + rest)[1..] == rest;
  }

  lemma NothingServed(m: int, d: int, s: State)
    ensures SuccessFree(m, d, s, []) && InnerStarts(m, d, s, []) == []
  {
  }

  lemma RateBoundIsMet(m: int, d: int, rounds: nat)
    requires m > 0 && d > 0
    ensures exists calls :: Serial(0, calls) && SuccessFree(m, d, Closed, calls)
              && |InnerStarts(m, d, Closed, calls)| == m * (rounds + 1)
              && forall t :: t in InnerStarts(m, d, Closed, calls) ==> 0 <= t <= rounds * d
  {
    BurstServed(m, d, Closed, 0, 0, rounds);
    assert m * (rounds + 1) == m + m * rounds;
    var calls := Burst(m, d, 0, 0, rounds);
    assert Serial(0, calls) && SuccessFree(m, d, Closed, calls);
  }
}
