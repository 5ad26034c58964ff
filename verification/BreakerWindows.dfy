/**
  When the breaker refuses, told by counting in the log of its operations, without the breaker's own fields: failures
  are counted from the last success, the last trip, or the first call let in after a window; the maxFailures-th trips.
 */
module BreakerWindows {
  import opened BreakerLoad
  import opened CircuitBreaker
  import opened Downstream
  import opened Wrappers

  /** How many of log[k..i] are failures. */
  function FailsIn(log: seq<Event>, k: nat, i: nat): nat
    requires k <= i <= |log|
    decreases i
  {
    if k == i then 0 else FailsIn(log, k, i - 1) + (if log[i - 1].Fail? then 1 else 0)
  }

  /** Where counting for log[i] begins: behind the last operation before it that started the count afresh. */
  function CountsFrom(m: int, d: int, log: seq<Event>, i: nat): (k: nat)
    requires i <= |log|
    ensures k <= i
    decreases i, 0
  {
    if i == 0 then 0 else if Resets(m, d, log, i - 1) then i else CountsFrom(m, d, log, i - 1)
  }

  /** log[i] starts the count afresh. */
  predicate Resets(m: int, d: int, log: seq<Event>, i: nat)
    requires i < |log|
    decreases i, 2
  {
    log[i].Success? || IsTrip(m, d, log, i) || EndsWindow(m, d, log, i)
  }

  /** log[i] is the m-th failure counted. */
  predicate IsTrip(m: int, d: int, log: seq<Event>, i: nat)
    requires i < |log|
    decreases i, 1
  {
    log[i].Fail? && FailsIn(log, CountsFrom(m, d, log, i), i + 1) == m
  }

  /** log[i] is the first Allow after the window of the trip that the count goes back to. */
  predicate EndsWindow(m: int, d: int, log: seq<Event>, i: nat)
    requires i < |log|
    decreases i, 1
  {
    var k := CountsFrom(m, d, log, i);
    log[i].Allow? && k > 0 && IsTrip(m, d, log, k - 1) && log[k - 1].at + d <= log[i].at
  }

  /** What the breaker's fields hold after i operations. */
  ghost predicate Told(m: int, d: int, log: seq<Event>, i: nat)
    requires i <= |log|
  {
    var s, k := Replay(m, d, log[..i]), CountsFrom(m, d, log, i);
    && s.failures == FailsIn(log, k, i) < m
    && s.openUntil == if k > 0 && IsTrip(m, d, log, k - 1) then Some(log[k - 1].at + d) else None
  }

  lemma {:induction false} IsTold(m: int, d: int, log: seq<Event>, i: nat)
    requires m > 0 && i <= |log|
    ensures Told(m, d, log, i)
    decreases i
  {
    if i > 0 {
      var n := i - 1;
      IsTold(m, d, log, n);
      assert log[..i][..n] == log[..n] && log[..i][n] == log[n];
      var k := CountsFrom(m, d, log, n);
      assert FailsIn(log, k, i) == FailsIn(log, k, n) + (if log[n].Fail? then 1 else 0);
      assert FailsIn(log, i, i) == 0;
      match log[n]
      case Success =>
      case Allow(t) =>
        assert Resets(m, d, log, n) <==> EndsWindow(m, d, log, n);
      case Fail(t) =>
        assert Resets(m, d, log, n) <==> FailsIn(log, k, i) == m;
    } else {
      assert log[..0] == [];
    }
  }

  /**
    A call is refused at time t if and only if the last operation that started the count afresh was a trip, and t lies
    before the end of its window. This is for every log, whatever the order of its times.
   */
  lemma RefusedIff(m: int, d: int, log: seq<Event>, t: int)
    requires m > 0
    ensures Refuses(Replay(m, d, log), t) <==>
      var k := CountsFrom(m, d, log, |log|);
      k > 0 && IsTrip(m, d, log, k - 1) && t < log[k - 1].at + d
  {
    IsTold(m, d, log, |log|);
    assert log[..|log|] == log;
  }

  /**
    With a clock that does not run backwards: if and only if some failure in (t - openDuration, t] tripped the breaker
    and no success has come since.
   */
  lemma RefusedIffTripped(m: int, d: int, log: seq<Event>, t: int)
    requires m > 0 && d > 0 && Rising(log, t)
    ensures Refuses(Replay(m, d, log), t) <==> exists i: nat :: TrippedAndOpen(m, d, log, t, i)
  {
    hide Replay, Refuses;
    RefusedIff(m, d, log, t);
    var k := CountsFrom(m, d, log, |log|);
    if k > 0 && IsTrip(m, d, log, k - 1) && t < log[k - 1].at + d {
      NoResetSince(m, d, log, |log|);
      TripIsFail(m, d, log, k - 1);
      forall j: nat | k - 1 < j < |log| ensures log[j] != Success {
        assert !Resets(m, d, log, j);
      }
      assert TrippedAndOpen(m, d, log, t, k - 1);
    }
    if i: nat :| TrippedAndOpen(m, d, log, t, i) {
      TripLasts(m, d, log, t, i, |log|);
    }
  }

  /** log[i] tripped the breaker less than d before t, and no success has come since. */
  ghost predicate TrippedAndOpen(m: int, d: int, log: seq<Event>, t: int, i: nat) {
    && i < |log| && IsTrip(m, d, log, i) && t - d < log[i].at <= t
    && forall j: nat :: i < j < |log| ==> log[j] != Success
  }

  /** Times do not go down, and none is after t. */
  ghost predicate Rising(log: seq<Event>, t: int) {
    && (forall i :: 0 <= i < |log| && !log[i].Success? ==> log[i].at <= t)
    && (forall i, j :: 0 <= i < j < |log| && !log[i].Success? && !log[j].Success? ==> log[i].at <= log[j].at)
  }

  lemma {:induction false} NoResetSince(m: int, d: int, log: seq<Event>, i: nat)
    requires i <= |log|
    ensures var k := CountsFrom(m, d, log, i);
      (forall j: nat :: k <= j < i ==> !Resets(m, d, log, j)) && (k > 0 ==> Resets(m, d, log, k - 1))
    decreases i
  {
    if i > 0 {
      NoResetSince(m, d, log, i - 1);
    }
  }

  /** Within its window and without a success, a trip is followed by trips only, if by any fresh start. */
  lemma {:induction false} TripLasts(m: int, d: int, log: seq<Event>, t: int, i: nat, n: nat)
    requires m > 0 && d > 0 && Rising(log, t) && i < n <= |log|
    requires IsTrip(m, d, log, i) && t < log[i].at + d
    requires forall j: nat :: i < j < n ==> log[j] != Success
    ensures var k := CountsFrom(m, d, log, n); k > i && IsTrip(m, d, log, k - 1) && log[i].at <= log[k - 1].at
    decreases n
  {
    hide FailsIn;
    if n > i + 1 {
      TripLasts(m, d, log, t, i, n - 1);
      var k := CountsFrom(m, d, log, n - 1);
      TripIsFail(m, d, log, k - 1);
      TripIsFail(m, d, log, i);
      NotEnded(m, d, log, t, k, n - 1);
      if Resets(m, d, log, n - 1) {
        assert IsTrip(m, d, log, n - 1);
        TripIsFail(m, d, log, n - 1);
      }
    }
  }

  lemma TripIsFail(m: int, d: int, log: seq<Event>, i: nat)
    requires i < |log| && IsTrip(m, d, log, i)
    ensures log[i].Fail?
  {
  }

  /** No Allow up to t ends a window that is open beyond t. */
  lemma NotEnded(m: int, d: int, log: seq<Event>, t: int, k: nat, n: nat)
    requires Rising(log, t) && n < |log| && k == CountsFrom(m, d, log, n) && k > 0 && log[k - 1].Fail? && t < log[k - 1].at + d
    ensures !EndsWindow(m, d, log, n)
  {
  }

  // ---------------------------------------------------------------------------------------------------
  // Failures reported one after the other
  // ---------------------------------------------------------------------------------------------------

  /** Counting on from f, failure number r brings the count to a multiple of m. */
  predicate Completes(m: int, f: int, r: int)
    requires m > 0
  {
    (f + r + 1) % m == 0
  }

  /** Too few failures to complete a round are counted, and touch no window. */
  lemma {:induction false} FewFails(m: int, d: int, s: State, times: seq<int>)
    requires m > 0 && 0 <= s.failures && s.failures + |times| < m
    ensures RunFrom(m, d, s, Fails(times)) == s.(failures := s.failures + |times|)
    decreases |times|
  {
    if times != [] {
      assert Fails(times)[1..] == Fails(times[1..]);
      FewFails(m, d, AfterFail(m, d, s, times[0]), times[1..]);
    }
  }

  /**
    From any state with f failures counted, failures reported at the given times with nothing in between, whether a
    window is open or not: the q-th of them being the last to complete a round of m, the window ends d after it, and
    those after it are counted.
   */
  lemma {:induction false} WindowAfterFails(m: int, d: int, s: State, times: seq<int>, q: nat)
    requires m > 0 && 0 <= s.failures < m && q < |times| && Completes(m, s.failures, q)
    requires forall r :: q < r < |times| ==> !Completes(m, s.failures, r)
    ensures RunFrom(m, d, s, Fails(times)) == State(|times| - 1 - q, Some(times[q] + d))
    decreases |times|
  {
    var s1, rest := AfterFail(m, d, s, times[0]), times[1..];
    assert Fails(times)[1..] == Fails(rest);
    if q > 0 {
      forall r: nat ensures Completes(m, s1.failures, r) <==> Completes(m, s.failures, r + 1) {
        CountOn(m, s.failures, r + 1);
      }
      WindowAfterFails(m, d, s1, rest, q - 1);
    } else {
      RoundIsFull(m, s.failures);
      if |rest| >= m {
        Multiples(m);
        assert false;
      }
      FewFails(m, d, s1, rest);
    }
  }

  lemma RoundIsFull(m: int, f: int)
    requires m > 0 && 0 <= f < m
    ensures Completes(m, f, 0) <==> f + 1 == m
  {
    Remainder(m, if f + 1 == m then 1 else 0, if f + 1 == m then 0 else f + 1);
  }

  lemma Multiples(m: int)
    requires m > 0
    ensures Completes(m, m - 1, m)
  {
    Remainder(m, 2, 0);
  }

  /** One failure on, the count stands where it should. */
  lemma CountOn(m: int, f: int, n: nat)
    requires m > 0 && 0 <= f < m
    ensures ((if f + 1 >= m then 0 else f + 1) + n) % m == (f + 1 + n) % m
  {
    if f + 1 >= m {
      var q, r := n / m, n % m;
      assert n == q * m + r;
      assert (q + 1) * m + r == m + n;
      Remainder(m, q + 1, r);
    }
  }

  lemma Remainder(m: int, q: int, r: int)
    requires m > 0 && 0 <= r < m
    ensures (q * m + r) % m == r
  {
    var x := q * m + r;
    var q', r' := x / m, x % m;
    assert x == q' * m + r';
    assert (q - q') * m == r' - r;
    if q > q' {
      AtLeastOnce(q - q', m);
    } else if q < q' {
      assert (q' - q) * m == r - r';
      AtLeastOnce(q' - q, m);
    }
  }

  lemma AtLeastOnce(k: int, m: int)
    requires k >= 1 && m > 0
    ensures k * m >= m
  {
    Multiple(k - 1, m);
    assert k * m == (k - 1) * m + m;
  }

  /** A use of the wrapper is these operations: ask, and if let in, report what came back when it came back. */
  lemma UseIsLogged(m: int, d: int, s: State, k: Call)
    ensures Serve(m, d, s, k) == RunFrom(m, d, s,
      if s.openUntil.Some? && k.start < s.openUntil.value then [Allow(k.start)]
      else match k.out
           case Answered(_) => [Allow(k.start), Success]
           case Failed(_) => [Allow(k.start), Fail(k.finish)])
  {
    var allow, success, fail := Allow(k.start), Event.Success, Fail(k.finish);
    assert [allow][1..] == [] && [allow, success][1..] == [success] && [allow, fail][1..] == [fail];
    assert [success][1..] == [] && [fail][1..] == [];
    var s1 := After(m, d, s, allow);
    assert RunFrom(m, d, s, [allow]) == s1;
    assert RunFrom(m, d, s1, [success]) == Closed && RunFrom(m, d, s1, [fail]) == After(m, d, s1, fail);
  }
}
