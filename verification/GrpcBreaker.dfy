/**
 * The circuit breaker of the gRPC client with its backoff, and how often a client can fail.
 */
module GrpcBreaker {
  import opened Prelude

  const MAX_FAILURES: nat := 5
  const CB_RESET_TIME: Time := 2 * MINUTE
  const CB_HALF_OPEN_RETRY_INTERVAL: Time := 30 * SECOND

  datatype BreakerState = Closed | Open | HalfOpen

  datatype Breaker = Breaker(failureCount: nat, lastFailure: Time) {

    function State(now: Time): BreakerState {
      if failureCount < MAX_FAILURES then Closed
      else if now - lastFailure > CB_RESET_TIME then HalfOpen
      else Open
    }

    predicate IsOpen(now: Time) {
      State(now) == Open
    }

    predicate CanAttempt(now: Time) {
      match State(now)
      case Closed => true
      case HalfOpen => now - lastFailure > CB_HALF_OPEN_RETRY_INTERVAL
      case Open => false
    }

    function RecordFailure(now: Time): Breaker {
      Breaker(failureCount + 1, now)
    }

    /** 1 << min(failures - 1, 5) seconds, capped at 30; a negative shift panics. */
    function Backoff(): Option<Time> {
      if failureCount == 0 then None
      else
        var shift := if failureCount - 1 < 5 then failureCount - 1 else 5;
        var backoff := Pow2(shift) * SECOND;
        Some(if backoff > 30 * SECOND then 30 * SECOND else backoff)
    }
  }

  const RESET: Breaker := Breaker(0, 0)

  function Pow2(n: nat): nat {
    if n == 0 then 1 else 2 * Pow2(n - 1)
  }

  lemma {:induction false} Pow2Grows(n: nat, m: nat)
    requires n <= m
    ensures Pow2(n) <= Pow2(m)
  {
    if n < m {
      Pow2Grows(n, m - 1);
    }
  }

  /** After f >= 1 failures the backoff is min(2^(f-1), 30) seconds; without failures there is none. */
  lemma BackoffIsCappedPower(b: Breaker)
    ensures b.Backoff().Some? <==> b.failureCount >= 1
    ensures b.failureCount >= 1 ==>
              b.Backoff().value == (if Pow2(b.failureCount - 1) <= 30 then Pow2(b.failureCount - 1) else 30) * SECOND
  {
    assert Pow2(5) == 32;
    if b.failureCount > 6 {
      Pow2Grows(5, b.failureCount - 1);
    }
  }

  // ----- Failures over a run without success -----

  /** A reconnection that failed: when the breaker let it through, and when the failure was recorded. */
  datatype FailedAttempt = FailedAttempt(allowed: Time, failed: Time)

  function BreakerAfter(attempts: seq<FailedAttempt>): Breaker {
    if attempts == [] then RESET
    else
      var n := |attempts| - 1;
      BreakerAfter(attempts[..n]).RecordFailure(attempts[n].failed)
  }

  /** Attempts of the reconnection loop: each was let through by the breaker as the earlier ones
      left it, and the loop slept the backoff in between. */
  ghost predicate FailureRun(attempts: seq<FailedAttempt>) {
    forall i :: 0 <= i < |attempts| ==> Follows(attempts[..i], attempts[i])
  }

  /** The breaker lets this attempt through after the earlier failures, and the backoff is over. */
  ghost predicate Follows(earlier: seq<FailedAttempt>, next: FailedAttempt) {
    && next.allowed <= next.failed
    && BreakerAfter(earlier).CanAttempt(next.allowed)
    && (earlier != [] ==>
          BreakerAfter(earlier).Backoff().Some? &&
          next.allowed >= earlier[|earlier| - 1].failed + BreakerAfter(earlier).Backoff().value)
  }

  lemma {:induction false} BreakerCounts(attempts: seq<FailedAttempt>)
    ensures BreakerAfter(attempts).failureCount == |attempts|
    ensures attempts != [] ==> BreakerAfter(attempts).lastFailure == attempts[|attempts| - 1].failed
  {
    if attempts != [] {
      BreakerCounts(attempts[..|attempts| - 1]);
    }
  }

  /** After a run of failures the breaker lets the next attempt through exactly when there were
      fewer than five or the last one is more than two minutes ago.  The 30 second guard of the
      half-open state never changes that decision. */
  lemma AttemptAllowedIff(attempts: seq<FailedAttempt>, now: Time)
    requires attempts != []
    ensures var breaker := BreakerAfter(attempts);
      && (breaker.CanAttempt(now) <==> !breaker.IsOpen(now))
      && (breaker.CanAttempt(now) <==>
            |attempts| < 5 || now > attempts[|attempts| - 1].failed + 120 * SECOND)
  {
    BreakerCounts(attempts);
  }

  /** The time that must have passed since the first failure when failure number n + 1 is recorded:
      1 + 2 + 4 + 8 seconds for the first five, and more than two minutes for each further one. */
  function LeastDelay(n: nat): Time {
    if n < MAX_FAILURES then (Pow2(n) - 1) * SECOND else 15 * SECOND + (n - 4) * CB_RESET_TIME
  }

  lemma LeastDelayStep(n: nat)
    ensures n < 4 ==> LeastDelay(n + 1) == LeastDelay(n) + Pow2(n) * SECOND && Pow2(n) <= 8
    ensures n >= 4 ==> LeastDelay(n + 1) == LeastDelay(n) + CB_RESET_TIME
  {
    assert Pow2(3) == 8 && Pow2(4) == 16;
    if n < 4 {
      Pow2Grows(n, 3);
    }
  }

  /** What the breaker and the backoff demand of one more attempt after `n` failures. */
  lemma NextFailureIsLater(attempts: seq<FailedAttempt>, n: nat)
    requires FailureRun(attempts) && 0 < n < |attempts|
    ensures attempts[n].failed >= attempts[n - 1].failed + LeastDelay(n) - LeastDelay(n - 1)
    ensures n >= MAX_FAILURES ==> attempts[n].failed > attempts[n - 1].failed + CB_RESET_TIME
  {
    var before := BreakerAfter(attempts[..n]);
    assert Follows(attempts[..n], attempts[n]);
    BreakerCounts(attempts[..n]);
    BackoffIsCappedPower(before);
    LeastDelayStep(n - 1);
    assert before.lastFailure == attempts[n - 1].failed && before.failureCount == n;
    assert before.CanAttempt(attempts[n].allowed);
  }

  lemma {:induction false} FailuresAreSpaced(attempts: seq<FailedAttempt>, i: nat)
    requires FailureRun(attempts) && i < |attempts|
    ensures attempts[i].failed >= attempts[0].failed + LeastDelay(i)
    ensures i >= MAX_FAILURES ==> attempts[i].failed > attempts[0].failed + LeastDelay(i)
  {
    if i > 0 {
      FailuresAreSpaced(attempts, i - 1);
      NextFailureIsLater(attempts, i);
      LeastDelayStep(i - 1);
    }
  }

  /** In any run without a success, the failures within time L of the first number at most
      5 + floor(L / 120 s). */
  lemma FailuresBounded(attempts: seq<FailedAttempt>, elapsed: Time)
    requires FailureRun(attempts) && attempts != []
    requires attempts[|attempts| - 1].failed <= attempts[0].failed + elapsed
    ensures elapsed >= 0 && |attempts| <= 5 + elapsed / (120 * SECOND)
    ensures |attempts| > MAX_FAILURES ==>
              (|attempts| - MAX_FAILURES) * CB_RESET_TIME + 15 * SECOND < elapsed
  {
    var n := |attempts| - 1;
    FailuresAreSpaced(attempts, n);
    if n >= MAX_FAILURES {
      DivAtLeast(elapsed, CB_RESET_TIME, n - 4);
    } else {
      Pow2Grows(0, n);
      DivAtLeast(elapsed, CB_RESET_TIME, 0);
    }
  }

  /** One more failure that follows continues a run. */
  lemma FailureRunGrows(attempts: seq<FailedAttempt>, next: FailedAttempt)
    requires FailureRun(attempts) && Follows(attempts, next)
    ensures FailureRun(attempts + [next])
    ensures BreakerAfter(attempts + [next]) == BreakerAfter(attempts).RecordFailure(next.failed)
  {
    var all := attempts + [next];
    assert all[..|attempts|] == attempts;
    forall i | 0 <= i < |all| ensures Follows(all[..i], all[i]) {
      if i < |attempts| {
        assert all[..i] == attempts[..i] && all[i] == attempts[i];
      }
    }
  }
}
