/**
 * What each step of the gRPC client does: exactly when a reconnection is queued, when the client
 * is registered, and what one attempt of the handler leaves.  The conditions are told in terms of
 * what connection and network report and of the failures so far.
 */
module GrpcEffects {
  import opened Prelude
  import opened GrpcBreaker
  import opened GrpcReconnection

  /** Not stopped, and after fewer than five failures, or more than two minutes after the last. */
  predicate MayAsk(s: State, now: Time) {
    !s.stopped && (|s.attempts| < 5 || now > s.attempts[|s.attempts| - 1].failed + 120 * SECOND)
  }

  predicate Bad(current: Connectivity) {
    current == TransientFailure || current == Shutdown
  }

  /** The breaker decides by the failures since the last success. */
  lemma BreakerAgrees(s: State, now: Time)
    requires FailuresCounted(s)
    ensures s.breaker.IsOpen(now) <==> !(|s.attempts| < 5 || now > s.attempts[|s.attempts| - 1].failed + 120 * SECOND)
    ensures s.breaker.CanAttempt(now) <==> !s.breaker.IsOpen(now)
  {
    if s.attempts != [] {
      AttemptAllowedIff(s.attempts, now);
    }
  }

  /** Does this step find a reason to reconnect?  A connection that turns bad, or is found bad by a
      getter, that stays idle for over two minutes, or whose health check fails. */
  predicate Complains(s: State, step: Step) {
    && s.conn.Some?
    && match step
       case TickStep(now, current) =>
         || (Bad(current) && s.reported != current)
         || (current == Idle && s.reported == Idle && s.idleSince.Some? && now - s.idleSince.value > 120 * SECOND)
       case GetterStep(_, current) => Bad(current)
       case HealthStep(_, health) => s.registered && s.healthCheck && health == Fails
       case _ => false
  }

  /** After a step a reconnection is queued if and only if one was before and has not been taken,
      or the handler's sleep is over, or the step had a reason and the breaker did not object. */
  lemma QueuedIff(s: State, step: Step)
    requires FailuresCounted(s)
    ensures Apply(s, step).queued <==>
      !step.TakeStep? && (s.queued || step.WakeStep? || (Complains(s, step) && MayAsk(s, step.now)))
  {
    BreakerAgrees(s, step.now);
    match step
    case TickStep(now, current) =>
      if s.conn.Some? && s.reported != current {
        ChangeQueuesIff(s, now, current);
      }
    case _ =>
  }

  lemma ChangeQueuesIff(s: State, now: Time, current: Connectivity)
    requires s.conn.Some?
    ensures s.Changed(now, current).queued <==> s.queued || (Bad(current) && !s.stopped && !s.breaker.IsOpen(now))
  {
  }

  /** The client is registered after a step if and only if its connection has just turned ready or
      been made, or it was and the connection has neither turned bad, been replaced nor closed. */
  lemma RegisteredIff(s: State, step: Step)
    requires StubsCurrent(s) && FailuresCounted(s)
    ensures Apply(s, step).registered <==>
      match step
      case TickStep(_, current) =>
        if s.conn.Some? && s.reported != current && (Bad(current) || current == Ready) then current == Ready
        else s.registered
      case TakeStep(now, dials, becomesReady, _) =>
        if MayAsk(s, now) && !s.reconnecting then dials && becomesReady else s.registered
      case StopStep(_) => false
      case _ => s.registered
  {
    match step
    case TickStep(now, current) =>
      if s.conn.Some? && s.reported != current {
        ChangeRegistersIff(s, now, current);
      }
    case TakeStep(_, _, _, _) => TakeRegistersIff(s, step);
    case _ =>
  }

  lemma ExecutesIff(s: State, now: Time)
    requires FailuresCounted(s)
    ensures Executes(s, now) <==> MayAsk(s, now) && !s.reconnecting
  {
    BreakerAgrees(s, now);
  }

  lemma TakeRegistersIff(s: State, step: Step)
    requires FailuresCounted(s) && step.TakeStep?
    ensures Apply(s, step).registered <==>
      if MayAsk(s, step.now) && !s.reconnecting then step.dials && step.becomesReady else s.registered
  {
    ExecutesIff(s, step.now);
    ConnectRegistersIff(s.(queued := false), step.dials, step.becomesReady);
  }

  lemma ConnectRegistersIff(s: State, dials: bool, becomesReady: bool)
    ensures s.Connect(dials, becomesReady).registered <==> dials && becomesReady
  {
  }

  lemma ChangeRegistersIff(s: State, now: Time, current: Connectivity)
    requires s.conn.Some?
    ensures s.Changed(now, current).registered <==> current == Ready || (s.registered && !Bad(current))
    ensures s.Changed(now, current).reported == current && s.Changed(now, current).conn == s.conn
    ensures current == Ready ==> s.Changed(now, current).attempts == [] && s.Changed(now, current).breaker == RESET
    ensures s.Changed(now, current).idleSince ==
      (if current == Idle && s.reported == Ready then Some(now) else if current == Ready then None else s.idleSince)
  {
  }

  /** A connection reported bad for the first time leaves the client unregistered, and asks for a
      reconnection unless the client is stopped or the breaker open. */
  lemma BadConnectionReconnects(s: State, now: Time, current: Connectivity)
    requires Inv(s) && s.conn.Some? && s.reported != current && Bad(current)
    ensures
      var after := Apply(s, TickStep(now, current));
      var closed := |s.attempts| < 5 || now > s.attempts[|s.attempts| - 1].failed + 120 * SECOND;
      && !after.registered && after.reported == current && after.conn == s.conn
      && (after.queued <==> s.queued || (!s.stopped && closed))
  {
    QueuedIff(s, TickStep(now, current));
    ChangeRegistersIff(s, now, current);
  }

  /** A connection reported ready leaves the client registered on it, with all stubs built from it,
      no failures on record and the breaker closed. */
  lemma ReadyConnectionRegisters(s: State, now: Time)
    requires Inv(s) && s.conn.Some? && s.reported != Ready && Enabled(s, TickStep(now, Ready))
    ensures var after := Apply(s, TickStep(now, Ready));
      && after.registered && after.conn == s.conn && after.stubs.BuiltFrom(s.conn.value)
      && s.conn.value !in after.closed && after.attempts == [] && after.breaker.failureCount == 0
      && after.idleSince == None
  {
    ChangeRegistersIff(s, now, Ready);
    StepKeepsStubs(s, TickStep(now, Ready));
  }

  /** A tick remembers what it saw, and since when the connection has been idle. */
  lemma TickSees(s: State, now: Time, current: Connectivity)
    requires s.conn.Some?
    ensures var after := Apply(s, TickStep(now, current));
      && after.reported == current && after.conn == s.conn
      && after.idleSince ==
           (if s.reported == Ready && current == Idle then Some(now)
            else if s.reported != current then (if current == Ready then None else s.idleSince)
            else if current == Idle && s.idleSince.Some? && now - s.idleSince.value > 120 * SECOND then None
            else s.idleSince)
  {
    if s.reported != current {
      ChangeRegistersIff(s, now, current);
    }
  }

  /** What one attempt of the handler leaves.  The earlier connection is closed in any case; a success
      registers on the new one and forgets the failures; a failure is recorded with its time, and the
      handler sleeps 1, 2, 4, 8, 16 and then always 30 seconds. */
  lemma AttemptDoes(s: State, step: Step)
    requires Inv(s) && Enabled(s, step) && step.TakeStep? && MayAsk(s, step.now) && !s.reconnecting
    ensures
      var after := Apply(s, step);
      && (s.conn.Some? ==> s.conn.value in after.closed)
      && if step.dials && step.becomesReady then
           && after.conn.Some? && after.conn != s.conn && after.conn.value !in s.closed
           && after.registered && after.stubs.BuiltFrom(after.conn.value)
           && after.attempts == [] && after.handler.Settling?
         else
           && after.conn.None? && !after.registered
           && after.attempts == s.attempts + [FailedAttempt(step.now, step.done)]
           && after.handler == Sleeping(step.done + Delay(|after.attempts|) * SECOND)
  {
    BreakerAgrees(s, step.now);
    StepKeepsStubs(s, step);
    if !(step.dials && step.becomesReady) {
      FailedTake(s, step);
      var after := Apply(s, step);
      BreakerCounts(s.attempts);
      BackoffIsDelay(after.breaker);
    }
  }

  /** Seconds to wait after so many failures. */
  function Delay(failures: nat): nat {
    match failures
    case 0 => 0
    case 1 => 1
    case 2 => 2
    case 3 => 4
    case 4 => 8
    case 5 => 16
    case _ => 30
  }

  lemma BackoffIsDelay(b: Breaker)
    requires b.failureCount > 0
    ensures b.Backoff() == Some(Delay(b.failureCount) * SECOND)
  {
    assert Pow2(5) == 32 && Pow2(4) == 16 && Pow2(3) == 8;
  }

  /** A request that the breaker refuses is dropped, and nothing else happens. */
  lemma RefusedRequestIsDropped(s: State, step: Step)
    requires Inv(s) && step.TakeStep? && !MayAsk(s, step.now)
    ensures Apply(s, step) == s.(queued := false, clock := step.done)
  {
    BreakerAgrees(s, step.now);
  }

  /** Health checks go on until a server turns out not to have them, and again after a registration. */
  lemma HealthChecksIff(s: State, step: Step)
    requires StubsCurrent(s) && Enabled(s, step)
    ensures Apply(s, step).healthCheck <==>
      (!s.registered && Apply(s, step).registered)
      || (step.TakeStep? && Apply(s, step).conn != s.conn && Apply(s, step).conn.Some?)
      || (s.healthCheck && !(s.registered && step.HealthStep? && step.health == Unimplemented))
  {
    match step
    case TickStep(now, current) =>
      if s.conn.Some? && s.reported != current {
        ChangeRegistersIff(s, now, current);
        ChangeChecksIff(s, now, current);
      }
    case _ =>
  }

  lemma ChangeChecksIff(s: State, now: Time, current: Connectivity)
    requires s.conn.Some?
    ensures s.Changed(now, current).healthCheck <==> s.healthCheck || (current == Ready && !s.registered)
  {
  }

  /** Stopping closes the connection for good, and a stopped client never asks for another. */
  lemma StopDoes(s: State, step: Step)
    requires Inv(s) && Enabled(s, step)
    ensures s.stopped || step.StopStep? ==> Apply(s, step).stopped && !Apply(s, step).registered
    ensures s.stopped || step.StopStep? ==> Apply(s, step).conn.Some? ==>
              Apply(s, step).conn.value in Apply(s, step).closed
    ensures !s.stopped && !step.StopStep? ==> !Apply(s, step).stopped
  {
    StepKeepsStubs(s, step);
    if step.TickStep? && s.conn.Some? && s.reported != step.current {
      ChangeStops(s, step.now, step.current);
    }
  }

  lemma ChangeStops(s: State, now: Time, current: Connectivity)
    requires s.conn.Some?
    ensures s.Changed(now, current).stopped == s.stopped && s.Changed(now, current).conn == s.conn
  {
  }
}
