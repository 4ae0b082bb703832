/**
 * The gRPC client's methods over its own fields, each proved to take one step of
 * GrpcReconnection, so that every run of these methods is a run there.
 */
module GrpcClient {
  import opened Prelude
  import opened GrpcBreaker
  import opened GrpcReconnection

  /** An attempt, with the flag that guards it set first. */
  lemma ExecuteIs(s: GrpcReconnection.State, now: Time, dials: bool, becomesReady: bool, done: Time)
    requires !s.reconnecting
    ensures
      var connected := s.(reconnecting := true).Connect(dials, becomesReady);
      var failed := s.breaker.RecordFailure(done);
      && connected.breaker == s.breaker && connected.attempts == s.attempts
      && (dials && becomesReady ==>
            Execute(s, now, dials, becomesReady, done) == connected.RecordSuccess().(handler := Settling))
      && (!(dials && becomesReady) ==>
            Execute(s, now, dials, becomesReady, done) ==
              connected.(breaker := failed, attempts := s.attempts + [FailedAttempt(now, done)],
                         reconnecting := false, handler := Sleeping(done + failed.Backoff().value)))
  {
  }

  class Client {
    var conn: Option<ConnId>
    var stubs: Stubs
    var registered: bool
    var stopped: bool
    var state: Connectivity
    var reconnecting: bool
    /** The one-slot channel: is a reconnection queued? */
    var reconnect: bool
    var breaker: Breaker
    var healthCheckEnabled: bool
    var idleStartTime: Option<Time>

    /** Every connection dialled has its own number; these have been closed. */
    var dialled: nat
    var closed: set<ConnId>

    /** Where the reconnection handler is, the failures since the last success, and the time of
        the last step. */
    ghost var handler: Handler
    ghost var attempts: seq<FailedAttempt>
    ghost var clock: Time

    ghost function View(): GrpcReconnection.State
      reads this
    {
      GrpcReconnection.State(
        conn, stubs, registered, stopped, state, reconnecting, reconnect, breaker, dialled, closed,
        idleStartTime, healthCheckEnabled, handler, attempts, clock)
    }

    /** Start makes the first connection attempt and only logs its failure. */
    constructor (dials: bool, becomesReady: bool, now: Time)
      ensures View() == Init(dials, becomesReady, now)
    {
      conn, stubs, registered, stopped := None, UNSET, false, false;
      state, reconnecting, reconnect, breaker := Idle, false, false, RESET;
      healthCheckEnabled, idleStartTime := true, None;
      dialled, closed := 0, {};
      handler, attempts, clock := Waiting, [], 0;
      new;
      var ok := DoConnect(dials, becomesReady);
      clock := now;
    }

    /** Builds all stubs from the current connection. */
    method Register()
      requires conn.Some?
      modifies this`stubs, this`healthCheckEnabled, this`registered
      ensures View() == old(View()).Register()
      ensures registered && stubs.BuiltFrom(conn.value)
    {
      var c := conn.value;
      stubs := Stubs(
        Stub(NodeService, c), Stub(ModelBaseService, c), Stub(TaskService, c), Stub(DependencyService, c),
        Stub(MetricService, c), Stub(SyncService, c), HealthStub(c));
      healthCheckEnabled := true;
      registered := true;
    }

    /** Drops the old connection for good, dials a new one and registers on it; on any failure
        the client is left without a connection. */
    method DoConnect(dials: bool, becomesReady: bool) returns (ok: bool)
      modifies this`conn, this`stubs, this`registered, this`dialled, this`closed, this`healthCheckEnabled
      ensures View() == old(View()).Connect(dials, becomesReady)
      ensures ok == (dials && becomesReady) == registered
      ensures ok ==> conn == Some(old(dialled)) && stubs.BuiltFrom(old(dialled))
      ensures !ok ==> conn == None && stubs == old(stubs)
    {
      DropConnection();
      if !dials {
        return false;
      }
      conn := Some(dialled);
      dialled := dialled + 1;
      if !becomesReady {
        closed := closed + {conn.value};
        conn := None;
        return false;
      }
      Register();
      return true;
    }

    method DropConnection()
      modifies this`conn, this`registered, this`closed
      ensures conn == None && !registered
      ensures closed == if old(conn).Some? then old(closed) + {old(conn).value} else old(closed)
    {
      registered := false;
      if conn.Some? {
        closed := closed + {conn.value};
        conn := None;
      }
    }

    method TriggerReconnection(now: Time)
      modifies this`reconnect
      ensures View() == old(View()).Trigger(now)
    {
      if stopped || breaker.IsOpen(now) {
        return;
      }
      reconnect := true;
    }

    /** A probe of the connection: not even tried unless it is ready and registered. */
    method TestConnection(current: Connectivity, healthy: bool) returns (ok: bool)
      ensures current != Ready || !registered ==> !ok
    {
      if current != Ready || !registered {
        return false;
      }
      ok := !healthCheckEnabled || healthy;
    }

    /** One tick of the state monitor; `current` is what the connection reports. */
    method CheckAndHandleStateChange(current: Connectivity, healthy: bool, now: Time)
      requires GrpcReconnection.Enabled(View(), TickStep(now, current))
      modifies this
      ensures View() == Apply(old(View()), TickStep(now, current))
    {
      if conn != None {
        if state == current {
          HandleSameState(current, healthy, now);
        } else {
          HandleNewState(current, now);
        }
      }
      clock := now;
    }

    method HandleSameState(current: Connectivity, healthy: bool, now: Time)
      modifies this`reconnect, this`idleStartTime
      ensures View() == old(View()).Unchanged(now, current)
    {
      if current == Idle && idleStartTime.Some? && now - idleStartTime.value > IDLE_GRACE_PERIOD {
        var works := TestConnection(current, healthy);
        if !works {
          TriggerReconnection(now);
        }
        idleStartTime := None;
      }
    }

    method HandleNewState(current: Connectivity, now: Time)
      requires conn.Some?
      modifies this
      ensures View() == old(View()).Changed(now, current)
    {
      var previous := state;
      state := current;
      match current
      case TransientFailure =>
        registered := false;
        TriggerReconnection(now);
      case Shutdown =>
        registered := false;
        if !stopped {
          TriggerReconnection(now);
        }
      case Idle =>
        if previous == Ready {
          idleStartTime := Some(now);
        }
      case Connecting =>
      case Ready =>
        idleStartTime := None;
        RecordSuccess();
        if !registered {
          Register();
        }
    }

    /** The periodic health check; only a ready and registered connection is checked. */
    method PerformHealthCheck(current: Connectivity, health: Health, now: Time)
      requires GrpcReconnection.Enabled(View(), HealthStep(now, health)) && CanReport(View(), current)
      modifies this`healthCheckEnabled, this`reconnect, this`clock
      ensures View() == if current == Ready then Apply(old(View()), HealthStep(now, health))
                        else old(View()).(clock := now)
    {
      clock := now;
      if conn == None || current != Ready || !registered || !healthCheckEnabled {
        return;
      }
      match health
      case Passes =>
      case Unimplemented => healthCheckEnabled := false;
      case Fails => TriggerReconnection(now);
    }

    /** One turn of the reconnection handler, up to its sleep or settling: it takes the queued
        request and acts on it only if the breaker allows. */
    method HandleReconnection(dials: bool, becomesReady: bool, now: Time, done: Time)
      requires GrpcReconnection.Enabled(View(), TakeStep(now, dials, becomesReady, done))
      modifies this
      ensures View() == Apply(old(View()), TakeStep(now, dials, becomesReady, done))
    {
      reconnect := false;
      if !stopped && breaker.CanAttempt(now) {
        ExecuteReconnection(dials, becomesReady, now, done);
      }
      clock := done;
    }

    method ExecuteReconnection(dials: bool, becomesReady: bool, now: Time, done: Time)
      modifies this`conn, this`stubs, this`registered, this`dialled, this`closed, this`healthCheckEnabled
      modifies this`reconnecting, this`breaker, this`attempts, this`handler
      ensures View() == if old(reconnecting) then old(View())
                        else Execute(old(View()), now, dials, becomesReady, done)
    {
      if reconnecting {
        return;
      }
      Reconnect(dials, becomesReady, now, done);
    }

    method Reconnect(dials: bool, becomesReady: bool, now: Time, done: Time)
      requires !reconnecting
      modifies this`conn, this`stubs, this`registered, this`dialled, this`closed, this`healthCheckEnabled
      modifies this`reconnecting, this`breaker, this`attempts, this`handler
      ensures View() == Execute(old(View()), now, dials, becomesReady, done)
    {
      ExecuteIs(View(), now, dials, becomesReady, done);
      reconnecting := true;
      var ok := DoConnect(dials, becomesReady);
      if !ok {
        GoToSleep(now, done);
      } else {
        Settle();
      }
    }

    /** After a success: the failures are forgotten, and the connection may settle. */
    method Settle()
      modifies this`breaker, this`attempts, this`handler
      ensures View() == old(View()).RecordSuccess().(handler := Settling)
    {
      RecordSuccess();
      handler := Settling;
    }

    /** After a failure: it is recorded, and the handler sleeps the backoff. */
    method GoToSleep(ghost allowed: Time, now: Time)
      modifies this`breaker, this`attempts, this`reconnecting, this`handler
      ensures
        var failed := old(breaker).RecordFailure(now);
        View() == old(View()).(breaker := failed, attempts := old(attempts) + [FailedAttempt(allowed, now)],
                               reconnecting := false, handler := Sleeping(now + failed.Backoff().value))
    {
      RecordFailure(allowed, now);
      reconnecting := false;
      handler := Sleeping(now + breaker.Backoff().value);
    }

    method RecordFailure(ghost allowed: Time, now: Time)
      modifies this`breaker, this`attempts
      ensures breaker == old(breaker).RecordFailure(now)
      ensures attempts == old(attempts) + [FailedAttempt(allowed, now)]
    {
      breaker := breaker.RecordFailure(now);
      attempts := attempts + [FailedAttempt(allowed, now)];
    }

    method RecordSuccess()
      modifies this`breaker, this`attempts
      ensures breaker == RESET && attempts == []
    {
      breaker, attempts := RESET, [];
    }

    /** The end of the handler's sleep: the retry is queued. */
    method RetryAfterBackoff(now: Time)
      requires GrpcReconnection.Enabled(View(), WakeStep(now))
      modifies this`reconnect, this`handler, this`clock
      ensures View() == Apply(old(View()), WakeStep(now))
    {
      reconnect := true;
      handler, clock := Waiting, now;
    }

    /** The end of the handler's settling. */
    method FinishReconnection(now: Time)
      requires GrpcReconnection.Enabled(View(), SettleStep(now))
      modifies this`reconnecting, this`handler, this`clock
      ensures View() == Apply(old(View()), SettleStep(now))
    {
      reconnecting := false;
      handler, clock := Waiting, now;
    }

    /** The getters: a stub is handed out only while registered, so it belongs to the current,
        open connection and never to a closed predecessor. */
    method GetClient(service: Service) returns (stub: Option<Stub>)
      requires StubsCurrent(View())
      ensures stub.Some? <==> !stopped && registered
      ensures stub.Some? ==> conn.Some? && conn.value !in closed && stub.value == Stub(service, conn.value)
    {
      if stopped || !registered {
        return None;
      }
      stub := Some(stubs.Of(service));
    }

    /** The getters with a timeout also ask for a reconnection when the connection is broken. */
    method GetClientWithTimeout(service: Service, current: Connectivity, now: Time) returns (stub: Option<Stub>)
      requires StubsCurrent(View()) && GrpcReconnection.Enabled(View(), GetterStep(now, current))
      modifies this`reconnect, this`clock
      ensures View() == Apply(old(View()), GetterStep(now, current))
      ensures stub.Some? <==> !stopped && registered
      ensures stub.Some? ==> conn.Some? && conn.value !in closed && stub.value == Stub(service, conn.value)
    {
      stub := GetClient(service);
      TriggerIfBad(current, now);
      clock := now;
    }

    method TriggerIfBad(current: Connectivity, now: Time)
      modifies this`reconnect
      ensures View() ==
        if !stopped && conn.Some? && current in {Shutdown, TransientFailure} then old(View()).Trigger(now)
        else old(View())
    {
      if !stopped && conn.Some? && (current == Shutdown || current == TransientFailure) {
        TriggerReconnection(now);
      }
    }

    method Stop(now: Time)
      requires GrpcReconnection.Enabled(View(), StopStep(now))
      modifies this`stopped, this`registered, this`closed, this`clock
      ensures View() == Apply(old(View()), StopStep(now))
    {
      clock := now;
      if stopped {
        return;
      }
      stopped := true;
      registered := false;
      if conn.Some? {
        closed := closed + {conn.value};
      }
    }
  }
}
