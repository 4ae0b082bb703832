/**
 * Connection, registration and reconnection of the gRPC client, as a state machine.
 *
 * The state monitor, the getters, the health check and the reconnection handler run side by
 * side; each of their turns is one step.  The handler's sleep after a failure is a step of its
 * own, so other turns fall into it.  Every step carries the time it happens.
 */
module GrpcReconnection {
  import opened Prelude
  import opened GrpcBreaker

  const IDLE_GRACE_PERIOD: Time := 2 * MINUTE

  datatype Connectivity = Idle | Connecting | Ready | TransientFailure | Shutdown

  type ConnId = nat

  datatype Service = NodeService | ModelBaseService | TaskService | DependencyService | MetricService | SyncService

  /** A stub talks to one service, on the connection it was built from. */
  datatype Stub = Unset | Stub(service: Service, conn: ConnId) | HealthStub(conn: ConnId)

  datatype Stubs = Stubs(
    node: Stub, modelBase: Stub, task: Stub, dependency: Stub, metric: Stub, sync: Stub, health: Stub)
  {
    function Of(service: Service): Stub {
      match service
      case NodeService => node
      case ModelBaseService => modelBase
      case TaskService => task
      case DependencyService => dependency
      case MetricService => metric
      case SyncService => sync
    }

    /** Was every stub, the health stub included, built from this connection? */
    predicate BuiltFrom(c: ConnId) {
      health == HealthStub(c) && forall service: Service :: Of(service) == Stub(service, c)
    }
  }

  function StubsOn(c: ConnId): Stubs {
    Stubs(Stub(NodeService, c), Stub(ModelBaseService, c), Stub(TaskService, c), Stub(DependencyService, c),
          Stub(MetricService, c), Stub(SyncService, c), HealthStub(c))
  }

  const UNSET: Stubs := Stubs(Unset, Unset, Unset, Unset, Unset, Unset, Unset)

  /** Where the reconnection handler is: waiting for the channel, asleep after a failure, or
      letting a new connection settle. */
  datatype Handler = Waiting | Sleeping(until: Time) | Settling

  /** `queued` is the one-slot reconnect channel.  Every connection dialled has its own number,
      and `closed` are those that have been closed.  `attempts` records the failures since the
      last success, and `clock` is the time of the last step. */
  datatype State = State(
    conn: Option<ConnId>, stubs: Stubs, registered: bool, stopped: bool, reported: Connectivity,
    reconnecting: bool, queued: bool, breaker: Breaker, dialled: nat, closed: set<ConnId>,
    idleSince: Option<Time>, healthCheck: bool, handler: Handler,
    attempts: seq<FailedAttempt>, clock: Time)
  {
    /** triggerReconnection: fills the one slot unless stopped or the breaker is open. */
    function Trigger(now: Time): State {
      this.(queued := queued || !(stopped || breaker.IsOpen(now)))
    }

    /** register: builds all stubs from the current connection. */
    function Register(): State
      requires conn.Some?
    {
      this.(stubs := StubsOn(conn.value), healthCheck := true, registered := true)
    }

    function RecordSuccess(): State {
      this.(breaker := RESET, attempts := [])
    }

    /** doConnect: the old connection is closed for good, whatever comes of the new one. */
    function Connect(dials: bool, becomesReady: bool): State {
      var dropped := this.(
        registered := false, conn := None, closed := if conn.Some? then closed + {conn.value} else closed);
      if !dials then dropped
      else if !becomesReady then dropped.(dialled := dialled + 1, closed := dropped.closed + {dialled})
      else dropped.(conn := Some(dialled), dialled := dialled + 1).Register()
    }

    /** checkAndHandleStateChange; `current` is what the connection reports. */
    function Tick(now: Time, current: Connectivity): State {
      if conn.None? then this
      else if reported == current then Unchanged(now, current)
      else Changed(now, current)
    }

    /** The call that is meant to probe a connection idle for too long asks the same connection
        whether it is ready, so it always fails. */
    function Unchanged(now: Time, current: Connectivity): State {
      if current == Idle && idleSince.Some? && now - idleSince.value > IDLE_GRACE_PERIOD
      then Trigger(now).(idleSince := None) else this
    }

    function Changed(now: Time, current: Connectivity): State
      requires conn.Some?
    {
      var seen := this.(reported := current);
      match current
      case TransientFailure => seen.(registered := false).Trigger(now)
      case Shutdown => seen.(registered := false).Trigger(now)
      case Idle => if reported == Ready then seen.(idleSince := Some(now)) else seen
      case Ready =>
        var fine := seen.(idleSince := None).RecordSuccess();
        if registered then fine else fine.Register()
      case Connecting => seen
    }
  }

  datatype Health = Passes | Unimplemented | Fails

  datatype Step =
    | TickStep(now: Time, current: Connectivity)
    | GetterStep(now: Time, current: Connectivity)
    | HealthStep(now: Time, health: Health)
    | TakeStep(now: Time, dials: bool, becomesReady: bool, done: Time)
    | WakeStep(now: Time)
    | SettleStep(now: Time)
    | StopStep(now: Time)

  /** The client before its first connection attempt. */
  const UNCONNECTED: State := State(
    None, UNSET, false, false, Idle, false, false, RESET, 0, {}, None, true, Waiting, [], 0)

  /** Start: one connection attempt, whose failure nobody records or queues. */
  function Init(dials: bool, becomesReady: bool, now: Time): State {
    UNCONNECTED.Connect(dials, becomesReady).(clock := now)
  }

  /** A closed connection reports nothing but Shutdown. */
  predicate CanReport(s: State, current: Connectivity) {
    s.conn.Some? && s.conn.value in s.closed ==> current == Shutdown
  }

  predicate Enabled(s: State, step: Step) {
    && s.clock <= step.now
    && match step
       case TickStep(_, current) => CanReport(s, current)
       case GetterStep(_, current) => CanReport(s, current)
       case HealthStep(_, _) => CanReport(s, Ready)
       case TakeStep(now, _, _, done) => s.queued && s.handler.Waiting? && now <= done
       case WakeStep(now) => s.handler.Sleeping? && now >= s.handler.until
       case SettleStep(_) => s.handler.Settling?
       case StopStep(_) => true
  }

  /** Does the handler act on the request it takes from the channel? */
  predicate Executes(s: State, now: Time) {
    !s.stopped && s.breaker.CanAttempt(now) && !s.reconnecting
  }

  /** One attempt of the handler, up to the sleep or the settling. */
  function Execute(s: State, now: Time, dials: bool, becomesReady: bool, done: Time): State {
    var connected := s.Connect(dials, becomesReady);
    if dials && becomesReady then connected.RecordSuccess().(reconnecting := true, handler := Settling)
    else
      var failed := s.breaker.RecordFailure(done);
      connected.(breaker := failed, handler := Sleeping(done + failed.Backoff().value),
                 attempts := s.attempts + [FailedAttempt(now, done)])
  }

  /** One turn of the handler: a request that the breaker refuses is dropped. */
  function Take(s: State, now: Time, dials: bool, becomesReady: bool, done: Time): State {
    var taken := s.(queued := false);
    if Executes(s, now) then Execute(taken, now, dials, becomesReady, done) else taken
  }

  function Apply(s: State, step: Step): State {
    match step
    case TickStep(now, current) => s.Tick(now, current).(clock := now)
    case GetterStep(now, current) =>
      // Only the getters with a timeout look at the connection before they wait.
      (if !s.stopped && s.conn.Some? && current in {Shutdown, TransientFailure} then s.Trigger(now) else s)
        .(clock := now)
    case HealthStep(now, health) =>
      (if s.conn.None? || !s.registered || !s.healthCheck then s
       else match health
         case Passes => s
         case Unimplemented => s.(healthCheck := false)
         case Fails => s.Trigger(now)).(clock := now)
    case TakeStep(now, dials, becomesReady, done) => Take(s, now, dials, becomesReady, done).(clock := done)
    case WakeStep(now) => s.(queued := true, handler := Waiting, clock := now)
    case SettleStep(now) => s.(reconnecting := false, handler := Waiting, clock := now)
    case StopStep(now) =>
      if s.stopped then s.(clock := now)
      else s.(stopped := true, registered := false,
              closed := if s.conn.Some? then s.closed + {s.conn.value} else s.closed, clock := now)
  }

  // ----- What holds at every moment -----

  /** Registration is never about anything but the open, current connection. */
  predicate StubsCurrent(s: State) {
    && (s.conn.Some? ==> s.conn.value < s.dialled)
    && (forall c: ConnId :: c in s.closed ==> c < s.dialled)
    && (forall c: ConnId :: c < s.dialled && c !in s.closed ==> s.conn == Some(c))
    && (s.registered ==> s.conn.Some? && s.conn.value !in s.closed && s.stubs.BuiltFrom(s.conn.value))
    && (s.stopped && s.conn.Some? ==> s.conn.value in s.closed)
  }

  /** The breaker counts the failures since the last success, and they make a run. */
  ghost predicate FailuresCounted(s: State) {
    s.breaker == BreakerAfter(s.attempts) && FailureRun(s.attempts)
  }

  /** After a failure there is no connection until a retry succeeds, and no retry before the
      backoff is over. */
  ghost predicate RetriesPaced(s: State) {
    && (s.handler.Sleeping? ==> s.attempts != [] && !s.queued)
    && (s.conn.None? && s.queued ==> s.attempts != [])
    && (s.reconnecting <==> s.handler.Settling?)
    && (s.attempts != [] ==>
          && s.conn.None? && !s.registered && !s.handler.Settling?
          && BackoffOver(s, s.attempts[|s.attempts| - 1].failed))
  }

  predicate BackoffOver(s: State, failed: Time) {
    && failed <= s.clock && s.breaker.Backoff().Some?
    && if s.handler.Sleeping? then s.handler.until == failed + s.breaker.Backoff().value
       else failed + s.breaker.Backoff().value <= s.clock
  }

  ghost predicate Inv(s: State) {
    StubsCurrent(s) && FailuresCounted(s) && RetriesPaced(s)
  }

  lemma InitInv(dials: bool, becomesReady: bool, now: Time)
    ensures Inv(Init(dials, becomesReady, now))
  {
  }

  lemma ConnectKeepsStubs(s: State, dials: bool, becomesReady: bool)
    requires StubsCurrent(s) && !s.stopped
    ensures StubsCurrent(s.Connect(dials, becomesReady))
  {
  }

  /** A step that leaves the connections alone and registers nothing keeps the stubs current. */
  predicate SameConnections(s: State, after: State) {
    && after.conn == s.conn && after.closed == s.closed && after.dialled == s.dialled && after.stubs == s.stubs
    && (after.registered ==> s.registered) && after.stopped == s.stopped
  }

  lemma RegisterKeepsStubs(s: State)
    requires StubsCurrent(s) && s.conn.Some? && s.conn.value !in s.closed
    ensures StubsCurrent(s.Register())
  {
  }

  /** Does this tick build the stubs anew? */
  predicate Registers(s: State, current: Connectivity) {
    s.conn.Some? && s.reported != current && current == Ready && !s.registered
  }

  lemma OtherTicksRegisterNothing(s: State, now: Time, current: Connectivity)
    requires !Registers(s, current)
    ensures SameConnections(s, s.Tick(now, current))
  {
    if s.conn.Some? && s.reported != current {
      OtherChangesRegisterNothing(s, now, current);
    }
  }

  lemma OtherChangesRegisterNothing(s: State, now: Time, current: Connectivity)
    requires s.conn.Some? && !(current == Ready && !s.registered)
    ensures SameConnections(s, s.Changed(now, current))
  {
  }

  lemma TickKeepsStubs(s: State, now: Time, current: Connectivity)
    requires StubsCurrent(s) && CanReport(s, current)
    ensures StubsCurrent(s.Tick(now, current))
  {
    if Registers(s, current) {
      var fine := s.(reported := current).(idleSince := None).RecordSuccess();
      SameKeepsStubs(s, fine);
      RegisterKeepsStubs(fine);
    } else {
      OtherTicksRegisterNothing(s, now, current);
      SameKeepsStubs(s, s.Tick(now, current));
    }
  }

  lemma SameKeepsStubs(s: State, after: State)
    requires StubsCurrent(s) && SameConnections(s, after)
    ensures StubsCurrent(after)
  {
  }

  lemma TakeKeepsStubs(s: State, step: Step)
    requires StubsCurrent(s) && step.TakeStep?
    ensures StubsCurrent(Apply(s, step))
  {
    var taken := s.(queued := false);
    if Executes(s, step.now) {
      SameKeepsStubs(s, taken);
      ConnectKeepsStubs(taken, step.dials, step.becomesReady);
      SameKeepsStubs(taken.Connect(step.dials, step.becomesReady), Apply(s, step));
    } else {
      SameKeepsStubs(s, Apply(s, step));
    }
  }

  lemma StepKeepsStubs(s: State, step: Step)
    requires StubsCurrent(s) && Enabled(s, step)
    ensures StubsCurrent(Apply(s, step))
  {
    match step
    case TickStep(now, current) =>
      TickKeepsStubs(s, now, current);
      SameKeepsStubs(s.Tick(now, current), Apply(s, step));
    case TakeStep(_, _, _, _) => TakeKeepsStubs(s, step);
    case StopStep(_) => StopKeepsStubs(s, step);
    case _ => SameKeepsStubs(s, Apply(s, step));
  }

  lemma StopKeepsStubs(s: State, step: Step)
    requires StubsCurrent(s) && step.StopStep?
    ensures StubsCurrent(Apply(s, step))
  {
  }

  /** What is the same before and after a step of anyone but the handler. */
  predicate SameFailures(s: State, after: State) {
    && after.attempts == s.attempts && after.breaker == s.breaker && after.handler == s.handler
    && after.reconnecting == s.reconnecting && after.conn == s.conn && s.clock <= after.clock
    && (s.conn.None? ==> after.queued == s.queued && (after.registered ==> s.registered))
  }

  /** A connection that becomes ready finds no failure to forget. */
  lemma TickKeepsFailures(s: State, now: Time, current: Connectivity)
    requires FailuresCounted(s) && RetriesPaced(s)
    ensures SameFailures(s, s.Tick(now, current))
  {
    if s.conn.Some? {
      TickForgetsNothing(s, now, current);
    }
  }

  lemma TickForgetsNothing(s: State, now: Time, current: Connectivity)
    requires s.conn.Some? && s.attempts == [] && s.breaker == RESET
    ensures SameFailures(s, s.Tick(now, current))
  {
    if s.reported != current {
      ChangedForgetsNothing(s, now, current);
    }
  }

  lemma ChangedForgetsNothing(s: State, now: Time, current: Connectivity)
    requires s.conn.Some? && s.attempts == [] && s.breaker == RESET
    ensures SameFailures(s, s.Changed(now, current))
  {
  }

  lemma SameFailuresPaced(s: State, after: State)
    requires RetriesPaced(s) && SameFailures(s, after)
    ensures RetriesPaced(after)
  {
  }

  /** Only the handler changes what is recorded of failures. */
  lemma StepKeepsRetries(s: State, step: Step)
    requires FailuresCounted(s) && RetriesPaced(s) && Enabled(s, step) && !step.TakeStep?
    ensures Apply(s, step).attempts == s.attempts && Apply(s, step).breaker == s.breaker
    ensures RetriesPaced(Apply(s, step))
  {
    match step
    case TickStep(now, current) =>
      TickKeepsFailures(s, now, current);
      SameFailuresPaced(s, Apply(s, step));
    case GetterStep(_, _) => SameFailuresPaced(s, Apply(s, step));
    case HealthStep(_, _) => SameFailuresPaced(s, Apply(s, step));
    case StopStep(_) => SameFailuresPaced(s, Apply(s, step));
    case WakeStep(_) =>
    case SettleStep(_) =>
  }

  /** What a failed turn of the handler leaves. */
  lemma FailedTake(s: State, step: Step)
    requires Inv(s) && Enabled(s, step) && step.TakeStep? && Executes(s, step.now)
    requires !(step.dials && step.becomesReady)
    ensures
      var after := Apply(s, step);
      && after.attempts == s.attempts + [FailedAttempt(step.now, step.done)]
      && after.breaker == s.breaker.RecordFailure(step.done) && after.breaker.Backoff().Some?
      && after.handler == Sleeping(step.done + after.breaker.Backoff().value)
      && after.conn.None? && !after.queued && !after.registered && after.stopped == s.stopped
      && after.clock == step.done && after.reconnecting == s.reconnecting
  {
    BreakerCounts(s.attempts);
  }

  /** A turn of the handler: a failure continues the run of failures, a success ends it. */
  lemma TakeKeepsInv(s: State, step: Step)
    requires Inv(s) && Enabled(s, step) && step.TakeStep?
    ensures Inv(Apply(s, step))
  {
    StepKeepsStubs(s, step);
    if Executes(s, step.now) && !(step.dials && step.becomesReady) {
      FailedTake(s, step);
      FailureRunGrows(s.attempts, FailedAttempt(step.now, step.done));
    }
  }

  lemma StepKeepsInv(s: State, step: Step)
    requires Inv(s) && Enabled(s, step)
    ensures Inv(Apply(s, step))
  {
    if step.TakeStep? {
      TakeKeepsInv(s, step);
    } else {
      StepKeepsStubs(s, step);
      StepKeepsRetries(s, step);
    }
  }

  // ----- Whole runs -----

  ghost predicate Run(states: seq<State>, steps: seq<Step>) {
    && |states| == |steps| + 1
    && forall i :: 0 <= i < |steps| ==> Enabled(states[i], steps[i]) && states[i + 1] == Apply(states[i], steps[i])
  }

  lemma {:induction false} RunKeepsInv(states: seq<State>, steps: seq<Step>, i: nat)
    requires Run(states, steps) && Inv(states[0]) && i < |states|
    ensures Inv(states[i])
  {
    if i > 0 {
      RunKeepsInv(states, steps, i - 1);
      StepKeepsInv(states[i - 1], steps[i - 1]);
    }
  }

  /** In every run, whatever the connections do: the stubs handed out belong to the current, open
      connection, and since the last success at most 5 + floor(L / 120 s) reconnections have
      failed within time L of the first of them. */
  lemma ClientFailuresBounded(states: seq<State>, steps: seq<Step>, dials: bool, becomesReady: bool, now: Time,
                              i: nat, elapsed: Time)
    requires Run(states, steps) && states[0] == Init(dials, becomesReady, now) && i < |states|
    ensures StubsCurrent(states[i])
    ensures var attempts := states[i].attempts;
      attempts != [] && attempts[|attempts| - 1].failed <= attempts[0].failed + elapsed ==>
        elapsed >= 0 && |attempts| <= 5 + elapsed / (120 * SECOND)
  {
    InitInv(dials, becomesReady, now);
    RunKeepsInv(states, steps, i);
    var attempts := states[i].attempts;
    if attempts != [] && attempts[|attempts| - 1].failed <= attempts[0].failed + elapsed {
      FailuresBounded(attempts, elapsed);
    }
  }

  /** The retry that a step takes from the queue, if any, was for a failure more than two minutes ago. */
  predicate LateRetry(s: State, step: Step) {
    step.TakeStep? && s.attempts != [] && step.now > s.attempts[|s.attempts| - 1].failed + 120 * SECOND
  }

  lemma FiveWithoutLateRetry(s: State, step: Step)
    requires Inv(s) && Enabled(s, step) && |s.attempts| <= MAX_FAILURES && !LateRetry(s, step)
    ensures |Apply(s, step).attempts| <= MAX_FAILURES
  {
    if !step.TakeStep? {
      StepKeepsRetries(s, step);
    } else if s.attempts != [] {
      AttemptAllowedIff(s.attempts, step.now);
    }
  }

  /** Without a late retry there are never more than five failures in a row. */
  lemma {:induction false} AtMostFiveFailures(states: seq<State>, steps: seq<Step>, i: nat)
    requires Run(states, steps) && Inv(states[0]) && |states[0].attempts| <= MAX_FAILURES && i < |states|
    requires forall k :: 0 <= k < |steps| ==> !LateRetry(states[k], steps[k])
    ensures |states[i].attempts| <= 5
  {
    if i > 0 {
      AtMostFiveFailures(states, steps, i - 1);
      RunKeepsInv(states, steps, i - 1);
      assert Enabled(states[i - 1], steps[i - 1]) && !LateRetry(states[i - 1], steps[i - 1]);
      FiveWithoutLateRetry(states[i - 1], steps[i - 1]);
    }
  }

  // ----- When the client is lost -----

  /** No connection, and nothing that could bring one. */
  predicate Lost(s: State) {
    s.conn.None? && (s.stopped || (!s.queued && !s.handler.Sleeping?))
  }

  lemma LostIsUnregistered(s: State)
    requires Inv(s) && Lost(s)
    ensures !s.registered
  {
  }

  lemma LostStays(s: State, step: Step)
    requires Inv(s) && Enabled(s, step) && Lost(s)
    ensures Lost(Apply(s, step)) && !Apply(s, step).registered
  {
  }

  predicate Gone(s: State) {
    Lost(s) && !s.registered
  }

  lemma NextIsGone(states: seq<State>, steps: seq<Step>, k: nat)
    requires Run(states, steps) && Inv(states[0]) && k < |steps| && Gone(states[k])
    ensures Gone(states[k + 1])
  {
    RunKeepsInv(states, steps, k);
    LostStays(states[k], steps[k]);
  }

  lemma {:induction false} GoneForGood(states: seq<State>, i: nat, j: nat)
    requires i <= j < |states| && Gone(states[i])
    requires forall k :: i <= k < j && Gone(states[k]) ==> Gone(states[k + 1])
    ensures Gone(states[j])
  {
    if i < j {
      GoneForGood(states, i, j - 1);
    }
  }

  /** A lost client never has a connection again, and never hands out a stub. */
  lemma LostForever(states: seq<State>, steps: seq<Step>, i: nat, j: nat)
    requires Run(states, steps) && Inv(states[0]) && i <= j < |states| && Lost(states[i])
    ensures Lost(states[j]) && states[j].conn.None? && !states[j].registered
  {
    RunKeepsInv(states, steps, i);
    LostIsUnregistered(states[i]);
    forall k | i <= k < j && Gone(states[k]) ensures Gone(states[k + 1]) {
      NextIsGone(states, steps, k);
    }
    GoneForGood(states, i, j);
  }

  /** The first connection attempt decides for good: no run from the start ever has a connection
      or a registration if and only if that attempt fails. */
  lemma NeverConnectsIff(dials: bool, becomesReady: bool, now: Time)
    ensures (forall states: seq<State>, steps: seq<Step>, i: nat ::
               Run(states, steps) && states[0] == Init(dials, becomesReady, now) && i < |states| ==>
                 states[i].conn.None? && !states[i].registered)
            <==> !(dials && becomesReady)
  {
    var start := Init(dials, becomesReady, now);
    InitInv(dials, becomesReady, now);
    if dials && becomesReady {
      assert Run([start], []) && [start][0].conn.Some?;
    } else {
      forall states: seq<State>, steps: seq<Step>, i: nat | Run(states, steps) && states[0] == start && i < |states|
        ensures states[i].conn.None? && !states[i].registered
      {
        LostForever(states, steps, 0, i);
      }
    }
  }

  /** The retry after a failure decides: another attempt follows if and only if the client is not
      stopped and there were fewer than five failures, or the retry is late.  If none follows,
      the client is lost. */
  lemma RetryDecides(s: State, step: Step)
    requires Inv(s) && Enabled(s, step) && step.TakeStep? && s.attempts != []
    ensures
      var again := !s.stopped && (|s.attempts| < 5 || LateRetry(s, step));
      var after := Apply(s, step);
      && (again && step.dials && step.becomesReady <==> after.conn.Some?)
      && (again && !(step.dials && step.becomesReady) <==>
            after.attempts == s.attempts + [FailedAttempt(step.now, step.done)])
      && (!again <==> Lost(after))
  {
    AttemptAllowedIff(s.attempts, step.now);
  }

  /** A client can get a connection again if and only if it has one, or is not stopped and a
      retry is queued or about to be: in all other states it is lost. */
  lemma RecoversIff(s: State)
    requires Inv(s)
    ensures (exists states: seq<State>, steps: seq<Step> ::
               Run(states, steps) && states[0] == s && states[|steps|].conn.Some?)
            <==> !Lost(s)
  {
    if Lost(s) {
      forall states: seq<State>, steps: seq<Step> | Run(states, steps) && states[0] == s
        ensures states[|steps|].conn.None?
      {
        LostForever(states, steps, 0, |steps|);
      }
    } else if s.conn.Some? {
      assert Run([s], []) && [s][0] == s;
    } else {
      var states, steps := Recovery(s);
    }
  }

  /** A retry taken late enough, on a network that is back. */
  lemma Recovery(s: State) returns (states: seq<State>, steps: seq<Step>)
    requires Inv(s) && !Lost(s) && s.conn.None?
    ensures Run(states, steps) && states[0] == s && states[|steps|].conn.Some?
  {
    if s.handler.Sleeping? {
      var wake := WakeStep(if s.clock >= s.handler.until then s.clock else s.handler.until);
      var awake := Apply(s, wake);
      StepKeepsInv(s, wake);
      var now := LateEnough(awake);
      var take := TakeStep(now, true, true, now);
      states, steps := [s, awake, Apply(awake, take)], [wake, take];
    } else {
      var now := LateEnough(s);
      var take := TakeStep(now, true, true, now);
      states, steps := [s, Apply(s, take)], [take];
    }
  }

  lemma LateEnough(s: State) returns (now: Time)
    requires Inv(s) && s.attempts != [] && !s.stopped
    ensures s.clock <= now && Executes(s, now)
  {
    now := s.clock + CB_RESET_TIME + 1;
    AttemptAllowedIff(s.attempts, now);
  }

  // ----- An outage -----

  /** How many requests the handler has taken from its channel. */
  function Takes(steps: seq<Step>): nat {
    if steps == [] then 0
    else Takes(steps[..|steps| - 1]) + if steps[|steps| - 1].TakeStep? then 1 else 0
  }

  /** A client without success after so many turns of the handler. */
  ghost predicate Failing(s: State, takes: nat) {
    Inv(s) && HasFailed(s, takes)
  }

  predicate HasFailed(s: State, takes: nat) {
    && !s.stopped && takes <= MAX_FAILURES + 1
    && |s.attempts| == (if takes <= MAX_FAILURES then takes else MAX_FAILURES)
    && (s.conn.Some? <==> takes == 0)
    && (takes > 0 ==> (Lost(s) <==> takes == MAX_FAILURES + 1))
  }

  /** A retry that is not late is let through exactly after fewer than five failures. */
  lemma TakeExecutesIff(s: State, step: Step)
    requires Inv(s) && Enabled(s, step) && step.TakeStep? && !s.stopped && !LateRetry(s, step)
    ensures Executes(s, step.now) <==> |s.attempts| < MAX_FAILURES
  {
    if s.attempts != [] {
      AttemptAllowedIff(s.attempts, step.now);
    }
  }

  lemma DroppedTake(s: State, step: Step)
    requires step.TakeStep? && !Executes(s, step.now)
    ensures
      var after := Apply(s, step);
      && after.attempts == s.attempts && after.conn == s.conn && after.stopped == s.stopped
      && !after.queued && after.handler == s.handler
  {
  }

  lemma FailingTake(s: State, step: Step, takes: nat)
    requires Failing(s, takes) && Enabled(s, step) && step.TakeStep? && !LateRetry(s, step)
    requires takes < MAX_FAILURES ==> !(step.dials && step.becomesReady)
    ensures HasFailed(Apply(s, step), takes + 1)
  {
    TakeExecutesIff(s, step);
    if takes < MAX_FAILURES {
      FailedTake(s, step);
    } else {
      DroppedTake(s, step);
    }
  }

  /** Turns of the others keep a client lost that is lost, and one that is not as it is. */
  lemma OthersLoseNothing(s: State, step: Step)
    requires Inv(s) && Enabled(s, step) && !step.StopStep? && !step.TakeStep?
    ensures var after := Apply(s, step);
      && after.conn == s.conn && after.stopped == s.stopped && after.attempts == s.attempts
      && (s.conn.None? ==> (Lost(after) <==> Lost(s)))
  {
    StepKeepsRetries(s, step);
  }

  lemma FailingGoesOn(s: State, step: Step, takes: nat)
    requires Failing(s, takes) && Enabled(s, step) && !step.StopStep? && !LateRetry(s, step)
    requires step.TakeStep? && takes < MAX_FAILURES ==> !(step.dials && step.becomesReady)
    ensures Failing(Apply(s, step), if step.TakeStep? then takes + 1 else takes)
  {
    StepKeepsInv(s, step);
    if step.TakeStep? {
      FailingTake(s, step, takes);
    } else {
      OthersLoseNothing(s, step);
    }
  }

  /** No stop, no late retry, and at least the first five attempts fail. */
  ghost predicate OutageRun(states: seq<State>, steps: seq<Step>) {
    && Run(states, steps) && Inv(states[0]) && states[0].conn.Some? && !states[0].stopped
    && (forall k :: 0 <= k < |steps| ==> !steps[k].StopStep? && !LateRetry(states[k], steps[k]))
    && (forall k :: 0 <= k < |steps| && steps[k].TakeStep? && Takes(steps[..k]) < MAX_FAILURES ==>
          !(steps[k].dials && steps[k].becomesReady))
  }

  lemma {:induction false} OutageKeepsFailing(states: seq<State>, steps: seq<Step>, i: nat)
    requires OutageRun(states, steps) && i < |states|
    ensures Failing(states[i], Takes(steps[..i]))
  {
    if i > 0 {
      OutageKeepsFailing(states, steps, i - 1);
      assert steps[..i][..i - 1] == steps[..i - 1];
      FailingGoesOn(states[i - 1], steps[i - 1], Takes(steps[..i - 1]));
    }
  }

  /** In an outage, from any connected state and with any turns of the monitor, the getters and
      the health check in between: as long as no retry is late, the handler fails five times and
      drops the sixth request because the breaker is open, and exactly then the client is lost,
      even if the network is back by then. */
  lemma OutageLosesClient(states: seq<State>, steps: seq<Step>, i: nat)
    requires OutageRun(states, steps) && i < |states|
    ensures var takes := Takes(steps[..i]);
      && takes <= 6
      && |states[i].attempts| == (if takes <= 5 then takes else 5)
      && (states[i].conn.Some? <==> takes == 0)
      && (Lost(states[i]) <==> takes == 6)
  {
    OutageKeepsFailing(states, steps, i);
  }

  /** One prompt failure: the handler takes the retry at once, fails at once, wakes on time. */
  function PromptFailure(s: State): State {
    var taken := Apply(s, TakeStep(s.clock, false, false, s.clock));
    if taken.handler.Sleeping? then Apply(taken, WakeStep(taken.handler.until)) else taken
  }

  ghost predicate RetryQueued(s: State) {
    Inv(s) && s.queued && s.handler.Waiting? && !s.stopped
  }

  lemma PromptFailureCounts(s: State)
    requires RetryQueued(s) && |s.attempts| < MAX_FAILURES
    ensures var after := PromptFailure(s);
      && RetryQueued(after) && |after.attempts| == |s.attempts| + 1
      && after.clock <= after.attempts[|s.attempts|].failed + 30 * SECOND
  {
    var take := TakeStep(s.clock, false, false, s.clock);
    BreakerCounts(s.attempts);
    FailedTake(s, take);
    StepKeepsInv(s, take);
    var taken := Apply(s, take);
    BreakerCounts(taken.attempts);
    BackoffIsCappedPower(taken.breaker);
    StepKeepsInv(taken, WakeStep(taken.handler.until));
  }

  /** What becomes of a client while no connection succeeds and the handler is not held up. */
  function Outage(s: State, rounds: nat): State {
    if rounds == 0 then s else PromptFailure(Outage(s, rounds - 1))
  }

  lemma {:induction false} OutageFailures(s: State, rounds: nat)
    requires RetryQueued(s) && s.attempts == [] && rounds <= MAX_FAILURES
    ensures RetryQueued(Outage(s, rounds)) && |Outage(s, rounds).attempts| == rounds
    ensures rounds > 0 ==>
      Outage(s, rounds).clock <= Outage(s, rounds).attempts[rounds - 1].failed + 30 * SECOND
  {
    if rounds > 0 {
      OutageFailures(s, rounds - 1);
      PromptFailureCounts(Outage(s, rounds - 1));
    }
  }

  /** One such outage: a handler that takes each retry at once fails five times, and its next turn
      loses the client. */
  lemma PromptOutageLosesClient(s: State, dials: bool, becomesReady: bool, done: Time)
    requires RetryQueued(s) && s.attempts == []
    ensures
      var tired := Outage(s, MAX_FAILURES);
      && |tired.attempts| == MAX_FAILURES && !Lost(tired)
      && (tired.clock <= done ==> Lost(Apply(tired, TakeStep(tired.clock, dials, becomesReady, done))))
  {
    OutageFailures(s, MAX_FAILURES);
    var tired := Outage(s, MAX_FAILURES);
    if tired.clock <= done {
      RetryDecides(tired, TakeStep(tired.clock, dials, becomesReady, done));
    }
  }
}
