/**
 * Request coalescing in the file-scan service (getOrWaitForScan).
 *
 * Requests for one key share one directory scan.  The first request becomes the leader and
 * scans outside the mutex; later ones register as subscribers and block on the leader's
 * channel; at the end the leader takes the mutex, sends the result once per subscriber,
 * forgets the key, closes the channel and releases the mutex.
 *
 * The first half of the module is the shared state as a value, with one function for each
 * section that the code runs under the mutex or on the channel.  The second half is the
 * interleaving of any number of requests over those sections.
 */
module ScanCoalescing {
  import opened Prelude

  const CHANNEL_CAPACITY: nat := 10

  datatype FileInfo = FileInfo(
    name: string, path: string, fullPath: string, extension: string,
    isDir: bool, fileSize: int, modTime: int, mode: int, hash: string)

  /** What travels on the channel and in the cache; `err` is set only for a failed scan. */
  datatype ScanResult = ScanResult(files: seq<FileInfo>, timestamp: int, err: Option<string>)

  /** What the scan function returns to the leader. */
  datatype ScanOutcome = Completed(files: seq<FileInfo>, timestamp: int) | Failed(message: string)

  /** The pair that a request hands back to its caller. */
  datatype Reply = Reply(result: ScanResult, err: Option<string>)

  /** The value the leader broadcasts: a failure is wrapped into an otherwise empty result. */
  function Broadcast(outcome: ScanOutcome): ScanResult {
    match outcome
    case Completed(files, timestamp) => ScanResult(files, timestamp, None)
    case Failed(message) => ScanResult([], 0, Some(message))
  }

  /** The leader returns its result together with the error of the scan function. */
  function LeaderReply(outcome: ScanOutcome): Reply {
    Reply(Broadcast(outcome), if outcome.Failed? then Some(outcome.message) else None)
  }

  /** A waiter returns what it received together with the error inside it. */
  function WaiterReply(received: ScanResult): Reply {
    Reply(received, received.err)
  }

  // ----- The shared state -----

  /** One activeScanState object with its channel. */
  datatype Scan = Scan(
    key: string, inProgress: bool, subscribers: nat, waitChan: seq<ScanResult>, closed: bool)

  /** The activeScans map points into the list of all scan states created so far. */
  datatype Coordinator = Coordinator(active: map<string, nat>, scans: seq<Scan>) {

    predicate WellFormed() {
      forall k :: k in active ==> active[k] < |scans|
    }

    /** Does a request for this key find a scan to wait for? */
    predicate Joins(key: string)
      requires WellFormed()
    {
      key in active && scans[active[key]].inProgress
    }

    /** The scan that a request for this key joins or starts. */
    function Target(key: string): nat
      requires WellFormed()
    {
      if Joins(key) then active[key] else |scans|
    }

    /** The first critical section: register as a subscriber, or create and publish a new state. */
    function Enter(key: string): Coordinator
      requires WellFormed()
    {
      if Joins(key) then
        var scan := scans[active[key]];
        this.(scans := scans[active[key] := scan.(subscribers := scan.subscribers + 1)])
      else
        Coordinator(active[key := |scans|], scans + [Scan(key, true, 0, [], false)])
    }

    /** One send of the broadcast loop. */
    function Send(gen: nat, result: ScanResult): Coordinator
      requires gen < |scans|
    {
      this.(scans := scans[gen := scans[gen].(waitChan := scans[gen].waitChan + [result])])
    }

    /** The end of the broadcast: forget the key and close the channel. */
    function Finish(gen: nat): Coordinator
      requires gen < |scans|
    {
      Coordinator(active - {scans[gen].key}, scans[gen := scans[gen].(closed := true)])
    }

    /** A receive takes the oldest value of a non-empty channel. */
    function Receive(gen: nat): Coordinator
      requires gen < |scans| && scans[gen].waitChan != []
    {
      this.(scans := scans[gen := scans[gen].(waitChan := scans[gen].waitChan[1..])])
    }
  }

  // ----- The interleaving of requests -----

  /** Where one request stands.  `Crashed` is a nil result read from a closed, empty channel. */
  datatype Proc =
    | Idle
    | Scanning(gen: nat)
    | Scanned(gen: nat)
    | Broadcasting(gen: nat, sent: nat)
    | Waiting(gen: nat)
    | Returned(gen: nat, reply: Reply)
    | Crashed

  /** History of one scan: which request leads it and what the scan function returned. */
  datatype ScanRun = ScanRun(leader: nat, outcome: Option<ScanOutcome>)

  datatype State = State(coord: Coordinator, lock: Option<nat>, procs: seq<Proc>, runs: seq<ScanRun>)

  datatype Step =
    | EnterStep(p: nat, key: string)
    | ScanReturns(p: nat, outcome: ScanOutcome)
    | TakeLock(p: nat)
    | SendStep(p: nat)
    | FinishStep(p: nat)
    | ReceiveStep(p: nat)
    | ReceiveClosed(p: nat)

  function Init(requests: nat): State {
    State(Coordinator(map[], []), None, seq(requests, _ => Idle), [])
  }

  /** References between the parts of a state stay in range. */
  predicate InRange(s: State) {
    && s.coord.WellFormed()
    && |s.runs| == |s.coord.scans|
    && (forall p :: 0 <= p < |s.procs| && !s.procs[p].Idle? && !s.procs[p].Crashed? ==>
          s.procs[p].gen < |s.coord.scans|)
  }

  predicate Enabled(s: State, step: Step)
    requires InRange(s)
  {
    && step.p < |s.procs|
    && var proc := s.procs[step.p];
       match step
       case EnterStep(_, _) => proc.Idle? && s.lock.None?
       case ScanReturns(_, _) => proc.Scanning?
       case TakeLock(_) => proc.Scanned? && s.lock.None? && s.runs[proc.gen].outcome.Some?
       case SendStep(_) =>
         && proc.Broadcasting?
         && s.runs[proc.gen].outcome.Some?
         && proc.sent < s.coord.scans[proc.gen].subscribers
         && |s.coord.scans[proc.gen].waitChan| < CHANNEL_CAPACITY
       case FinishStep(_) =>
         && proc.Broadcasting?
         && s.runs[proc.gen].outcome.Some?
         && proc.sent >= s.coord.scans[proc.gen].subscribers
       case ReceiveStep(_) => proc.Waiting? && s.coord.scans[proc.gen].waitChan != []
       case ReceiveClosed(_) =>
         proc.Waiting? && s.coord.scans[proc.gen].waitChan == [] && s.coord.scans[proc.gen].closed
  }

  function Apply(s: State, step: Step): State
    requires InRange(s) && Enabled(s, step)
  {
    var p := step.p;
    var proc := s.procs[p];
    match step
    case EnterStep(_, key) =>
      var gen := s.coord.Target(key);
      if s.coord.Joins(key) then
        s.(coord := s.coord.Enter(key), procs := s.procs[p := Waiting(gen)])
      else
        s.(coord := s.coord.Enter(key), procs := s.procs[p := Scanning(gen)],
           runs := s.runs + [ScanRun(p, None)])
    case ScanReturns(_, outcome) =>
      s.(procs := s.procs[p := Scanned(proc.gen)],
         runs := s.runs[proc.gen := s.runs[proc.gen].(outcome := Some(outcome))])
    case TakeLock(_) =>
      s.(lock := Some(p), procs := s.procs[p := Broadcasting(proc.gen, 0)])
    case SendStep(_) =>
      s.(coord := s.coord.Send(proc.gen, Broadcast(s.runs[proc.gen].outcome.value)),
         procs := s.procs[p := Broadcasting(proc.gen, proc.sent + 1)])
    case FinishStep(_) =>
      s.(coord := s.coord.Finish(proc.gen), lock := None,
         procs := s.procs[p := Returned(proc.gen, LeaderReply(s.runs[proc.gen].outcome.value))])
    case ReceiveStep(_) =>
      s.(coord := s.coord.Receive(proc.gen),
         procs := s.procs[p := Returned(proc.gen, WaiterReply(s.coord.scans[proc.gen].waitChan[0]))])
    case ReceiveClosed(_) =>
      s.(procs := s.procs[p := Crashed])
  }

  // ----- The invariant -----

  /** Is this request the leader of a scan that is not over? */
  predicate Leading(proc: Proc) {
    proc.Scanning? || proc.Scanned? || proc.Broadcasting?
  }

  function WaitWeight(gen: nat): Proc -> nat {
    (proc: Proc) => if proc == Waiting(gen) then 1 else 0
  }

  /** How many requests are blocked on the channel of this scan. */
  function Waiters(s: State, gen: nat): nat {
    Sum(s.procs, WaitWeight(gen))
  }

  /** How many sends the leader of this scan still owes. */
  function Owed(s: State, gen: nat): int
    requires InRange(s) && gen < |s.coord.scans|
    requires !s.coord.scans[gen].closed ==> s.runs[gen].leader < |s.procs|
  {
    var scan := s.coord.scans[gen];
    if scan.closed then 0
    else
      var leader := s.procs[s.runs[gen].leader];
      if leader.Broadcasting? then scan.subscribers - leader.sent else scan.subscribers
  }

  /** Everything that holds of one scan state at every moment. */
  predicate ScanInv(s: State, gen: nat)
    requires InRange(s) && gen < |s.coord.scans|
  {
    var scan := s.coord.scans[gen];
    var run := s.runs[gen];
    && scan.inProgress
    && (!scan.closed ==>
          && run.leader < |s.procs|
          && Leading(s.procs[run.leader]) && s.procs[run.leader].gen == gen
          && scan.key in s.coord.active && s.coord.active[scan.key] == gen
          && (run.outcome.None? <==> s.procs[run.leader].Scanning?)
          && (!s.procs[run.leader].Broadcasting? ==> scan.waitChan == []))
    && (scan.closed ==> run.outcome.Some?)
    && 0 <= Owed(s, gen)
    && Waiters(s, gen) == Owed(s, gen) + |scan.waitChan|
    && (scan.waitChan != [] ==> run.outcome.Some?)
    && (forall i :: 0 <= i < |scan.waitChan| ==> scan.waitChan[i] == Broadcast(run.outcome.value))
  }

  /** Everything that holds of one request at every moment. */
  predicate ProcInv(s: State, p: nat)
    requires InRange(s) && p < |s.procs|
  {
    var proc := s.procs[p];
    && !proc.Crashed?
    && (proc.Broadcasting? <==> s.lock == Some(p))
    && (Leading(proc) ==>
          !s.coord.scans[proc.gen].closed && s.runs[proc.gen].leader == p)
    && (proc.Returned? ==>
          s.runs[proc.gen].outcome.Some? && proc.reply == LeaderReply(s.runs[proc.gen].outcome.value))
  }

  predicate Inv(s: State) {
    && InRange(s)
    && (s.lock.Some? ==> s.lock.value < |s.procs|)
    && (forall k :: k in s.coord.active ==>
          s.coord.scans[s.coord.active[k]].key == k && !s.coord.scans[s.coord.active[k]].closed)
    && (forall gen :: 0 <= gen < |s.coord.scans| ==> ScanInv(s, gen))
    && (forall p :: 0 <= p < |s.procs| ==> ProcInv(s, p))
  }

  /** Nobody waits on a scan that does not exist yet. */
  lemma NoWaitersYet(s: State)
    requires Inv(s)
    ensures Waiters(s, |s.coord.scans|) == 0
  {
    SumZero(s.procs, WaitWeight(|s.coord.scans|));
  }

  /** How one request's move changes the number of waiters of any scan. */
  lemma WaitersUpdate(s: State, s': State, p: nat, gen: nat)
    requires p < |s.procs| == |s'.procs| && s'.procs == s.procs[p := s'.procs[p]]
    ensures Waiters(s', gen) + (if s.procs[p] == Waiting(gen) then 1 else 0)
         == Waiters(s, gen) + (if s'.procs[p] == Waiting(gen) then 1 else 0)
  {
    SumUpdate(s.procs, p, s'.procs[p], WaitWeight(gen));
  }

  lemma InitInv(requests: nat)
    ensures Inv(Init(requests))
  {
  }

  lemma EnterKeepsInv(s: State, step: Step)
    requires Inv(s) && Enabled(s, step) && step.EnterStep?
    ensures Inv(Apply(s, step))
  {
    var s', p := Apply(s, step), step.p;
    NoWaitersYet(s);
    forall gen | 0 <= gen < |s'.coord.scans| ensures ScanInv(s', gen) {
      WaitersUpdate(s, s', p, gen);
      if gen < |s.coord.scans| {
        assert ScanInv(s, gen);
        if s.coord.Joins(step.key) && !s.coord.scans[gen].closed {
          assert s'.procs[s.runs[gen].leader] == s.procs[s.runs[gen].leader];
        }
      }
    }
    forall q | 0 <= q < |s'.procs| ensures ProcInv(s', q) {
      assert ProcInv(s, q);
    }
  }

  lemma ScanReturnsKeepsInv(s: State, step: Step)
    requires Inv(s) && Enabled(s, step) && step.ScanReturns?
    ensures Inv(Apply(s, step))
  {
    var s', p := Apply(s, step), step.p;
    assert ProcInv(s, p) && ScanInv(s, s.procs[p].gen);
    forall gen | 0 <= gen < |s'.coord.scans| ensures ScanInv(s', gen) {
      WaitersUpdate(s, s', p, gen);
      assert ScanInv(s, gen);
    }
    forall q | 0 <= q < |s'.procs| ensures ProcInv(s', q) {
      assert ProcInv(s, q);
    }
  }

  lemma TakeLockKeepsInv(s: State, step: Step)
    requires Inv(s) && Enabled(s, step) && step.TakeLock?
    ensures Inv(Apply(s, step))
  {
    var s', p := Apply(s, step), step.p;
    assert ProcInv(s, p) && ScanInv(s, s.procs[p].gen);
    forall gen | 0 <= gen < |s'.coord.scans| ensures ScanInv(s', gen) {
      WaitersUpdate(s, s', p, gen);
      assert ScanInv(s, gen);
    }
    forall q | 0 <= q < |s'.procs| ensures ProcInv(s', q) {
      assert ProcInv(s, q);
    }
  }

  lemma SendKeepsInv(s: State, step: Step)
    requires Inv(s) && Enabled(s, step) && step.SendStep?
    ensures Inv(Apply(s, step))
  {
    var s', p := Apply(s, step), step.p;
    assert ProcInv(s, p) && ScanInv(s, s.procs[p].gen);
    forall gen | 0 <= gen < |s'.coord.scans| ensures ScanInv(s', gen) {
      WaitersUpdate(s, s', p, gen);
      assert ScanInv(s, gen);
    }
    forall q | 0 <= q < |s'.procs| ensures ProcInv(s', q) {
      assert ProcInv(s, q);
    }
  }

  lemma FinishKeepsInv(s: State, step: Step)
    requires Inv(s) && Enabled(s, step) && step.FinishStep?
    ensures Inv(Apply(s, step))
  {
    var s', p := Apply(s, step), step.p;
    assert ProcInv(s, p) && ScanInv(s, s.procs[p].gen);
    forall gen | 0 <= gen < |s'.coord.scans| ensures ScanInv(s', gen) {
      WaitersUpdate(s, s', p, gen);
      assert ScanInv(s, gen);
    }
    forall q | 0 <= q < |s'.procs| ensures ProcInv(s', q) {
      assert ProcInv(s, q);
    }
  }

  lemma ReceiveKeepsInv(s: State, step: Step)
    requires Inv(s) && Enabled(s, step) && step.ReceiveStep?
    ensures Inv(Apply(s, step))
  {
    var s', p := Apply(s, step), step.p;
    assert ProcInv(s, p) && ScanInv(s, s.procs[p].gen);
    forall gen | 0 <= gen < |s'.coord.scans| ensures ScanInv(s', gen) {
      WaitersUpdate(s, s', p, gen);
      assert ScanInv(s, gen);
    }
    forall q | 0 <= q < |s'.procs| ensures ProcInv(s', q) {
      assert ProcInv(s, q);
    }
  }

  /** The closed channel is never found empty by a waiter: each waiter still has its value there. */
  lemma ClosedReadNeverHappens(s: State, step: Step)
    requires Inv(s) && step.ReceiveClosed?
    ensures !Enabled(s, step)
  {
    if Enabled(s, step) {
      var gen := s.procs[step.p].gen;
      assert ScanInv(s, gen);
      SumAtLeast(s.procs, step.p, WaitWeight(gen));
    }
  }

  lemma StepKeepsInv(s: State, step: Step)
    requires Inv(s) && Enabled(s, step)
    ensures Inv(Apply(s, step))
  {
    match step
    case EnterStep(_, _) => EnterKeepsInv(s, step);
    case ScanReturns(_, _) => ScanReturnsKeepsInv(s, step);
    case TakeLock(_) => TakeLockKeepsInv(s, step);
    case SendStep(_) => SendKeepsInv(s, step);
    case FinishStep(_) => FinishKeepsInv(s, step);
    case ReceiveStep(_) => ReceiveKeepsInv(s, step);
    case ReceiveClosed(_) => ClosedReadNeverHappens(s, step);
  }

  /** No channel ever holds more than its ten slots. */
  ghost predicate ChannelsFit(s: State) {
    forall gen :: 0 <= gen < |s.coord.scans| ==> |s.coord.scans[gen].waitChan| <= 10
  }

  lemma StepKeepsChannelsFit(s: State, step: Step)
    requires InRange(s) && Enabled(s, step) && ChannelsFit(s)
    ensures ChannelsFit(Apply(s, step))
  {
  }

  // ----- Safety over whole runs -----

  /** A run: each state follows from the one before by an enabled step. */
  ghost predicate Execution(states: seq<State>, steps: seq<Step>) {
    && |states| == |steps| + 1
    && forall i :: 0 <= i < |steps| ==>
         InRange(states[i]) && Enabled(states[i], steps[i]) && states[i + 1] == Apply(states[i], steps[i])
  }

  lemma {:induction false} ExecutionKeepsInv(states: seq<State>, steps: seq<Step>, i: nat)
    requires Execution(states, steps) && Inv(states[0]) && i < |states|
    ensures Inv(states[i])
  {
    if i > 0 {
      ExecutionKeepsInv(states, steps, i - 1);
      StepKeepsInv(states[i - 1], steps[i - 1]);
    }
  }

  /** At most one request is scanning or broadcasting for a key. */
  ghost predicate OneScanPerKey(s: State)
    requires InRange(s)
  {
    forall p, q | 0 <= p < |s.procs| && 0 <= q < |s.procs| && Leading(s.procs[p]) && Leading(s.procs[q]) ::
      s.coord.scans[s.procs[p].gen].key == s.coord.scans[s.procs[q].gen].key ==> p == q
  }

  /** The reply is what the scan function returned: its files and their time stamp without an
      error, or its error with nothing else. */
  predicate Carries(reply: Reply, outcome: ScanOutcome) {
    match outcome
    case Completed(files, timestamp) =>
      && reply.err.None? && reply.result.err.None?
      && reply.result.files == files && reply.result.timestamp == timestamp
    case Failed(message) =>
      reply.err == Some(message) && reply.result.err == Some(message) && reply.result.files == []
  }

  /** All requests that shared a scan return the same reply, with what its scan function returned. */
  ghost predicate RepliesShared(s: State)
    requires InRange(s)
  {
    && (forall p | 0 <= p < |s.procs| && s.procs[p].Returned? ::
          && s.runs[s.procs[p].gen].outcome.Some?
          && Carries(s.procs[p].reply, s.runs[s.procs[p].gen].outcome.value))
    && (forall p, q | 0 <= p < |s.procs| && 0 <= q < |s.procs| && s.procs[p].Returned? && s.procs[q].Returned? ::
          s.procs[p].gen == s.procs[q].gen ==> s.procs[p].reply == s.procs[q].reply)
  }

  /** No request has read a nil result from a closed channel. */
  ghost predicate NobodyCrashed(s: State) {
    forall p :: 0 <= p < |s.procs| ==> !s.procs[p].Crashed?
  }

  /** No leader can send on, or close, a channel that is already closed. */
  ghost predicate LeadersHoldOpenChannels(s: State)
    requires InRange(s)
  {
    forall p | 0 <= p < |s.procs| && Leading(s.procs[p]) :: !s.coord.scans[s.procs[p].gen].closed
  }

  lemma InvIsSafe(s: State)
    requires Inv(s)
    ensures OneScanPerKey(s) && RepliesShared(s) && NobodyCrashed(s) && LeadersHoldOpenChannels(s)
  {
    forall p, q | 0 <= p < |s.procs| && 0 <= q < |s.procs| && Leading(s.procs[p]) && Leading(s.procs[q]) &&
                  s.coord.scans[s.procs[p].gen].key == s.coord.scans[s.procs[q].gen].key
      ensures p == q
    {
      assert ProcInv(s, p) && ProcInv(s, q);
      assert ScanInv(s, s.procs[p].gen) && ScanInv(s, s.procs[q].gen);
    }
    forall p, q | 0 <= p < |s.procs| && 0 <= q < |s.procs| && s.procs[p].Returned? && s.procs[q].Returned? &&
                  s.procs[p].gen == s.procs[q].gen
      ensures s.procs[p].reply == s.procs[q].reply
    {
      assert ProcInv(s, p) && ProcInv(s, q);
    }
    forall p | 0 <= p < |s.procs| ensures !s.procs[p].Crashed? {
      assert ProcInv(s, p);
    }
    forall p | 0 <= p < |s.procs| && Leading(s.procs[p])
      ensures !s.coord.scans[s.procs[p].gen].closed
    {
      assert ProcInv(s, p);
    }
    forall p | 0 <= p < |s.procs| && s.procs[p].Returned?
      ensures s.runs[s.procs[p].gen].outcome.Some?
      ensures Carries(s.procs[p].reply, s.runs[s.procs[p].gen].outcome.value)
    {
      assert ProcInv(s, p);
    }
  }

  /** The whole safety claim, for every run of any number of requests. */
  lemma CoalescingIsSafe(states: seq<State>, steps: seq<Step>, requests: nat, i: nat)
    requires Execution(states, steps) && states[0] == Init(requests) && i < |states|
    ensures Inv(states[i])
    ensures OneScanPerKey(states[i]) && RepliesShared(states[i])
    ensures NobodyCrashed(states[i]) && LeadersHoldOpenChannels(states[i]) && ChannelsFit(states[i])
  {
    InitInv(requests);
    ExecutionKeepsInv(states, steps, i);
    ExecutionKeepsChannelsFit(states, steps, i);
    InvIsSafe(states[i]);
  }

  lemma {:induction false} ExecutionKeepsChannelsFit(states: seq<State>, steps: seq<Step>, i: nat)
    requires Execution(states, steps) && ChannelsFit(states[0]) && i < |states|
    ensures ChannelsFit(states[i])
  {
    if i > 0 {
      ExecutionKeepsChannelsFit(states, steps, i - 1);
      StepKeepsChannelsFit(states[i - 1], steps[i - 1]);
    }
  }

  /** What one step does to a request that is under way. */
  lemma StepKeepsRequest(s: State, step: Step, p: nat)
    requires Inv(s) && Enabled(s, step) && p < |s.procs| && !s.procs[p].Idle?
    ensures
      var after := Apply(s, step);
      && |after.procs| == |s.procs| && !s.procs[p].Crashed? && !after.procs[p].Crashed? && !after.procs[p].Idle?
      && after.procs[p].gen == s.procs[p].gen && (s.procs[p].Returned? ==> after.procs[p] == s.procs[p])
  {
    StepKeepsInv(s, step);
    assert ProcInv(s, p) && ProcInv(Apply(s, step), p);
  }

  /** A request stays with the scan it joined, and once it has its reply it never gets another. */
  lemma {:induction false} OneReplyPerRequest(states: seq<State>, steps: seq<Step>, i: nat, j: nat, p: nat)
    requires Execution(states, steps) && Inv(states[0]) && i <= j < |states| && p < |states[i].procs|
    requires !states[i].procs[p].Idle?
    ensures p < |states[j].procs| && !states[i].procs[p].Crashed? && !states[j].procs[p].Crashed?
    ensures !states[j].procs[p].Idle? && states[j].procs[p].gen == states[i].procs[p].gen
    ensures states[i].procs[p].Returned? ==> states[j].procs[p] == states[i].procs[p]
  {
    if i < j {
      OneReplyPerRequest(states, steps, i, j - 1, p);
      ExecutionKeepsInv(states, steps, j - 1);
      StepKeepsRequest(states[j - 1], steps[j - 1], p);
    } else {
      ExecutionKeepsInv(states, steps, j);
      assert ProcInv(states[j], p);
    }
  }

  // ----- Progress -----

  /** Some step other than a new arrival can be taken while a request is unanswered,
      however many subscribers there are for the channel's few slots. */
  lemma NoDeadlock(s: State, p: nat) returns (step: Step)
    requires Inv(s) && p < |s.procs| && !s.procs[p].Idle? && !s.procs[p].Returned?
    ensures Enabled(s, step) && !step.EnterStep?
  {
    assert ProcInv(s, p);
    if s.lock.Some? {
      step := LockHolderMoves(s);
    } else {
      var gen := s.procs[p].gen;
      var scan := s.coord.scans[gen];
      assert ScanInv(s, gen);
      if s.procs[p].Scanning? {
        step := ScanReturns(p, Failed(""));
      } else if s.procs[p].Scanned? {
        step := TakeLock(p);
      } else if scan.waitChan != [] {
        step := ReceiveStep(p);
      } else {
        SumAtLeast(s.procs, p, WaitWeight(gen));
        var leader := s.runs[gen].leader;
        assert ProcInv(s, leader);
        step := if s.procs[leader].Scanning? then ScanReturns(leader, Failed("")) else TakeLock(leader);
      }
    }
  }

  /** While the mutex is held, either the holder can go on or one of its waiters can receive. */
  lemma LockHolderMoves(s: State) returns (step: Step)
    requires Inv(s) && s.lock.Some?
    ensures Enabled(s, step) && !step.EnterStep?
  {
    var b := s.lock.value;
    assert ProcInv(s, b);
    var gen := s.procs[b].gen;
    assert ScanInv(s, gen);
    if s.procs[b].sent >= s.coord.scans[gen].subscribers {
      step := FinishStep(b);
    } else if |s.coord.scans[gen].waitChan| < CHANNEL_CAPACITY {
      step := SendStep(b);
    } else {
      var q := SumPositive(s.procs, WaitWeight(gen));
      step := ReceiveStep(q);
    }
  }

  function ProcWeight(): Proc -> nat {
    (proc: Proc) =>
      match proc
      case Scanning(_) => 3
      case Scanned(_) => 2
      case Broadcasting(_, _) => 1
      case Waiting(_) => 2
      case _ => 0
  }

  function ChannelWeight(): Scan -> nat {
    (scan: Scan) => |scan.waitChan|
  }

  /** How many steps, arrivals aside, remain until every request present has its answer. */
  function Remaining(s: State): int {
    Sum(s.procs, ProcWeight()) - Sum(s.coord.scans, ChannelWeight())
  }

  function WaitBelow(n: nat): Proc -> nat {
    (proc: Proc) => if proc.Waiting? && proc.gen < n then 1 else 0
  }

  /** There are never more values in channels than requests waiting for them. */
  lemma {:induction false} ChannelsBoundedByWaiters(s: State, n: nat)
    requires Inv(s) && n <= |s.coord.scans|
    ensures Sum(s.coord.scans[..n], ChannelWeight()) <= Sum(s.procs, WaitBelow(n))
  {
    if n > 0 {
      ChannelsBoundedByWaiters(s, n - 1);
      assert ScanInv(s, n - 1);
      assert s.coord.scans[..n][..n - 1] == s.coord.scans[..n - 1];
      SumOfWeights(s.procs, WaitBelow(n), WaitBelow(n - 1), WaitWeight(n - 1));
    }
  }

  lemma RemainingNonNegative(s: State)
    requires Inv(s)
    ensures Remaining(s) >= 0
  {
    var n := |s.coord.scans|;
    ChannelsBoundedByWaiters(s, n);
    assert s.coord.scans[..n] == s.coord.scans;
    SumOfWeights(s.procs, ProcWeight(), WaitBelow(n), WaitBelow(n));
  }

  /** Every step but an arrival brings the end exactly one step closer. */
  lemma StepDecreasesRemaining(s: State, step: Step)
    requires Inv(s) && Enabled(s, step) && !step.EnterStep?
    ensures Remaining(Apply(s, step)) == Remaining(s) - 1
  {
    if step.ReceiveClosed? {
      ClosedReadNeverHappens(s, step);
    } else {
      var s', p := Apply(s, step), step.p;
      var gen := s.procs[p].gen;
      SumUpdate(s.procs, p, s'.procs[p], ProcWeight());
      SumUpdate(s.coord.scans, gen, s'.coord.scans[gen], ChannelWeight());
      assert s'.coord.scans == s.coord.scans[gen := s'.coord.scans[gen]];
    }
  }

  /** Without further arrivals, a run is at most Remaining steps long, and a run that can go
      no further has answered every request. */
  lemma {:induction false} EveryRequestIsAnswered(states: seq<State>, steps: seq<Step>)
    requires Execution(states, steps) && Inv(states[0])
    requires forall i :: 0 <= i < |steps| ==> !steps[i].EnterStep?
    ensures Inv(states[|steps|])
    ensures Remaining(states[|steps|]) == Remaining(states[0]) - |steps|
    ensures |steps| <= Remaining(states[0])
    ensures (forall step: Step :: !step.EnterStep? ==> !Enabled(states[|steps|], step)) ==>
              forall p :: 0 <= p < |states[|steps|].procs| ==>
                states[|steps|].procs[p].Idle? || states[|steps|].procs[p].Returned?
  {
    var n := |steps|;
    ExecutionKeepsInv(states, steps, n);
    RemainingNonNegative(states[n]);
    RemainingAfter(states, steps, n);
    if forall step: Step :: !step.EnterStep? ==> !Enabled(states[n], step) {
      forall p | 0 <= p < |states[n].procs|
        ensures states[n].procs[p].Idle? || states[n].procs[p].Returned?
      {
        if !states[n].procs[p].Idle? && !states[n].procs[p].Returned? {
          var step := NoDeadlock(states[n], p);
        }
      }
    }
  }

  lemma {:induction false} RemainingAfter(states: seq<State>, steps: seq<Step>, i: nat)
    requires Execution(states, steps) && Inv(states[0]) && i <= |steps|
    requires forall i :: 0 <= i < |steps| ==> !steps[i].EnterStep?
    ensures Remaining(states[i]) == Remaining(states[0]) - i
  {
    if i > 0 {
      RemainingAfter(states, steps, i - 1);
      ExecutionKeepsInv(states, steps, i - 1);
      StepDecreasesRemaining(states[i - 1], steps[i - 1]);
    }
  }

  function IdleWeight(): Proc -> nat {
    (proc: Proc) => if proc.Idle? then 4 else 0
  }

  /** An arrival counts for the steps that it brings. */
  function Budget(s: State): int {
    Sum(s.procs, IdleWeight()) + Remaining(s)
  }

  lemma StepDecreasesBudget(s: State, step: Step)
    requires Inv(s) && Enabled(s, step)
    ensures Budget(Apply(s, step)) < Budget(s)
  {
    var s', p := Apply(s, step), step.p;
    SumUpdate(s.procs, p, s'.procs[p], IdleWeight());
    if step.EnterStep? {
      SumUpdate(s.procs, p, s'.procs[p], ProcWeight());
      var gen := s.coord.Target(step.key);
      if s.coord.Joins(step.key) {
        SumUpdate(s.coord.scans, gen, s'.coord.scans[gen], ChannelWeight());
      } else {
        assert s'.coord.scans[..gen] == s.coord.scans;
      }
    } else {
      StepDecreasesRemaining(s, step);
    }
  }

  lemma {:induction false} BudgetOfInit(requests: nat)
    ensures Budget(Init(requests)) == 4 * requests
  {
    if requests > 0 {
      BudgetOfInit(requests - 1);
      assert Init(requests).procs[..requests - 1] == Init(requests - 1).procs;
    }
  }

  lemma {:induction false} BudgetAfter(states: seq<State>, steps: seq<Step>, i: nat)
    requires Execution(states, steps) && Inv(states[0]) && i <= |steps|
    ensures Budget(states[i]) <= Budget(states[0]) - i
    ensures |states[i].procs| == |states[0].procs|
  {
    if i > 0 {
      BudgetAfter(states, steps, i - 1);
      ExecutionKeepsInv(states, steps, i - 1);
      StepDecreasesBudget(states[i - 1], steps[i - 1]);
    }
  }

  /** Every run of n requests, arrivals included, ends after at most 4 * n steps, and where no
      step at all is left, every request has arrived and has its answer. */
  lemma RunsAreShort(states: seq<State>, steps: seq<Step>, requests: nat)
    requires Execution(states, steps) && states[0] == Init(requests)
    ensures |steps| <= 4 * requests
    ensures Inv(states[|steps|]) && |states[|steps|].procs| == requests
    ensures (forall step: Step :: !Enabled(states[|steps|], step)) ==>
              forall p :: 0 <= p < requests ==> states[|steps|].procs[p].Returned?
  {
    var last := states[|steps|];
    InitInv(requests);
    ExecutionKeepsInv(states, steps, |steps|);
    BudgetOfInit(requests);
    BudgetAfter(states, steps, |steps|);
    RemainingNonNegative(last);
    if forall step: Step :: !Enabled(last, step) {
      forall p | 0 <= p < requests ensures last.procs[p].Returned? {
        if last.procs[p].Idle? {
          if last.lock.Some? {
            var step := LockHolderMoves(last);
          } else {
            assert Enabled(last, EnterStep(p, ""));
          }
        } else if !last.procs[p].Returned? {
          var step := NoDeadlock(last, p);
        }
      }
    }
  }
}
