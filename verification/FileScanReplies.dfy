/**
 * What requests and workers get from the file scans of FileScanWorld, in every run.
 */
module FileScanReplies {
  import opened Prelude
  import opened ScanCoalescing
  import opened ScanCache
  import opened ScanStreaming
  import opened FileScan
  import opened FileScanWorld

  ghost predicate WorldRun(directory: Directory, worlds: seq<World>, events: seq<Event>) {
    && |worlds| == |events| + 1
    && forall i :: 0 <= i < |events| ==>
         && Shaped(worlds[i]) && Possible(directory, worlds[i], events[i])
         && worlds[i + 1] == Advance(directory, worlds[i], events[i])
  }

  lemma StartInv(directory: Directory, requests: nat, now: Time)
    ensures WorldInv(directory, Start(requests, now))
  {
    InitInv(requests);
  }

  lemma {:induction false} RunKeepsInv(directory: Directory, worlds: seq<World>, events: seq<Event>, i: nat)
    requires WorldRun(directory, worlds, events) && WorldInv(directory, worlds[0]) && i < |worlds|
    ensures WorldInv(directory, worlds[i])
  {
    if i > 0 {
      RunKeepsInv(directory, worlds, events, i - 1);
      EventKeepsInv(directory, worlds[i - 1], events[i - 1]);
    }
  }

  /** The list has all the files of a walk of the key's own directory, which was put into the cache
      no earlier than this. */
  ghost predicate ListsWalkSince(directory: Directory, w: World, key: string, l: Listed, earliest: Time) {
    && l.reading.walk in w.installs && directory(key) == Some(l.reading.walk.dir)
    && WellKeyed(l.reading.walk.files) && Lists(l.files, l.reading.walk.files)
    && earliest <= l.reading.walk.at <= w.clock
  }

  /** The time from which on a leader's walk was read: that of its request, unless it joined a
      flight that had started before and was still under way. */
  function ReadFrom(w: World, since: Time, flight: Option<nat>): Time {
    if flight.Some? && flight.value < |w.flights| then
      var Flight(_, startedAt, _, endedAt) := w.flights[flight.value];
      if startedAt < since && endedAt.Some? && since <= endedAt.value then startedAt else since
    else since
  }

  /** A request served from the cache gets a walk at most 63 seconds old, plus the time that
      passed between reading the walk and stamping the list. */
  lemma HitsAreRecent(directory: Directory, worlds: seq<World>, events: seq<Event>, requests: nat, now: Time,
                      j: nat, p: nat)
    requires WorldRun(directory, worlds, events) && worlds[0] == Start(requests, now)
    requires j < |worlds| && p < |worlds[j].requests| && worlds[j].requests[p].Hit?
    ensures
      var Hit(key, servedAt, l) := worlds[j].requests[p];
      ListsWalkSince(directory, worlds[j], key, l,
                     servedAt - 63 * SECOND - (l.timestamp - l.reading.readAt))
  {
    StartInv(directory, requests, now);
    RunKeepsInv(directory, worlds, events, j);
    assert RequestInv(directory, worlds[j], p);
  }

  /** A request that shares a scan and returns without an error, as leader or as waiter, returns a
      list of a walk put into the cache at most three seconds before the leader's request, or
      before the start of the flight that the leader joined; and the leader's request came to the
      coalescing no later than its own. */
  lemma RepliesAreRecent(directory: Directory, worlds: seq<World>, events: seq<Event>, requests: nat, now: Time,
                         j: nat, p: nat)
    returns (leader: nat, e: Evidence)
    requires WorldRun(directory, worlds, events) && worlds[0] == Start(requests, now)
    requires j < |worlds| && Shaped(worlds[j]) && p < |worlds[j].requests|
    requires worlds[j].scan.procs[p].Returned? && worlds[j].scan.procs[p].reply.err == None
    ensures
      var w := worlds[j];
      && w.requests[p].Asking? && leader == w.scan.runs[w.scan.procs[p].gen].leader < |w.requests|
      && w.requests[leader].Asking? && w.requests[leader].key == w.requests[p].key
      && w.requests[leader].since == e.since <= w.requests[leader].entered <= w.requests[p].entered
      && w.scan.procs[p].reply.result == ScanResult(e.listed.files, e.listed.timestamp, None)
      && ListsWalkSince(directory, w, w.requests[p].key, e.listed,
                        ReadFrom(w, e.since, e.flight) - 3 * SECOND)
  {
    var w := worlds[j];
    StartInv(directory, requests, now);
    RunKeepsInv(directory, worlds, events, j);
    var gen := w.scan.procs[p].gen;
    assert RequestInv(directory, w, p) && ProcInv(w.scan, p) && ScanExplained(directory, w, gen);
    leader, e := w.scan.runs[gen].leader, w.evidence[gen].value;
  }

  /** The list that a request has for its worker, if it has one, with what it was made from. */
  ghost predicate Answers(w: World, p: nat, l: Listed)
    requires Shaped(w) && p < |w.requests|
  {
    var proc := w.scan.procs[p];
    if w.requests[p].Hit? then l == w.requests[p].listed
    else proc.Returned? && proc.reply.err == None && proc.gen < |w.evidence| && w.evidence[proc.gen].Some? &&
         l == w.evidence[proc.gen].value.listed && l.files == proc.reply.result.files
  }

  /** So in every interleaving, and whatever part of the stream arrives, a worker that accepts a
      list has the whole of one walk of the directory it asked for, read before the list was
      stamped and put into the cache at most three seconds before it was read. */
  lemma WorkersGetWholeWalks(directory: Directory, worlds: seq<World>, events: seq<Event>, requests: nat, now: Time,
                             j: nat, p: nat, l: Listed, sent: seq<Chunk>, ok: bool)
    requires WorldRun(directory, worlds, events) && worlds[0] == Start(requests, now)
    requires j < |worlds| && Shaped(worlds[j]) && p < |worlds[j].requests| && Answers(worlds[j], p, l)
    requires sent <= Chunks(l.files, CHUNK_SIZE, Int32(|l.files|))
    requires ok <==> sent == Chunks(l.files, CHUNK_SIZE, Int32(|l.files|))
    ensures worlds[j].requests[p].Hit? || worlds[j].requests[p].Asking?
    ensures ListsWalkSince(directory, worlds[j], worlds[j].requests[p].key, l,
                           l.reading.readAt - 3 * SECOND)
    ensures forall accepted :: WorkerAccepts(sent, ok, accepted) ==>
              Collect(accepted) == WholeSeconds(l.reading.walk.files)
  {
    var w := worlds[j];
    StartInv(directory, requests, now);
    RunKeepsInv(directory, worlds, events, j);
    assert RequestInv(directory, w, p);
    if !w.requests[p].Hit? {
      assert ProcInv(w.scan, p) && ScanExplained(directory, w, w.scan.procs[p].gen);
    }
    WorkerGetsTheWalk(sent, ok, l.files, l.reading.walk.files);
  }

  // ----- A walk from before the request -----

  /** A world in which a flight has read a walk at time zero and is not over yet. */
  function LateFlight(dir: string): World {
    var walk := Install(dir, map[], 0);
    World(Init(1), [Away], [], [], map[], map[dir := walk],
          [Flight(dir, 0, Reads(Reading(walk, 0)), None)], map[dir := 0], {walk}, 0)
  }

  lemma LateFlightHappens(directory: Directory, dir: string) returns (worlds: seq<World>, events: seq<Event>)
    ensures WorldRun(directory, worlds, events) && worlds[0] == Start(1, 0) && worlds[|events|] == LateFlight(dir)
  {
    events := [OtherFlight(0, dir), FlightLooks(0, 0), FlightWalks(0, 0, map[])];
    var w0 := Start(1, 0);
    var w1 := Advance(directory, w0, events[0]);
    var w2 := Advance(directory, w1, events[1]);
    worlds := [w0, w1, w2, LateFlight(dir)];
    assert Advance(directory, w2, events[2]) == LateFlight(dir);
  }

  /** A request comes later, leads the scan of its key and finds the walk expired. */
  function LateLeader(dir: string, key: string, since: Time): World
    requires Enabled(Init(1), EnterStep(0, key))
  {
    LateFlight(dir).(scan := Apply(Init(1), EnterStep(0, key)), starts := [since], evidence := [None],
                     requests := [Asking(key, since, since, AtFlight, None)], clock := since)
  }

  lemma LateLeaderHappens(directory: Directory, key: string, since: Time)
    returns (worlds: seq<World>, events: seq<Event>)
    requires directory(key).Some? && since > SCAN_DIRECTORY_CACHE_TTL
    ensures WorldRun(directory, worlds, events) && worlds[0] == LateFlight(directory(key).value)
    ensures worlds[|events|] == LateLeader(directory(key).value, key, since)
  {
    events := [Arrive(since, 0, key), Coordinate(since, EnterStep(0, key)), LookUp(since, 0)];
    var w0 := LateFlight(directory(key).value);
    var w1 := Advance(directory, w0, events[0]);
    var w2 := Advance(directory, w1, events[1]);
    worlds := [w0, w1, w2, LateLeader(directory(key).value, key, since)];
    assert Advance(directory, w2, events[2]) == LateLeader(directory(key).value, key, since);
  }

  /** It joins the flight, which then ends. */
  function LateLanding(dir: string, key: string, since: Time): World
    requires Enabled(Init(1), EnterStep(0, key))
  {
    LateLeader(dir, key, since).(
      requests := [Asking(key, since, since, InFlight, Some(0))], current := map[],
      flights := [Flight(dir, 0, Reads(Reading(Install(dir, map[], 0), 0)), Some(since))])
  }

  lemma LateLandingHappens(directory: Directory, key: string, since: Time)
    returns (worlds: seq<World>, events: seq<Event>)
    requires directory(key).Some?
    ensures WorldRun(directory, worlds, events) && worlds[0] == LateLeader(directory(key).value, key, since)
    ensures worlds[|events|] == LateLanding(directory(key).value, key, since)
  {
    var w0 := LateLeader(directory(key).value, key, since);
    var w1 := Advance(directory, w0, TakeOff(since, 0));
    events := [TakeOff(since, 0), FlightEnds(since, 0)];
    worlds := [w0, w1, LateLanding(directory(key).value, key, since)];
    assert Advance(directory, w1, events[1]) == LateLanding(directory(key).value, key, since);
  }

  /** And it is given that walk all the same. */
  predicate ReadOldWalk(w: World, since: Time) {
    && |w.requests| == 1 && w.requests[0].Asking? && w.requests[0].since == since
    && w.requests[0].stage.HasRead? && w.requests[0].stage.reading.walk.at == 0
  }

  lemma LateReading(directory: Directory, key: string, since: Time) returns (worlds: seq<World>, events: seq<Event>)
    requires directory(key).Some?
    ensures WorldRun(directory, worlds, events) && worlds[0] == LateLanding(directory(key).value, key, since)
    ensures ReadOldWalk(worlds[|events|], since)
  {
    var w := LateLanding(directory(key).value, key, since);
    worlds, events := [w, Advance(directory, w, Land(since, 0))], [Land(since, 0)];
  }

  lemma RunsJoin(directory: Directory, worlds: seq<World>, events: seq<Event>, worlds': seq<World>, events': seq<Event>)
    requires WorldRun(directory, worlds, events) && WorldRun(directory, worlds', events')
    requires worlds[|events|] == worlds'[0]
    ensures WorldRun(directory, worlds + worlds'[1..], events + events')
    ensures (worlds + worlds'[1..])[0] == worlds[0]
    ensures (worlds + worlds'[1..])[|events + events'|] == worlds'[|events'|]
  {
    var all, steps := worlds + worlds'[1..], events + events';
    forall i | 0 <= i < |steps|
      ensures Shaped(all[i]) && Possible(directory, all[i], steps[i])
      ensures all[i + 1] == Advance(directory, all[i], steps[i])
    {
      if i >= |events| {
        assert steps[i] == events'[i - |events|];
        assert all[i] == worlds'[i - |events|] && all[i + 1] == worlds'[i - |events| + 1];
      }
    }
  }

  /** Nothing better can be said of a leader that joins a flight: however long the flight's caller
      is held up before it ends it, the leader may be given a walk from before its own request. */
  lemma JoinedWalkMayBeOld(directory: Directory, key: string, since: Time)
    returns (worlds: seq<World>, events: seq<Event>)
    requires directory(key).Some? && since > SCAN_DIRECTORY_CACHE_TTL
    ensures WorldRun(directory, worlds, events) && worlds[0] == Start(1, 0) && ReadOldWalk(worlds[|events|], since)
  {
    worlds, events := LateFlightHappens(directory, directory(key).value);
    var next, nextEvents := LateLeaderHappens(directory, key, since);
    RunsJoin(directory, worlds, events, next, nextEvents);
    worlds, events := worlds + next[1..], events + nextEvents;
    next, nextEvents := LateLandingHappens(directory, key, since);
    RunsJoin(directory, worlds, events, next, nextEvents);
    worlds, events := worlds + next[1..], events + nextEvents;
    next, nextEvents := LateReading(directory, key, since);
    RunsJoin(directory, worlds, events, next, nextEvents);
    worlds, events := worlds + next[1..], events + nextEvents;
  }
}
