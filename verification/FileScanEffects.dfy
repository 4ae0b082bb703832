/**
 * What the file scans of FileScanWorld are good for: the caches serve what was put into them, for
 * as long as they are meant to, a leader that has its list returns it, and no request fails
 * without a cause.
 */
module FileScanEffects {
  import opened Prelude
  import opened ScanCoalescing
  import opened ScanCache
  import opened ScanStreaming
  import opened FileScan
  import opened FileScanWorld
  import opened FileScanReplies

  // ----- The cache of lists -----

  /** The list that was stored last for this key. */
  function LastStored(worlds: seq<World>, events: seq<Event>, i: nat, key: string): Option<Listed>
    requires |worlds| == |events| + 1 && i <= |events|
  {
    if i == 0 then None
    else
      var w, e := worlds[i - 1], events[i - 1];
      if e.Store? && e.p < |w.requests| && w.requests[e.p].Asking? && w.requests[e.p].stage.HasList?
         && w.requests[e.p].key == key
      then Some(w.requests[e.p].stage.listed)
      else LastStored(worlds, events, i - 1, key)
  }

  lemma OnlyStoreLists(directory: Directory, w: World, e: Event)
    requires Shaped(w) && Possible(directory, w, e)
    ensures Advance(directory, w, e).listed ==
      if e.Store? then w.listed[w.requests[e.p].key := w.requests[e.p].stage.listed] else w.listed
  {
  }

  lemma {:induction false} ListedIsLastStored(
      directory: Directory, worlds: seq<World>, events: seq<Event>, i: nat, key: string)
    requires WorldRun(directory, worlds, events) && worlds[0].listed == map[] && i <= |events|
    ensures LastStored(worlds, events, i, key) ==
      if key in worlds[i].listed then Some(worlds[i].listed[key]) else None
  {
    if i > 0 {
      ListedIsLastStored(directory, worlds, events, i - 1, key);
      OnlyStoreLists(directory, worlds[i - 1], events[i - 1]);
    }
  }

  /** A request is served the list that was stored last for its key if and only if that list was
      stamped at most a minute ago; otherwise it goes on to the coalescing. */
  lemma ServedIffStored(directory: Directory, worlds: seq<World>, events: seq<Event>, i: nat)
    requires WorldRun(directory, worlds, events) && worlds[0].listed == map[] && i < |events| && events[i].Arrive?
    ensures
      var Arrive(now, p, key) := events[i];
      var stored := LastStored(worlds, events, i, key);
      && p < |worlds[i + 1].requests|
      && worlds[i + 1].requests[p] ==
           if stored.Some? && now - stored.value.timestamp <= 60 * SECOND then Hit(key, now, stored.value)
           else Missed(key, now)
  {
    ListedIsLastStored(directory, worlds, events, i, events[i].key);
  }

  // ----- The cache of walks -----

  /** The walk that a flight found last in this directory. */
  function LastWalk(worlds: seq<World>, events: seq<Event>, i: nat, dir: string): Option<Install>
    requires |worlds| == |events| + 1 && i <= |events|
  {
    if i == 0 then None
    else
      var w, e := worlds[i - 1], events[i - 1];
      if e.FlightWalks? && e.id < |w.flights| && w.flights[e.id].dir == dir
      then Some(Install(dir, e.found, e.now))
      else LastWalk(worlds, events, i - 1, dir)
  }

  lemma OnlyFlightsWalk(directory: Directory, w: World, e: Event)
    requires Shaped(w) && Possible(directory, w, e)
    ensures Advance(directory, w, e).walks ==
      if e.FlightWalks? then w.walks[w.flights[e.id].dir := Install(w.flights[e.id].dir, e.found, e.now)] else w.walks
  {
  }

  lemma {:induction false} WalksAreLast(
      directory: Directory, worlds: seq<World>, events: seq<Event>, i: nat, dir: string)
    requires WorldRun(directory, worlds, events) && worlds[0].walks == map[] && i <= |events|
    ensures LastWalk(worlds, events, i, dir) ==
      if dir in worlds[i].walks then Some(worlds[i].walks[dir]) else None
  {
    if i > 0 {
      WalksAreLast(directory, worlds, events, i - 1, dir);
      OnlyFlightsWalk(directory, worlds[i - 1], events[i - 1]);
    }
  }

  /** Nobody walks a directory again within three seconds: whoever looks, a leader or a flight, then
      reads the walk that was found last, and goes on without one if and only if it is older. */
  lemma ReadIffWalked(directory: Directory, worlds: seq<World>, events: seq<Event>, i: nat)
    requires WorldRun(directory, worlds, events) && worlds[0].walks == map[] && i < |events|
    ensures events[i].LookUp? ==>
      var LookUp(now, p) := events[i];
      && p < |worlds[i].requests| && worlds[i].requests[p].Asking? && directory(worlds[i].requests[p].key).Some?
      && p < |worlds[i + 1].requests| && worlds[i + 1].requests[p].Asking?
      && var walk := LastWalk(worlds, events, i, directory(worlds[i].requests[p].key).value);
         worlds[i + 1].requests[p].stage ==
           if walk.Some? && now - walk.value.at <= 3 * SECOND then HasRead(Reading(walk.value, now)) else AtFlight
    ensures events[i].FlightLooks? ==>
      var FlightLooks(now, id) := events[i];
      && id < |worlds[i].flights| && id < |worlds[i + 1].flights|
      && var walk := LastWalk(worlds, events, i, worlds[i].flights[id].dir);
         worlds[i + 1].flights[id].progress ==
           if walk.Some? && now - walk.value.at <= 3 * SECOND then Reads(Reading(walk.value, now)) else Walks
  {
    var w := worlds[i];
    match events[i]
    case LookUp(now, p) => WalksAreLast(directory, worlds, events, i, directory(w.requests[p].key).value);
    case FlightLooks(now, id) => WalksAreLast(directory, worlds, events, i, w.flights[id].dir);
    case _ =>
  }

  // ----- Flights -----

  /** A flight that is not over can be joined. */
  ghost predicate CanBeJoined(w: World, id: nat) {
    id < |w.flights| && w.flights[id].endedAt.None? ==>
      w.flights[id].dir in w.current && w.current[w.flights[id].dir] == id
  }

  lemma EventKeepsJoinable(directory: Directory, w: World, e: Event, id: nat)
    requires Shaped(w) && Possible(directory, w, e)
    requires CanBeJoined(w, id) && (e.FlightEnds? ==> CanBeJoined(w, e.id))
    ensures CanBeJoined(Advance(directory, w, e), id)
  {
  }

  lemma {:induction false} FlightsCanBeJoined(
      directory: Directory, worlds: seq<World>, events: seq<Event>, j: nat, id: nat)
    requires WorldRun(directory, worlds, events) && worlds[0].flights == [] && j < |worlds|
    ensures CanBeJoined(worlds[j], id)
  {
    if j > 0 {
      var e := events[j - 1];
      FlightsCanBeJoined(directory, worlds, events, j - 1, id);
      if e.FlightEnds? {
        FlightsCanBeJoined(directory, worlds, events, j - 1, e.id);
      }
      EventKeepsJoinable(directory, worlds[j - 1], e, id);
    }
  }

  /** In every run, no two flights over one directory are under way at the same time, so it is never
      walked twice at once. */
  lemma OneFlightPerDirectory(directory: Directory, worlds: seq<World>, events: seq<Event>, j: nat, a: nat, b: nat)
    requires WorldRun(directory, worlds, events) && worlds[0].flights == [] && j < |worlds|
    requires a < |worlds[j].flights| && b < |worlds[j].flights|
    requires worlds[j].flights[a].dir == worlds[j].flights[b].dir
    requires worlds[j].flights[a].endedAt.None? && worlds[j].flights[b].endedAt.None?
    ensures a == b
  {
    FlightsCanBeJoined(directory, worlds, events, j, a);
    FlightsCanBeJoined(directory, worlds, events, j, b);
  }

  // ----- From the walk to the reply -----

  /** A leader goes on with the walk that its flight has read, makes a list of it and stamps it with
      the time, stores that list, and returns it without an error. */
  lemma LeaderGoesOn(directory: Directory, w: World, e: Event)
    requires Shaped(w) && Possible(directory, w, e) && (e.Land? || e.Convert? || e.Store? || e.Return?)
    ensures
      var after, p := Advance(directory, w, e), e.p;
      && p < |w.requests| == |after.requests| && w.requests[p].Asking? && after.requests[p].Asking?
      && match e
         case Land(_, _) =>
           && w.requests[p].flight.Some? && w.requests[p].flight.value < |w.flights|
           && w.flights[w.requests[p].flight.value].progress.Reads?
           && after.requests[p].stage == HasRead(w.flights[w.requests[p].flight.value].progress.reading)
         case Convert(now, _, files) =>
           && w.requests[p].stage.HasRead? && Lists(files, w.requests[p].stage.reading.walk.files)
           && after.requests[p].stage == HasList(Listed(files, now, w.requests[p].stage.reading))
         case Store(_, _) =>
           && w.requests[p].stage.HasList? && after.requests[p].stage == HasStored(w.requests[p].stage.listed)
         case Return(_, _) =>
           && w.requests[p].stage.HasStored? && Scans(w, p) && w.scan.procs[p].gen < |after.scan.runs|
           && after.scan.runs[w.scan.procs[p].gen].outcome ==
                Some(Completed(w.requests[p].stage.stored.files, w.requests[p].stage.stored.timestamp))
         case _ => true
  {
  }

  // ----- Errors -----

  /** The path does not resolve, or a flight over its directory broke. */
  ghost predicate Cause(directory: Directory, w: World, key: string) {
    directory(key).None? ||
    exists id :: 0 <= id < |w.flights| && w.flights[id].progress.Breaks? && w.flights[id].dir == directory(key).value
  }

  lemma BrokenStays(directory: Directory, w: World, e: Event, id: nat)
    requires Shaped(w) && Possible(directory, w, e) && id < |w.flights| && w.flights[id].progress.Breaks?
    ensures
      var after := Advance(directory, w, e);
      id < |after.flights| && after.flights[id].progress.Breaks? && after.flights[id].dir == w.flights[id].dir
  {
  }

  lemma CauseStays(directory: Directory, w: World, e: Event, key: string)
    requires Shaped(w) && Possible(directory, w, e) && Cause(directory, w, key)
    ensures Cause(directory, Advance(directory, w, e), key)
  {
    if directory(key).Some? {
      var id :| 0 <= id < |w.flights| && w.flights[id].progress.Breaks? && w.flights[id].dir == directory(key).value;
      BrokenStays(directory, w, e, id);
    }
  }

  /** Only a result or a refusal gives a scan its outcome, and a scan keeps its key. */
  lemma OutcomeStays(directory: Directory, w: World, e: Event, gen: nat)
    requires WorldInv(directory, w) && Possible(directory, w, e) && gen < |w.scan.runs|
    ensures
      var after := Advance(directory, w, e);
      && gen < |after.scan.runs| == |after.scan.coord.scans|
      && after.scan.coord.scans[gen].key == w.scan.coord.scans[gen].key
      && (((e.Return? || e.Refuse?) && w.scan.procs[e.p].gen == gen)
          || after.scan.runs[gen].outcome == w.scan.runs[gen].outcome)
  {
    match e
    case Coordinate(_, step) =>
      KeysStay(w.scan, step, gen);
      if step.EnterStep? {
        EnterPlaces(w.scan, step.p, step.key);
      } else {
        PlaceStays(w.scan, step, step.p);
      }
    case Return(_, p) =>
      ResultPlaces(w.scan, p, Completed(w.requests[p].stage.stored.files, w.requests[p].stage.stored.timestamp));
    case Refuse(_, p, message) => ResultPlaces(w.scan, p, Failed(message));
    case _ =>
  }

  /** A refusal has its cause, and a return gives no error. */
  lemma OutcomeHasCause(directory: Directory, w: World, e: Event)
    requires WorldInv(directory, w) && Possible(directory, w, e) && (e.Return? || e.Refuse?)
    ensures
      var after, gen := Advance(directory, w, e), w.scan.procs[e.p].gen;
      && gen < |w.scan.runs| && gen < |after.scan.runs| && after.scan.runs[gen].outcome.Some?
      && (after.scan.runs[gen].outcome.value.Failed? ==> Cause(directory, w, w.scan.coord.scans[gen].key))
  {
    AskingHolds(directory, w, e.p);
    match e
    case Return(_, p) =>
      ResultPlaces(w.scan, p, Completed(w.requests[p].stage.stored.files, w.requests[p].stage.stored.timestamp));
    case Refuse(_, p, message) =>
      ResultPlaces(w.scan, p, Failed(message));
  }

  /** A scan that was not there before has no outcome yet. */
  lemma NewScanIsOpen(directory: Directory, w: World, e: Event, gen: nat)
    requires WorldInv(directory, w) && Possible(directory, w, e)
    requires |w.scan.runs| <= gen < |Advance(directory, w, e).scan.runs|
    ensures Advance(directory, w, e).scan.runs[gen].outcome.None?
  {
    match e
    case Coordinate(_, step) =>
      if step.EnterStep? {
        EnterPlaces(w.scan, step.p, step.key);
      } else {
        PlaceStays(w.scan, step, step.p);
      }
    case _ =>
  }

  ghost predicate HasFailed(w: World, gen: nat) {
    gen < |w.scan.runs| && w.scan.runs[gen].outcome.Some? && w.scan.runs[gen].outcome.value.Failed?
  }

  /** If this scan has failed, there is a cause. */
  ghost predicate Caused(directory: Directory, w: World, gen: nat) {
    HasFailed(w, gen) ==> gen < |w.scan.coord.scans| && Cause(directory, w, w.scan.coord.scans[gen].key)
  }

  lemma EventKeepsCaused(directory: Directory, w: World, e: Event, gen: nat)
    requires WorldInv(directory, w) && Possible(directory, w, e) && Caused(directory, w, gen)
    ensures Caused(directory, Advance(directory, w, e), gen)
  {
    if HasFailed(Advance(directory, w, e), gen) {
      if gen >= |w.scan.runs| {
        NewScanIsOpen(directory, w, e, gen);
      } else {
        OutcomeStays(directory, w, e, gen);
        if (e.Return? || e.Refuse?) && w.scan.procs[e.p].gen == gen {
          OutcomeHasCause(directory, w, e);
        }
        CauseStays(directory, w, e, w.scan.coord.scans[gen].key);
      }
    }
  }

  lemma NextCaused(directory: Directory, worlds: seq<World>, events: seq<Event>, i: nat, gen: nat)
    requires WorldRun(directory, worlds, events) && WorldInv(directory, worlds[0]) && i < |events|
    requires Caused(directory, worlds[i], gen)
    ensures Caused(directory, worlds[i + 1], gen)
  {
    RunKeepsInv(directory, worlds, events, i);
    EventKeepsCaused(directory, worlds[i], events[i], gen);
  }

  lemma {:induction false} FailedHasCause(
      directory: Directory, worlds: seq<World>, events: seq<Event>, j: nat, gen: nat)
    requires WorldRun(directory, worlds, events) && WorldInv(directory, worlds[0]) && Caused(directory, worlds[0], gen)
    requires j < |worlds|
    ensures Caused(directory, worlds[j], gen)
  {
    if j > 0 {
      FailedHasCause(directory, worlds, events, j - 1, gen);
      NextCaused(directory, worlds, events, j - 1, gen);
    }
  }

  /** In every run, a request that returns with an error, leader or waiter, asked for a path that
      does not resolve, or a flight over its directory broke. */
  lemma ErrorsHaveCauses(directory: Directory, worlds: seq<World>, events: seq<Event>, requests: nat, now: Time,
                         j: nat, p: nat)
    requires WorldRun(directory, worlds, events) && worlds[0] == Start(requests, now)
    requires j < |worlds| && Shaped(worlds[j]) && p < |worlds[j].requests|
    requires worlds[j].scan.procs[p].Returned? && worlds[j].scan.procs[p].reply.err.Some?
    ensures worlds[j].requests[p].Asking? && Cause(directory, worlds[j], worlds[j].requests[p].key)
  {
    var w := worlds[j];
    StartInv(directory, requests, now);
    RunKeepsInv(directory, worlds, events, j);
    assert RequestInv(directory, w, p) && ProcInv(w.scan, p);
    FailedHasCause(directory, worlds, events, j, w.scan.procs[p].gen);
  }
}
