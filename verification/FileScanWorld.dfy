/**
 * File scans as a whole: any number of requests, the cache of file lists in front of the
 * coalescing, and under it ScanDirectory with its cache of walks and the flights that its callers
 * share.  Each section that runs on its own is one event, with the time it happens, so every
 * interleaving of requests, flights and other callers of ScanDirectory is a run.
 */
module FileScanWorld {
  import opened Prelude
  import opened ScanCoalescing
  import opened ScanCache
  import opened ScanStreaming
  import opened FileScan

  /** A walk as it was read from the cache of walks, or from the disk, at some moment. */
  datatype Reading = Reading(walk: Install, readAt: Time)

  /** A file list with the time stamp it carries, and what it was made from. */
  datatype Listed = Listed(files: seq<FileInfo>, timestamp: Time, reading: Reading)

  datatype FlightProgress = Looks | Walks | Breaks | Reads(reading: Reading)

  datatype Flight = Flight(dir: string, startedAt: Time, progress: FlightProgress, endedAt: Option<Time>)

  /** How far a leader is with its scan; `Over` for everybody else. */
  datatype Stage =
    | AtLookUp | AtFlight | InFlight
    | HasRead(reading: Reading) | HasList(listed: Listed) | HasStored(stored: Listed) | Over

  /** `since` is when the request looked into the cache of lists, `entered` when it came to the
      coalescing, and `flight` the flight that a leader took its walk from, if any. */
  datatype Request =
    | Away
    | Missed(key: string, since: Time)
    | Hit(key: string, servedAt: Time, listed: Listed)
    | Asking(key: string, since: Time, entered: Time, stage: Stage, flight: Option<nat>)

  /** What a finished scan was made from, for the record. */
  datatype Evidence = Evidence(listed: Listed, since: Time, flight: Option<nat>)

  /** `starts` and `evidence` belong to the scans of `scan`; `listed` is the cache of lists,
      `walks` the cache of walks, `current` the flights that can be joined, and `installs` all
      walks ever put into the cache. */
  datatype World = World(
    scan: State, requests: seq<Request>, starts: seq<Time>, evidence: seq<Option<Evidence>>,
    listed: map<string, Listed>, walks: map<string, Install>,
    flights: seq<Flight>, current: map<string, nat>, installs: set<Install>, clock: Time)
  {
    /** The walk that the cache still answers with. */
    function Live(dir: string, now: Time): Option<Reading> {
      if dir in walks && now <= walks[dir].at + SCAN_DIRECTORY_CACHE_TTL then Some(Reading(walks[dir], now)) else None
    }

    function At(p: nat, stage: Stage): World
      requires p < |requests| && requests[p].Asking?
    {
      this.(requests := requests[p := requests[p].(stage := stage)])
    }

    function Fly(dir: string, now: Time): World {
      this.(flights := flights + [Flight(dir, now, Looks, None)], current := current[dir := |flights|])
    }

    function Progress(id: nat, progress: FlightProgress): World
      requires id < |flights|
    {
      this.(flights := flights[id := flights[id].(progress := progress)])
    }
  }

  datatype Event =
    | Arrive(now: Time, p: nat, key: string)
    | Coordinate(now: Time, step: Step)
    | LookUp(now: Time, p: nat)
    | TakeOff(now: Time, p: nat)
    | OtherFlight(now: Time, dir: string)
    | FlightLooks(now: Time, id: nat)
    | FlightWalks(now: Time, id: nat, found: Files)
    | FlightBreaks(now: Time, id: nat)
    | FlightEnds(now: Time, id: nat)
    | Land(now: Time, p: nat)
    | Convert(now: Time, p: nat, files: seq<FileInfo>)
    | Store(now: Time, p: nat)
    | Return(now: Time, p: nat)
    | Refuse(now: Time, p: nat, message: string)

  /** The directory that a cache key is about, if its path stays within the workspace. */
  type Directory = string -> Option<string>

  /** The parts of a world fit together. */
  predicate Shaped(w: World) {
    InRange(w.scan) && |w.requests| == |w.scan.procs| && |w.starts| == |w.evidence| == |w.scan.runs|
  }

  predicate Stands(w: World, p: nat, stage: Stage) {
    p < |w.requests| && w.requests[p].Asking? && w.requests[p].stage == stage
  }

  predicate Scans(w: World, p: nat) {
    p < |w.scan.procs| && w.scan.procs[p].Scanning?
  }

  /** The flight that a leader waits for is over. */
  predicate HasLanded(w: World, p: nat) {
    && Stands(w, p, InFlight) && w.requests[p].flight.Some? && w.requests[p].flight.value < |w.flights|
    && w.flights[w.requests[p].flight.value].endedAt.Some?
  }

  ghost predicate Possible(directory: Directory, w: World, e: Event)
    requires Shaped(w)
  {
    && w.clock <= e.now
    && match e
       case Arrive(_, p, _) => p < |w.requests| && w.requests[p].Away?
       case Coordinate(_, step) =>
         && Enabled(w.scan, step) && !step.ScanReturns?
         && (step.EnterStep? ==> w.requests[step.p].Missed? && w.requests[step.p].key == step.key)
       case LookUp(_, p) => Stands(w, p, AtLookUp) && directory(w.requests[p].key).Some?
       case TakeOff(_, p) => Stands(w, p, AtFlight) && directory(w.requests[p].key).Some?
       case OtherFlight(_, dir) => dir !in w.current
       case FlightLooks(_, id) => id < |w.flights| && w.flights[id].progress.Looks?
       case FlightWalks(_, id, found) => id < |w.flights| && w.flights[id].progress.Walks? && WellKeyed(found)
       case FlightBreaks(_, id) => id < |w.flights| && w.flights[id].progress.Walks?
       case FlightEnds(_, id) =>
         && id < |w.flights| && (w.flights[id].progress.Reads? || w.flights[id].progress.Breaks?)
         && w.flights[id].endedAt.None?
       case Land(_, p) => HasLanded(w, p) && w.flights[w.requests[p].flight.value].progress.Reads?
       case Convert(_, p, files) =>
         && p < |w.requests| && w.requests[p].Asking? && w.requests[p].stage.HasRead?
         && Lists(files, w.requests[p].stage.reading.walk.files)
       case Store(_, p) => p < |w.requests| && w.requests[p].Asking? && w.requests[p].stage.HasList?
       case Return(_, p) => p < |w.requests| && w.requests[p].Asking? && w.requests[p].stage.HasStored? && Scans(w, p)
       case Refuse(_, p, _) =>
         && Scans(w, p)
         && if Stands(w, p, AtLookUp) then directory(w.requests[p].key).None?
            else HasLanded(w, p) && w.flights[w.requests[p].flight.value].progress.Breaks?
  }

  function Advance(directory: Directory, w: World, e: Event): World
    requires Shaped(w) && Possible(directory, w, e)
  {
    var here := w.(clock := e.now);
    match e
    case Arrive(now, p, key) =>
      if key in w.listed && now - w.listed[key].timestamp <= SCAN_CACHE_TTL
      then here.(requests := w.requests[p := Hit(key, now, w.listed[key])])
      else here.(requests := w.requests[p := Missed(key, now)])
    case Coordinate(now, step) =>
      var scan := Apply(w.scan, step);
      if step.EnterStep? then EnterAt(w, step.p, step.key, now, scan) else here.(scan := scan)
    case LookUp(now, p) =>
      var found := w.Live(directory(w.requests[p].key).value, now);
      here.At(p, if found.Some? then HasRead(found.value) else AtFlight)
    case TakeOff(now, p) =>
      var dir := directory(w.requests[p].key).value;
      var flying := if dir in w.current then here else here.Fly(dir, now);
      flying.(requests := w.requests[p := w.requests[p].(stage := InFlight, flight := Some(flying.current[dir]))])
    case OtherFlight(now, dir) => here.Fly(dir, now)
    case FlightLooks(now, id) =>
      var found := w.Live(w.flights[id].dir, now);
      here.Progress(id, if found.Some? then Reads(found.value) else Walks)
    case FlightWalks(now, id, found) =>
      var install := Install(w.flights[id].dir, found, now);
      here.(walks := w.walks[install.dir := install], installs := w.installs + {install})
          .Progress(id, Reads(Reading(install, now)))
    case FlightBreaks(_, id) => here.Progress(id, Breaks)
    case FlightEnds(now, id) =>
      here.(current := w.current - {w.flights[id].dir},
            flights := w.flights[id := w.flights[id].(endedAt := Some(now))])
    case Land(_, p) => here.At(p, HasRead(w.flights[w.requests[p].flight.value].progress.reading))
    case Convert(now, p, files) => here.At(p, HasList(Listed(files, now, w.requests[p].stage.reading)))
    case Store(_, p) =>
      var listed := w.requests[p].stage.listed;
      here.(listed := w.listed[w.requests[p].key := listed]).At(p, HasStored(listed))
    case Return(_, p) =>
      var request, gen := w.requests[p], w.scan.procs[p].gen;
      var stored := request.stage.stored;
      here.(scan := Apply(w.scan, ScanReturns(p, Completed(stored.files, stored.timestamp))),
            evidence := w.evidence[gen := Some(Evidence(stored, request.since, request.flight))]).At(p, Over)
    case Refuse(_, p, message) =>
      here.(scan := Apply(w.scan, ScanReturns(p, Failed(message)))).At(p, Over)
  }

  /** A request comes to the coalescing: it joins the scan of its key, or leads a new one. */
  function EnterAt(w: World, p: nat, key: string, now: Time, scan: State): World
    requires Shaped(w) && p < |w.requests| && w.requests[p].Missed?
  {
    var leads := !w.scan.coord.Joins(key);
    var request := Asking(key, w.requests[p].since, now, if leads then AtLookUp else Over, None);
    w.(clock := now, scan := scan, requests := w.requests[p := request],
       starts := if leads then w.starts + [now] else w.starts,
       evidence := if leads then w.evidence + [None] else w.evidence)
  }

  function Start(requests: nat, now: Time): World {
    World(Init(requests), seq(requests, _ => Away), [], [], map[], map[], [], map[], {}, now)
  }

  // ----- The invariant -----

  /** The walk was in the cache, or came into it, at most three seconds before it was read. */
  ghost predicate Backed(w: World, r: Reading) {
    && r.walk in w.installs && WellKeyed(r.walk.files) && r.walk.at <= r.readAt <= w.clock
    && r.readAt - SCAN_DIRECTORY_CACHE_TTL <= r.walk.at
  }

  /** The list is one of all the files of a walk of the key's own directory. */
  ghost predicate GoodList(directory: Directory, w: World, key: string, l: Listed) {
    && Backed(w, l.reading) && directory(key) == Some(l.reading.walk.dir)
    && Lists(l.files, l.reading.walk.files)
    && l.reading.readAt <= l.timestamp <= w.clock
  }

  /** A leader read its walk after its request came, or took it from a flight, which read it
      after the flight started, and which ended after the request came. */
  ghost predicate ReadFor(w: World, since: Time, flight: Option<nat>, r: Reading) {
    match flight
    case None => since <= r.readAt
    case Some(id) =>
      && id < |w.flights| && w.flights[id].progress == Reads(r) && w.flights[id].startedAt <= r.readAt
      && w.flights[id].endedAt.Some? && since <= w.flights[id].endedAt.value
  }

  ghost predicate StageInv(directory: Directory, w: World, request: Request)
    requires request.Asking?
  {
    match request.stage
    case AtLookUp => request.flight == None
    case AtFlight => request.flight == None
    case InFlight =>
      && request.flight.Some? && request.flight.value < |w.flights|
      && directory(request.key) == Some(w.flights[request.flight.value].dir)
      && (w.flights[request.flight.value].endedAt.Some? ==>
            request.since <= w.flights[request.flight.value].endedAt.value)
    case HasRead(r) =>
      Backed(w, r) && directory(request.key) == Some(r.walk.dir) && ReadFor(w, request.since, request.flight, r)
    case HasList(l) => GoodList(directory, w, request.key, l) && ReadFor(w, request.since, request.flight, l.reading)
    case HasStored(l) => GoodList(directory, w, request.key, l) && ReadFor(w, request.since, request.flight, l.reading)
    case Over => true
  }

  /** What holds of a request that shares a scan. */
  ghost predicate AskingInv(directory: Directory, w: World, request: Request, proc: Proc)
    requires Shaped(w) && request.Asking?
  {
    && !proc.Idle? && !proc.Crashed? && proc.gen < |w.scan.coord.scans|
    && w.scan.coord.scans[proc.gen].key == request.key
    && request.since <= request.entered <= w.clock && w.starts[proc.gen] <= request.entered
    && (proc.Scanning? <==> request.stage != Over)
    && (request.stage != Over ==> request.entered == w.starts[proc.gen])
    && StageInv(directory, w, request)
  }

  ghost predicate HitInv(directory: Directory, w: World, request: Request)
    requires request.Hit?
  {
    && GoodList(directory, w, request.key, request.listed)
    && request.listed.timestamp <= request.servedAt <= w.clock
    && request.servedAt - request.listed.timestamp <= SCAN_CACHE_TTL
  }

  ghost predicate RequestInv(directory: Directory, w: World, p: nat)
    requires Shaped(w) && p < |w.requests|
  {
    var proc := w.scan.procs[p];
    match w.requests[p]
    case Away => proc.Idle?
    case Missed(_, since) => proc.Idle? && since <= w.clock
    case Hit(_, _, _) => proc.Idle? && HitInv(directory, w, w.requests[p])
    case Asking(_, _, _, _, _) => AskingInv(directory, w, w.requests[p], proc)
  }

  /** The request of this scan's leader, which came at this time. */
  ghost predicate LedBy(w: World, gen: nat, since: Time)
    requires Shaped(w) && gen < |w.scan.runs|
  {
    var leader := w.scan.runs[gen].leader;
    && leader < |w.requests| && w.requests[leader].Asking? && w.requests[leader].since == since
    && w.requests[leader].key == w.scan.coord.scans[gen].key && w.requests[leader].entered == w.starts[gen]
    && since <= w.starts[gen]
  }

  ghost predicate EvidenceHolds(directory: Directory, w: World, key: string, e: Evidence) {
    GoodList(directory, w, key, e.listed) && ReadFor(w, e.since, e.flight, e.listed.reading)
  }

  /** A finished scan returned the list that the record explains. */
  ghost predicate ScanExplained(directory: Directory, w: World, gen: nat)
    requires Shaped(w) && gen < |w.scan.runs|
  {
    var outcome := w.scan.runs[gen].outcome;
    && w.starts[gen] <= w.clock
    && (outcome.Some? && outcome.value.Completed? ==>
          && w.evidence[gen].Some?
          && var e := w.evidence[gen].value;
             && outcome.value == Completed(e.listed.files, e.listed.timestamp)
             && EvidenceHolds(directory, w, w.scan.coord.scans[gen].key, e) && LedBy(w, gen, e.since))
  }

  ghost predicate FlightInv(w: World, id: nat)
    requires id < |w.flights|
  {
    var flight := w.flights[id];
    && flight.startedAt <= w.clock
    && (flight.endedAt.Some? ==> flight.progress.Reads? || flight.progress.Breaks?)
    && (flight.progress.Reads? ==>
          && Backed(w, flight.progress.reading) && flight.progress.reading.walk.dir == flight.dir
          && flight.startedAt <= flight.progress.reading.readAt)
  }

  ghost predicate WalksInv(w: World) {
    forall dir :: dir in w.walks ==>
      && w.walks[dir] in w.installs && WellKeyed(w.walks[dir].files)
      && w.walks[dir].dir == dir && w.walks[dir].at <= w.clock
  }

  ghost predicate ListedInv(directory: Directory, w: World) {
    forall key :: key in w.listed ==> GoodList(directory, w, key, w.listed[key])
  }

  ghost predicate CurrentInv(w: World) {
    forall dir :: dir in w.current ==>
      w.current[dir] < |w.flights| && w.flights[w.current[dir]].dir == dir && w.flights[w.current[dir]].endedAt.None?
  }

  ghost predicate CachesInv(directory: Directory, w: World) {
    && WalksInv(w) && ListedInv(directory, w) && CurrentInv(w)
    && forall id :: 0 <= id < |w.flights| ==> FlightInv(w, id)
  }

  ghost predicate WorldInv(directory: Directory, w: World) {
    && Shaped(w) && Inv(w.scan) && CachesInv(directory, w)
    && (forall p :: 0 <= p < |w.requests| ==> RequestInv(directory, w, p))
    && (forall gen :: 0 <= gen < |w.scan.runs| ==> ScanExplained(directory, w, gen))
  }

  // ----- What later worlds keep of earlier ones -----

  predicate LaterFlight(flight: Flight, after: Flight, clock: Time) {
    && after.dir == flight.dir && after.startedAt == flight.startedAt
    && (flight.progress.Reads? ==> after.progress == flight.progress)
    && if flight.endedAt.Some? then after.endedAt == flight.endedAt
       else after.endedAt.Some? ==> clock <= after.endedAt.value
  }

  predicate LaterRequest(request: Request, after: Request) {
    request.Asking? ==> after.Asking? && after.key == request.key && after.since == request.since &&
                        after.entered == request.entered
  }

  ghost predicate Later(w: World, after: World) {
    && w.installs <= after.installs && w.clock <= after.clock
    && |w.flights| <= |after.flights| && |w.requests| == |after.requests|
    && (forall id :: 0 <= id < |w.flights| ==> LaterFlight(w.flights[id], after.flights[id], w.clock))
    && (forall p :: 0 <= p < |w.requests| ==> LaterRequest(w.requests[p], after.requests[p]))
  }

  lemma GoodListStays(directory: Directory, w: World, after: World, key: string, l: Listed)
    requires Later(w, after) && GoodList(directory, w, key, l)
    ensures GoodList(directory, after, key, l)
  {
  }

  lemma ReadForStays(w: World, after: World, since: Time, flight: Option<nat>, r: Reading)
    requires Later(w, after) && ReadFor(w, since, flight, r)
    ensures ReadFor(after, since, flight, r)
  {
    if flight.Some? {
      assert LaterFlight(w.flights[flight.value], after.flights[flight.value], w.clock);
    }
  }

  lemma StageStays(directory: Directory, w: World, after: World, request: Request)
    requires Later(w, after) && request.Asking? && request.since <= w.clock && StageInv(directory, w, request)
    ensures StageInv(directory, after, request)
  {
    match request.stage
    case AtLookUp =>
    case AtFlight =>
    case InFlight =>
      assert LaterFlight(w.flights[request.flight.value], after.flights[request.flight.value], w.clock);
    case HasRead(r) => ReadForStays(w, after, request.since, request.flight, r);
    case HasList(l) =>
      GoodListStays(directory, w, after, request.key, l);
      ReadForStays(w, after, request.since, request.flight, l.reading);
    case HasStored(l) =>
      GoodListStays(directory, w, after, request.key, l);
      ReadForStays(w, after, request.since, request.flight, l.reading);
    case Over =>
  }

  /** The request's place in the coalescing means the same to it as before. */
  ghost predicate SamePlace(w: World, after: World, p: nat)
    requires Shaped(w) && Shaped(after) && p < |w.requests| == |after.requests|
  {
    var proc, next := w.scan.procs[p], after.scan.procs[p];
    if proc.Idle? then next.Idle?
    else !proc.Crashed? ==>
      && !next.Idle? && !next.Crashed? && next.gen == proc.gen && (proc.Scanning? <==> next.Scanning?)
      && after.scan.coord.scans[proc.gen].key == w.scan.coord.scans[proc.gen].key
      && after.starts[proc.gen] == w.starts[proc.gen]
  }

  lemma RequestStays(directory: Directory, w: World, after: World, p: nat)
    requires Shaped(w) && Shaped(after) && Later(w, after) && p < |w.requests|
    requires RequestInv(directory, w, p) && after.requests[p] == w.requests[p] && SamePlace(w, after, p)
    ensures RequestInv(directory, after, p)
  {
    match w.requests[p]
    case Away =>
    case Missed(_, _) =>
    case Hit(key, _, l) => GoodListStays(directory, w, after, key, l);
    case Asking(_, _, _, _, _) => StageStays(directory, w, after, w.requests[p]);
  }

  /** A scan that is there already, with its outcome and the record of it. */
  ghost predicate SameScan(w: World, after: World, gen: nat)
    requires Shaped(w) && Shaped(after) && gen < |w.scan.runs|
  {
    && gen < |after.scan.runs| && after.scan.runs[gen] == w.scan.runs[gen]
    && after.scan.coord.scans[gen].key == w.scan.coord.scans[gen].key
    && after.starts[gen] == w.starts[gen] && after.evidence[gen] == w.evidence[gen]
  }

  lemma ScanStays(directory: Directory, w: World, after: World, gen: nat)
    requires Shaped(w) && Shaped(after) && Later(w, after) && gen < |w.scan.runs|
    requires ScanExplained(directory, w, gen) && SameScan(w, after, gen)
    ensures ScanExplained(directory, after, gen)
  {
    var outcome := w.scan.runs[gen].outcome;
    if outcome.Some? && outcome.value.Completed? {
      var e := w.evidence[gen].value;
      GoodListStays(directory, w, after, w.scan.coord.scans[gen].key, e.listed);
      ReadForStays(w, after, e.since, e.flight, e.listed.reading);
      assert LaterRequest(w.requests[w.scan.runs[gen].leader], after.requests[w.scan.runs[gen].leader]);
    }
  }

  lemma FlightStays(w: World, after: World, id: nat)
    requires Later(w, after) && id < |w.flights| && FlightInv(w, id) && after.flights[id] == w.flights[id]
    ensures FlightInv(after, id)
  {
  }

  lemma FlightsStay(w: World, after: World)
    requires Later(w, after) && after.flights == w.flights
    requires forall id :: 0 <= id < |w.flights| ==> FlightInv(w, id)
    ensures forall id :: 0 <= id < |w.flights| ==> FlightInv(after, id)
  {
    forall id | 0 <= id < |w.flights| ensures FlightInv(after, id) {
      FlightStays(w, after, id);
    }
  }

  lemma ListedStays(directory: Directory, w: World, after: World)
    requires Later(w, after) && ListedInv(directory, w) && after.listed == w.listed
    ensures ListedInv(directory, after)
  {
    forall key | key in w.listed ensures GoodList(directory, after, key, w.listed[key]) {
      GoodListStays(directory, w, after, key, w.listed[key]);
    }
  }

  /** Caches and flights that an event leaves alone. */
  lemma CachesStay(directory: Directory, w: World, after: World)
    requires Later(w, after) && CachesInv(directory, w)
    requires after.listed == w.listed && after.walks == w.walks
    requires after.flights == w.flights && after.current == w.current
    ensures CachesInv(directory, after)
  {
    ListedStays(directory, w, after);
    FlightsStay(w, after);
  }

  // ----- Events that leave the coalescing alone -----

  ghost predicate SameScans(w: World, after: World) {
    after.scan == w.scan && after.starts == w.starts && after.evidence == w.evidence
  }

  /** Such an event has to be looked at only where it changes something. */
  lemma QuietKeepsInv(directory: Directory, w: World, after: World)
    requires WorldInv(directory, w) && Later(w, after) && SameScans(w, after) && CachesInv(directory, after)
    requires forall p :: 0 <= p < |w.requests| ==>
               after.requests[p] == w.requests[p] || (Shaped(after) && RequestInv(directory, after, p))
    ensures WorldInv(directory, after)
  {
    forall p | 0 <= p < |after.requests| ensures RequestInv(directory, after, p) {
      if after.requests[p] == w.requests[p] {
        assert RequestInv(directory, w, p);
        RequestStays(directory, w, after, p);
      }
    }
    forall gen | 0 <= gen < |after.scan.runs| ensures ScanExplained(directory, after, gen) {
      ScanStays(directory, w, after, gen);
    }
  }

  lemma TickKeepsInv(directory: Directory, w: World, now: Time)
    requires WorldInv(directory, w) && w.clock <= now
    ensures WorldInv(directory, w.(clock := now))
  {
    CachesStay(directory, w, w.(clock := now));
    QuietKeepsInv(directory, w, w.(clock := now));
  }

  /** One request becomes another one. */
  lemma RequestKeepsInv(directory: Directory, w: World, p: nat, request: Request)
    requires WorldInv(directory, w) && p < |w.requests| && LaterRequest(w.requests[p], request)
    requires RequestInv(directory, w.(requests := w.requests[p := request]), p)
    ensures WorldInv(directory, w.(requests := w.requests[p := request]))
  {
    var after := w.(requests := w.requests[p := request]);
    CachesStay(directory, w, after);
    QuietKeepsInv(directory, w, after);
  }

  lemma AskingHolds(directory: Directory, w: World, p: nat)
    requires WorldInv(directory, w) && p < |w.requests| && w.requests[p].Asking?
    ensures AskingInv(directory, w, w.requests[p], w.scan.procs[p])
  {
    assert RequestInv(directory, w, p);
  }

  /** A leader comes further with its scan. */
  lemma StageKeepsInv(directory: Directory, w: World, p: nat, stage: Stage, flight: Option<nat>)
    requires WorldInv(directory, w) && p < |w.requests| && w.requests[p].Asking?
    requires w.requests[p].stage != Over && stage != Over
    requires StageInv(directory, w, w.requests[p].(stage := stage, flight := flight))
    ensures WorldInv(directory, w.(requests := w.requests[p := w.requests[p].(stage := stage, flight := flight)]))
  {
    var request := w.requests[p].(stage := stage, flight := flight);
    var after := w.(requests := w.requests[p := request]);
    AskingHolds(directory, w, p);
    StageStays(directory, w, after, request);
    RequestKeepsInv(directory, w, p, request);
  }

  lemma ArriveKeepsInv(directory: Directory, w: World, e: Event)
    requires WorldInv(directory, w) && Possible(directory, w, e) && e.Arrive?
    ensures WorldInv(directory, Advance(directory, w, e))
  {
    var here, request := w.(clock := e.now), Advance(directory, w, e).requests[e.p];
    TickKeepsInv(directory, w, e.now);
    assert RequestInv(directory, w, e.p) && ListedInv(directory, here);
    assert request.Hit? ==> HitInv(directory, here.(requests := w.requests[e.p := request]), request);
    RequestKeepsInv(directory, here, e.p, request);
  }

  /** What the cache of walks answers. */
  lemma LiveIsBacked(w: World, dir: string)
    requires WalksInv(w) && w.Live(dir, w.clock).Some?
    ensures Backed(w, w.Live(dir, w.clock).value) && w.Live(dir, w.clock).value.walk.dir == dir
  {
  }

  lemma LookUpKeepsInv(directory: Directory, w: World, e: Event)
    requires WorldInv(directory, w) && Possible(directory, w, e) && e.LookUp?
    ensures WorldInv(directory, Advance(directory, w, e))
  {
    var here, dir := w.(clock := e.now), directory(w.requests[e.p].key).value;
    var found := here.Live(dir, e.now);
    TickKeepsInv(directory, w, e.now);
    AskingHolds(directory, w, e.p);
    if found.Some? {
      LiveIsBacked(here, dir);
    }
    StageKeepsInv(directory, here, e.p, if found.Some? then HasRead(found.value) else AtFlight, None);
  }

  lemma LandKeepsInv(directory: Directory, w: World, e: Event)
    requires WorldInv(directory, w) && Possible(directory, w, e) && e.Land?
    ensures WorldInv(directory, Advance(directory, w, e))
  {
    var here, flight := w.(clock := e.now), w.requests[e.p].flight;
    TickKeepsInv(directory, w, e.now);
    AskingHolds(directory, w, e.p);
    assert FlightInv(here, flight.value);
    StageKeepsInv(directory, here, e.p, HasRead(w.flights[flight.value].progress.reading), flight);
  }

  lemma ConvertKeepsInv(directory: Directory, w: World, e: Event)
    requires WorldInv(directory, w) && Possible(directory, w, e) && e.Convert?
    ensures WorldInv(directory, Advance(directory, w, e))
  {
    var here, request := w.(clock := e.now), w.requests[e.p];
    var listed := Listed(e.files, e.now, request.stage.reading);
    TickKeepsInv(directory, w, e.now);
    AskingHolds(directory, here, e.p);
    assert GoodList(directory, here, request.key, listed);
    StageKeepsInv(directory, here, e.p, HasList(listed), request.flight);
  }

  /** A list goes into the cache of lists. */
  function WithList(w: World, key: string, listed: Listed): World {
    w.(listed := w.listed[key := listed])
  }

  lemma ListingIsLater(w: World, key: string, listed: Listed)
    ensures Later(w, WithList(w, key, listed))
  {
  }

  lemma ListingKeepsLists(directory: Directory, w: World, key: string, listed: Listed)
    requires ListedInv(directory, w) && GoodList(directory, w, key, listed)
    ensures ListedInv(directory, WithList(w, key, listed))
  {
    var after := WithList(w, key, listed);
    ListingIsLater(w, key, listed);
    forall other | other in after.listed ensures GoodList(directory, after, other, after.listed[other]) {
      GoodListStays(directory, w, after, other, after.listed[other]);
    }
  }

  lemma ListingKeepsInv(directory: Directory, w: World, key: string, listed: Listed)
    requires WorldInv(directory, w) && GoodList(directory, w, key, listed)
    ensures WorldInv(directory, WithList(w, key, listed)) && Later(w, WithList(w, key, listed))
  {
    ListingIsLater(w, key, listed);
    ListingKeepsLists(directory, w, key, listed);
    FlightsStay(w, WithList(w, key, listed));
    QuietKeepsInv(directory, w, WithList(w, key, listed));
  }

  lemma StoreKeepsInv(directory: Directory, w: World, e: Event)
    requires WorldInv(directory, w) && Possible(directory, w, e) && e.Store?
    ensures WorldInv(directory, Advance(directory, w, e))
  {
    var here, request := w.(clock := e.now), w.requests[e.p];
    var listed := request.stage.listed;
    TickKeepsInv(directory, w, e.now);
    AskingHolds(directory, here, e.p);
    ListingKeepsInv(directory, here, request.key, listed);
    StageStays(directory, here, WithList(here, request.key, listed), request.(stage := HasStored(listed)));
    StageKeepsInv(directory, WithList(here, request.key, listed), e.p, HasStored(listed), request.flight);
  }

  /** A new flight. */
  lemma FlyKeepsInv(directory: Directory, w: World, dir: string)
    requires WorldInv(directory, w) && dir !in w.current
    ensures WorldInv(directory, w.Fly(dir, w.clock))
  {
    var after := w.Fly(dir, w.clock);
    ListedStays(directory, w, after);
    forall id | 0 <= id < |after.flights| ensures FlightInv(after, id) {
      if id < |w.flights| {
        FlightStays(w, after, id);
      }
    }
    QuietKeepsInv(directory, w, after);
  }

  lemma OtherFlightKeepsInv(directory: Directory, w: World, e: Event)
    requires WorldInv(directory, w) && Possible(directory, w, e) && e.OtherFlight?
    ensures WorldInv(directory, Advance(directory, w, e))
  {
    TickKeepsInv(directory, w, e.now);
    FlyKeepsInv(directory, w.(clock := e.now), e.dir);
  }

  /** A leader joins a flight under way. */
  lemma JoinKeepsInv(directory: Directory, w: World, p: nat)
    requires WorldInv(directory, w) && Stands(w, p, AtFlight)
    requires directory(w.requests[p].key).Some? && directory(w.requests[p].key).value in w.current
    ensures
      var id := w.current[directory(w.requests[p].key).value];
      WorldInv(directory, w.(requests := w.requests[p := w.requests[p].(stage := InFlight, flight := Some(id))]))
  {
    StageKeepsInv(directory, w, p, InFlight, Some(w.current[directory(w.requests[p].key).value]));
  }

  lemma TakeOffKeepsInv(directory: Directory, w: World, e: Event)
    requires WorldInv(directory, w) && Possible(directory, w, e) && e.TakeOff?
    ensures WorldInv(directory, Advance(directory, w, e))
  {
    var here, dir := w.(clock := e.now), directory(w.requests[e.p].key).value;
    TickKeepsInv(directory, w, e.now);
    if dir in w.current {
      JoinKeepsInv(directory, here, e.p);
    } else {
      FlyKeepsInv(directory, here, dir);
      JoinKeepsInv(directory, here.Fly(dir, e.now), e.p);
    }
  }

  /** A flight comes further. */
  lemma ProgressKeepsInv(directory: Directory, w: World, after: World, id: nat)
    requires WorldInv(directory, w) && Later(w, after) && SameScans(w, after) && after.requests == w.requests
    requires after.listed == w.listed && WalksInv(after) && CurrentInv(after)
    requires id < |w.flights| == |after.flights| && after.flights == w.flights[id := after.flights[id]]
    requires FlightInv(after, id)
    ensures WorldInv(directory, after)
  {
    ListedStays(directory, w, after);
    forall other | 0 <= other < |w.flights| ensures FlightInv(after, other) {
      if other != id {
        FlightStays(w, after, other);
      }
    }
    QuietKeepsInv(directory, w, after);
  }

  lemma FlightLooksKeepsInv(directory: Directory, w: World, e: Event)
    requires WorldInv(directory, w) && Possible(directory, w, e) && e.FlightLooks?
    ensures WorldInv(directory, Advance(directory, w, e))
  {
    assert FlightInv(w, e.id);
    ProgressKeepsInv(directory, w, Advance(directory, w, e), e.id);
  }

  lemma FlightWalksKeepsInv(directory: Directory, w: World, e: Event)
    requires WorldInv(directory, w) && Possible(directory, w, e) && e.FlightWalks?
    ensures WorldInv(directory, Advance(directory, w, e))
  {
    assert FlightInv(w, e.id);
    ProgressKeepsInv(directory, w, Advance(directory, w, e), e.id);
  }

  lemma FlightBreaksKeepsInv(directory: Directory, w: World, e: Event)
    requires WorldInv(directory, w) && Possible(directory, w, e) && e.FlightBreaks?
    ensures WorldInv(directory, Advance(directory, w, e))
  {
    assert FlightInv(w, e.id);
    ProgressKeepsInv(directory, w, Advance(directory, w, e), e.id);
  }

  lemma FlightEndsKeepsInv(directory: Directory, w: World, e: Event)
    requires WorldInv(directory, w) && Possible(directory, w, e) && e.FlightEnds?
    ensures WorldInv(directory, Advance(directory, w, e))
  {
    assert FlightInv(w, e.id);
    ProgressKeepsInv(directory, w, Advance(directory, w, e), e.id);
  }

  // ----- Events of the coalescing -----

  /** A step of the coalescing that brings no request and no result: locks, sends, receives. */
  lemma PlaceStays(s: State, step: Step, q: nat)
    requires Inv(s) && Enabled(s, step) && !step.ScanReturns? && !step.EnterStep? && q < |s.procs|
    ensures
      var after := Apply(s, step);
      && InRange(after) && |after.procs| == |s.procs| && after.runs == s.runs
      && if s.procs[q].Idle? then after.procs[q].Idle?
         else !after.procs[q].Idle? && !after.procs[q].Crashed? && after.procs[q].gen == s.procs[q].gen
              && (s.procs[q].Scanning? <==> after.procs[q].Scanning?)
  {
    StepKeepsInv(s, step);
    assert ProcInv(s, q) && ProcInv(Apply(s, step), q);
  }

  lemma KeysStay(s: State, step: Step, gen: nat)
    requires InRange(s) && Enabled(s, step) && gen < |s.coord.scans|
    ensures gen < |Apply(s, step).coord.scans| && Apply(s, step).coord.scans[gen].key == s.coord.scans[gen].key
  {
  }

  lemma LockAndChannelKeepInv(directory: Directory, w: World, step: Step)
    requires WorldInv(directory, w) && Enabled(w.scan, step) && !step.ScanReturns? && !step.EnterStep?
    ensures WorldInv(directory, w.(scan := Apply(w.scan, step)))
  {
    var after := w.(scan := Apply(w.scan, step));
    StepKeepsInv(w.scan, step);
    PlaceStays(w.scan, step, step.p);
    CachesStay(directory, w, after);
    forall q | 0 <= q < |w.requests| ensures RequestInv(directory, after, q) {
      assert RequestInv(directory, w, q);
      PlaceStays(w.scan, step, q);
      if !w.scan.procs[q].Idle? {
        assert ProcInv(w.scan, q);
        KeysStay(w.scan, step, w.scan.procs[q].gen);
      }
      RequestStays(directory, w, after, q);
    }
    forall gen | 0 <= gen < |after.scan.runs| ensures ScanExplained(directory, after, gen) {
      KeysStay(w.scan, step, gen);
      ScanStays(directory, w, after, gen);
    }
  }

  /** What an arrival does to the coalescing. */
  lemma EnterPlaces(s: State, p: nat, key: string)
    requires Inv(s) && Enabled(s, EnterStep(p, key))
    ensures
      var after, gen := Apply(s, EnterStep(p, key)), s.coord.Target(key);
      && Inv(after) && after.procs == s.procs[p := after.procs[p]]
      && gen < |after.coord.scans| == |after.runs| && after.coord.scans[gen].key == key
      && (if s.coord.Joins(key) then after.procs[p] == Waiting(gen) && after.runs == s.runs && gen < |s.runs|
          else after.procs[p] == Scanning(gen) && after.runs == s.runs + [ScanRun(p, None)] && gen == |s.runs|)
  {
    StepKeepsInv(s, EnterStep(p, key));
  }

  lemma EnteredRequest(directory: Directory, w: World, p: nat, key: string)
    requires WorldInv(directory, w) && Enabled(w.scan, EnterStep(p, key))
    requires w.requests[p].Missed? && w.requests[p].key == key
    ensures
      var after := EnterAt(w, p, key, w.clock, Apply(w.scan, EnterStep(p, key)));
      Shaped(after) && Later(w, after) && RequestInv(directory, after, p)
  {
    EnterPlaces(w.scan, p, key);
    assert RequestInv(directory, w, p);
    if w.scan.coord.Joins(key) {
      assert ScanExplained(directory, w, w.scan.coord.Target(key));
    }
  }

  lemma EnterKeepsWorldInv(directory: Directory, w: World, p: nat, key: string)
    requires WorldInv(directory, w) && Enabled(w.scan, EnterStep(p, key))
    requires w.requests[p].Missed? && w.requests[p].key == key
    ensures WorldInv(directory, EnterAt(w, p, key, w.clock, Apply(w.scan, EnterStep(p, key))))
  {
    var step := EnterStep(p, key);
    var after := EnterAt(w, p, key, w.clock, Apply(w.scan, step));
    EnterPlaces(w.scan, p, key);
    EnteredRequest(directory, w, p, key);
    CachesStay(directory, w, after);
    forall q | 0 <= q < |w.requests| ensures RequestInv(directory, after, q) {
      if q != p {
        assert RequestInv(directory, w, q);
        if !w.scan.procs[q].Idle? && !w.scan.procs[q].Crashed? {
          KeysStay(w.scan, step, w.scan.procs[q].gen);
        }
        assert ProcInv(w.scan, q);
        RequestStays(directory, w, after, q);
      }
    }
    forall gen | 0 <= gen < |after.scan.runs| ensures ScanExplained(directory, after, gen) {
      if gen < |w.scan.runs| {
        KeysStay(w.scan, step, gen);
        ScanStays(directory, w, after, gen);
      }
    }
  }

  /** What the end of a scan function does to the coalescing. */
  lemma ResultPlaces(s: State, p: nat, outcome: ScanOutcome)
    requires Inv(s) && Enabled(s, ScanReturns(p, outcome))
    ensures
      var after, gen := Apply(s, ScanReturns(p, outcome)), s.procs[p].gen;
      && Inv(after) && after.procs == s.procs[p := Scanned(gen)] && after.coord == s.coord
      && gen < |s.runs| == |after.runs| && s.runs[gen].leader == p
      && after.runs == s.runs[gen := ScanRun(p, Some(outcome))]
  {
    StepKeepsInv(s, ScanReturns(p, outcome));
    assert ProcInv(s, p);
  }

  /** The world in which the scan of a leader has returned. */
  function WithResult(w: World, p: nat, outcome: ScanOutcome, evidence: Option<Evidence>): World
    requires Shaped(w) && p < |w.requests| && w.requests[p].Asking? && Scans(w, p)
  {
    var gen := w.scan.procs[p].gen;
    w.(scan := Apply(w.scan, ScanReturns(p, outcome)),
       evidence := if evidence.Some? then w.evidence[gen := evidence] else w.evidence).At(p, Over)
  }

  ghost predicate Explained(directory: Directory, w: World, request: Request, outcome: ScanOutcome,
                            evidence: Option<Evidence>)
    requires request.Asking?
  {
    outcome.Completed? ==>
      && evidence.Some? && evidence.value.since == request.since
      && outcome == Completed(evidence.value.listed.files, evidence.value.listed.timestamp)
      && EvidenceHolds(directory, w, request.key, evidence.value)
  }

  lemma EvidenceStays(directory: Directory, w: World, after: World, key: string, e: Evidence)
    requires Later(w, after) && EvidenceHolds(directory, w, key, e)
    ensures EvidenceHolds(directory, after, key, e)
  {
    GoodListStays(directory, w, after, key, e.listed);
    ReadForStays(w, after, e.since, e.flight, e.listed.reading);
  }

  lemma ResultIsExplained(directory: Directory, w: World, p: nat, outcome: ScanOutcome, evidence: Option<Evidence>)
    requires WorldInv(directory, w) && p < |w.requests| && w.requests[p].Asking? && Scans(w, p)
    requires Explained(directory, w, w.requests[p], outcome, evidence)
    ensures
      var after := WithResult(w, p, outcome, evidence);
      Shaped(after) && Later(w, after) && RequestInv(directory, after, p) &&
      w.scan.procs[p].gen < |after.scan.runs| && ScanExplained(directory, after, w.scan.procs[p].gen)
  {
    var after, gen := WithResult(w, p, outcome, evidence), w.scan.procs[p].gen;
    ResultPlaces(w.scan, p, outcome);
    AskingHolds(directory, w, p);
    assert ScanExplained(directory, w, gen);
    if outcome.Completed? {
      EvidenceStays(directory, w, after, w.requests[p].key, evidence.value);
    }
  }

  lemma ResultKeepsWorldInv(directory: Directory, w: World, p: nat, outcome: ScanOutcome, evidence: Option<Evidence>)
    requires WorldInv(directory, w) && p < |w.requests| && w.requests[p].Asking? && Scans(w, p)
    requires Explained(directory, w, w.requests[p], outcome, evidence)
    ensures WorldInv(directory, WithResult(w, p, outcome, evidence))
  {
    var after := WithResult(w, p, outcome, evidence);
    ResultPlaces(w.scan, p, outcome);
    ResultIsExplained(directory, w, p, outcome, evidence);
    CachesStay(directory, w, after);
    forall q | 0 <= q < |w.requests| ensures RequestInv(directory, after, q) {
      if q != p {
        assert RequestInv(directory, w, q) && ProcInv(w.scan, q);
        RequestStays(directory, w, after, q);
      }
    }
    forall gen | 0 <= gen < |after.scan.runs| ensures ScanExplained(directory, after, gen) {
      if gen != w.scan.procs[p].gen {
        ScanStays(directory, w, after, gen);
      }
    }
  }

  lemma CoordinateKeepsInv(directory: Directory, w: World, e: Event)
    requires WorldInv(directory, w) && Possible(directory, w, e) && e.Coordinate?
    ensures WorldInv(directory, Advance(directory, w, e))
  {
    TickKeepsInv(directory, w, e.now);
    if e.step.EnterStep? {
      EnterKeepsWorldInv(directory, w.(clock := e.now), e.step.p, e.step.key);
    } else {
      LockAndChannelKeepInv(directory, w.(clock := e.now), e.step);
    }
  }

  lemma ReturnKeepsInv(directory: Directory, w: World, e: Event)
    requires WorldInv(directory, w) && Possible(directory, w, e) && e.Return?
    ensures WorldInv(directory, Advance(directory, w, e))
  {
    var here, request := w.(clock := e.now), w.requests[e.p];
    var stored := request.stage.stored;
    TickKeepsInv(directory, w, e.now);
    AskingHolds(directory, here, e.p);
    ResultKeepsWorldInv(directory, here, e.p, Completed(stored.files, stored.timestamp),
                        Some(Evidence(stored, request.since, request.flight)));
  }

  lemma RefuseKeepsInv(directory: Directory, w: World, e: Event)
    requires WorldInv(directory, w) && Possible(directory, w, e) && e.Refuse?
    ensures WorldInv(directory, Advance(directory, w, e))
  {
    TickKeepsInv(directory, w, e.now);
    ResultKeepsWorldInv(directory, w.(clock := e.now), e.p, Failed(e.message), None);
  }

  lemma EventKeepsInv(directory: Directory, w: World, e: Event)
    requires WorldInv(directory, w) && Possible(directory, w, e)
    ensures WorldInv(directory, Advance(directory, w, e))
  {
    match e
    case Arrive(_, _, _) => ArriveKeepsInv(directory, w, e);
    case Coordinate(_, _) => CoordinateKeepsInv(directory, w, e);
    case LookUp(_, _) => LookUpKeepsInv(directory, w, e);
    case TakeOff(_, _) => TakeOffKeepsInv(directory, w, e);
    case OtherFlight(_, _) => OtherFlightKeepsInv(directory, w, e);
    case FlightLooks(_, _) => FlightLooksKeepsInv(directory, w, e);
    case FlightWalks(_, _, _) => FlightWalksKeepsInv(directory, w, e);
    case FlightBreaks(_, _) => FlightBreaksKeepsInv(directory, w, e);
    case FlightEnds(_, _) => FlightEndsKeepsInv(directory, w, e);
    case Land(_, _) => LandKeepsInv(directory, w, e);
    case Convert(_, _, _) => ConvertKeepsInv(directory, w, e);
    case Store(_, _) => StoreKeepsInv(directory, w, e);
    case Return(_, _) => ReturnKeepsInv(directory, w, e);
    case Refuse(_, _, _) => RefuseKeepsInv(directory, w, e);
  }
}
