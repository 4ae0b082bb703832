/**
 * The schedule reconciler: what it does to the schedule store and to the cron table.
 *
 * The store keeps, with every schedule, the cron entry id it believes to be live.  Ids are
 * handed out by the cron library in this process only, so after a restart every stored id is
 * stale and may equal an id handed out later to another schedule.  Writes to the store can
 * fail; an entry whose write failed stays in the cron table as an orphan.
 *
 * The functions here are the specification that ScheduleService's methods meet.
 */
module ScheduleModel {
  import opened Prelude

  type Id = nat

  datatype Schedule = Schedule(id: Id, cron: string, enabled: bool, entryId: int)

  /** A live cron entry runs `owner` on the expression `spec`. */
  datatype Entry = Entry(owner: Id, spec: string)

  /** `nextId` is the last cron id handed out; `writes` counts the store writes attempted. */
  datatype State = State(store: map<Id, Schedule>, cron: map<int, Entry>, nextId: nat, writes: nat)

  /** What the outside decides: which cron expressions parse, and which store writes fail. */
  datatype World = World(parses: string -> bool, writeFails: nat -> bool)

  const NO_ENTRY: int := -1
  const MAX_RETRIES: nat := 3

  predicate Enabled(st: State, id: Id) {
    id in st.store && st.store[id].enabled
  }

  /** Live cron ids were handed out by the allocator, which counts from 1. */
  predicate IdsIssued(st: State) {
    forall e :: e in st.cron ==> 1 <= e <= st.nextId
  }

  /** ... and the store files every schedule under its own id. */
  predicate Sane(st: State) {
    IdsIssued(st) && forall id :: id in st.store ==> st.store[id].id == id
  }

  // ----- The operations -----

  /** One attempt to replace a schedule; replacing one that is not there changes nothing and is
      no error. */
  function Write(w: World, st: State, s: Schedule): State {
    if w.writeFails(st.writes) || s.id !in st.store then st.(writes := st.writes + 1)
    else st.(store := st.store[s.id := s], writes := st.writes + 1)
  }

  /** Enable: add a fresh cron entry, then record its id.  A failed write leaves the entry behind. */
  function Enable(w: World, st: State, s: Schedule): (State, bool) {
    if !w.parses(s.cron) then (st, false)
    else
      var id := st.nextId + 1;
      var added := st.(cron := st.cron[id := Entry(s.id, s.cron)], nextId := id);
      (Write(w, added, s.(enabled := true, entryId := id)), !w.writeFails(st.writes))
  }

  /** Disable: record the schedule as disabled, and only then remove the entry it named. */
  function Disable(w: World, st: State, s: Schedule): (State, bool) {
    var written := Write(w, st, s.(enabled := false, entryId := NO_ENTRY));
    if w.writeFails(st.writes) then (written, false)
    else if s.entryId != NO_ENTRY then (written.(cron := written.cron - {s.entryId}), true)
    else (written, true)
  }

  function EnableWithRetry(w: World, st: State, s: Schedule, attempts: nat): (State, bool)
    decreases attempts
  {
    if attempts == 0 then (st, false)
    else
      var (after, ok) := Enable(w, st, s);
      if ok then (after, true) else EnableWithRetry(w, after, s, attempts - 1)
  }

  /** Creating a schedule: the record goes in as the client sent it, entry id included, and is
      then enabled if it says so.  An id that is taken is refused. */
  function Post(w: World, st: State, s: Schedule): (State, bool) {
    var counted := st.(writes := st.writes + 1);
    if w.writeFails(st.writes) || s.id in st.store then (counted, false)
    else
      var inserted := counted.(store := st.store[s.id := s]);
      if s.enabled then Enable(w, inserted, s) else (inserted, true)
  }

  /** Replacing a schedule: the same with the record in its place, or a disable. */
  function Put(w: World, st: State, s: Schedule): (State, bool) {
    var replaced := Write(w, st, s);
    if w.writeFails(st.writes) then (replaced, false)
    else if s.enabled then Enable(w, replaced, s)
    else Disable(w, replaced, s)
  }

  /** Deleting a schedule leaves its cron entry to the reconciler. */
  function Delete(w: World, st: State, id: Id): (State, bool) {
    var counted := st.(writes := st.writes + 1);
    if w.writeFails(st.writes) then (counted, false) else (counted.(store := st.store - {id}), true)
  }

  /** One iteration of the update loop, against the entry ids listed when the pass began. */
  function Visit(w: World, st: State, s: Schedule, live: set<int>): State {
    if s.entryId !in live && s.enabled then EnableWithRetry(w, st, s, MAX_RETRIES).0 else st
  }

  function VisitAll(w: World, st: State, fetched: seq<Schedule>, live: set<int>): State {
    if fetched == [] then st
    else
      var n := |fetched| - 1;
      Visit(w, VisitAll(w, st, fetched[..n], live), fetched[n], live)
  }

  /** The entry ids that the fetched schedules refer to. */
  function Marked(fetched: seq<Schedule>): set<int> {
    set s | s in fetched :: s.entryId
  }

  /** A pass: visit every fetched schedule, then drop the entries listed at the start and not found. */
  function Pass(w: World, st: State, fetched: seq<Schedule>): State {
    var visited := VisitAll(w, st, fetched, st.cron.Keys);
    visited.(cron := visited.cron - (st.cron.Keys - Marked(fetched)))
  }

  /** One iteration of the loop in Init. */
  function InitVisit(w: World, st: State, s: Schedule): State {
    if !s.enabled then st
    else if !w.parses(s.cron) then Disable(w, st, s).0
    else Enable(w, st, s).0
  }

  function InitAll(w: World, st: State, fetched: seq<Schedule>): State {
    if fetched == [] then st
    else
      var n := |fetched| - 1;
      InitVisit(w, InitAll(w, st, fetched[..n]), fetched[n])
  }

  lemma InitAllSnoc(w: World, st: State, init: seq<Schedule>, last: Schedule)
    ensures InitAll(w, st, init + [last]) == InitVisit(w, InitAll(w, st, init), last)
  {
    assert (init + [last])[..|init|] == init;
  }

  /** Distinct enabled schedules, as the store holds them. */
  ghost predicate FetchedFrom(st: State, fetched: seq<Schedule>) {
    && (forall s :: s in fetched ==> Enabled(st, s.id) && st.store[s.id] == s)
    && (forall i, j :: 0 <= i < j < |fetched| ==> fetched[i].id != fetched[j].id)
  }

  /** What fetch returns: every enabled schedule of the store once, in some order. */
  ghost predicate Listing(st: State, fetched: seq<Schedule>) {
    && FetchedFrom(st, fetched)
    && (forall id :: Enabled(st, id) ==> st.store[id] in fetched)
  }

  // ----- Everything that can happen while the service runs -----

  datatype Call =
    | FetchFails
    | UpdatePass(fetched: seq<Schedule>)
    | EnableCall(s: Schedule)
    | DisableCall(s: Schedule)
    | PostCall(s: Schedule)
    | PutCall(s: Schedule)
    | PatchCall(s: Schedule)
    | DeleteCall(id: Id)
    | JobFindsDisabled(id: Id)

  ghost predicate Possible(st: State, call: Call) {
    match call
    case UpdatePass(fetched) => Listing(st, fetched)
    case JobFindsDisabled(id) => id in st.store && !st.store[id].enabled
    case _ => true
  }

  function Perform(w: World, st: State, call: Call): State {
    match call
    case FetchFails => st
    case UpdatePass(fetched) => Pass(w, st, fetched)
    case EnableCall(s) => Enable(w, st, s).0
    case DisableCall(s) => Disable(w, st, s).0
    case PostCall(s) => Post(w, st, s).0
    case PutCall(s) => Put(w, st, s).0
    case PatchCall(s) => Write(w, st, s)
    case DeleteCall(id) => Delete(w, st, id).0
    case JobFindsDisabled(id) =>
      // A job that fires for a disabled schedule removes the entry its record names.
      if id in st.store then st.(cron := st.cron - {st.store[id].entryId}) else st
  }

  /** A run: each call is possible where it happens. */
  ghost predicate Run(w: World, states: seq<State>, calls: seq<Call>) {
    && |states| == |calls| + 1
    && forall i :: 0 <= i < |calls| ==>
         Possible(states[i], calls[i]) && states[i + 1] == Perform(w, states[i], calls[i])
  }

  // ----- What should hold -----

  /** A process that has just started: an empty cron table over whatever ids the store holds. */
  ghost predicate JustStarted(st: State) {
    Sane(st) && st.cron == map[] && st.nextId == 0
  }

  /** The entry that a schedule should have. */
  function Wanted(s: Schedule): Entry {
    Entry(s.id, s.cron)
  }

  /** Every enabled schedule runs under its stored entry id, and nothing else is in the cron table. */
  ghost predicate Agreement(st: State) {
    && (forall id :: Enabled(st, id) ==>
          st.store[id].entryId in st.cron && st.cron[st.store[id].entryId] == Wanted(st.store[id]))
    && (forall e :: e in st.cron ==> Enabled(st, st.cron[e].owner) && st.store[st.cron[e].owner].entryId == e)
  }

  /** No enabled schedule's stored id names a live entry that is not its own. */
  ghost predicate Clear(st: State) {
    forall id :: Enabled(st, id) && st.store[id].entryId in st.cron ==>
      st.cron[st.store[id].entryId] == Wanted(st.store[id])
  }

  /** The ids stored with enabled schedules were handed out by this process. */
  ghost predicate Settled(st: State) {
    && Sane(st)
    && Clear(st)
    && (forall id :: Enabled(st, id) ==> st.store[id].entryId <= st.nextId)
  }

  // ----- Edits that bring their own entry id -----

  /** The state once the cron entry of an enable has been added. */
  function Added(w: World, st: State, s: Schedule): State {
    if w.parses(s.cron) then st.(cron := st.cron[st.nextId + 1 := Wanted(s)], nextId := st.nextId + 1) else st
  }

  /** The entry id in this record names no live entry but the schedule's own. */
  predicate NamesOwn(st: State, s: Schedule) {
    s.entryId in st.cron ==> st.cron[s.entryId] == Wanted(s)
  }

  /** Does the record that the client sent stay in the store, enabled and with the client's entry id? */
  predicate Lingers(w: World, st: State, call: Call) {
    match call
    case PostCall(s) =>
      !w.writeFails(st.writes) && s.id !in st.store && s.enabled && !(w.parses(s.cron) && !w.writeFails(st.writes + 1))
    case PutCall(s) =>
      !w.writeFails(st.writes) && s.id in st.store && s.enabled && !(w.parses(s.cron) && !w.writeFails(st.writes + 1))
    case PatchCall(s) =>
      !w.writeFails(st.writes) && s.id in st.store && s.enabled
    case _ => false
  }

  /** A call is harmless if no such record stays, or its entry id is the schedule's own or not live. */
  predicate KeepsClear(w: World, st: State, call: Call) {
    Lingers(w, st, call) ==> NamesOwn(if call.PatchCall? then st else Added(w, st, call.s), call.s)
  }

  /** ... and was handed out by this process. */
  predicate KeepsSettled(w: World, st: State, call: Call) {
    KeepsClear(w, st, call)
    && (Lingers(w, st, call) ==> call.s.entryId <= (if call.PatchCall? then st else Added(w, st, call.s)).nextId)
  }

  // ----- Confusion -----

  /** An enabled schedule's stored id names a live entry that is not its own: another schedule's,
      or one for another expression. */
  ghost predicate Confused(st: State, id: Id) {
    Enabled(st, id) && st.store[id].entryId in st.cron && st.cron[st.store[id].entryId] != Wanted(st.store[id])
  }

  /** The call neither writes this schedule's record nor removes the cron entry it names. */
  ghost predicate Leaves(st: State, call: Call, id: Id)
    requires id in st.store
  {
    var e := st.store[id].entryId;
    match call
    case FetchFails => true
    case UpdatePass(fetched) => true
    case EnableCall(s) => s.id != id
    case DisableCall(s) => s.id != id && s.entryId != e
    case PostCall(s) => true
    case PutCall(s) => s.id != id && (s.enabled || s.entryId != e)
    case PatchCall(s) => s.id != id
    case DeleteCall(other) => other != id
    case JobFindsDisabled(other) => other in st.store ==> st.store[other].entryId != e
  }

  /** The next `count` store writes succeed. */
  ghost predicate WritesSucceed(w: World, st: State, count: nat) {
    forall n :: st.writes <= n < st.writes + count ==> !w.writeFails(n)
  }

  /** A pass meets no error: its writes succeed, and the schedules it has to add parse. */
  ghost predicate ErrorFree(w: World, st: State, fetched: seq<Schedule>) {
    && WritesSucceed(w, st, |fetched|)
    && (forall s :: s in fetched && s.entryId !in st.cron ==> w.parses(s.cron))
  }
}
