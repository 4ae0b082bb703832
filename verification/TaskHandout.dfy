/**
 * Handing out pending tasks to nodes (FetchTask).
 *
 * A node gets its own pinned pending tasks first, then tasks pinned to nobody, each time the one
 * with the least priority value and, among equals, the least id.  A fetch is a query and a
 * save; nothing keeps two fetches from overlapping in between.
 */
module TaskHandout {
  import opened Prelude

  type Id = nat

  const NIL_ID: Id := 0

  datatype Status = Pending | Assigned | Running | Finished | Error | Cancelled | Abnormal | NodeDisconnected

  datatype Task = Task(nodeId: Id, status: Status, priority: int, cmd: string)

  type Store = map<Id, Task>

  /** The tasks that the query { node_id: owner, status: pending } selects. */
  function Waiting(tasks: Store, owner: Id): set<Id> {
    set id | id in tasks && tasks[id].nodeId == owner && tasks[id].status == Pending
  }

  /** The sort order of the query: priority, then id. */
  predicate Before(tasks: Store, a: Id, b: Id)
    requires a in tasks && b in tasks
  {
    tasks[a].priority < tasks[b].priority || (tasks[a].priority == tasks[b].priority && a < b)
  }

  /** The one document that the sorted query with limit 1 yields. */
  ghost predicate IsFirst(tasks: Store, ids: set<Id>, first: Id)
    requires ids <= tasks.Keys
  {
    first in ids && forall id :: id in ids && id != first ==> Before(tasks, first, id)
  }

  function Assign(task: Task, node: Id): Task {
    task.(nodeId := node, status := Assigned)
  }

  /** Is there a task for this node? */
  predicate HasWork(tasks: Store, node: Id) {
    Waiting(tasks, node) != {} || Waiting(tasks, NIL_ID) != {}
  }

  /** The task that the two queries of a fetch find: pinned tasks come first. */
  ghost predicate Selects(tasks: Store, node: Id, tid: Id) {
    if Waiting(tasks, node) != {} then IsFirst(tasks, Waiting(tasks, node), tid)
    else IsFirst(tasks, Waiting(tasks, NIL_ID), tid)
  }

  /** One undisturbed fetch by a node: the task id it returns and the store it leaves. */
  ghost predicate Fetches(tasks: Store, node: Id, tid: Id, after: Store) {
    if HasWork(tasks, node) then Selects(tasks, node, tid) && after == tasks[tid := Assign(tasks[tid], node)]
    else tid == NIL_ID && after == tasks
  }

  // ----- What a fetch does, task by task -----

  predicate Pends(tasks: Store, id: Id, owner: Id) {
    id in tasks && tasks[id].status == Pending && tasks[id].nodeId == owner
  }

  /** The next task for a node: pending, its own before anybody's, the least priority value first,
      and the least id among equals. */
  ghost predicate IsNext(tasks: Store, node: Id, tid: Id) {
    && tid in tasks && Pends(tasks, tid, tasks[tid].nodeId)
    && (tasks[tid].nodeId == node || (tasks[tid].nodeId == NIL_ID && forall id :: !Pends(tasks, id, node)))
    && forall id :: Pends(tasks, id, tasks[tid].nodeId) ==>
         tasks[tid].priority < tasks[id].priority || (tasks[tid].priority == tasks[id].priority && tid <= id)
  }

  /** The next task, if there is one, becomes the node's, and nothing else changes. */
  ghost predicate Serves(tasks: Store, node: Id, tid: Id, after: Store) {
    if exists id :: Pends(tasks, id, node) || Pends(tasks, id, NIL_ID) then
      && IsNext(tasks, node, tid)
      && after.Keys == tasks.Keys
      && after[tid].nodeId == node && after[tid].status == Assigned
      && after[tid].priority == tasks[tid].priority && after[tid].cmd == tasks[tid].cmd
      && forall id :: id in tasks && id != tid ==> after[id] == tasks[id]
    else
      tid == NIL_ID && after == tasks
  }

  /** The two sorted queries find the next task and no other one. */
  lemma SelectsIffNext(tasks: Store, node: Id, tid: Id)
    ensures Selects(tasks, node, tid) <==> IsNext(tasks, node, tid)
    ensures HasWork(tasks, node) <==> exists id :: Pends(tasks, id, node) || Pends(tasks, id, NIL_ID)
  {
    assert forall owner, id :: id in Waiting(tasks, owner) <==> Pends(tasks, id, owner);
    if id :| Pends(tasks, id, node) || Pends(tasks, id, NIL_ID) {
      assert id in Waiting(tasks, node) + Waiting(tasks, NIL_ID);
    }
    if HasWork(tasks, node) {
      var id :| id in Waiting(tasks, node) + Waiting(tasks, NIL_ID);
      assert Pends(tasks, id, node) || Pends(tasks, id, NIL_ID);
    }
    if IsNext(tasks, node, tid) {
      assert tid in Waiting(tasks, tasks[tid].nodeId);
      assert Waiting(tasks, node) != {} ==> exists id :: Pends(tasks, id, node);
    }
  }

  lemma FetchesIffServes(tasks: Store, node: Id, tid: Id, after: Store)
    ensures Fetches(tasks, node, tid, after) <==> Serves(tasks, node, tid, after)
  {
    SelectsIffNext(tasks, node, tid);
    if Serves(tasks, node, tid, after) && HasWork(tasks, node) {
      assert after[tid] == Assign(tasks[tid], node);
      assert after == tasks[tid := Assign(tasks[tid], node)];
    }
  }

  // ----- One node fetching again and again -----

  /** The tasks of a set in the order of the query. */
  ghost predicate Queue(tasks: Store, ids: set<Id>, queue: seq<Id>)
    requires ids <= tasks.Keys
  {
    && (forall id :: id in ids <==> id in queue)
    && (forall i, j :: 0 <= i < j < |queue| ==> Before(tasks, queue[i], queue[j]))
  }

  ghost predicate FetchRun(stores: seq<Store>, node: Id, tids: seq<Id>) {
    && |stores| == |tids| + 1
    && forall i :: 0 <= i < |tids| ==> Fetches(stores[i], node, tids[i], stores[i + 1])
  }

  lemma {:induction false} FirstExists(tasks: Store, ids: set<Id>) returns (first: Id)
    requires ids <= tasks.Keys && ids != {}
    ensures IsFirst(tasks, ids, first)
    decreases ids
  {
    var id :| id in ids;
    if ids == {id} {
      first := id;
    } else {
      first := FirstExists(tasks, ids - {id});
      assert forall x :: x in ids && x != id ==> x in ids - {id};
      if Before(tasks, id, first) {
        first := id;
      }
    }
  }

  lemma {:induction false} QueueExists(tasks: Store, ids: set<Id>) returns (queue: seq<Id>)
    requires ids <= tasks.Keys
    ensures Queue(tasks, ids, queue)
    decreases ids
  {
    if ids == {} {
      queue := [];
    } else {
      var first := FirstExists(tasks, ids);
      var rest := QueueExists(tasks, ids - {first});
      queue := [first] + rest;
      assert forall id :: id in ids - {first} <==> id in rest;
      assert forall i :: 0 <= i < |rest| ==> rest[i] in ids - {first};
    }
  }

  /** The head of the queue is what the query yields. */
  lemma QueueHead(tasks: Store, ids: set<Id>, queue: seq<Id>, first: Id)
    requires ids <= tasks.Keys && Queue(tasks, ids, queue) && IsFirst(tasks, ids, first)
    ensures queue != [] && queue[0] == first
  {
    assert first in queue;
    assert queue[0] in ids;
  }

  lemma QueueEmpty(tasks: Store, ids: set<Id>, queue: seq<Id>)
    requires ids <= tasks.Keys && Queue(tasks, ids, queue)
    ensures ids == {} <==> queue == []
  {
    if queue != [] {
      assert queue[0] in ids;
    }
  }

  /** Assigning the head of a queue leaves the rest of it, and the other queue, in place. */
  lemma QueueTail(tasks: Store, owner: Id, node: Id, queue: seq<Id>, after: Store)
    requires Queue(tasks, Waiting(tasks, owner), queue) && queue != [] && queue[0] in tasks
    requires after == tasks[queue[0] := Assign(tasks[queue[0]], node)]
    ensures Queue(after, Waiting(after, owner), queue[1..])
  {
    assert forall i :: 0 < i < |queue| ==> queue[i] in Waiting(tasks, owner) && queue[i] != queue[0];
    forall id | id in Waiting(after, owner) ensures id in queue[1..] {
      assert id in Waiting(tasks, owner) && id in queue;
    }
  }

  lemma QueueKept(tasks: Store, owner: Id, node: Id, queue: seq<Id>, tid: Id, after: Store)
    requires Queue(tasks, Waiting(tasks, owner), queue) && tid in tasks && tid !in Waiting(tasks, owner)
    requires after == tasks[tid := Assign(tasks[tid], node)]
    ensures Queue(after, Waiting(after, owner), queue)
  {
    assert Waiting(after, owner) == Waiting(tasks, owner);
    assert forall i :: 0 <= i < |queue| ==> queue[i] in Waiting(tasks, owner);
  }

  /** A node that keeps fetching gets its pinned queue, then the common queue, then nil forever,
      and no task appears or disappears. */
  lemma {:induction false} FetchesDrainQueues(stores: seq<Store>, node: Id, tids: seq<Id>,
                                              pinned: seq<Id>, common: seq<Id>)
    requires FetchRun(stores, node, tids) && node != NIL_ID
    requires Queue(stores[0], Waiting(stores[0], node), pinned)
    requires Queue(stores[0], Waiting(stores[0], NIL_ID), common)
    ensures forall i :: 0 <= i < |tids| ==>
              tids[i] == if i < |pinned| then pinned[i]
                         else if i < |pinned| + |common| then common[i - |pinned|] else NIL_ID
    ensures forall i :: 0 <= i < |stores| ==> stores[i].Keys == stores[0].Keys
  {
    if tids != [] {
      var tasks, after, tid := stores[0], stores[1], tids[0];
      assert Fetches(tasks, node, tid, after);
      var pinned', common' := pinned, common;
      if Waiting(tasks, node) != {} {
        QueueHead(tasks, Waiting(tasks, node), pinned, tid);
        QueueTail(tasks, node, node, pinned, after);
        QueueKept(tasks, NIL_ID, node, common, tid, after);
        pinned' := pinned[1..];
      } else {
        QueueEmpty(tasks, Waiting(tasks, node), pinned);
        if Waiting(tasks, NIL_ID) != {} {
          QueueHead(tasks, Waiting(tasks, NIL_ID), common, tid);
          QueueTail(tasks, NIL_ID, node, common, after);
          QueueKept(tasks, node, node, pinned, tid, after);
          common' := common[1..];
        } else {
          QueueEmpty(tasks, Waiting(tasks, NIL_ID), common);
        }
      }
      assert FetchRun(stores[1..], node, tids[1..]);
      FetchesDrainQueues(stores[1..], node, tids[1..], pinned', common');
      forall i | 0 <= i < |tids|
        ensures tids[i] == if i < |pinned| then pinned[i]
                           else if i < |pinned| + |common| then common[i - |pinned|] else NIL_ID
      {
        if i > 0 {
          assert tids[i] == tids[1..][i - 1];
        }
      }
      forall i | 0 <= i < |stores| ensures stores[i].Keys == stores[0].Keys {
        if i > 0 {
          assert stores[i] == stores[1..][i - 1];
        }
      }
    }
  }

  // ----- Any nodes fetching in any order -----

  /** A fetch between its query and its save: for whom, and the document it read. */
  datatype Flight = Flight(node: Id, tid: Id, task: Task)

  /** The store, all task ids ever given out by the database, and the fetches under way. */
  datatype State = State(tasks: Store, used: set<Id>, flights: map<nat, Flight>)

  datatype Event =
    | Read(fetch: nat, node: Id, tid: Id)
    | Save(fetch: nat)
    | SaveFails(fetch: nat)
    | OtherWork

  /** What anything else may do to the store: create tasks under new ids, change them in any
      way, delete them.  A save whose transaction cannot be committed is one of these changes. */
  ghost predicate OtherStep(st: State, after: State) {
    && st.used <= after.used && after.flights == st.flights
    && (forall id :: id in after.tasks && id !in st.tasks ==> id !in st.used)
    && (forall id :: id in after.tasks ==> id in after.used)
  }

  ghost predicate EventStep(st: State, event: Event, after: State) {
    match event
    case Read(f, node, tid) =>
      && f !in st.flights && after.tasks == st.tasks && after.used == st.used
      && if HasWork(st.tasks, node)
         then Selects(st.tasks, node, tid) && after.flights == st.flights[f := Flight(node, tid, st.tasks[tid])]
         else tid == NIL_ID && after.flights == st.flights
    case Save(f) =>
      // Replacing a document that is gone does nothing and reports no error.
      && f in st.flights && after.used == st.used && after.flights == st.flights - {f}
      && var flight := st.flights[f];
         after.tasks == if flight.tid in st.tasks
                        then st.tasks[flight.tid := Assign(flight.task, flight.node)] else st.tasks
    case SaveFails(f) =>
      f in st.flights && after == st.(flights := st.flights - {f})
    case OtherWork => OtherStep(st, after)
  }

  /** The database files tasks under real ids only, and only those can be read. */
  ghost predicate Sane(st: State) {
    && st.tasks.Keys <= st.used && NIL_ID !in st.used
    && (forall f :: f in st.flights ==> st.flights[f].tid in st.used)
  }

  ghost predicate History(states: seq<State>, events: seq<Event>) {
    && |states| == |events| + 1
    && (forall i :: 0 <= i < |states| ==> Sane(states[i]))
    && (forall i :: 0 <= i < |events| ==> EventStep(states[i], events[i], states[i + 1]))
  }

  /** The save of a fetch that returns this task. */
  predicate HandsOut(st: State, event: Event, tid: Id) {
    event.Save? && event.fetch in st.flights && st.flights[event.fetch].tid == tid
  }

  predicate IsPending(st: State, id: Id) {
    id in st.tasks && st.tasks[id].status == Pending
  }

  /** A step that puts a task back to pending. */
  predicate PutBack(st: State, after: State, id: Id) {
    id in st.tasks && !IsPending(st, id) && IsPending(after, id)
  }

  /** A query followed at once by its save is an undisturbed fetch. */
  lemma FetchIsReadThenSave(st: State, f: nat, node: Id, tid: Id, mid: State, after: State)
    requires Sane(st) && EventStep(st, Read(f, node, tid), mid)
    requires if HasWork(st.tasks, node) then EventStep(mid, Save(f), after) else after == mid
    ensures Fetches(st.tasks, node, tid, after.tasks) && after.flights == st.flights
  {
    if HasWork(st.tasks, node) {
      assert mid.flights - {f} == st.flights;
    }
  }

  // ----- What one fetch has done -----

  /** A fetch holds the same flight at all moments from r to j. */
  ghost predicate Holds(states: seq<State>, f: nat, flight: Flight, r: nat, j: nat)
    requires j < |states|
  {
    forall k :: r <= k <= j ==> f in states[k].flights && states[k].flights[f] == flight
  }

  /** The query of a fetch: it found this task first in its queue. */
  ghost predicate Took(st: State, event: Event, f: nat, flight: Flight) {
    && event == Read(f, flight.node, flight.tid) && f !in st.flights && HasWork(st.tasks, flight.node)
    && Selects(st.tasks, flight.node, flight.tid) && flight.task == st.tasks[flight.tid]
  }

  /** A flight was there from the start, or comes from a query since. */
  lemma {:induction false} FlightSince(states: seq<State>, events: seq<Event>, i: nat, j: nat, f: nat)
    returns (r: nat)
    requires History(states, events) && i <= j < |states| && f in states[j].flights
    ensures i <= r <= j && Holds(states, f, states[j].flights[f], r, j)
    ensures r == i || Took(states[r - 1], events[r - 1], f, states[j].flights[f])
    decreases j
  {
    r := j;
    if i < j {
      assert EventStep(states[j - 1], events[j - 1], states[j]);
      if f in states[j - 1].flights {
        r := FlightSince(states, events, i, j - 1, f);
      }
    }
  }

  /** Whatever comes in between: the task that a save hands out was read while it was pending and
      pinned to the fetching node or to nobody, first in its queue; after the save, if it still
      is stored, it is assigned to that node with the priority and the command that were read,
      and no other task has changed. */
  lemma SaveAssigns(states: seq<State>, events: seq<Event>, i: nat, tid: Id) returns (r: nat)
    requires History(states, events) && states[0].flights == map[]
    requires i < |events| && HandsOut(states[i], events[i], tid)
    ensures r < i && IsPending(states[r], tid)
    ensures
      var node, read := states[i].flights[events[i].fetch].node, states[r].tasks[tid];
      var before, after := states[i].tasks, states[i + 1].tasks;
      && events[r] == Read(events[i].fetch, node, tid) && IsNext(states[r].tasks, node, tid)
      && (tid in before ==>
            && tid in after && after[tid].nodeId == node && after[tid].status == Assigned
            && after[tid].priority == read.priority && after[tid].cmd == read.cmd)
      && after.Keys == before.Keys && forall id :: id in before && id != tid ==> after[id] == before[id]
  {
    r := FlightSince(states, events, 0, i, events[i].fetch);
    r := r - 1;
    assert EventStep(states[i], events[i], states[i + 1]);
    SelectsIffNext(states[r].tasks, states[i].flights[events[i].fetch].node, tid);
  }

  // ----- One task handed out twice -----

  /** A task that is not pending can only be put back by other work: fetches never do it. */
  lemma {:induction false} PutBackInBetween(states: seq<State>, events: seq<Event>, i: nat, r: nat, tid: Id)
    returns (k: nat)
    requires History(states, events) && i <= r < |states|
    requires tid in states[i].used && !IsPending(states[i], tid) && IsPending(states[r], tid)
    ensures i <= k < r && events[k].OtherWork? && PutBack(states[k], states[k + 1], tid)
    decreases r - i
  {
    assert EventStep(states[i], events[i], states[i + 1]) && Sane(states[i]);
    if IsPending(states[i + 1], tid) {
      k := i;
    } else {
      k := PutBackInBetween(states, events, i + 1, r, tid);
    }
  }

  /** If a save hands out a task that an earlier save handed out already, then its query came
      before that save, or other work has put the task back to pending in between. */
  lemma TaskTwiceNeedsOverlapOrPutBack(states: seq<State>, events: seq<Event>, i: nat, r: nat, j: nat, tid: Id)
    requires History(states, events) && i < j < |events| && r < j
    requires HandsOut(states[i], events[i], tid) && HandsOut(states[j], events[j], tid)
    requires events[r].Read? && events[r].tid == tid && events[j].fetch == events[r].fetch
    ensures r < i || exists k :: i < k < r && events[k].OtherWork? && PutBack(states[k], states[k + 1], tid)
  {
    assert EventStep(states[i], events[i], states[i + 1]) && EventStep(states[r], events[r], states[r + 1]);
    if i < r {
      assert Sane(states[i]) && tid in states[i + 1].used;
      var k := PutBackInBetween(states, events, i + 1, r, tid);
    }
  }

  /** Both ways happen.  Whenever two fetches find the same task, each may query before the
      other saves: both nodes are given the task, and it ends with the one that saved last. */
  lemma OverlapHandsOutTwice(st: State, f: nat, g: nat, m: Id, n: Id, tid: Id)
    returns (states: seq<State>, events: seq<Event>)
    requires Sane(st) && f != g && f !in st.flights && g !in st.flights
    requires HasWork(st.tasks, m) && HasWork(st.tasks, n) && Selects(st.tasks, m, tid) && Selects(st.tasks, n, tid)
    ensures History(states, events) && states[0] == st
    ensures events == [Read(f, m, tid), Read(g, n, tid), Save(f), Save(g)]
    ensures HandsOut(states[2], events[2], tid) && states[3].tasks == st.tasks[tid := Assign(st.tasks[tid], m)]
    ensures HandsOut(states[3], events[3], tid) && states[4].tasks == st.tasks[tid := Assign(st.tasks[tid], n)]
  {
    var task := st.tasks[tid];
    var one := st.(flights := st.flights[f := Flight(m, tid, task)]);
    var two := one.(flights := one.flights[g := Flight(n, tid, task)]);
    var three := State(st.tasks[tid := Assign(task, m)], st.used, two.flights - {f});
    var four := State(three.tasks[tid := Assign(task, n)], st.used, three.flights - {g});
    states, events := [st, one, two, three, four], [Read(f, m, tid), Read(g, n, tid), Save(f), Save(g)];
  }

  /** And whenever a node has fetched a task, resetting that task to pending, as the
      reconciliation of nodes does, lets the node fetch it again. */
  lemma PutBackHandsOutTwice(tasks: Store, node: Id, tid: Id, after: Store)
    requires NIL_ID !in tasks && node != NIL_ID && HasWork(tasks, node) && Fetches(tasks, node, tid, after)
    ensures Fetches(after[tid := after[tid].(status := Pending)], node, tid, after)
  {
    var reset := after[tid := after[tid].(status := Pending)];
    assert Waiting(reset, node) == Waiting(tasks, node) + {tid};
    assert reset[tid := Assign(reset[tid], node)] == after;
  }

  // ----- When a task is handed out twice, exactly -----

  /** Two saves hand out this task. */
  ghost predicate HandedOutTwice(states: seq<State>, events: seq<Event>, tid: Id)
    requires |states| == |events| + 1
  {
    exists i: nat, j: nat ::
      i < j < |events| && HandsOut(states[i], events[i], tid) && HandsOut(states[j], events[j], tid)
  }

  /** When the task is saved for one fetch, another holds it too, keeps it, and is saved later. */
  ghost predicate Overlap(states: seq<State>, events: seq<Event>, tid: Id, i: nat, j: nat)
    requires |states| == |events| + 1 && i < j < |events|
  {
    && HandsOut(states[i], events[i], tid) && events[j].Save? && events[j].fetch in states[i].flights
    && states[i].flights[events[j].fetch].tid == tid
    && Holds(states, events[j].fetch, states[i].flights[events[j].fetch], i, j)
  }

  /** After the task was saved for one fetch, other work puts it back to pending, and then a
      fetch takes it, keeps it, and is saved. */
  ghost predicate Reset(states: seq<State>, events: seq<Event>, tid: Id, i: nat, k: nat, r: nat, j: nat)
    requires |states| == |events| + 1 && i < k < r < j < |events|
  {
    && HandsOut(states[i], events[i], tid)
    && events[k].OtherWork? && PutBack(states[k], states[k + 1], tid)
    && events[j].Save? && events[j].fetch in states[j].flights && states[j].flights[events[j].fetch].tid == tid
    && Took(states[r], events[r], events[j].fetch, states[j].flights[events[j].fetch])
    && Holds(states, events[j].fetch, states[j].flights[events[j].fetch], r + 1, j)
  }

  /** How the second of two saves came by the task. */
  lemma SecondHandOut(states: seq<State>, events: seq<Event>, tid: Id, i: nat, j: nat)
    requires History(states, events) && i < j < |events|
    requires HandsOut(states[i], events[i], tid) && HandsOut(states[j], events[j], tid)
    ensures
      || Overlap(states, events, tid, i, j)
      || exists k: nat, r: nat :: i < k < r < j && Reset(states, events, tid, i, k, r, j)
  {
    var r := FlightSince(states, events, i, j, events[j].fetch);
    if r > i {
      assert EventStep(states[i], events[i], states[i + 1]);
      assert Sane(states[i]) && tid in states[i + 1].used;
      var k := PutBackInBetween(states, events, i + 1, r - 1, tid);
      assert Reset(states, events, tid, i, k, r - 1, j);
    }
  }

  /** In every history: a task is handed out twice if and only if at some save of it another
      fetch holds it as well, up to its own save, or it is put back to pending and fetched anew. */
  lemma TwiceIff(states: seq<State>, events: seq<Event>, tid: Id)
    requires History(states, events)
    ensures HandedOutTwice(states, events, tid) <==>
      || (exists i: nat, j: nat :: i < j < |events| && Overlap(states, events, tid, i, j))
      || (exists i: nat, k: nat, r: nat, j: nat ::
            i < k < r < j < |events| && Reset(states, events, tid, i, k, r, j))
  {
    if HandedOutTwice(states, events, tid) {
      var i: nat, j: nat :|
        i < j < |events| && HandsOut(states[i], events[i], tid) && HandsOut(states[j], events[j], tid);
      SecondHandOut(states, events, tid, i, j);
    }
    if i: nat, j: nat :| i < j < |events| && Overlap(states, events, tid, i, j) {
      assert HandsOut(states[j], events[j], tid);
    }
    if i: nat, k: nat, r: nat, j: nat :| i < k < r < j < |events| && Reset(states, events, tid, i, k, r, j) {
      assert HandsOut(states[j], events[j], tid);
    }
  }

  /** So where nothing is put back, fetches that overlap are the only way. */
  lemma TwiceIffOverlap(states: seq<State>, events: seq<Event>, tid: Id)
    requires History(states, events)
    requires forall k :: 0 <= k < |events| ==> !PutBack(states[k], states[k + 1], tid)
    ensures HandedOutTwice(states, events, tid) <==>
      exists i: nat, j: nat :: i < j < |events| && Overlap(states, events, tid, i, j)
  {
    TwiceIff(states, events, tid);
  }

  /** One fetch f for node m, one fetch g for node n, and nothing else. */
  ghost predicate OneFetchEach(events: seq<Event>, f: nat, m: Id, g: nat, n: Id) {
    && (forall i :: 0 <= i < |events| ==>
          match events[i]
          case Read(h, node, _) => (h == f && node == m) || (h == g && node == n)
          case Save(h) => h == f || h == g
          case SaveFails(h) => h == f || h == g
          case OtherWork => false)
    && (forall i, j :: 0 <= i < j < |events| && events[i].Read? && events[j].Read? ==>
          events[i].fetch != events[j].fetch)
  }

  /** A fetch that reads once is saved at most once. */
  lemma GoneAfterSave(states: seq<State>, events: seq<Event>, f: nat, m: Id, g: nat, n: Id, h: nat, i: nat, fetch: nat)
    requires History(states, events) && OneFetchEach(events, f, m, g, n) && fetch !in states[0].flights
    requires h < i < |states| && h < |events| && events[h] == Save(fetch)
    ensures fetch !in states[i].flights
  {
    if fetch in states[i].flights {
      assert EventStep(states[h], events[h], states[h + 1]);
      var before := FlightSince(states, events, 0, h, fetch);
      var again := FlightSince(states, events, h + 1, i, fetch);
    }
  }

  /** Without saves and other work the store stays as it is. */
  lemma {:induction false} TasksUntouched(states: seq<State>, events: seq<Event>, i: nat)
    requires History(states, events) && i < |states|
    requires forall h :: 0 <= h < i ==> !events[h].Save? && !events[h].OtherWork?
    ensures states[i].tasks == states[0].tasks
  {
    if i > 0 {
      TasksUntouched(states, events, i - 1);
      assert EventStep(states[i - 1], events[i - 1], states[i]);
    }
  }

  /** If two saves of such a run hand out one task, both queries found it in the first store. */
  lemma BothSelected(states: seq<State>, events: seq<Event>, f: nat, m: Id, g: nat, n: Id, tid: Id, i: nat, j: nat)
    requires History(states, events) && OneFetchEach(events, f, m, g, n)
    requires f !in states[0].flights && g !in states[0].flights
    requires i < j < |events| && HandsOut(states[i], events[i], tid) && HandsOut(states[j], events[j], tid)
    ensures Selects(states[0].tasks, m, tid) && Selects(states[0].tasks, n, tid)
  {
    var a, b := events[i].fetch, events[j].fetch;
    assert events[i].Save? && events[j].Save?;
    GoneAfterSave(states, events, f, m, g, n, i, j, a);
    forall h | 0 <= h < i ensures !events[h].Save? {
      if events[h].Save? {
        GoneAfterSave(states, events, f, m, g, n, h, i, events[h].fetch);
        GoneAfterSave(states, events, f, m, g, n, h, j, events[h].fetch);
      }
    }
    var r := FlightSince(states, events, 0, i, a);
    TasksUntouched(states, events, r - 1);
    var q := FlightSince(states, events, 0, j, b);
    TaskTwiceNeedsOverlapOrPutBack(states, events, i, q - 1, j, tid);
    TasksUntouched(states, events, q - 1);
  }

  /** What a caller can check beforehand: from a given store, one fetch by m and one by n can give
      out one task twice, in some order of their queries and saves, if and only if the two nodes
      find the same task first. */
  lemma TwoFetchesIff(st: State, f: nat, m: Id, g: nat, n: Id)
    requires Sane(st) && f != g && f !in st.flights && g !in st.flights
    ensures
      (exists states: seq<State>, events: seq<Event>, tid: Id ::
         && History(states, events) && states[0] == st && OneFetchEach(events, f, m, g, n)
         && HandedOutTwice(states, events, tid))
      <==> exists tid :: Selects(st.tasks, m, tid) && Selects(st.tasks, n, tid)
  {
    forall states: seq<State>, events: seq<Event>, tid: Id |
      && History(states, events) && states[0] == st && OneFetchEach(events, f, m, g, n)
      && HandedOutTwice(states, events, tid)
      ensures Selects(st.tasks, m, tid) && Selects(st.tasks, n, tid)
    {
      var i: nat, j: nat :|
        i < j < |events| && HandsOut(states[i], events[i], tid) && HandsOut(states[j], events[j], tid);
      BothSelected(states, events, f, m, g, n, tid, i, j);
    }
    if tid :| Selects(st.tasks, m, tid) && Selects(st.tasks, n, tid) {
      var states, events := OverlapHandsOutTwice(st, f, g, m, n, tid);
      assert HandedOutTwice(states, events, tid);
    }
  }

  // ----- The service -----

  datatype Response = TaskId(id: Id) | Failure(message: string)

  class TaskServiceServer {
    var tasks: Store
    /** Node ids by node key. */
    var nodes: map<string, Id>

    constructor (tasks: Store, nodes: map<string, Id>)
      ensures this.tasks == tasks && this.nodes == nodes
    {
      this.tasks, this.nodes := tasks, nodes;
    }

    /** GetOne with the sort and limit of FetchTask; None stands for "no documents". */
    method GetFirstWaiting(owner: Id) returns (tid: Option<Id>)
      ensures tid.None? <==> Waiting(tasks, owner) == {}
      ensures tid.Some? ==> IsFirst(tasks, Waiting(tasks, owner), tid.value)
      ensures tid.None? <==> forall id :: !Pends(tasks, id, owner)
      ensures tid.Some? ==> Pends(tasks, tid.value, owner) && forall id :: Pends(tasks, id, owner) ==>
                || tasks[tid.value].priority < tasks[id].priority
                || (tasks[tid.value].priority == tasks[id].priority && tid.value <= id)
    {
      tid := None;
      var pending := tasks.Keys;
      while pending != {}
        invariant pending <= tasks.Keys
        invariant tid.None? ==> Waiting(tasks, owner) <= pending
        invariant tid.Some? ==> tid.value in Waiting(tasks, owner)
        invariant tid.Some? ==> forall id :: id in Waiting(tasks, owner) && id !in pending && id != tid.value ==>
                    Before(tasks, tid.value, id)
      {
        var id := Pick(pending);
        pending := pending - {id};
        if tasks[id].nodeId == owner && tasks[id].status == Pending {
          if tid.None? || Before(tasks, id, tid.value) {
            tid := Some(id);
          }
        }
      }
      assert forall id :: id in Waiting(tasks, owner) <==> Pends(tasks, id, owner);
      assert Waiting(tasks, owner) != {} ==> exists id :: Pends(tasks, id, owner);
    }

    /** ReplaceById: a task that is gone stays gone. */
    method SaveTask(tid: Id, task: Task, writable: bool) returns (ok: bool)
      modifies this`tasks
      ensures ok == writable
      ensures tasks == if ok && tid in old(tasks) then old(tasks)[tid := task] else old(tasks)
    {
      ok := writable;
      if ok && tid in tasks {
        tasks := tasks[tid := task];
      }
    }

    /** Do the queries and the save of a fetch go through? */
    static ghost predicate Performs(
      tasks: Store, node: Id, pinnedReadable: bool, commonReadable: bool, writable: bool)
    {
      && pinnedReadable && ((forall id :: !Pends(tasks, id, node)) ==> commonReadable)
      && ((exists id :: Pends(tasks, id, node) || Pends(tasks, id, NIL_ID)) ==> writable)
    }

    /** `opens` is whether client, session and transaction can be had, `commits` whether the
        transaction can be ended.  The calls inside do not use the session, so a commit that
        fails takes nothing back: the task stays assigned, and nobody is told. */
    method FetchTask(nodeKey: string, opens: bool, pinnedReadable: bool, commonReadable: bool, writable: bool,
                     commits: bool)
      returns (response: Response)
      modifies this`tasks
      ensures response.TaskId? ==>
                nodeKey != "" && nodeKey in nodes && Serves(old(tasks), nodes[nodeKey], response.id, tasks)
      ensures response.Failure? <==>
                || nodeKey == "" || nodeKey !in nodes || !opens || !commits
                || !Performs(old(tasks), nodes[nodeKey], pinnedReadable, commonReadable, writable)
      ensures response.Failure? ==>
                if nodeKey != "" && nodeKey in nodes && opens
                   && Performs(old(tasks), nodes[nodeKey], pinnedReadable, commonReadable, writable)
                then exists tid :: Serves(old(tasks), nodes[nodeKey], tid, tasks)
                else tasks == old(tasks)
    {
      if nodeKey == "" {
        return Failure("invalid node key");
      }
      if nodeKey !in nodes {
        return Failure("unknown node");
      }
      if !opens {
        return Failure("cannot start a transaction");
      }
      var tid, ok := FetchInTransaction(nodes[nodeKey], pinnedReadable, commonReadable, writable);
      FetchesIffServes(old(tasks), nodes[nodeKey], tid, tasks);
      return if !ok then Failure("cannot fetch task") else if !commits then Failure("cannot commit") else TaskId(tid);
    }

    method FetchInTransaction(node: Id, pinnedReadable: bool, commonReadable: bool, writable: bool)
      returns (tid: Id, ok: bool)
      modifies this`tasks
      ensures ok <==> Performs(old(tasks), node, pinnedReadable, commonReadable, writable)
      ensures if ok then Fetches(old(tasks), node, tid, tasks) else tasks == old(tasks)
    {
      tid, ok := NIL_ID, false;
      SelectsIffNext(tasks, node, tid);
      if !pinnedReadable {
        return;
      }
      var pinned := GetFirstWaiting(node);
      if pinned.Some? {
        tid := pinned.value;
        ok := SaveTask(tid, tasks[tid].(status := Assigned), writable);
        return;
      }
      if !commonReadable {
        return;
      }
      var common := GetFirstWaiting(NIL_ID);
      if common.Some? {
        tid := common.value;
        ok := SaveTask(tid, tasks[tid].(nodeId := node, status := Assigned), writable);
        return;
      }
      ok := true;
    }
  }
}
