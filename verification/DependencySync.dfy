/**
 * Synchronizing the dependencies of one node and language with the store (Sync): a three-way
 * diff into inserts, updates and deletes, applied in one transaction.
 */
module DependencySync {
  import opened Prelude

  type Id = nat

  const RETENTION: Time := 7 * 24 * 60 * MINUTE

  datatype Status = Installing | Installed | Uninstalling | Uninstalled | Error | Abnormal

  datatype Dependency = Dependency(
    name: string, nodeId: Id, lang: string, version: string, status: Status, updatedAt: Time)

  type Store = map<Id, Dependency>

  /** A stored record with its id. */
  datatype Record = Record(id: Id, dep: Dependency)

  datatype Requested = Requested(name: string, version: string)

  /** Which part of the store a request is about, and when it is served. */
  datatype Scope = Scope(nodeId: Id, lang: string, now: Time) {

    predicate Covers(d: Dependency) {
      d.nodeId == nodeId && d.lang == lang
    }

    /** The record that a requested dependency should have. */
    function Wanted(r: Requested): Dependency {
      Dependency(r.name, nodeId, lang, r.version, Installed, now)
    }

    /** Unrequested records go only when not installed and untouched for more than seven days. */
    predicate Expired(d: Dependency) {
      d.status != Installed && now - d.updatedAt > RETENTION
    }
  }

  // ----- The diff -----

  /** Lookup by name; of two records with one name the later wins. */
  function ByName(records: seq<Record>): map<string, Record> {
    if records == [] then map[]
    else
      var n := |records| - 1;
      ByName(records[..n])[records[n].dep.name := records[n]]
  }

  function Names(requested: seq<Requested>): set<string> {
    set r | r in requested :: r.name
  }

  predicate Outdated(existing: Dependency, r: Requested) {
    existing.version != r.version || existing.status != Installed
  }

  function Inserts(scope: Scope, known: map<string, Record>, requested: seq<Requested>): seq<Dependency> {
    if requested == [] then []
    else
      var n := |requested| - 1;
      Inserts(scope, known, requested[..n])
        + if requested[n].name in known then [] else [scope.Wanted(requested[n])]
  }

  function Updates(scope: Scope, known: map<string, Record>, requested: seq<Requested>): seq<Record> {
    if requested == [] then []
    else
      var n := |requested| - 1;
      var r := requested[n];
      Updates(scope, known, requested[..n])
        + if r.name in known && Outdated(known[r.name].dep, r) then [Record(known[r.name].id, scope.Wanted(r))] else []
  }

  function Deletes(scope: Scope, records: seq<Record>, names: set<string>): seq<Id> {
    if records == [] then []
    else
      var n := |records| - 1;
      Deletes(scope, records[..n], names)
        + if records[n].dep.name !in names && scope.Expired(records[n].dep) then [records[n].id] else []
  }

  // ----- The transaction -----

  function Deleted(store: Store, ids: seq<Id>): Store {
    store - (set id | id in ids)
  }

  /** Each inserted document gets the next id. */
  function Inserted(store: Store, deps: seq<Dependency>, nextId: Id): Store {
    if deps == [] then store
    else
      var n := |deps| - 1;
      Inserted(store, deps[..n], nextId)[nextId + n := deps[n]]
  }

  function Updated(store: Store, records: seq<Record>): Store {
    if records == [] then store
    else
      var n := |records| - 1;
      Updated(store, records[..n])[records[n].id := records[n].dep]
  }

  function Sync(store: Store, scope: Scope, records: seq<Record>, requested: seq<Requested>, nextId: Id): Store {
    var known := ByName(records);
    Updated(
      Inserted(Deleted(store, Deletes(scope, records, Names(requested))), Inserts(scope, known, requested), nextId),
      Updates(scope, known, requested))
  }

  // ----- What the query returns -----

  /** Every record of the scope once, in some order. */
  ghost predicate Lists(store: Store, scope: Scope, records: seq<Record>) {
    && (forall r :: r in records ==> r.id in store && store[r.id] == r.dep && scope.Covers(r.dep))
    && (forall id :: id in store && scope.Covers(store[id]) ==> Record(id, store[id]) in records)
    && (forall i, j :: 0 <= i < j < |records| ==> records[i].id != records[j].id)
  }

  ghost predicate DistinctNames(records: seq<Record>) {
    forall i, j :: 0 <= i < j < |records| ==> records[i].dep.name != records[j].dep.name
  }

  ghost predicate DistinctRequests(requested: seq<Requested>) {
    forall i, j :: 0 <= i < j < |requested| ==> requested[i].name != requested[j].name
  }

  /** New ids are beyond all ids in use. */
  ghost predicate FreshFrom(store: Store, nextId: Id) {
    forall id :: id in store ==> id < nextId
  }

  // ----- What a sync achieves -----

  /** The record is about this dependency on the request's node and in its language. */
  predicate IsAbout(d: Dependency, scope: Scope, name: string) {
    d.nodeId == scope.nodeId && d.lang == scope.lang && d.name == name
  }

  /** A requested dependency is stored exactly once, installed at the requested version. */
  ghost predicate StoredOnce(after: Store, scope: Scope, r: Requested, id: Id) {
    && id in after && IsAbout(after[id], scope, r.name)
    && after[id].version == r.version && after[id].status == Installed
    && (forall other :: other in after && IsAbout(after[other], scope, r.name) ==> other == id)
  }

  /** What is due to a record that was there before. */
  ghost predicate Treated(store: Store, after: Store, scope: Scope, requested: seq<Requested>, id: Id)
    requires id in store
  {
    var d := store[id];
    if d.nodeId != scope.nodeId || d.lang != scope.lang then
      id in after && after[id] == d
    else if exists r :: r in requested && r.name == d.name then
      id in after && IsAbout(after[id], scope, d.name)
    else
      && (id in after <==> d.status == Installed || scope.now - d.updatedAt <= 7 * 24 * 3600 * SECOND)
      && (id in after ==> after[id] == d)
  }

  ghost predicate Synced(store: Store, after: Store, scope: Scope, requested: seq<Requested>) {
    && (forall r :: r in requested ==> exists id :: StoredOnce(after, scope, r, id))
    && (forall id :: id in store ==> Treated(store, after, scope, requested, id))
    && (forall id :: id in after && id !in store ==>
          exists r :: r in requested && IsAbout(after[id], scope, r.name))
  }

  // ----- Proofs -----

  lemma {:induction false} ByNameFinds(records: seq<Record>)
    ensures forall n :: n in ByName(records) ==> ByName(records)[n] in records && ByName(records)[n].dep.name == n
    ensures forall r :: r in records ==> r.dep.name in ByName(records)
    ensures DistinctNames(records) ==> forall r :: r in records ==> ByName(records)[r.dep.name] == r
  {
    if records != [] {
      var n := |records| - 1;
      ByNameFinds(records[..n]);
      assert records == records[..n] + [records[n]];
      if DistinctNames(records) {
        forall r | r in records ensures ByName(records)[r.dep.name] == r {
          if r != records[n] {
            var i :| 0 <= i < n && records[i] == r;
          }
        }
      }
    }
  }

  lemma {:induction false} DeletesExactly(scope: Scope, records: seq<Record>, names: set<string>)
    ensures forall id :: id in Deletes(scope, records, names) <==>
              exists r :: r in records && r.id == id && r.dep.name !in names && scope.Expired(r.dep)
  {
    if records != [] {
      var n := |records| - 1;
      DeletesExactly(scope, records[..n], names);
      assert records == records[..n] + [records[n]];
    }
  }

  lemma {:induction false} InsertsExactly(scope: Scope, known: map<string, Record>, requested: seq<Requested>)
    ensures forall d :: d in Inserts(scope, known, requested) <==>
              exists r :: r in requested && r.name !in known && d == scope.Wanted(r)
    ensures DistinctRequests(requested) ==>
              forall i, j :: 0 <= i < j < |Inserts(scope, known, requested)| ==>
                Inserts(scope, known, requested)[i].name != Inserts(scope, known, requested)[j].name
  {
    if requested != [] {
      var n := |requested| - 1;
      InsertsExactly(scope, known, requested[..n]);
      assert requested == requested[..n] + [requested[n]];
      if DistinctRequests(requested) {
        var inserts := Inserts(scope, known, requested[..n]);
        forall i | 0 <= i < |inserts| ensures inserts[i].name != requested[n].name {
          assert inserts[i] in inserts;
        }
      }
    }
  }

  lemma {:induction false} UpdatesExactly(scope: Scope, known: map<string, Record>, requested: seq<Requested>)
    ensures forall u :: u in Updates(scope, known, requested) <==>
              exists r :: r in requested && r.name in known && Outdated(known[r.name].dep, r)
                          && u == Record(known[r.name].id, scope.Wanted(r))
  {
    if requested != [] {
      var n := |requested| - 1;
      UpdatesExactly(scope, known, requested[..n]);
      assert requested == requested[..n] + [requested[n]];
    }
  }

  lemma {:induction false} InsertedAt(store: Store, deps: seq<Dependency>, nextId: Id)
    requires FreshFrom(store, nextId)
    ensures var after := Inserted(store, deps, nextId);
      && (forall id :: id in after <==> id in store || nextId <= id < nextId + |deps|)
      && (forall id :: id in store ==> after[id] == store[id])
      && (forall i :: 0 <= i < |deps| ==> after[nextId + i] == deps[i])
  {
    if deps != [] {
      InsertedAt(store, deps[..|deps| - 1], nextId);
    }
  }

  /** Every record is found as one of its updates left it, or untouched if there is none for it. */
  lemma {:induction false} UpdatedAt(store: Store, records: seq<Record>)
    ensures forall id :: id in Updated(store, records) ==>
              || Record(id, Updated(store, records)[id]) in records
              || (id in store && Updated(store, records)[id] == store[id] && forall r :: r in records ==> r.id != id)
    ensures forall id :: id in store ==> id in Updated(store, records)
    ensures forall r :: r in records ==> r.id in Updated(store, records)
  {
    if records != [] {
      var n := |records| - 1;
      UpdatedAt(store, records[..n]);
      assert records == records[..n] + [records[n]];
    }
  }

  /** A record that the sync deletes. */
  predicate Dropped(store: Store, scope: Scope, requested: seq<Requested>, id: Id)
    requires id in store
  {
    var d := store[id];
    && d.nodeId == scope.nodeId && d.lang == scope.lang && (forall r :: r in requested ==> r.name != d.name)
    && d.status != Installed && scope.now - d.updatedAt > 7 * 24 * 3600 * SECOND
  }

  /** A record that the sync left alone. */
  ghost predicate Kept(store: Store, after: Store, scope: Scope, requested: seq<Requested>, id: Id) {
    && id in store && id in after && after[id] == store[id] && !Dropped(store, scope, requested, id)
    && (forall r :: r in requested && IsAbout(store[id], scope, r.name) ==>
          store[id].version == r.version && store[id].status == Installed)
  }

  /** A record as the sync writes it. */
  predicate IsUpToDate(d: Dependency, scope: Scope, r: Requested) {
    IsAbout(d, scope, r.name) && d.version == r.version && d.status == Installed && d.updatedAt == scope.now
  }

  /** A record that the sync brought up to date. */
  ghost predicate Refreshed(store: Store, after: Store, scope: Scope, requested: seq<Requested>, id: Id) {
    && id in store && id in after
    && exists r :: r in requested && IsAbout(store[id], scope, r.name) && IsUpToDate(after[id], scope, r)
         && (store[id].version != r.version || store[id].status != Installed)
  }

  /** A record that the sync created. */
  ghost predicate Created(store: Store, after: Store, scope: Scope, requested: seq<Requested>, id: Id) {
    && id !in store && id in after
    && exists r :: r in requested && IsUpToDate(after[id], scope, r)
         && forall other :: other in store ==> !IsAbout(store[other], scope, r.name)
  }

  lemma DeletedRecords(store: Store, scope: Scope, records: seq<Record>, requested: seq<Requested>)
    requires Lists(store, scope, records)
    ensures forall id :: id in Deleted(store, Deletes(scope, records, Names(requested))) <==>
              id in store && !Dropped(store, scope, requested, id)
    ensures forall id :: id in Deleted(store, Deletes(scope, records, Names(requested))) ==>
              Deleted(store, Deletes(scope, records, Names(requested)))[id] == store[id]
  {
    DeletesExactly(scope, records, Names(requested));
    forall id | id in store
      ensures id in Deletes(scope, records, Names(requested)) <==> Dropped(store, scope, requested, id)
    {
      if scope.Covers(store[id]) {
        assert Record(id, store[id]) in records;
      }
    }
  }

  lemma UpdateRefreshes(store: Store, after: Store, scope: Scope, records: seq<Record>, requested: seq<Requested>,
      id: Id)
    requires Lists(store, scope, records) && DistinctNames(records)
    requires id in after && Record(id, after[id]) in Updates(scope, ByName(records), requested)
    ensures Refreshed(store, after, scope, requested, id)
  {
    var known := ByName(records);
    ByNameFinds(records);
    UpdatesExactly(scope, known, requested);
    var r :| r in requested && r.name in known && Outdated(known[r.name].dep, r)
             && Record(id, after[id]) == Record(known[r.name].id, scope.Wanted(r));
    assert known[r.name] in records;
  }

  lemma NoUpdateNeeded(store: Store, scope: Scope, records: seq<Record>, requested: seq<Requested>, id: Id,
      r: Requested)
    requires Lists(store, scope, records) && DistinctNames(records)
    requires id in store && r in requested && IsAbout(store[id], scope, r.name)
    requires forall u :: u in Updates(scope, ByName(records), requested) ==> u.id != id
    ensures store[id].version == r.version && store[id].status == Installed
  {
    ByNameFinds(records);
    UpdatesExactly(scope, ByName(records), requested);
    assert Record(id, store[id]) in records;
    assert Outdated(store[id], r) ==> Record(id, scope.Wanted(r)) in Updates(scope, ByName(records), requested);
  }

  lemma InsertCreates(store: Store, after: Store, scope: Scope, records: seq<Record>, requested: seq<Requested>, id: Id)
    requires Lists(store, scope, records)
    requires id !in store && id in after && after[id] in Inserts(scope, ByName(records), requested)
    ensures Created(store, after, scope, requested, id)
  {
    var known := ByName(records);
    ByNameFinds(records);
    InsertsExactly(scope, known, requested);
    var r :| r in requested && r.name !in known && after[id] == scope.Wanted(r);
    forall other | other in store ensures !IsAbout(store[other], scope, r.name) {
      if scope.Covers(store[other]) {
        assert Record(other, store[other]) in records;
      }
    }
    assert IsUpToDate(after[id], scope, r);
  }

  /** Every record of the resulting store is kept, refreshed or created. */
  lemma EveryRecord(store: Store, scope: Scope, records: seq<Record>, requested: seq<Requested>, nextId: Id, id: Id)
    requires FreshFrom(store, nextId) && Lists(store, scope, records) && DistinctNames(records)
    requires id in Sync(store, scope, records, requested, nextId)
    ensures var after := Sync(store, scope, records, requested, nextId);
      || Kept(store, after, scope, requested, id)
      || Refreshed(store, after, scope, requested, id)
      || Created(store, after, scope, requested, id)
  {
    var known := ByName(records);
    var deleted := Deleted(store, Deletes(scope, records, Names(requested)));
    var inserts, updates := Inserts(scope, known, requested), Updates(scope, known, requested);
    var inserted := Inserted(deleted, inserts, nextId);
    var after := Updated(inserted, updates);
    DeletedRecords(store, scope, records, requested);
    InsertedAt(deleted, inserts, nextId);
    UpdatedAt(inserted, updates);
    if Record(id, after[id]) in updates {
      UpdateRefreshes(store, after, scope, records, requested, id);
    } else if id in deleted {
      forall r | r in requested && IsAbout(store[id], scope, r.name)
        ensures store[id].version == r.version && store[id].status == Installed
      {
        NoUpdateNeeded(store, scope, records, requested, id, r);
      }
      assert Kept(store, after, scope, requested, id);
    } else {
      assert inserts[id - nextId] in inserts;
      InsertCreates(store, after, scope, records, requested, id);
    }
  }

  /** Whatever is not dropped stays, under its id. */
  lemma RecordStays(store: Store, scope: Scope, records: seq<Record>, requested: seq<Requested>, nextId: Id, id: Id)
    requires FreshFrom(store, nextId) && Lists(store, scope, records)
    requires id in store && !Dropped(store, scope, requested, id)
    ensures id in Sync(store, scope, records, requested, nextId)
  {
    var known := ByName(records);
    var deleted := Deleted(store, Deletes(scope, records, Names(requested)));
    DeletedRecords(store, scope, records, requested);
    InsertedAt(deleted, Inserts(scope, known, requested), nextId);
    UpdatedAt(Inserted(deleted, Inserts(scope, known, requested), nextId), Updates(scope, known, requested));
  }

  /** A requested name that is not stored gets a record. */
  lemma RequestCreated(store: Store, scope: Scope, records: seq<Record>, requested: seq<Requested>,
      nextId: Id, r: Requested)
    returns (id: Id)
    requires FreshFrom(store, nextId) && Lists(store, scope, records)
    requires r in requested && r.name !in ByName(records)
    ensures var after := Sync(store, scope, records, requested, nextId);
      id in after && after[id] == scope.Wanted(r) && id !in store
  {
    var known := ByName(records);
    var deleted := Deleted(store, Deletes(scope, records, Names(requested)));
    var inserts, updates := Inserts(scope, known, requested), Updates(scope, known, requested);
    var inserted := Inserted(deleted, inserts, nextId);
    DeletedRecords(store, scope, records, requested);
    InsertedAt(deleted, inserts, nextId);
    InsertsExactly(scope, known, requested);
    assert scope.Wanted(r) in inserts;
    var i :| 0 <= i < |inserts| && inserts[i] == scope.Wanted(r);
    id := nextId + i;
    assert id in inserted && inserted[id] == scope.Wanted(r) && id !in store;
    UpdatedAt(inserted, updates);
    UpdatesExactly(scope, known, requested);
    ByNameFinds(records);
    assert forall u :: u in updates ==> u.id in store;
  }

  /** A created record is the insert that was given its id. */
  lemma CreatedIsInsert(store: Store, scope: Scope, records: seq<Record>, requested: seq<Requested>, nextId: Id, id: Id)
    requires FreshFrom(store, nextId) && Lists(store, scope, records)
    requires id in Sync(store, scope, records, requested, nextId) && id !in store
    ensures var inserts := Inserts(scope, ByName(records), requested);
      nextId <= id < nextId + |inserts| && Sync(store, scope, records, requested, nextId)[id] == inserts[id - nextId]
  {
    var known := ByName(records);
    var deleted := Deleted(store, Deletes(scope, records, Names(requested)));
    var inserts, updates := Inserts(scope, known, requested), Updates(scope, known, requested);
    DeletedRecords(store, scope, records, requested);
    InsertedAt(deleted, inserts, nextId);
    UpdatedAt(Inserted(deleted, inserts, nextId), updates);
    UpdatesExactly(scope, known, requested);
    ByNameFinds(records);
    assert forall u :: u in updates ==> u.id in store;
  }

  /** No two records of the scope have the same name when their names were distinct before. */
  lemma NamesStayDistinct(store: Store, scope: Scope, records: seq<Record>, requested: seq<Requested>,
      nextId: Id, a: Id, b: Id)
    requires FreshFrom(store, nextId) && Lists(store, scope, records)
    requires DistinctNames(records) && DistinctRequests(requested)
    requires var after := Sync(store, scope, records, requested, nextId);
      a in after && b in after && scope.Covers(after[a]) && IsAbout(after[b], scope, after[a].name)
    ensures a == b
  {
    EveryRecord(store, scope, records, requested, nextId, a);
    EveryRecord(store, scope, records, requested, nextId, b);
    if a in store && b in store {
      OldNamesDiffer(store, scope, records, a, b);
    } else if a !in store && b !in store {
      CreatedIsInsert(store, scope, records, requested, nextId, a);
      CreatedIsInsert(store, scope, records, requested, nextId, b);
      InsertsExactly(scope, ByName(records), requested);
    }
  }

  lemma OldNamesDiffer(store: Store, scope: Scope, records: seq<Record>, a: Id, b: Id)
    requires Lists(store, scope, records) && DistinctNames(records)
    requires a in store && b in store && scope.Covers(store[a]) && IsAbout(store[b], scope, store[a].name)
    ensures a == b
  {
    var i :| 0 <= i < |records| && records[i] == Record(a, store[a]);
    var j :| 0 <= j < |records| && records[j] == Record(b, store[b]);
  }

  /** Every requested dependency ends up stored once, installed at the requested version. */
  lemma RequestStoredOnce(store: Store, scope: Scope, records: seq<Record>, requested: seq<Requested>,
      nextId: Id, r: Requested)
    returns (id: Id)
    requires FreshFrom(store, nextId) && Lists(store, scope, records)
    requires DistinctNames(records) && DistinctRequests(requested) && r in requested
    ensures StoredOnce(Sync(store, scope, records, requested, nextId), scope, r, id)
  {
    var after := Sync(store, scope, records, requested, nextId);
    ByNameFinds(records);
    if r.name in ByName(records) {
      var existing := ByName(records)[r.name];
      id := existing.id;
      assert existing in records && r.name in Names(requested);
      RecordStays(store, scope, records, requested, nextId, id);
      EveryRecord(store, scope, records, requested, nextId, id);
      SameRequest(requested, r);
    } else {
      id := RequestCreated(store, scope, records, requested, nextId, r);
    }
    forall other | other in after && IsAbout(after[other], scope, r.name)
      ensures other == id
    {
      NamesStayDistinct(store, scope, records, requested, nextId, id, other);
    }
  }

  lemma SameRequest(requested: seq<Requested>, r: Requested)
    requires DistinctRequests(requested) && r in requested
    ensures forall other :: other in requested && other.name == r.name ==> other == r
  {
    forall other | other in requested && other.name == r.name ensures other == r {
      var i :| 0 <= i < |requested| && requested[i] == other;
      var j :| 0 <= j < |requested| && requested[j] == r;
    }
  }

  /** What one sync achieves, for all stores and requests with distinct names: requested
      dependencies are installed once under their old ids, other records of the scope survive
      unless expired, and everything outside the scope is untouched. */
  lemma SyncAchieves(store: Store, scope: Scope, records: seq<Record>, requested: seq<Requested>, nextId: Id)
    requires FreshFrom(store, nextId) && Lists(store, scope, records)
    requires DistinctNames(records) && DistinctRequests(requested)
    ensures Synced(store, Sync(store, scope, records, requested, nextId), scope, requested)
  {
    var after := Sync(store, scope, records, requested, nextId);
    forall r | r in requested ensures exists id :: StoredOnce(after, scope, r, id) {
      var id := RequestStoredOnce(store, scope, records, requested, nextId, r);
    }
    forall id | id in store ensures Treated(store, after, scope, requested, id) {
      OldRecordTreated(store, scope, records, requested, nextId, id);
    }
    forall id | id in after && id !in store
      ensures exists r :: r in requested && IsAbout(after[id], scope, r.name)
    {
      EveryRecord(store, scope, records, requested, nextId, id);
    }
  }

  lemma OldRecordTreated(store: Store, scope: Scope, records: seq<Record>, requested: seq<Requested>,
      nextId: Id, id: Id)
    requires FreshFrom(store, nextId) && Lists(store, scope, records)
    requires DistinctNames(records) && id in store
    ensures Treated(store, Sync(store, scope, records, requested, nextId), scope, requested, id)
  {
    if !Dropped(store, scope, requested, id) {
      RecordStays(store, scope, records, requested, nextId, id);
    }
    if id in Sync(store, scope, records, requested, nextId) {
      EveryRecord(store, scope, records, requested, nextId, id);
    }
  }

  /** Repeating the sync at the same instant finds nothing to insert, update or delete. */
  lemma RepeatedSyncIsIdle(store: Store, after: Store, scope: Scope, requested: seq<Requested>, again: seq<Record>)
    requires Synced(store, after, scope, requested) && Lists(after, scope, again)
    ensures Inserts(scope, ByName(again), requested) == []
    ensures Updates(scope, ByName(again), requested) == []
    ensures Deletes(scope, again, Names(requested)) == []
  {
    InsertsExactly(scope, ByName(again), requested);
    UpdatesExactly(scope, ByName(again), requested);
    DeletesExactly(scope, again, Names(requested));
    forall r | r in requested
      ensures r.name in ByName(again) && !Outdated(ByName(again)[r.name].dep, r)
    {
      NothingOutdated(after, scope, requested, again, r);
    }
    forall r | r in again ensures r.dep.name in Names(requested) || !scope.Expired(r.dep) {
      NothingExpired(store, after, scope, requested, r);
    }
    EmptyWithoutElements(Inserts(scope, ByName(again), requested));
    EmptyWithoutElements(Updates(scope, ByName(again), requested));
    EmptyWithoutElements(Deletes(scope, again, Names(requested)));
  }

  lemma NothingExpired(store: Store, after: Store, scope: Scope, requested: seq<Requested>, r: Record)
    requires Synced(store, after, scope, requested)
    requires r.id in after && after[r.id] == r.dep && scope.Covers(r.dep)
    ensures r.dep.name in Names(requested) || !scope.Expired(r.dep)
  {
    if r.id in store {
      assert Treated(store, after, scope, requested, r.id);
    }
  }

  lemma NothingOutdated(after: Store, scope: Scope, requested: seq<Requested>, again: seq<Record>, r: Requested)
    requires (exists id :: StoredOnce(after, scope, r, id)) && Lists(after, scope, again)
    ensures r.name in ByName(again) && !Outdated(ByName(again)[r.name].dep, r)
  {
    var id :| StoredOnce(after, scope, r, id);
    ByNameFinds(again);
    assert Record(id, after[id]) in again;
    assert ByName(again)[r.name] in again;
  }

  lemma EmptyWithoutElements<T>(xs: seq<T>)
    ensures (forall x :: x !in xs) ==> xs == []
  {
    if xs != [] {
      assert xs[0] in xs;
    }
  }

  // ----- The service's loops -----

  lemma NextRequest(scope: Scope, known: map<string, Record>, requested: seq<Requested>, i: nat)
    requires i < |requested|
    ensures Names(requested[..i + 1]) == Names(requested[..i]) + {requested[i].name}
    ensures Inserts(scope, known, requested[..i + 1]) == Inserts(scope, known, requested[..i])
              + if requested[i].name in known then [] else [scope.Wanted(requested[i])]
    ensures Updates(scope, known, requested[..i + 1]) == Updates(scope, known, requested[..i])
              + if requested[i].name in known && Outdated(known[requested[i].name].dep, requested[i])
                then [Record(known[requested[i].name].id, scope.Wanted(requested[i]))] else []
  {
    assert requested[..i + 1][..i] == requested[..i];
    assert requested[..i + 1] == requested[..i] + [requested[i]];
  }

  class DependencyServiceServer {
    var store: Store
    var nextId: Id
    /** Node ids by node key. */
    const nodes: map<string, Id>

    constructor (store: Store, nextId: Id, nodes: map<string, Id>)
      requires FreshFrom(store, nextId)
      ensures this.store == store && this.nextId == nextId && this.nodes == nodes
    {
      this.store, this.nextId, this.nodes := store, nextId, nodes;
    }

    /** The query for one node and language, in whatever order the store yields. */
    method GetMany(scope: Scope) returns (records: seq<Record>)
      ensures Lists(store, scope, records)
    {
      records := [];
      var pending := store.Keys;
      while pending != {}
        invariant pending <= store.Keys
        invariant forall r :: r in records ==>
                    r.id in store && r.id !in pending && store[r.id] == r.dep && scope.Covers(r.dep)
        invariant forall id :: id in store && id !in pending && scope.Covers(store[id]) ==>
                    Record(id, store[id]) in records
        invariant forall i, j :: 0 <= i < j < |records| ==> records[i].id != records[j].id
      {
        var id := Pick(pending);
        pending := pending - {id};
        if scope.Covers(store[id]) {
          records := records + [Record(id, store[id])];
        }
      }
    }

    /** The lookup map; of two records with one name the later one is kept. */
    method IndexByName(records: seq<Record>) returns (known: map<string, Record>)
      ensures known == ByName(records)
    {
      known := map[];
      for i := 0 to |records|
        invariant known == ByName(records[..i])
      {
        assert records[..i + 1][..i] == records[..i];
        known := known[records[i].dep.name := records[i]];
      }
      assert records[..|records|] == records;
    }

    /** The loop over the request. */
    method Compare(scope: Scope, known: map<string, Record>, requested: seq<Requested>)
      returns (inserts: seq<Dependency>, updates: seq<Record>, names: set<string>)
      ensures inserts == Inserts(scope, known, requested)
      ensures updates == Updates(scope, known, requested)
      ensures names == Names(requested)
    {
      inserts, updates, names := [], [], {};
      for i := 0 to |requested|
        invariant inserts == Inserts(scope, known, requested[..i])
        invariant updates == Updates(scope, known, requested[..i])
        invariant names == Names(requested[..i])
      {
        NextRequest(scope, known, requested, i);
        var d := scope.Wanted(requested[i]);
        names := names + {d.name};
        if d.name !in known {
          inserts := inserts + [d];
        } else if known[d.name].dep.version != d.version || known[d.name].dep.status != Installed {
          updates := updates + [Record(known[d.name].id, d)];
        }
      }
      assert requested[..|requested|] == requested;
    }

    /** The loop over the stored records. */
    method FindExpired(scope: Scope, records: seq<Record>, names: set<string>) returns (deletes: seq<Id>)
      ensures deletes == Deletes(scope, records, names)
    {
      deletes := [];
      for i := 0 to |records|
        invariant deletes == Deletes(scope, records[..i], names)
      {
        assert records[..i + 1][..i] == records[..i];
        var d := records[i].dep;
        if d.name !in names {
          if d.status != Installed && scope.now - d.updatedAt > RETENTION {
            deletes := deletes + [records[i].id];
          }
        }
      }
      assert records[..|records|] == records;
    }

    /** Serves one request.  An unknown node, a query that fails and a transaction that does not
        commit change nothing. */
    method SyncDependencies(nodeKey: string, lang: string, now: Time, requested: seq<Requested>,
                            readable: bool, commits: bool)
      returns (ok: bool, records: seq<Record>)
      modifies this`store, this`nextId
      ensures ok == (nodeKey in nodes && readable && commits)
      ensures !ok ==> store == old(store)
      ensures ok ==>
        var scope := Scope(nodes[nodeKey], lang, now);
        Lists(old(store), scope, records) && store == Sync(old(store), scope, records, requested, old(nextId))
    {
      if nodeKey !in nodes || !readable {
        return false, [];
      }
      var scope := Scope(nodes[nodeKey], lang, now);
      records := GetMany(scope);
      var known := IndexByName(records);
      var inserts, updates, names := Compare(scope, known, requested);
      var deletes := FindExpired(scope, records, names);
      if !commits {
        return false, records;
      }
      Commit(deletes, inserts, updates);
      ok := true;
    }

    /** The transaction: deletes, then inserts, then updates. */
    method Commit(deletes: seq<Id>, inserts: seq<Dependency>, updates: seq<Record>)
      modifies this`store, this`nextId
      ensures store == Updated(Inserted(Deleted(old(store), deletes), inserts, old(nextId)), updates)
      ensures nextId == old(nextId) + |inserts|
    {
      store := store - (set id | id in deletes);
      for i := 0 to |inserts|
        invariant nextId == old(nextId) + i
        invariant store == Inserted(Deleted(old(store), deletes), inserts[..i], old(nextId))
      {
        assert inserts[..i + 1][..i] == inserts[..i];
        store := store[nextId := inserts[i]];
        nextId := nextId + 1;
      }
      assert inserts[..|inserts|] == inserts;
      ghost var inserted := store;
      for i := 0 to |updates|
        invariant nextId == old(nextId) + |inserts|
        invariant store == Updated(inserted, updates[..i])
      {
        assert updates[..i + 1][..i] == updates[..i];
        store := store[updates[i].id := updates[i].dep];
      }
      assert updates[..|updates|] == updates;
    }
  }
}
