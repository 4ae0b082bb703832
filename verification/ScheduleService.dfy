/**
 * The schedule service's methods over its own fields, each proved to perform the corresponding
 * operation of ScheduleModel.  Together with ScheduleProofs this carries the reconciler's
 * guarantees over to the loops below.
 */
module ScheduleService {
  import opened Prelude
  import opened ScheduleModel

  class Service {
    /** The collection of schedules, and the cron library's table. */
    var store: map<Id, Schedule>
    var cron: map<int, Entry>
    var nextId: nat
    var writes: nat
    /** The schedules fetched last. */
    var schedules: seq<Schedule>

    const world: World

    constructor (world: World, store: map<Id, Schedule>)
      requires forall id :: id in store ==> store[id].id == id
      ensures this.world == world && View() == State(store, map[], 0, 0)
      ensures JustStarted(View())
    {
      this.world, this.store := world, store;
      cron, nextId, writes, schedules := map[], 0, 0, [];
    }

    function View(): State
      reads this
    {
      State(store, cron, nextId, writes)
    }

    /** ReplaceById: either the record is replaced, if it is there, or nothing happens. */
    method ReplaceById(s: Schedule) returns (ok: bool)
      modifies this`store, this`writes
      ensures View() == Write(world, old(View()), s)
      ensures ok == !world.writeFails(old(writes))
    {
      ok := !world.writeFails(writes);
      writes := writes + 1;
      if ok && s.id in store {
        store := store[s.id := s];
      }
    }

    method Enable(s: Schedule) returns (ok: bool)
      modifies this`store, this`cron, this`nextId, this`writes
      ensures (View(), ok) == ScheduleModel.Enable(world, old(View()), s)
    {
      if !world.parses(s.cron) {
        return false;
      }
      nextId := nextId + 1;
      cron := cron[nextId := Entry(s.id, s.cron)];
      ok := ReplaceById(s.(enabled := true, entryId := nextId));
    }

    method Disable(s: Schedule) returns (ok: bool)
      modifies this`store, this`cron, this`writes
      ensures (View(), ok) == ScheduleModel.Disable(world, old(View()), s)
    {
      var entryId := s.entryId;
      ok := ReplaceById(s.(enabled := false, entryId := NO_ENTRY));
      if ok && entryId != NO_ENTRY {
        cron := cron - {entryId};
      }
    }

    method EnableWithRetry(s: Schedule, maxRetries: nat) returns (ok: bool)
      modifies this`store, this`cron, this`nextId, this`writes
      ensures (View(), ok) == ScheduleModel.EnableWithRetry(world, old(View()), s, maxRetries)
    {
      for i := 0 to maxRetries
        invariant ScheduleModel.EnableWithRetry(world, old(View()), s, maxRetries)
               == ScheduleModel.EnableWithRetry(world, View(), s, maxRetries - i)
      {
        ok := Enable(s);
        if ok {
          return true;
        }
      }
      ok := false;
    }

    /** The cron entries, none of them found yet. */
    method GetEntryIdsMap() returns (found: map<int, bool>)
      ensures found.Keys == cron.Keys
      ensures forall e :: e in found ==> !found[e]
    {
      found := map e | e in cron :: false;
    }

    /** Reads the enabled schedules in whatever order the store yields them. */
    method Fetch(available: bool) returns (ok: bool)
      requires Sane(View())
      modifies this`schedules
      ensures ok == available
      ensures ok ==> Listing(View(), schedules)
    {
      schedules := [];
      if !available {
        return false;
      }
      var pending := set id | id in store && store[id].enabled;
      ghost var all := pending;
      while pending != {}
        invariant pending <= all
        invariant FetchedFrom(View(), schedules)
        invariant forall s :: s in schedules ==> s.id in all && s.id !in pending
        invariant forall id :: id in all && id !in pending ==> store[id] in schedules
      {
        var id := Pick(pending);
        pending := pending - {id};
        schedules := schedules + [store[id]];
      }
      ok := true;
    }

    method Init(available: bool) returns (ok: bool)
      requires Sane(View())
      modifies this
      ensures ok == available
      ensures !ok ==> View() == old(View())
      ensures ok ==> Listing(old(View()), schedules)
      ensures ok ==> View() == InitAll(world, old(View()), schedules)
    {
      ok := Fetch(available);
      if !ok {
        return;
      }
      var listed := schedules;
      for i := 0 to |listed|
        invariant schedules == listed
        invariant View() == InitAll(world, old(View()), listed[..i])
      {
        var s := listed[i];
        InitAllSnoc(world, old(View()), listed[..i], s);
        assert listed[..i] + [s] == listed[..i + 1];
        if s.enabled {
          if !world.parses(s.cron) {
            var disabled := Disable(s);
            continue;
          }
          var enabled := Enable(s);
        }
      }
      assert listed[..|listed|] == listed;
    }

    method Update(available: bool)
      requires Sane(View())
      modifies this
      ensures !available ==> View() == old(View())
      ensures available ==> Listing(old(View()), schedules)
      ensures available ==> View() == Pass(world, old(View()), schedules)
    {
      var ok := Fetch(available);
      if !ok {
        return;
      }
      var found := GetEntryIdsMap();
      ghost var live := cron.Keys;
      var listed := schedules;
      for i := 0 to |listed|
        invariant schedules == listed
        invariant View() == VisitAll(world, old(View()), listed[..i], live)
        invariant found.Keys == live
        invariant forall e :: e in live ==> (found[e] <==> e in Marked(listed[..i]))
      {
        var s := listed[i];
        assert listed[..i + 1][..i] == listed[..i] && listed[..i + 1][i] == s;
        assert listed[..i + 1] == listed[..i] + [s];
        if s.entryId !in found {
          if s.enabled {
            var enabled := EnableWithRetry(s, MAX_RETRIES);
          }
        } else {
          found := found[s.entryId := true];
        }
      }
      assert listed[..|listed|] == listed;
      assert forall e :: e in found ==> (found[e] <==> e in Marked(schedules));
      assert live - Marked(schedules) == (set e | e in found && !found[e]);
      RemoveNotFound(found);
    }

    /** The last loop of update: drop every entry that no schedule was found for. */
    method RemoveNotFound(found: map<int, bool>)
      modifies this`cron
      ensures cron == old(cron) - (set e | e in found && !found[e])
    {
      var pending := found.Keys;
      while pending != {}
        invariant pending <= found.Keys
        invariant cron == old(cron) - (set e | e in found && !found[e] && e !in pending)
      {
        var id := Pick(pending);
        pending := pending - {id};
        if !found[id] {
          cron := cron - {id};
        }
      }
    }
  }

  /** The HTTP handlers that edit schedules.  They write what the client sent before they ask the
      service to enable or disable it. */
  class ScheduleController {
    const svc: Service

    constructor (svc: Service)
      ensures this.svc == svc
    {
      this.svc := svc;
    }

    /** `s` is the record with the id it is given. */
    method PostSchedule(s: Schedule) returns (ok: bool)
      modifies svc`store, svc`cron, svc`nextId, svc`writes
      ensures (svc.View(), ok) == Post(svc.world, old(svc.View()), s)
    {
      var inserts := !svc.world.writeFails(svc.writes) && s.id !in svc.store;
      svc.writes := svc.writes + 1;
      if !inserts {
        return false;
      }
      svc.store := svc.store[s.id := s];
      ok := true;
      if s.enabled {
        ok := svc.Enable(s);
      }
    }

    method PutScheduleById(id: Id, s: Schedule) returns (ok: bool)
      modifies svc`store, svc`cron, svc`nextId, svc`writes
      ensures s.id != id ==> !ok && svc.View() == old(svc.View())
      ensures s.id == id ==> (svc.View(), ok) == Put(svc.world, old(svc.View()), s)
    {
      if s.id != id {
        return false;
      }
      ok := svc.ReplaceById(s);
      if !ok {
        return;
      }
      if s.enabled {
        ok := svc.Enable(s);
      } else {
        ok := svc.Disable(s);
      }
    }

    /** Enables or disables a schedule as it is stored. */
    method PostScheduleEnableDisable(isEnable: bool, id: Id) returns (ok: bool)
      modifies svc`store, svc`cron, svc`nextId, svc`writes
      ensures id !in old(svc.store) ==> !ok && svc.View() == old(svc.View())
      ensures id in old(svc.store) ==>
        var s := old(svc.store)[id];
        (svc.View(), ok) == if isEnable then ScheduleModel.Enable(svc.world, old(svc.View()), s)
                            else ScheduleModel.Disable(svc.world, old(svc.View()), s)
    {
      if id !in svc.store {
        return false;
      }
      var s := svc.store[id];
      if isEnable {
        ok := svc.Enable(s);
      } else {
        ok := svc.Disable(s);
      }
    }

    method DeleteById(id: Id) returns (ok: bool)
      modifies svc`store, svc`writes
      ensures (svc.View(), ok) == Delete(svc.world, old(svc.View()), id)
    {
      ok := !svc.world.writeFails(svc.writes);
      svc.writes := svc.writes + 1;
      if ok {
        svc.store := svc.store - {id};
      }
    }
  }
}
