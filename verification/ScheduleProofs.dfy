/** What the reconciler of ScheduleModel guarantees, for one pass and for whole runs. */
module ScheduleProofs {
  import opened Prelude
  import opened ScheduleModel

  // ----- Any pass, whatever fails -----

  /** The ids handed out while the allocator moved from `low` to `high`. */
  function Fresh(low: nat, high: nat): (ids: set<int>)
    ensures forall e :: e in ids <==> low < e <= high
    ensures low <= high ==> |ids| == high - low
    decreases high
  {
    if high <= low then {} else Fresh(low, high - 1) + {high}
  }

  /** The cron table gained exactly the ids handed out since, and no older entry was disturbed. */
  ghost predicate Grew(st: State, after: State) {
    && st.nextId <= after.nextId
    && (forall e :: e in after.cron <==> e in st.cron || st.nextId < e <= after.nextId)
    && (forall e :: e in st.cron ==> after.cron[e] == st.cron[e])
  }

  /** Retrying adds at most one entry per attempt, all of them for this schedule. */
  lemma {:induction false} RetryShape(w: World, st: State, s: Schedule, attempts: nat)
    requires IdsIssued(st)
    ensures var after := EnableWithRetry(w, st, s, attempts).0;
      && Grew(st, after) && after.nextId <= st.nextId + attempts
      && (forall e :: e in after.cron && e !in st.cron ==> after.cron[e] == Wanted(s))
    decreases attempts
  {
    if attempts > 0 {
      var (after, ok) := Enable(w, st, s);
      if !ok {
        RetryShape(w, after, s, attempts - 1);
      }
    }
  }

  /** The fetched schedules that a pass has to add. */
  function Missing(fetched: seq<Schedule>, live: set<int>): nat {
    if fetched == [] then 0
    else
      var n := |fetched| - 1;
      Missing(fetched[..n], live) + if fetched[n].entryId in live then 0 else 1
  }

  /** Visiting keeps every entry and adds at most three fresh ones per missing schedule. */
  lemma {:induction false} VisitAllShape(w: World, st: State, fetched: seq<Schedule>, live: set<int>)
    requires IdsIssued(st)
    ensures var after := VisitAll(w, st, fetched, live);
      Grew(st, after) && after.nextId <= st.nextId + MAX_RETRIES * Missing(fetched, live)
  {
    if fetched != [] {
      var n := |fetched| - 1;
      VisitAllShape(w, st, fetched[..n], live);
      RetryShape(w, VisitAll(w, st, fetched[..n], live), fetched[n], MAX_RETRIES);
    }
  }

  /** Of the entries listed, no more can be found than there are schedules that are not missing. */
  lemma {:induction false} MarkedAndMissing(fetched: seq<Schedule>, live: set<int>)
    ensures |live * Marked(fetched)| + Missing(fetched, live) <= |fetched|
  {
    if fetched == [] {
      assert live * Marked(fetched) == {};
    } else {
      var n := |fetched| - 1;
      var last := fetched[n];
      MarkedAndMissing(fetched[..n], live);
      OneMoreMarked(fetched);
      MarkedGrows(live, Marked(fetched[..n]), last.entryId);
    }
  }

  lemma OneMoreMarked(fetched: seq<Schedule>)
    requires fetched != []
    ensures Marked(fetched) == Marked(fetched[..|fetched| - 1]) + {fetched[|fetched| - 1].entryId}
  {
    assert fetched == fetched[..|fetched| - 1] + [fetched[|fetched| - 1]];
  }

  lemma MarkedGrows(live: set<int>, marked: set<int>, e: int)
    ensures |live * (marked + {e})| <= |live * marked| + if e in live then 1 else 0
  {
    if e in live {
      assert live * (marked + {e}) == live * marked + {e};
    } else {
      assert live * (marked + {e}) == live * marked;
    }
  }

  /** Whatever writes fail: an entry live at the start survives a pass exactly when a fetched
      schedule names it, the survivors are untouched, and all other entries left are new. */
  lemma PassRemovesExactlyTheUnreferenced(w: World, st: State, fetched: seq<Schedule>, e: int)
    requires IdsIssued(st) && e in st.cron
    ensures e in Pass(w, st, fetched).cron <==> e in Marked(fetched)
    ensures e in Marked(fetched) ==> Pass(w, st, fetched).cron[e] == st.cron[e]
  {
    VisitAllShape(w, st, fetched, st.cron.Keys);
  }

  lemma DisjointUnionSize<T>(keys: set<T>, left: set<T>, right: set<T>)
    requires forall k :: k in keys <==> k in left || k in right
    requires left !! right
    ensures |keys| == |left| + |right|
  {
    assert keys == left + right;
  }

  /** Whatever writes fail: a pass over n schedules leaves at most 3 * n live entries, counting
      the orphans of failed retries. */
  lemma PassBoundsEntries(w: World, st: State, fetched: seq<Schedule>)
    requires IdsIssued(st)
    ensures |Pass(w, st, fetched).cron| <= 3 * |fetched|
    ensures IdsIssued(Pass(w, st, fetched))
  {
    var live := st.cron.Keys;
    VisitAllShape(w, st, fetched, live);
    MarkedAndMissing(fetched, live);
    var visited, after := VisitAll(w, st, fetched, live), Pass(w, st, fetched);
    DisjointUnionSize(after.cron.Keys, live * Marked(fetched), Fresh(st.nextId, visited.nextId));
  }

  // ----- A pass that meets no error -----

  /** How one fetched schedule stands once it has been visited. */
  ghost predicate Visited(st: State, after: State, s: Schedule) {
    && s.id in after.store
    && (s.entryId in st.cron ==> after.store[s.id] == s)
    && (s.entryId !in st.cron ==>
          && after.store[s.id] == s.(entryId := after.store[s.id].entryId)
          && st.nextId < after.store[s.id].entryId
          && after.store[s.id].entryId in after.cron
          && after.cron[after.store[s.id].entryId] == Wanted(s))
  }

  function Ids(fetched: seq<Schedule>): set<Id> {
    set s | s in fetched :: s.id
  }

  /** Every new entry is named by the enabled, fetched schedule it runs. */
  ghost predicate NewEntriesOwned(st: State, after: State, ids: set<Id>) {
    forall e :: e in after.cron && e !in st.cron ==>
      && after.cron[e].owner in ids
      && Enabled(after, after.cron[e].owner)
      && after.store[after.cron[e].owner].entryId == e
  }

  /** The schedules that were not fetched are as they were. */
  ghost predicate OthersKept(st: State, after: State, ids: set<Id>) {
    && after.store.Keys == st.store.Keys
    && (forall id :: id in st.store && id !in ids ==> after.store[id] == st.store[id])
  }

  /** What holds after each iteration of an error-free pass. */
  ghost predicate VisitInv(st: State, after: State, fetched: seq<Schedule>) {
    && Grew(st, after)
    && st.writes <= after.writes <= st.writes + |fetched|
    && OthersKept(st, after, Ids(fetched))
    && (forall s :: s in fetched ==> Visited(st, after, s))
    && NewEntriesOwned(st, after, Ids(fetched))
  }

  /** One error-free iteration that adds a missing schedule. */
  lemma AddStep(w: World, st: State, before: State, fetched: seq<Schedule>, last: Schedule)
    requires Sane(st) && VisitInv(st, before, fetched)
    requires last.id !in Ids(fetched) && Enabled(st, last.id) && st.store[last.id] == last
    requires last.entryId !in st.cron && w.parses(last.cron) && !w.writeFails(before.writes)
    ensures VisitInv(st, Enable(w, before, last).0, fetched + [last])
  {
    var all, after := fetched + [last], Enable(w, before, last).0;
    assert Ids(all) == Ids(fetched) + {last.id};
    assert Visited(st, after, last);
    forall s | s in all ensures Visited(st, after, s) {
      if s in fetched {
        assert s.id in Ids(fetched) && Visited(st, before, s);
      }
    }
  }

  /** One error-free iteration, whether or not the schedule is missing. */
  lemma VisitStep(w: World, st: State, before: State, init: seq<Schedule>, last: Schedule)
    requires Sane(st) && VisitInv(st, before, init) && FetchedFrom(st, init + [last])
    requires ErrorFree(w, st, init + [last])
    ensures VisitInv(st, Visit(w, before, last, st.cron.Keys), init + [last])
  {
    var all := init + [last];
    assert all[|init|] == last && last in all;
    forall s | s in init ensures s.id != last.id {
      var i :| 0 <= i < |init| && init[i] == s;
      assert all[i] == s;
    }
    if last.entryId !in st.cron {
      RetryOnce(w, before, last);
      AddStep(w, st, before, init, last);
    } else {
      assert Ids(all) == Ids(init) + {last.id};
      assert Visited(st, before, last);
    }
  }

  lemma PrefixErrorFree(w: World, st: State, init: seq<Schedule>, last: Schedule)
    requires FetchedFrom(st, init + [last]) && ErrorFree(w, st, init + [last])
    ensures FetchedFrom(st, init) && ErrorFree(w, st, init)
  {
    var all := init + [last];
    assert forall i :: 0 <= i < |init| ==> all[i] == init[i];
    forall s | s in init ensures s in all {
    }
  }

  lemma {:induction false} VisitAllErrorFree(w: World, st: State, fetched: seq<Schedule>)
    requires Sane(st) && FetchedFrom(st, fetched) && ErrorFree(w, st, fetched)
    ensures VisitInv(st, VisitAll(w, st, fetched, st.cron.Keys), fetched)
  {
    if fetched != [] {
      var n := |fetched| - 1;
      assert fetched == fetched[..n] + [fetched[n]];
      PrefixErrorFree(w, st, fetched[..n], fetched[n]);
      VisitAllErrorFree(w, st, fetched[..n]);
      VisitStep(w, st, VisitAll(w, st, fetched[..n], st.cron.Keys), fetched[..n], fetched[n]);
    }
  }

  /** A missing schedule that parses and whose write succeeds is added at the first attempt. */
  lemma RetryOnce(w: World, st: State, s: Schedule)
    requires w.parses(s.cron) && !w.writeFails(st.writes)
    ensures EnableWithRetry(w, st, s, MAX_RETRIES) == Enable(w, st, s)
  {
  }

  /** An error-free pass brings the cron table and the store into agreement exactly when, at its
      start, no enabled schedule's stored id named an entry of another schedule. */
  lemma ErrorFreePassAgreesIffClear(w: World, st: State, fetched: seq<Schedule>)
    requires Sane(st) && Listing(st, fetched) && ErrorFree(w, st, fetched)
    ensures Agreement(Pass(w, st, fetched)) <==> Clear(st)
  {
    VisitAllErrorFree(w, st, fetched);
    var visited, after := VisitAll(w, st, fetched, st.cron.Keys), Pass(w, st, fetched);
    forall id | Enabled(st, id) ensures Visited(st, after, st.store[id]) {
      assert st.store[id] in fetched && Visited(st, visited, st.store[id]);
    }
    if Clear(st) {
      PassAgrees(st, visited, after, fetched);
    } else {
      var id :| Enabled(st, id) && st.store[id].entryId in st.cron &&
                st.cron[st.store[id].entryId] != Wanted(st.store[id]);
      assert st.store[id].entryId in Marked(fetched);
    }
  }

  lemma PassAgrees(st: State, visited: State, after: State, fetched: seq<Schedule>)
    requires Sane(st) && Listing(st, fetched) && Clear(st) && VisitInv(st, visited, fetched)
    requires after == visited.(cron := visited.cron - (st.cron.Keys - Marked(fetched)))
    requires forall id :: Enabled(st, id) ==> Visited(st, after, st.store[id])
    ensures Agreement(after)
  {
    forall id | Enabled(after, id)
      ensures after.store[id].entryId in after.cron
      ensures after.cron[after.store[id].entryId] == Wanted(after.store[id])
    {
      assert Enabled(st, id);
      assert st.store[id] in fetched && st.store[id].entryId in Marked(fetched);
    }
    forall e | e in after.cron
      ensures Enabled(after, after.cron[e].owner) && after.store[after.cron[e].owner].entryId == e
    {
      if e in st.cron {
        var s :| s in fetched && s.entryId == e;
        assert st.cron[e] == Wanted(s) && Visited(st, after, s);
      }
    }
  }

  /** From agreement, a further pass changes nothing, not even the write counter, in any world. */
  lemma {:induction false} AgreementIsStable(w: World, st: State, fetched: seq<Schedule>)
    requires Agreement(st) && Listing(st, fetched)
    ensures Pass(w, st, fetched) == st
  {
    NothingMissing(w, st, fetched);
    forall e | e in st.cron ensures e in Marked(fetched) {
      assert st.store[st.cron[e].owner] in fetched;
    }
    assert st.cron.Keys - Marked(fetched) == {};
    assert st.cron - {} == st.cron;
  }

  lemma {:induction false} NothingMissing(w: World, st: State, fetched: seq<Schedule>)
    requires forall s :: s in fetched ==> s.entryId in st.cron
    ensures VisitAll(w, st, fetched, st.cron.Keys) == st
  {
    if fetched != [] {
      NothingMissing(w, st, fetched[..|fetched| - 1]);
      assert fetched[|fetched| - 1] in fetched;
    }
  }

  /** Agreement is a bijection between the enabled schedules and the live entries. */
  lemma AgreementIsBijection(st: State, fetched: seq<Schedule>)
    requires Agreement(st) && Sane(st) && Listing(st, fetched)
    ensures Marked(fetched) == st.cron.Keys
    ensures forall i, j :: 0 <= i < j < |fetched| ==> fetched[i].entryId != fetched[j].entryId
  {
    forall i, j | 0 <= i < j < |fetched| ensures fetched[i].entryId != fetched[j].entryId {
      assert fetched[i] in fetched && fetched[j] in fetched;
      assert st.cron[fetched[i].entryId].owner == fetched[i].id;
      assert st.cron[fetched[j].entryId].owner == fetched[j].id;
    }
    forall e | e in st.cron ensures e in Marked(fetched) {
      assert st.store[st.cron[e].owner] in fetched;
    }
    forall e | e in Marked(fetched) ensures e in st.cron {
      var s :| s in fetched && s.entryId == e;
    }
  }

  // ----- Whole runs -----

  /** Adding an entry keeps the stored ids settled, whether or not the write succeeds. */
  lemma EnableKeepsSettled(w: World, st: State, s: Schedule)
    requires Settled(st)
    ensures Settled(Enable(w, st, s).0)
  {
  }

  /** Removing entries keeps the stored ids settled. */
  lemma RemoveKeepsSettled(st: State, gone: set<int>)
    requires Settled(st)
    ensures Settled(st.(cron := st.cron - gone))
  {
  }

  lemma {:induction false} RetryKeepsSettled(w: World, st: State, s: Schedule, attempts: nat)
    requires Settled(st)
    ensures Settled(EnableWithRetry(w, st, s, attempts).0)
    decreases attempts
  {
    if attempts > 0 {
      EnableKeepsSettled(w, st, s);
      RetryKeepsSettled(w, Enable(w, st, s).0, s, attempts - 1);
    }
  }

  lemma {:induction false} VisitAllKeepsSettled(w: World, st: State, fetched: seq<Schedule>, live: set<int>)
    requires Settled(st)
    ensures Settled(VisitAll(w, st, fetched, live))
  {
    if fetched != [] {
      var n := |fetched| - 1;
      VisitAllKeepsSettled(w, st, fetched[..n], live);
      RetryKeepsSettled(w, VisitAll(w, st, fetched[..n], live), fetched[n], MAX_RETRIES);
    }
  }

  /** Removing the record that a call writes, or its entry, keeps the others settled. */
  lemma DeleteKeepsSettled(w: World, st: State, id: Id)
    requires Settled(st)
    ensures Settled(Delete(w, st, id).0)
  {
  }

  lemma DisableKeepsSettled(w: World, st: State, s: Schedule)
    requires Settled(st)
    ensures Settled(Disable(w, st, s).0)
  {
  }

  /** A record written as it is keeps the stored ids in order exactly when its own id is. */
  lemma StoredIff(st: State, s: Schedule)
    requires Settled(st)
    ensures var after := st.(store := st.store[s.id := s]);
      && (Clear(after) <==> (s.enabled ==> NamesOwn(st, s)))
      && (Settled(after) <==> (s.enabled ==> NamesOwn(st, s) && s.entryId <= st.nextId))
  {
    var after := st.(store := st.store[s.id := s]);
    assert Enabled(after, s.id) <==> s.enabled;
    assert forall id :: id != s.id ==> (Enabled(after, id) <==> Enabled(st, id));
  }

  /** Writing the record and then enabling it comes to the same, unless the enable succeeds. */
  lemma StoredAndEnabledIff(w: World, st: State, before: State, s: Schedule)
    requires Settled(st) && s.enabled
    requires before == st.(store := st.store[s.id := s], writes := st.writes + 1)
    ensures var after, fine := Enable(w, before, s).0, w.parses(s.cron) && !w.writeFails(st.writes + 1);
      && (Clear(after) <==> fine || NamesOwn(Added(w, st, s), s))
      && (Settled(after) <==> fine || (NamesOwn(Added(w, st, s), s) && s.entryId <= Added(w, st, s).nextId))
  {
    var added := Added(w, st, s);
    var after := Enable(w, before, s).0;
    assert Settled(added) by {
      assert forall id :: Enabled(added, id) ==> added.store[id].entryId <= st.nextId;
    }
    StoredIff(added, after.store[s.id]);
    assert after.store == added.store[s.id := after.store[s.id]];
    assert after.cron == added.cron && after.nextId == added.nextId;
    ClearOf(after, added.(store := after.store));
  }

  /** Order among the ids does not depend on the write counter. */
  lemma ClearOf(st: State, other: State)
    requires st.store == other.store && st.cron == other.cron && st.nextId == other.nextId
    ensures Clear(st) <==> Clear(other)
    ensures Settled(st) <==> Settled(other)
  {
  }

  /** Every call, whatever writes fail, keeps the stored ids settled, and no id confused, exactly
      when it leaves no enabled record with a foreign entry id from a client behind. */
  lemma CallKeepsSettledIff(w: World, st: State, call: Call)
    requires Settled(st) && Possible(st, call)
    ensures Settled(Perform(w, st, call)) <==> KeepsSettled(w, st, call)
    ensures Clear(Perform(w, st, call)) <==> KeepsClear(w, st, call)
  {
    match call
    case FetchFails =>
    case UpdatePass(fetched) =>
      VisitAllKeepsSettled(w, st, fetched, st.cron.Keys);
      RemoveKeepsSettled(VisitAll(w, st, fetched, st.cron.Keys), st.cron.Keys - Marked(fetched));
    case EnableCall(s) => EnableKeepsSettled(w, st, s);
    case DisableCall(s) => DisableKeepsSettled(w, st, s);
    case DeleteCall(id) => DeleteKeepsSettled(w, st, id);
    case JobFindsDisabled(id) => RemoveKeepsSettled(st, {st.store[id].entryId});
    case PostCall(s) => PostKeepsSettledIff(w, st, s);
    case PutCall(s) => PutKeepsSettledIff(w, st, s);
    case PatchCall(s) =>
      StoredIff(st, s);
      ClearOf(Write(w, st, s), st.(store := Write(w, st, s).store));
  }

  lemma PostKeepsSettledIff(w: World, st: State, s: Schedule)
    requires Settled(st)
    ensures Settled(Post(w, st, s).0) <==> KeepsSettled(w, st, PostCall(s))
    ensures Clear(Post(w, st, s).0) <==> KeepsClear(w, st, PostCall(s))
  {
    var inserted := st.(store := st.store[s.id := s], writes := st.writes + 1);
    var after := Post(w, st, s).0;
    if w.writeFails(st.writes) || s.id in st.store {
      assert after == st.(writes := st.writes + 1);
      ClearOf(after, st);
    } else if s.enabled {
      assert after == Enable(w, inserted, s).0;
      StoredAndEnabledIff(w, st, inserted, s);
    } else {
      assert after == inserted;
      StoredIff(st, s);
      ClearOf(inserted, st.(store := inserted.store));
    }
  }

  lemma PutKeepsSettledIff(w: World, st: State, s: Schedule)
    requires Settled(st)
    ensures Settled(Put(w, st, s).0) <==> KeepsSettled(w, st, PutCall(s))
    ensures Clear(Put(w, st, s).0) <==> KeepsClear(w, st, PutCall(s))
  {
    var replaced := Write(w, st, s);
    if w.writeFails(st.writes) || s.id !in st.store {
      ClearOf(replaced, st);
      EnableKeepsSettled(w, replaced, s);
      DisableKeepsSettled(w, replaced, s);
    } else if s.enabled {
      StoredAndEnabledIff(w, st, replaced, s);
    } else {
      StoredIff(st, s);
      ClearOf(replaced, st.(store := replaced.store));
      DisableKeepsSettled(w, replaced, s);
    }
  }

  lemma {:induction false} RunKeepsSettled(w: World, states: seq<State>, calls: seq<Call>, i: nat)
    requires Run(w, states, calls) && Settled(states[0]) && i < |states|
    requires forall k :: 0 <= k < |calls| ==> KeepsSettled(w, states[k], calls[k])
    ensures Settled(states[i])
  {
    if i > 0 {
      RunKeepsSettled(w, states, calls, i - 1);
      CallKeepsSettledIff(w, states[i - 1], calls[i - 1]);
    }
  }

  // ----- Confusion is for good -----

  /** No call but one that touches the record or the entry ends a confusion. */
  lemma ConfusionStays(w: World, st: State, call: Call, id: Id)
    requires Sane(st) && Confused(st, id) && Possible(st, call) && Leaves(st, call, id)
    ensures Confused(Perform(w, st, call), id) && Sane(Perform(w, st, call))
    ensures Perform(w, st, call).store[id] == st.store[id]
  {
    match call
    case UpdatePass(fetched) =>
      assert st.store[id] in fetched;
      VisitAllLeaves(w, st, fetched, st.cron.Keys, id);
    case PutCall(s) => PutLeaves(w, st, s, id);
    case PostCall(s) =>
    case _ =>
  }

  lemma PutLeaves(w: World, st: State, s: Schedule, id: Id)
    requires Sane(st) && Confused(st, id) && s.id != id && (s.enabled || s.entryId != st.store[id].entryId)
    ensures Confused(Put(w, st, s).0, id) && Sane(Put(w, st, s).0) && Put(w, st, s).0.store[id] == st.store[id]
  {
  }

  lemma {:induction false} RetryLeaves(w: World, st: State, s: Schedule, attempts: nat, id: Id)
    requires Sane(st) && Confused(st, id) && s.id != id
    ensures var after := EnableWithRetry(w, st, s, attempts).0;
      Sane(after) && Confused(after, id) && after.store[id] == st.store[id]
    decreases attempts
  {
    if attempts > 0 {
      RetryLeaves(w, Enable(w, st, s).0, s, attempts - 1, id);
    }
  }

  /** A confused schedule counts as found, so a pass neither enables it anew nor drops its entry. */
  lemma {:induction false} VisitAllLeaves(w: World, st: State, fetched: seq<Schedule>, live: set<int>, id: Id)
    requires Sane(st) && Confused(st, id) && live == st.cron.Keys
    requires forall s :: s in fetched && s.id == id ==> s == st.store[id]
    ensures var after := VisitAll(w, st, fetched, live);
      Sane(after) && Confused(after, id) && after.store[id] == st.store[id]
  {
    if fetched != [] {
      var n := |fetched| - 1;
      VisitAllLeaves(w, st, fetched[..n], live, id);
      assert fetched[n] in fetched;
      if fetched[n].id != id {
        RetryLeaves(w, VisitAll(w, st, fetched[..n], live), fetched[n], MAX_RETRIES, id);
      }
    }
  }

  /** Once an id is confused, no pass in any world brings agreement, and nothing else does either
      until a call writes that schedule's record or removes the entry it names. */
  lemma {:induction false} ConfusionIsForGood(w: World, states: seq<State>, calls: seq<Call>, id: Id, i: nat)
    requires Run(w, states, calls) && Sane(states[0]) && Confused(states[0], id) && i < |states|
    requires forall k :: 0 <= k < |calls| && id in states[k].store ==> Leaves(states[k], calls[k], id)
    ensures Sane(states[i]) && Confused(states[i], id) && !Agreement(states[i])
  {
    if i > 0 {
      ConfusionIsForGood(w, states, calls, id, i - 1);
      ConfusionStays(w, states[i - 1], calls[i - 1], id);
    }
  }

  // ----- Start-up -----

  /** What holds after each iteration of an Init whose writes succeed. */
  ghost predicate InitInv(w: World, st: State, after: State, done: set<Id>) {
    && Sane(after)
    && OthersKept(st, after, done)
    && (forall id :: id in done ==>
          && id in st.store && id in after.store
          && after.store[id].cron == st.store[id].cron
          && after.store[id].enabled == w.parses(st.store[id].cron)
          && after.store[id].entryId <= after.nextId
          && (after.store[id].enabled && after.store[id].entryId in after.cron ==>
                after.cron[after.store[id].entryId] == Wanted(after.store[id])))
  }

  lemma InitStep(w: World, st: State, before: State, done: set<Id>, s: Schedule)
    requires JustStarted(st) && InitInv(w, st, before, done) && !w.writeFails(before.writes)
    requires s.id !in done && Enabled(st, s.id) && st.store[s.id] == s
    ensures InitInv(w, st, InitVisit(w, before, s), done + {s.id})
    ensures InitVisit(w, before, s).writes == before.writes + 1
  {
  }

  lemma {:induction false} InitAllErrorFree(w: World, st: State, fetched: seq<Schedule>)
    requires JustStarted(st) && FetchedFrom(st, fetched) && WritesSucceed(w, st, |fetched|)
    ensures var after := InitAll(w, st, fetched);
      InitInv(w, st, after, Ids(fetched)) && st.writes <= after.writes <= st.writes + |fetched|
  {
    if fetched != [] {
      var n := |fetched| - 1;
      var init, last := fetched[..n], fetched[n];
      InitAllErrorFree(w, st, init);
      assert fetched == init + [last] && last in fetched;
      assert Ids(fetched) == Ids(init) + {last.id};
      assert last.id !in Ids(init);
      InitStep(w, st, InitAll(w, st, init), Ids(init), last);
    }
  }

  /** An Init whose writes succeed settles all stored ids, and leaves enabled exactly the enabled
      schedules whose expression parses. */
  lemma InitSettles(w: World, st: State, fetched: seq<Schedule>)
    requires JustStarted(st) && Listing(st, fetched) && WritesSucceed(w, st, |fetched|)
    ensures Settled(InitAll(w, st, fetched))
    ensures forall id :: Enabled(InitAll(w, st, fetched), id) <==>
              Enabled(st, id) && w.parses(st.store[id].cron)
    ensures forall id :: Enabled(InitAll(w, st, fetched), id) ==>
              InitAll(w, st, fetched).store[id].cron == st.store[id].cron
  {
    InitAllErrorFree(w, st, fetched);
    var after := InitAll(w, st, fetched);
    forall id | Enabled(st, id) ensures id in Ids(fetched) {
      assert st.store[id] in fetched;
    }
    forall id | id in Ids(fetched) ensures Enabled(st, id) {
      var s :| s in fetched && s.id == id;
    }
    forall id | Enabled(after, id) ensures id in Ids(fetched) {
      assert id in Ids(fetched) || Enabled(st, id);
    }
  }

  /** The reconciler's promise.  Start with an empty cron table and arbitrary stale ids, run Init
      without write errors, then let anything happen: passes with failing writes and fetches,
      schedules created, replaced, patched, deleted, enabled and disabled, jobs that find their
      schedule disabled, as long as no call leaves an enabled record with a foreign entry id from
      a client behind.  The next pass that meets no error ends in agreement, and the pass after
      that changes nothing. */
  lemma ReconcilerConverges(w: World, start: State, listed: seq<Schedule>, states: seq<State>,
                            calls: seq<Call>, fetched: seq<Schedule>, again: seq<Schedule>)
    requires JustStarted(start) && Listing(start, listed) && WritesSucceed(w, start, |listed|)
    requires Run(w, states, calls) && states[0] == InitAll(w, start, listed)
    requires forall k :: 0 <= k < |calls| ==> KeepsSettled(w, states[k], calls[k])
    requires Listing(states[|calls|], fetched) && ErrorFree(w, states[|calls|], fetched)
    requires Listing(Pass(w, states[|calls|], fetched), again)
    ensures Agreement(Pass(w, states[|calls|], fetched))
    ensures Pass(w, Pass(w, states[|calls|], fetched), again) == Pass(w, states[|calls|], fetched)
  {
    InitSettles(w, start, listed);
    RunKeepsSettled(w, states, calls, |calls|);
    ErrorFreePassAgreesIffClear(w, states[|calls|], fetched);
    AgreementIsStable(w, Pass(w, states[|calls|], fetched), again);
  }

  lemma TwoListed(st: State, a: Schedule, b: Schedule)
    requires a.id != b.id && a.enabled && b.enabled && st.store == map[a.id := a, b.id := b]
    ensures Listing(st, [a, b])
  {
    assert [a, b][0] == a && [a, b][1] == b;
  }

  /** The assumption about Init's writes is needed.  Of two enabled schedules, the second comes
      with the stale id 1, and only the write for the second fails while Init runs: its record
      then names the first one's entry.  Whatever happens afterwards, there is no agreement until
      a call writes that record or removes that entry. */
  lemma FailedInitWriteConfuses(w: World, a: Schedule, b: Schedule, states: seq<State>, calls: seq<Call>, i: nat)
    requires a.id != b.id && a.enabled && b.enabled && b.entryId == 1
    requires w.parses(a.cron) && w.parses(b.cron) && !w.writeFails(0) && w.writeFails(1)
    requires Run(w, states, calls) && i < |states|
    requires states[0] == InitAll(w, State(map[a.id := a, b.id := b], map[], 0, 0), [a, b])
    requires forall k :: 0 <= k < |calls| && b.id in states[k].store ==> Leaves(states[k], calls[k], b.id)
    ensures
      var start := State(map[a.id := a, b.id := b], map[], 0, 0);
      JustStarted(start) && Listing(start, [a, b]) && Confused(states[i], b.id) && !Agreement(states[i])
  {
    var start := State(map[a.id := a, b.id := b], map[], 0, 0);
    var one, ready := InitVisit(w, start, a), InitAll(w, start, [a, b]);
    assert [a] + [b] == [a, b] && [] + [a] == [a];
    TwoListed(start, a, b);
    InitAllSnoc(w, start, [], a);
    InitAllSnoc(w, start, [a], b);
    assert InitAll(w, start, [a]) == one;
    assert one.cron == map[1 := Wanted(a)] && one.writes == 1 && one.store[b.id] == b;
    assert ready == InitVisit(w, one, b) && ready.store == one.store && ready.cron[1] == Wanted(a);
    ConfusionIsForGood(w, states, calls, b.id, i);
  }
}
