/**
 * What each operation on schedules comes to, told in terms of the record and its cron entry: what
 * a call that answers "ok" has brought about, and what every call leaves alone.
 */
module ScheduleEffects {
  import opened Prelude
  import opened ScheduleModel
  import opened ScheduleProofs

  /** The schedule is stored and enabled, and its entry is live and runs it on its expression. */
  predicate Runs(st: State, id: Id, cron: string) {
    && id in st.store && st.store[id].id == id && st.store[id].cron == cron && st.store[id].enabled
    && st.store[id].entryId in st.cron
    && st.cron[st.store[id].entryId].owner == id && st.cron[st.store[id].entryId].spec == cron
  }

  /** The schedule is stored and disabled, and names no entry. */
  predicate Rests(st: State, id: Id, cron: string) {
    && id in st.store && st.store[id].id == id && st.store[id].cron == cron
    && !st.store[id].enabled && st.store[id].entryId == -1
  }

  /** No record but this one has changed. */
  ghost predicate OnlyRecord(st: State, after: State, id: Id) {
    forall other :: other != id ==>
      && (other in after.store <==> other in st.store)
      && (other in st.store ==> after.store[other] == st.store[other])
  }

  /** The entries of before are all there, and one more. */
  ghost predicate OneMoreEntry(st: State, after: State, e: int) {
    && e !in st.cron && (forall x :: x in after.cron <==> x in st.cron || x == e)
    && forall x :: x in st.cron ==> after.cron[x] == st.cron[x]
  }

  /** The entries of before are all there but one. */
  ghost predicate WithoutEntry(st: State, after: State, e: int) {
    && (forall x :: x in after.cron <==> x in st.cron && x != e)
    && forall x :: x in after.cron ==> after.cron[x] == st.cron[x]
  }

  /** Enabling answers "ok" exactly when the expression parses and the write succeeds.  The stored
      record then is enabled under a fresh entry that runs it.  A failed write leaves the records
      as they were and an entry behind; an expression that does not parse leaves everything. */
  lemma EnableDoes(w: World, st: State, s: Schedule)
    requires Sane(st)
    ensures
      var (after, ok) := Enable(w, st, s);
      && (ok <==> w.parses(s.cron) && !w.writeFails(st.writes))
      && (ok && s.id in st.store ==>
            && Runs(after, s.id, s.cron) && OnlyRecord(st, after, s.id)
            && OneMoreEntry(st, after, after.store[s.id].entryId))
      && (!w.parses(s.cron) ==> after == st)
      && (w.parses(s.cron) && (!ok || s.id !in st.store) ==>
            after.store == st.store && exists e :: OneMoreEntry(st, after, e))
  {
    var (after, ok) := Enable(w, st, s);
    if w.parses(s.cron) {
      assert OneMoreEntry(st, after, st.nextId + 1);
    }
  }

  /** Disabling answers "ok" exactly when the write succeeds.  The stored record then is disabled
      and names no entry, and the entry that the caller's copy named is gone. */
  lemma DisableDoes(w: World, st: State, s: Schedule)
    ensures
      var (after, ok) := Disable(w, st, s);
      && (ok <==> !w.writeFails(st.writes))
      && (ok && s.id in st.store ==> Rests(after, s.id, s.cron))
      && (ok ==> OnlyRecord(st, after, s.id) && after.store.Keys == st.store.Keys)
      && (ok && s.entryId != -1 ==> WithoutEntry(st, after, s.entryId))
      && (ok && s.entryId == -1 ==> after.cron == st.cron)
      && (!ok ==> after.store == st.store && after.cron == st.cron)
  {
  }

  /** Retrying enables a schedule that parses if and only if one of the writes succeeds. */
  lemma {:induction false} RetryEnablesIff(w: World, st: State, s: Schedule, attempts: nat)
    requires Sane(st) && s.id in st.store
    ensures
      var (after, ok) := EnableWithRetry(w, st, s, attempts);
      && (ok <==> w.parses(s.cron) && exists n :: st.writes <= n < st.writes + attempts && !w.writeFails(n))
      && (ok ==> Runs(after, s.id, s.cron))
      && (!ok ==> after.store == st.store)
      && OnlyRecord(st, after, s.id) && after.store.Keys == st.store.Keys && Sane(after)
    decreases attempts
  {
    if attempts > 0 {
      var (next, ok) := Enable(w, st, s);
      EnableDoes(w, st, s);
      if ok {
        assert st.writes <= st.writes < st.writes + attempts && !w.writeFails(st.writes);
      } else {
        RetryEnablesIff(w, next, s, attempts - 1);
        if w.parses(s.cron) {
          assert forall n :: st.writes <= n < st.writes + attempts && !w.writeFails(n) ==> n >= next.writes;
        }
      }
    }
  }

  /** One success among the next three writes: a missing schedule that parses runs after its visit. */
  lemma VisitEnables(w: World, st: State, s: Schedule, live: set<int>)
    requires Sane(st) && s.id in st.store && s.enabled && s.entryId !in live && w.parses(s.cron)
    requires exists n :: st.writes <= n < st.writes + 3 && !w.writeFails(n)
    ensures Runs(Visit(w, st, s, live), s.id, s.cron)
  {
    RetryEnablesIff(w, st, s, MAX_RETRIES);
  }

  /** What a client is promised that creates a schedule. */
  lemma PostDoes(w: World, st: State, s: Schedule)
    requires Sane(st)
    ensures
      var (after, ok) := Post(w, st, s);
      && (ok <==> s.id !in st.store && !w.writeFails(st.writes)
                  && (s.enabled ==> w.parses(s.cron) && !w.writeFails(st.writes + 1)))
      && (ok && s.enabled ==> Runs(after, s.id, s.cron) && OneMoreEntry(st, after, after.store[s.id].entryId))
      && (ok && !s.enabled ==> s.id in after.store && after.store[s.id] == s && after.cron == st.cron)
      && (s.id in st.store || w.writeFails(st.writes) ==> after.store == st.store && after.cron == st.cron)
      && OnlyRecord(st, after, s.id)
  {
    var inserted := st.(store := st.store[s.id := s], writes := st.writes + 1);
    if s.id !in st.store && !w.writeFails(st.writes) {
      if s.enabled {
        EnableDoes(w, inserted, s);
      }
    }
  }

  /** ... and that replaces one. */
  lemma PutDoes(w: World, st: State, s: Schedule)
    requires Sane(st)
    ensures
      var (after, ok) := Put(w, st, s);
      && (ok <==> !w.writeFails(st.writes) && !w.writeFails(st.writes + 1) && (s.enabled ==> w.parses(s.cron)))
      && (ok && s.id in st.store && s.enabled ==>
            Runs(after, s.id, s.cron) && OneMoreEntry(st, after, after.store[s.id].entryId))
      && (ok && s.id in st.store && !s.enabled ==>
            Rests(after, s.id, s.cron)
            && (if s.entryId == -1 then after.cron == st.cron else WithoutEntry(st, after, s.entryId)))
      && (w.writeFails(st.writes) ==> after.store == st.store && after.cron == st.cron)
      && OnlyRecord(st, after, s.id) && after.store.Keys == st.store.Keys
  {
    var replaced := Write(w, st, s);
    if !w.writeFails(st.writes) {
      assert replaced.writes == st.writes + 1;
      if s.enabled {
        EnableDoes(w, replaced, s);
      } else {
        DisableDoes(w, replaced, s);
      }
    }
  }

  /** Deleting removes the record and nothing else. */
  lemma DeleteDoes(w: World, st: State, id: Id)
    ensures
      var (after, ok) := Delete(w, st, id);
      && (ok <==> !w.writeFails(st.writes))
      && (ok ==> id !in after.store) && (!ok ==> after.store == st.store)
      && OnlyRecord(st, after, id) && after.cron == st.cron
  {
  }

  /** A record that a pass has touched: enabled, missing from the entries listed, and now under a
      fresh entry of its own.  Nothing else about it has changed. */
  ghost predicate Readded(st: State, after: State, id: Id)
    requires id in st.store
  {
    var s := st.store[id];
    && s.enabled && s.entryId !in st.cron && Runs(after, id, s.cron)
    && after.store[id].entryId > st.nextId
  }

  ghost predicate PassShape(st: State, after: State, ids: set<Id>) {
    && Sane(after) && Grew(st, after) && after.store.Keys == st.store.Keys
    && forall id :: id in st.store ==> after.store[id] == st.store[id] || (id in ids && Readded(st, after, id))
  }

  lemma {:induction false} VisitAllTouches(w: World, st: State, fetched: seq<Schedule>)
    requires Sane(st) && FetchedFrom(st, fetched)
    ensures PassShape(st, VisitAll(w, st, fetched, st.cron.Keys), Ids(fetched))
  {
    if fetched != [] {
      var n := |fetched| - 1;
      var init, last := fetched[..n], fetched[n];
      assert fetched == init + [last] && last in fetched;
      assert forall i :: 0 <= i < n ==> init[i] == fetched[i];
      VisitAllTouches(w, st, init);
      assert Ids(fetched) == Ids(init) + {last.id};
      if last.entryId !in st.cron {
        assert last.id !in Ids(init);
        VisitTouches(w, st, VisitAll(w, st, init, st.cron.Keys), last, Ids(init));
      }
    }
  }

  lemma VisitTouches(w: World, st: State, before: State, last: Schedule, ids: set<Id>)
    requires PassShape(st, before, ids) && last.id !in ids && last.id in st.store && st.store[last.id] == last
    requires last.enabled && last.entryId !in st.cron
    ensures PassShape(st, EnableWithRetry(w, before, last, MAX_RETRIES).0, ids + {last.id})
  {
    var (after, ok) := EnableWithRetry(w, before, last, MAX_RETRIES);
    RetryShape(w, before, last, MAX_RETRIES);
    RetryEnablesIff(w, before, last, MAX_RETRIES);
    RetryIsFresh(w, before, last, MAX_RETRIES);
    forall id | id in st.store
      ensures after.store[id] == st.store[id] || (id in ids + {last.id} && Readded(st, after, id))
    {
      if id != last.id {
        assert after.store[id] == before.store[id];
      } else {
        assert before.store[id] == st.store[id];
      }
    }
  }

  lemma {:induction false} RetryIsFresh(w: World, st: State, s: Schedule, attempts: nat)
    requires Sane(st) && s.id in st.store
    ensures var (after, ok) := EnableWithRetry(w, st, s, attempts);
      ok ==> s.id in after.store && after.store[s.id].entryId > st.nextId
    decreases attempts
  {
    if attempts > 0 {
      RetryIsFresh(w, Enable(w, st, s).0, s, attempts - 1);
    }
  }

  /** Whatever writes fail: a pass changes no record but those of enabled schedules that were
      missing from the cron table, and those only by giving them a fresh entry of their own. */
  lemma PassTouchesOnlyMissing(w: World, st: State, fetched: seq<Schedule>, id: Id)
    requires Sane(st) && Listing(st, fetched)
    ensures var after := Pass(w, st, fetched);
      && after.store.Keys == st.store.Keys
      && (id in st.store ==> after.store[id] == st.store[id] || Readded(st, after, id))
  {
    VisitAllTouches(w, st, fetched);
  }

  /** When every enabled schedule parses and the writes succeed, Init ends in agreement at once. */
  lemma InitAgrees(w: World, st: State, fetched: seq<Schedule>)
    requires JustStarted(st) && Listing(st, fetched) && WritesSucceed(w, st, |fetched|)
    requires forall s :: s in fetched ==> w.parses(s.cron)
    ensures Agreement(InitAll(w, st, fetched))
  {
    PassIsInit(w, st, fetched);
    ErrorFreePassAgreesIffClear(w, st, fetched);
  }

  /** A first pass over an empty cron table is such an Init. */
  lemma PassIsInit(w: World, st: State, fetched: seq<Schedule>)
    requires JustStarted(st) && FetchedFrom(st, fetched) && WritesSucceed(w, st, |fetched|)
    requires forall s :: s in fetched ==> w.parses(s.cron)
    ensures Pass(w, st, fetched) == InitAll(w, st, fetched)
  {
    InitIsPass(w, st, fetched);
    assert st.cron.Keys == {};
    NothingRemoved(InitAll(w, st, fetched), st.cron.Keys - Marked(fetched));
  }

  lemma NothingRemoved(st: State, gone: set<int>)
    requires gone == {}
    ensures st.(cron := st.cron - gone) == st
  {
    assert st.cron - gone == st.cron;
  }

  lemma {:induction false} InitIsPass(w: World, st: State, fetched: seq<Schedule>)
    requires JustStarted(st) && FetchedFrom(st, fetched) && WritesSucceed(w, st, |fetched|)
    requires forall s :: s in fetched ==> w.parses(s.cron)
    ensures var after := InitAll(w, st, fetched);
      after == VisitAll(w, st, fetched, {}) && st.writes <= after.writes <= st.writes + |fetched|
  {
    if fetched != [] {
      var n := |fetched| - 1;
      InitIsPass(w, st, fetched[..n]);
      assert fetched[n] in fetched;
      RetryOnce(w, InitAll(w, st, fetched[..n]), fetched[n]);
    }
  }
}
