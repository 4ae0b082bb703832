/**
 * Fixed-window rate limiting: RateLimiter.Allow, the per-node limiter of the sync endpoints, and
 * the classification of request paths.
 */
module RateWindows {
  import opened Prelude

  /** The window of one key; a key without an entry has the zero window. */
  datatype Window = Window(start: Time, count: nat)

  type Windows = map<string, Window>

  /** The window that a request at time `now` falls into, before it is counted. */
  function Current(entries: Windows, key: string, now: Time, length: Time): Window {
    if key !in entries || now - entries[key].start >= length then Window(now, 0) else entries[key]
  }

  /** One request: a denied one leaves no trace. */
  function Allow(entries: Windows, key: string, limit: int, length: Time, now: Time): (Windows, bool) {
    var entry := Current(entries, key, now, length);
    if entry.count >= limit then (entries, false)
    else (entries[key := entry.(count := entry.count + 1)], true)
  }

  class RateLimiter {
    var entries: Windows

    constructor ()
      ensures entries == map[]
    {
      entries := map[];
    }

    method AllowRequest(key: string, limit: int, length: Time, now: Time) returns (ok: bool)
      modifies this
      ensures (entries, ok) == Allow(old(entries), key, limit, length, now)
    {
      var entry := if key in entries then entries[key] else Window(0, 0);
      if key !in entries || now - entry.start >= length {
        entry := Window(now, 0);
      }
      if entry.count >= limit {
        return false;
      }
      entries := entries[key := entry.(count := entry.count + 1)];
      return true;
    }
  }

  /** The sync endpoints keep windows of their own, per node. */
  class SyncNodeRates {
    var values: Windows

    constructor ()
      ensures values == map[]
    {
      values := map[];
    }

    /** Takes the same step as the limiter above, with its own constants. */
    method AllowSyncNodeRequest(nodeKey: string, now: Time) returns (ok: bool)
      modifies this
      ensures (values, ok) == Allow(old(values), nodeKey, 120, 60 * SECOND, now)
    {
      var known := nodeKey in values;
      var state := if known then values[nodeKey] else Window(0, 0);
      if !known || now - state.start >= SYNC_NODE_RATE_WINDOW {
        state := Window(now, 0);
      }
      if state.count >= SYNC_NODE_RATE_LIMIT {
        return false;
      }
      state := state.(count := state.count + 1);
      values := values[nodeKey := state];
      return true;
    }
  }

  const SYNC_NODE_RATE_LIMIT: nat := 120
  const SYNC_NODE_RATE_WINDOW: Time := MINUTE

  // ----- Whole runs -----

  datatype Request = Request(key: string, now: Time)

  /** What every key is limited to. */
  datatype Policy = Policy(limit: string -> int, length: string -> Time)

  /** The windows after a run of requests. */
  function After(p: Policy, requests: seq<Request>): Windows {
    if requests == [] then map[]
    else
      var n := |requests| - 1;
      var r := requests[n];
      Allow(After(p, requests[..n]), r.key, p.limit(r.key), p.length(r.key), r.now).0
  }

  /** Is this request admitted after that run? */
  predicate Admits(p: Policy, earlier: seq<Request>, r: Request) {
    Allow(After(p, earlier), r.key, p.limit(r.key), p.length(r.key), r.now).1
  }

  /** How many requests for a key were admitted at times from `from` to `to`, both included. */
  function Admissions(p: Policy, requests: seq<Request>, key: string, from: Time, to: Time): nat {
    if requests == [] then 0
    else
      var n := |requests| - 1;
      var r := requests[n];
      Admissions(p, requests[..n], key, from, to)
        + if r.key == key && from <= r.now <= to && Admits(p, requests[..n], r) then 1 else 0
  }

  /** The clock does not go backwards. */
  ghost predicate Ordered(requests: seq<Request>) {
    forall i, j :: 0 <= i <= j < |requests| ==> requests[i].now <= requests[j].now
  }

  /** A window that starts at least one length later is at least one step further along. */
  lemma NextWindow(first: Time, start: Time, next: Time, w: nat)
    requires w > 0 && first <= start && start + w <= next
    ensures (start - first) / w + 1 <= (next - first) / w
  {
    var q := (start - first) / w;
    assert (q + 1) * w <= next - first;
    DivAtLeast(next - first, w, q + 1);
  }

  lemma DivMonotone(a: int, b: int, w: nat)
    requires w > 0 && a <= b
    ensures a / w <= b / w
  {
    DivAtLeast(b, w, a / w);
  }

  /** How many admissions an interval can have seen, given the key's current window. */
  predicate Within(adm: nat, entry: Option<Window>, limit: nat, w: nat, from: Time, to: Time)
    requires w > 0
  {
    var first := from - w + 1;
    if entry.None? || entry.value.start < first then adm == 0
    else if entry.value.start <= to then adm <= limit * ((entry.value.start - first) / w) + entry.value.count
    else adm <= limit * ((to - first) / w) + limit
  }

  /** The bound survives an admission, whether it continues the window or opens a new one. */
  lemma WithinStep(adm: nat, entry: Option<Window>, limit: nat, w: nat, from: Time, to: Time, now: Time)
    requires limit > 0 && w > 0 && from <= to && Within(adm, entry, limit, w, from, to)
    requires entry.Some? ==> entry.value.start <= now && entry.value.count <= limit
    ensures var counted := if from <= now <= to then 1 else 0;
      && (entry.Some? && now - entry.value.start < w ==>
            Within(adm + counted, Some(Window(entry.value.start, entry.value.count + 1)), limit, w, from, to))
      && (entry.None? || now - entry.value.start >= w ==>
            Within(adm + counted, Some(Window(now, 1)), limit, w, from, to))
  {
    var first := from - w + 1;
    if entry.Some? && first <= entry.value.start && entry.value.start + w <= now {
      if now <= to {
        NextWindow(first, entry.value.start, now, w);
        MulGrows(limit, (entry.value.start - first) / w, (now - first) / w);
      } else if entry.value.start <= to {
        DivMonotone(entry.value.start - first, to - first, w);
        MulGrows(limit, (entry.value.start - first) / w, (to - first) / w + 1);
      }
    }
    if first <= now {
      DivAtLeast(now - first, w, 0);
      MulNonNegative(limit, (now - first) / w);
    }
  }

  lemma MulNonNegative(a: int, b: int)
    requires a >= 0 && b >= 0
    ensures a * b >= 0
  {
  }

  /** One step further along makes room for one more full window. */
  lemma MulGrows(limit: int, a: int, b: int)
    requires limit > 0 && a + 1 <= b
    ensures limit * a + limit <= limit * b
  {
    MulNonNegative(limit, b - a - 1);
    assert limit * b == limit * a + limit * (b - a - 1) + limit;
  }

  function EntryOf(entries: Windows, key: string): Option<Window> {
    if key in entries then Some(entries[key]) else None
  }

  /** The window of a key was opened by one of its requests and is never over-full. */
  ghost predicate WindowSane(p: Policy, requests: seq<Request>, key: string) {
    key in After(p, requests) ==>
      && 1 <= After(p, requests)[key].count <= p.limit(key)
      && exists i :: 0 <= i < |requests| && requests[i].now == After(p, requests)[key].start
  }

  lemma {:induction false} WindowStaysSane(p: Policy, requests: seq<Request>, key: string)
    ensures WindowSane(p, requests, key)
  {
    if requests != [] {
      var n := |requests| - 1;
      WindowStaysSane(p, requests[..n], key);
      assert requests[n].now == requests[n].now;
    }
  }

  lemma {:induction false} StaysWithin(p: Policy, requests: seq<Request>, key: string, from: Time, to: Time)
    requires Ordered(requests) && from <= to && p.limit(key) > 0 && p.length(key) > 0
    ensures Within(Admissions(p, requests, key, from, to), EntryOf(After(p, requests), key),
                   p.limit(key), p.length(key), from, to)
  {
    if requests != [] {
      var n := |requests| - 1;
      StaysWithin(p, requests[..n], key, from, to);
      WindowStaysSane(p, requests[..n], key);
      WithinStep(Admissions(p, requests[..n], key, from, to), EntryOf(After(p, requests[..n]), key),
                 p.limit(key), p.length(key), from, to, requests[n].now);
    }
  }

  /** In any run, any interval of length L sees at most limit * (ceil(L / W) + 1) admissions of a key. */
  lemma AdmissionsBounded(p: Policy, requests: seq<Request>, key: string, from: Time, to: Time)
    requires Ordered(requests) && from <= to && p.limit(key) > 0 && p.length(key) > 0
    ensures var w := p.length(key);
      Admissions(p, requests, key, from, to) <= p.limit(key) * ((to - from + w - 1) / w + 1)
  {
    StaysWithin(p, requests, key, from, to);
    WindowStaysSane(p, requests, key);
    var limit, w := p.limit(key), p.length(key);
    var first, entry := from - w + 1, EntryOf(After(p, requests), key);
    assert to - first == to - from + w - 1;
    DivAtLeast(to - first, w, 0);
    MulNonNegative(limit, (to - first) / w);
    if entry.Some? && first <= entry.value.start <= to {
      DivMonotone(entry.value.start - first, to - first, w);
      MulGrows(limit, (entry.value.start - first) / w, (to - first) / w + 1);
    }
    assert limit * ((to - first) / w + 1) == limit * ((to - first) / w) + limit;
  }

  // ----- What a denial means -----

  /** The counter of a window is the number of admissions since it started. */
  lemma {:induction false} CounterCounts(p: Policy, requests: seq<Request>, key: string, to: Time)
    requires Ordered(requests) && p.length(key) > 0
    requires forall i :: 0 <= i < |requests| ==> requests[i].now <= to
    ensures key in After(p, requests) ==>
              After(p, requests)[key].count == Admissions(p, requests, key, After(p, requests)[key].start, to)
  {
    if requests != [] {
      var n := |requests| - 1;
      CounterCounts(p, requests[..n], key, to);
      WindowStaysSane(p, requests[..n], key);
      if requests[n].key == key {
        var entry := Current(After(p, requests[..n]), key, requests[n].now, p.length(key));
        if entry.count == 0 {
          NoneAdmittedAfter(p, requests[..n], key, requests[n].now, to);
        }
      }
    }
  }

  /** When a window is over, nothing was admitted at or after its end. */
  lemma {:induction false} NoneAdmittedAfter(p: Policy, requests: seq<Request>, key: string, from: Time, to: Time)
    requires Ordered(requests) && p.length(key) > 0
    requires key in After(p, requests) ==> After(p, requests)[key].start + p.length(key) <= from
    ensures Admissions(p, requests, key, from, to) == 0
  {
    if requests != [] {
      var n := |requests| - 1;
      WindowStaysSane(p, requests[..n], key);
      NoneAdmittedAfter(p, requests[..n], key, from, to);
    }
  }

  lemma {:induction false} AdmissionsSplit(p: Policy, requests: seq<Request>, key: string,
                                           from: Time, middle: Time, to: Time)
    requires from <= middle <= to + 1
    ensures Admissions(p, requests, key, from, to)
         == Admissions(p, requests, key, from, middle - 1) + Admissions(p, requests, key, middle, to)
  {
    if requests != [] {
      AdmissionsSplit(p, requests[..|requests| - 1], key, from, middle, to);
    }
  }

  /** A denied request finds its window full: exactly `limit` admissions since the window started,
      less than one window length ago.  Over the last window length there may be more, namely
      what the window before let in late. */
  lemma DenialMeansFullWindow(p: Policy, requests: seq<Request>, r: Request) returns (start: Time)
    requires Ordered(requests + [r]) && p.limit(r.key) > 0 && p.length(r.key) > 0
    requires !Admits(p, requests, r)
    ensures r.now - p.length(r.key) < start <= r.now
    ensures Admissions(p, requests, r.key, start, r.now) == p.limit(r.key)
    ensures Admissions(p, requests, r.key, r.now - p.length(r.key) + 1, r.now)
         == p.limit(r.key) + Admissions(p, requests, r.key, r.now - p.length(r.key) + 1, start - 1)
  {
    var all := requests + [r];
    assert forall i :: 0 <= i < |requests| ==> all[i] == requests[i] && all[i].now <= all[|requests|].now;
    start := After(p, requests)[r.key].start;
    WindowStaysSane(p, requests, r.key);
    CounterCounts(p, requests, r.key, r.now);
    AdmissionsSplit(p, requests, r.key, r.now - p.length(r.key) + 1, start, r.now);
  }

  /** The stronger reading of a denial: exactly `limit` admissions in the last window length. */
  ghost predicate DenialsExact(p: Policy, key: string)
    requires p.limit(key) > 0 && p.length(key) > 0
  {
    forall requests: seq<Request>, now: Time |
      Ordered(requests + [Request(key, now)]) && !Admits(p, requests, Request(key, now)) ::
      Admissions(p, requests, key, now - p.length(key) + 1, now) == p.limit(key)
  }

  /** With limit 1, an admission opens its window, so two of them are a window length apart. */
  lemma {:induction false} SingleAdmissions(p: Policy, requests: seq<Request>, key: string, from: Time)
    requires Ordered(requests) && p.limit(key) == 1 && p.length(key) > 0
    requires key in After(p, requests) && from > After(p, requests)[key].start - p.length(key)
    ensures Admissions(p, requests, key, from, After(p, requests)[key].start - 1) == 0
  {
    var n := |requests| - 1;
    var start := After(p, requests)[key].start;
    WindowStaysSane(p, requests[..n], key);
    if requests[n].key == key && Admits(p, requests[..n], requests[n]) {
      NoneAdmittedAfterOpening(p, requests[..n], key, from, start - 1);
    } else {
      SingleAdmissions(p, requests[..n], key, from);
    }
  }

  lemma {:induction false} NoneAdmittedAfterOpening(
      p: Policy, requests: seq<Request>, key: string, from: Time, to: Time)
    requires Ordered(requests) && p.limit(key) == 1 && p.length(key) > 0
    requires key in After(p, requests) ==> After(p, requests)[key].start < from
    ensures Admissions(p, requests, key, from, to) == 0
  {
    if requests != [] {
      var n := |requests| - 1;
      WindowStaysSane(p, requests[..n], key);
      NoneAdmittedAfterOpening(p, requests[..n], key, from, to);
    }
  }

  /** The requests that show the difference: one early and one late in a window, then `count`
      at the start of the next. */
  function Burst(key: string, w: Time, count: nat): seq<Request> {
    if count == 0 then [Request(key, 0), Request(key, w - 1)] else Burst(key, w, count - 1) + [Request(key, w)]
  }

  lemma Snoc(p: Policy, requests: seq<Request>, r: Request, from: Time, to: Time)
    ensures After(p, requests + [r])
         == Allow(After(p, requests), r.key, p.limit(r.key), p.length(r.key), r.now).0
    ensures Admissions(p, requests + [r], r.key, from, to)
         == Admissions(p, requests, r.key, from, to) + if from <= r.now <= to && Admits(p, requests, r) then 1 else 0
  {
    assert (requests + [r])[..|requests|] == requests;
  }

  /** What holds after `count` requests of such a burst: the next window is open with `count`
      admissions, and the last window length has seen one more. */
  ghost predicate BurstDone(p: Policy, key: string, burst: seq<Request>, count: nat) {
    var w := p.length(key);
    && key in After(p, burst)
    && After(p, burst)[key] == (if count == 0 then Window(0, 2) else Window(w, count))
    && Admissions(p, burst, key, 1, w) == count + 1
  }

  lemma {:induction false} BurstOrdered(key: string, w: Time, count: nat)
    requires w > 0
    ensures Ordered(Burst(key, w, count) + [Request(key, w)])
    ensures forall i :: 0 <= i < |Burst(key, w, count)| ==> Burst(key, w, count)[i].now <= w
    decreases count
  {
    if count > 0 {
      BurstOrdered(key, w, count - 1);
    }
  }

  lemma BurstStart(p: Policy, key: string)
    requires 2 <= p.limit(key) && 2 <= p.length(key)
    ensures BurstDone(p, key, [Request(key, 0)] + [Request(key, p.length(key) - 1)], 0)
  {
    var w := p.length(key);
    Snoc(p, [], Request(key, 0), 1, w);
    assert [] + [Request(key, 0)] == [Request(key, 0)];
    assert After(p, [Request(key, 0)])[key] == Window(0, 1);
    Snoc(p, [Request(key, 0)], Request(key, w - 1), 1, w);
  }

  lemma BurstNext(p: Policy, key: string, burst: seq<Request>, count: nat)
    requires 2 <= p.limit(key) && count < p.limit(key) && 2 <= p.length(key)
    requires BurstDone(p, key, burst, count)
    ensures BurstDone(p, key, burst + [Request(key, p.length(key))], count + 1)
  {
    Snoc(p, burst, Request(key, p.length(key)), 1, p.length(key));
  }

  lemma {:induction false} BurstFillsWindow(p: Policy, key: string, count: nat)
    requires 2 <= p.limit(key) && count <= p.limit(key) && 2 <= p.length(key)
    ensures BurstDone(p, key, Burst(key, p.length(key), count), count)
    decreases count
  {
    if count == 0 {
      BurstStart(p, key);
      assert Burst(key, p.length(key), 0) == [Request(key, 0)] + [Request(key, p.length(key) - 1)];
    } else {
      BurstFillsWindow(p, key, count - 1);
      BurstNext(p, key, Burst(key, p.length(key), count - 1), count - 1);
    }
  }

  /** Exactly when the limit is 1, or the window is a single instant, does every denial mean
      exactly `limit` admissions in the last window length. */
  lemma DenialsExactIffSingle(p: Policy, key: string)
    requires p.limit(key) > 0 && p.length(key) > 0
    ensures DenialsExact(p, key) <==> p.limit(key) == 1 || p.length(key) == 1
  {
    if p.limit(key) == 1 || p.length(key) == 1 {
      forall requests: seq<Request>, now: Time |
        Ordered(requests + [Request(key, now)]) && !Admits(p, requests, Request(key, now))
        ensures Admissions(p, requests, key, now - p.length(key) + 1, now) == p.limit(key)
      {
        DenialExact(p, requests, Request(key, now));
      }
    } else {
      var w, limit := p.length(key), p.limit(key);
      var burst := Burst(key, w, limit);
      BurstFillsWindow(p, key, limit);
      BurstOrdered(key, w, limit);
      assert !Admits(p, burst, Request(key, w));
      assert Admissions(p, burst, key, w - w + 1, w) == limit + 1;
    }
  }

  lemma DenialExact(p: Policy, requests: seq<Request>, r: Request)
    requires Ordered(requests + [r]) && p.limit(r.key) > 0 && p.length(r.key) > 0
    requires !Admits(p, requests, r) && (p.limit(r.key) == 1 || p.length(r.key) == 1)
    ensures Admissions(p, requests, r.key, r.now - p.length(r.key) + 1, r.now) == p.limit(r.key)
  {
    var all := requests + [r];
    assert forall i :: 0 <= i < |requests| ==> all[i] == requests[i] && all[i].now <= all[|requests|].now;
    var start := DenialMeansFullWindow(p, requests, r);
    var since := After(p, requests)[r.key].start;
    if p.limit(r.key) == 1 {
      WindowStaysSane(p, requests, r.key);
      CounterCounts(p, requests, r.key, r.now);
      SingleAdmissions(p, requests, r.key, r.now - p.length(r.key) + 1);
      AdmissionsSplit(p, requests, r.key, r.now - p.length(r.key) + 1, since, r.now);
    }
  }

  // ----- Which limit a request meets -----

  datatype Category = Category(name: string, limit: nat)

  function RequestRateCategory(path: string): Category {
    if Contains(path, "/login") || Contains(path, "/refresh") then Category("login", 10)
    else if "/sync/" <= path then Category("sync", 120)
    else if "/export/" <= path then Category("export", 10)
    else Category("api", 300)
  }

  predicate PartAt(s: string, i: nat, part: string) {
    i + |part| <= |s| && s[i..i + |part|] == part
  }

  /** The path has a login or a refresh in it. */
  ghost predicate SignsIn(path: string) {
    exists i: nat :: PartAt(path, i, "/login") || PartAt(path, i, "/refresh")
  }

  predicate Under(path: string, directory: string) {
    |directory| <= |path| && path[..|directory|] == directory
  }

  lemma ContainsIff(s: string, part: string)
    ensures Contains(s, part) <==> exists i: nat :: PartAt(s, i, part)
  {
    if Contains(s, part) {
      var i :| 0 <= i <= |s| && part <= s[i..];
      assert s[i..][..|part|] == s[i..i + |part|];
      assert PartAt(s, i, part);
    }
    if i: nat :| PartAt(s, i, part) {
      assert s[i..][..|part|] == s[i..i + |part|];
    }
  }

  lemma SignsInIff(path: string)
    ensures SignsIn(path) <==> Contains(path, "/login") || Contains(path, "/refresh")
  {
    ContainsIff(path, "/login");
    ContainsIff(path, "/refresh");
  }

  /** Which paths meet which limit: 10 requests for signing in, wherever that is in the path, and for
      exports, 120 for the sync endpoints, 300 for everything else. */
  lemma LimitsByPath(path: string)
    ensures RequestRateCategory(path).limit ==
      if SignsIn(path) then 10 else if Under(path, "/sync/") then 120 else if Under(path, "/export/") then 10 else 300
  {
    SignsInIff(path);
  }

  /** The limiter's key for a request from an address. */
  function RateKey(path: string, clientIP: string): string {
    RequestRateCategory(path).name + ":" + clientIP
  }

  /** A limiter key always meets the same limit, whatever path and address it came from. */
  lemma KeyHasOneLimit(path: string, ip: string, path': string, ip': string)
    requires RateKey(path, ip) == RateKey(path', ip')
    ensures RequestRateCategory(path).limit == RequestRateCategory(path').limit && ip == ip'
  {
    var key, a, b := RateKey(path, ip), RequestRateCategory(path).name, RequestRateCategory(path').name;
    assert key[0] == a[0] == b[0];
    assert ip == key[|a| + 1..] && ip' == key[|b| + 1..];
  }

  /** The first letter of a category tells it from the others. */
  lemma CategoryLetters(path: string)
    ensures var c := RequestRateCategory(path).name[0];
      && (c == 'l' <==> SignsIn(path))
      && (c == 's' <==> !SignsIn(path) && Under(path, "/sync/"))
      && (c == 'e' <==> !SignsIn(path) && Under(path, "/export/"))
    ensures RequestRateCategory(path).name in {"login", "sync", "export", "api"}
  {
    SignsInIff(path);
    assert Under(path, "/sync/") ==> path[1] == path[..6][1] == 's';
    assert Under(path, "/export/") ==> path[1] == path[..8][1] == 'e';
  }

  lemma KeyStartsWithLetter(path: string, ip: string)
    ensures RateKey(path, ip)[0] == RequestRateCategory(path).name[0]
  {
    CategoryLetters(path);
  }

  /** Requests share a window exactly when they come from one address and are of one kind. */
  lemma SameKeyIff(path: string, ip: string, path': string, ip': string)
    ensures RateKey(path, ip) == RateKey(path', ip') <==>
      && ip == ip' && (SignsIn(path) <==> SignsIn(path'))
      && (!SignsIn(path) ==>
            && (Under(path, "/sync/") <==> Under(path', "/sync/"))
            && (Under(path, "/export/") <==> Under(path', "/export/")))
  {
    CategoryLetters(path);
    CategoryLetters(path');
    KeyStartsWithLetter(path, ip);
    KeyStartsWithLetter(path', ip');
    if RateKey(path, ip) == RateKey(path', ip') {
      KeyHasOneLimit(path, ip, path', ip');
    }
  }
}
