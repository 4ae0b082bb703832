/**
 * The file scan of the sync service: its 60 second cache of file lists on top of ScanDirectory's
 * 3 second cache of walks, and the whole way of a file list from the directory to the worker.
 *
 * One request is followed at a time here; what concurrent requests, their flights and the two
 * caches do together is in FileScanWorld.
 */
module FileScan {
  import opened Prelude
  import opened ScanCoalescing
  import opened ScanCache
  import opened ScanStreaming

  const SCAN_CACHE_TTL: Time := 60 * SECOND
  const CHUNK_SIZE: nat := 100

  /** The ids that an authorized request can carry: 24 hexadecimal digits. */
  predicate IsObjectIdHex(id: string) {
    |id| == 24 && forall i :: 0 <= i < 24 ==> ('0' <= id[i] <= '9' || 'a' <= id[i] <= 'f' || 'A' <= id[i] <= 'F')
  }

  function CacheKey(spiderId: string, path: string): string {
    spiderId + ":" + path
  }

  /** Two requests with one cache key are for the same spider and the same path. */
  lemma CacheKeyIsInjective(spiderId: string, path: string, spiderId': string, path': string)
    requires IsObjectIdHex(spiderId) && IsObjectIdHex(spiderId')
    requires CacheKey(spiderId, path) == CacheKey(spiderId', path')
    ensures spiderId == spiderId' && path == path'
  {
    var key := CacheKey(spiderId, path);
    assert spiderId == key[..24] && spiderId' == CacheKey(spiderId', path')[..24];
    assert path == key[25..] && path' == CacheKey(spiderId', path')[25..];
  }

  /** Where a cached file list comes from: which request, which walk, and when ScanDirectory
      read that walk from its own cache. */
  datatype Origin = Origin(spiderId: string, path: string, walk: Install, readAt: Time)

  /** The worker takes this list: some of the messages arrived, with a regular end only after
      all of them and a successful handler. */
  ghost predicate WorkerAccepts(sent: seq<Chunk>, ok: bool, list: seq<FileInfo>) {
    exists arrived: nat, end: StreamEnd ::
      && arrived <= |sent| && (end.Eof? ==> ok && arrived == |sent|)
      && ReadList(sent[..arrived], end) == Some(list)
  }

  lemma TakeOfPrefix<T>(start: seq<T>, all: seq<T>, n: nat)
    requires start <= all && n <= |start|
    ensures start[..n] == all[..n]
  {
  }

  lemma OnlyTheListIsAccepted(sent: seq<Chunk>, ok: bool, list: seq<FileInfo>, accepted: seq<FileInfo>)
    requires sent <= Chunks(list, CHUNK_SIZE, Int32(|list|))
    requires ok <==> sent == Chunks(list, CHUNK_SIZE, Int32(|list|))
    requires WorkerAccepts(sent, ok, accepted)
    ensures accepted == list
  {
    var arrived: nat, end: StreamEnd :|
      && arrived <= |sent| && (end.Eof? ==> ok && arrived == |sent|)
      && ReadList(sent[..arrived], end) == Some(accepted);
    TakeOfPrefix(sent, Chunks(list, CHUNK_SIZE, Int32(|list|)), arrived);
    ListArrivesWholeOrNotAtAll(list, CHUNK_SIZE, Int32(|list|), arrived, end);
  }

  lemma WorkerGetsTheWalk(sent: seq<Chunk>, ok: bool, list: seq<FileInfo>, files: Files)
    requires sent <= Chunks(list, CHUNK_SIZE, Int32(|list|))
    requires ok <==> sent == Chunks(list, CHUNK_SIZE, Int32(|list|))
    requires WellKeyed(files) && Lists(list, files)
    ensures forall accepted :: WorkerAccepts(sent, ok, accepted) ==> Collect(accepted) == WholeSeconds(files)
  {
    CollectRebuilds(list, files);
    forall accepted | WorkerAccepts(sent, ok, accepted)
      ensures accepted == list
    {
      OnlyTheListIsAccepted(sent, ok, list, accepted);
    }
  }

  /** A failed request reaches the worker as an error, or not at all. */
  lemma NothingToAccept(sent: seq<Chunk>, ok: bool, message: string)
    requires message != "" && sent == if ok then [Chunk([], true, 0, message)] else []
    ensures forall accepted :: !WorkerAccepts(sent, ok, accepted)
  {
  }

  /** The list comes from a walk of this directory installed no earlier than three seconds before
      the given time. */
  ghost predicate FromRecentWalk(files: seq<FileInfo>, dir: Option<string>, installs: seq<Install>, since: Time) {
    exists walk: Install :: walk in installs && dir == Some(walk.dir) && Lists(files, walk.files)
                           && since - 3 * SECOND <= walk.at
  }

  class FileScanServer {
    const scanner: DirectoryScanner
    /** The directory that a request is about, if its path stays within the workspace. */
    const resolve: (string, string) -> Option<string>
    var scanCache: map<string, ScanResult>
    ghost var origins: map<string, Origin>

    constructor (resolve: (string, string) -> Option<string>)
      ensures Valid() && fresh(scanner) && scanCache == map[] && this.resolve == resolve
    {
      scanner := new DirectoryScanner();
      this.resolve := resolve;
      scanCache, origins := map[], map[];
    }

    /** This origin explains this file list. */
    ghost predicate Explains(origin: Origin, spiderId: string, path: string, result: ScanResult)
      reads scanner
    {
      && origin.spiderId == spiderId && origin.path == path
      && resolve(spiderId, path) == Some(origin.walk.dir)
      && origin.walk in scanner.installs
      && Lists(result.files, origin.walk.files)
      && origin.readAt - SCAN_DIRECTORY_CACHE_TTL <= origin.walk.at
      && origin.readAt <= result.timestamp
      && result.err == None
    }

    ghost predicate Sound(key: string, origin: Origin, result: ScanResult)
      reads scanner
    {
      && IsObjectIdHex(origin.spiderId) && key == CacheKey(origin.spiderId, origin.path)
      && Explains(origin, origin.spiderId, origin.path, result)
    }

    ghost predicate Valid()
      reads this, scanner, scanner.Held()
    {
      && scanner.Valid()
      && forall key :: key in scanCache ==> key in origins && Sound(key, origins[key], scanCache[key])
    }

    /** Is there a list that the cache still answers with? */
    ghost predicate LiveList(spiderId: string, path: string, now: Time)
      reads this
    {
      var key := CacheKey(spiderId, path);
      key in scanCache && now - scanCache[key].timestamp <= 60 * SECOND
    }

    /** Is there a walk of this directory that the cache below still answers with? */
    ghost predicate LiveWalk(dir: string, now: Time)
      reads scanner
    {
      dir in scanner.items && now <= scanner.items[dir].expiresAt
    }

    /** Does a scan of this path succeed: the path resolves, and its directory has a live walk, or
        one that succeeds? */
    ghost predicate CanScan(spiderId: string, path: string, now: Time, walk: Option<Files>)
      reads scanner
    {
      var dir := resolve(spiderId, path);
      dir.Some? && (walk.Some? || LiveWalk(dir.value, now))
    }

    /** A list served from the cache at `now` belongs to a walk of the requested directory that
        was installed at most 63 seconds before, plus the time its conversion took. */
    method GetCachedScan(spiderId: string, path: string, now: Time)
      returns (result: Option<ScanResult>, ghost origin: Origin)
      requires Valid() && IsObjectIdHex(spiderId)
      ensures
        var key := CacheKey(spiderId, path);
        && (result.Some? <==> LiveList(spiderId, path, now))
        && (result.Some? ==> result.value == scanCache[key])
      ensures result.Some? ==>
        && Explains(origin, spiderId, path, result.value)
        && now - 63 * SECOND - (result.value.timestamp - origin.readAt) <= origin.walk.at
    {
      var key := CacheKey(spiderId, path);
      origin := Origin(spiderId, path, Install("", map[], 0), 0);
      if key !in scanCache || now - scanCache[key].timestamp > SCAN_CACHE_TTL {
        return None, origin;
      }
      origin := origins[key];
      CacheKeyIsInjective(spiderId, path, origin.spiderId, origin.path);
      result := Some(scanCache[key]);
    }

    /** The conversion loop: the entries of the map in no particular order. */
    method Convert(files: Files) returns (list: seq<FileInfo>)
      requires WellKeyed(files)
      ensures Lists(list, files)
    {
      list := [];
      var left := files.Keys;
      while left != {}
        invariant left <= files.Keys && |list| == |files.Keys| - |left|
        invariant forall path :: path in files.Keys - left ==> ToMessage(files[path]) in list
        invariant forall i :: 0 <= i < |list| ==> list[i].path in files && list[i] == ToMessage(files[list[i].path])
        decreases |left|
      {
        var path := Pick(left);
        list := list + [ToMessage(files[path])];
        left := left - {path};
      }
    }

    /** The section of performScan under the cache's mutex. */
    method Store(spiderId: string, path: string, result: ScanResult, ghost origin: Origin)
      requires Valid() && IsObjectIdHex(spiderId) && Explains(origin, spiderId, path, result)
      modifies this`scanCache, this`origins
      ensures Valid() && scanCache == old(scanCache)[CacheKey(spiderId, path) := result]
    {
      var key := CacheKey(spiderId, path);
      assert Sound(key, origin, result);
      scanCache := scanCache[key := result];
      origins := origins[key := origin];
    }

    /** Scans on behalf of the leader and caches a success; `walk` is what a walk of the
        directory would find at `walkedAt`, and `stampedAt` is when the conversion is done. */
    method PerformScan(spiderId: string, path: string, now: Time, walk: Option<Files>, walkedAt: Time, stampedAt: Time)
      returns (outcome: ScanOutcome, ghost origin: Origin)
      requires Valid() && IsObjectIdHex(spiderId)
      requires now <= walkedAt <= stampedAt
      requires walk.Some? ==> WellKeyed(walk.value)
      modifies this`scanCache, this`origins, scanner
      ensures Valid()
      ensures outcome.Completed? <==> old(CanScan(spiderId, path, now, walk))
      ensures outcome.Failed? ==> outcome.message != "" && scanCache == old(scanCache)
      ensures outcome.Completed? ==>
                && outcome.timestamp == stampedAt
                && scanCache == old(scanCache)[CacheKey(spiderId, path) := Broadcast(outcome)]
                && Explains(origin, spiderId, path, Broadcast(outcome))
                && origin.readAt in {now, walkedAt}
                && (!old(LiveWalk(resolve(spiderId, path).value, now)) ==> walk == Some(origin.walk.files))
                && FromRecentWalk(outcome.files, resolve(spiderId, path), scanner.installs, now)
    {
      origin := Origin(spiderId, path, Install("", map[], 0), 0);
      var dir := resolve(spiderId, path);
      if dir.None? {
        return Failed("path escapes its root"), origin;
      }
      var found, readAt, source := scanner.ScanDirectory(dir.value, now, walk, walkedAt);
      if found.None? {
        return Failed("failed to scan directory"), origin;
      }
      var list := Convert(found.value.files);
      outcome := Completed(list, stampedAt);
      origin := Origin(spiderId, path, source, readAt);
      Store(spiderId, path, Broadcast(outcome), origin);
    }

    /** A walk of the requested directory, installed at most 63 seconds before `now`, plus the
        time that the conversion of a cached list took. */
    ghost predicate Recent(origin: Origin, spiderId: string, path: string, now: Time, conversion: Time)
      reads scanner
    {
      && resolve(spiderId, path) == Some(origin.walk.dir) && origin.walk in scanner.installs
      && WellKeyed(origin.walk.files)
      && now - 63 * SECOND - conversion <= origin.walk.at
    }

    /** The file list for a request, from the cache or from a scan of its own. */
    method GetScan(spiderId: string, path: string, now: Time, walk: Option<Files>, walkedAt: Time, stampedAt: Time)
      returns (outcome: ScanOutcome, ghost origin: Origin, ghost conversion: Time)
      requires Valid() && IsObjectIdHex(spiderId)
      requires now <= walkedAt <= stampedAt
      requires walk.Some? ==> WellKeyed(walk.value)
      modifies this`scanCache, this`origins, scanner
      ensures Valid()
      ensures outcome.Completed? <==> old(LiveList(spiderId, path, now) || CanScan(spiderId, path, now, walk))
      ensures outcome.Failed? ==> outcome.message != ""
      ensures outcome.Completed? ==>
                Lists(outcome.files, origin.walk.files) && Recent(origin, spiderId, path, now, conversion)
      ensures var key := CacheKey(spiderId, path);
        if key in old(scanCache) && now - old(scanCache)[key].timestamp <= SCAN_CACHE_TTL
        then outcome == Completed(old(scanCache)[key].files, old(scanCache)[key].timestamp)
             && conversion == old(scanCache)[key].timestamp - origin.readAt
        else conversion == 0
             && (outcome.Completed? && !old(LiveWalk(resolve(spiderId, path).value, now)) ==>
                   walk == Some(origin.walk.files))
    {
      conversion := 0;
      var cached, cachedOrigin := GetCachedScan(spiderId, path, now);
      if cached.Some? {
        origin, conversion := cachedOrigin, cached.value.timestamp - cachedOrigin.readAt;
        outcome := Completed(cached.value.files, cached.value.timestamp);
      } else {
        outcome, origin := PerformScan(spiderId, path, now, walk, walkedAt, stampedAt);
      }
    }

    /** One request, when no other one is scanning the same key.  An unauthorized request gets
        nothing; one that can be served, from the cache or by a scan, gets the whole list of a
        recent walk in chunks, as far as sends succeed; any other one gets a single error.
        Whatever part reaches the worker, a list that it accepts is the whole of that walk. */
    method StreamFileScan(stream: ServerStream<Chunk>, authorized: bool, spiderId: string, path: string,
                          now: Time, walk: Option<Files>, walkedAt: Time, stampedAt: Time)
      returns (ok: bool, ghost list: seq<FileInfo>, ghost origin: Origin, ghost conversion: Time)
      requires Valid() && stream.sent == []
      requires authorized ==> IsObjectIdHex(spiderId)
      requires now <= walkedAt <= stampedAt
      requires walk.Some? ==> WellKeyed(walk.value)
      modifies this`scanCache, this`origins, scanner, stream
      ensures Valid()
      ensures !authorized ==> !ok && stream.sent == []
      ensures authorized && old(LiveList(spiderId, path, now) || CanScan(spiderId, path, now, walk)) ==>
                && stream.Streamed(Chunks(list, 100, Int32(|list|)), ok)
                && (old(LiveList(spiderId, path, now)) ==> list == old(scanCache)[CacheKey(spiderId, path)].files)
                && Lists(list, origin.walk.files) && Recent(origin, spiderId, path, now, conversion)
      ensures authorized && !old(LiveList(spiderId, path, now) || CanScan(spiderId, path, now, walk)) ==>
                exists message :: message != "" && stream.Streamed([Chunk([], true, 0, message)], ok)
      ensures forall accepted :: WorkerAccepts(stream.sent, ok, accepted) ==>
                && authorized && Collect(accepted) == WholeSeconds(origin.walk.files)
                && Recent(origin, spiderId, path, now, conversion)
      ensures var key := CacheKey(spiderId, path);
        conversion == 0 || (key in old(scanCache) && conversion == old(scanCache)[key].timestamp - origin.readAt)
    {
      list := [];
      if !authorized {
        NothingToAccept(stream.sent, false, "unauthorized");
        return false, [], Origin(spiderId, path, Install("", map[], 0), 0), 0;
      }
      var outcome;
      outcome, origin, conversion := GetScan(spiderId, path, now, walk, walkedAt, stampedAt);
      if outcome.Failed? {
        ok := stream.Send(Chunk([], true, 0, outcome.message));
        NothingToAccept(stream.sent, ok, outcome.message);
      } else {
        list := outcome.files;
        ok := StreamCachedResult(stream, outcome.files, CHUNK_SIZE);
        WorkerGetsTheWalk(stream.sent, ok, outcome.files, origin.walk.files);
      }
    }
  }
}
