/**
 * ScanDirectory and its 3 second cache of directory walks.
 *
 * Go maps are references, so the maps that ScanDirectory hands out are objects here, and a
 * caller may change the one it was given.
 */
module ScanCache {
  import opened Prelude

  const SCAN_DIRECTORY_CACHE_TTL: Time := 3 * SECOND

  datatype FsFileInfo = FsFileInfo(
    name: string, path: string, fullPath: string, extension: string,
    isDir: bool, fileSize: int, modTime: Time, mode: int, hash: string)

  type Files = map<string, FsFileInfo>

  /** What a walk builds: every file under its own relative path. */
  ghost predicate WellKeyed(files: Files) {
    forall path :: path in files ==> files[path].path == path
  }

  /** A Go map from relative path to file information. */
  class FileInfoMap {
    var files: Files

    constructor (files: Files)
      ensures this.files == files
    {
      this.files := files;
    }
  }

  datatype CacheEntry = CacheEntry(data: FileInfoMap, expiresAt: Time)

  /** The record of a directory walk that was put into the inner cache. */
  datatype Install = Install(dir: string, files: Files, at: Time)

  class DirectoryScanner {
    var items: map<string, CacheEntry>
    /** Every walk installed so far. */
    ghost var installs: seq<Install>

    constructor ()
      ensures Valid() && items == map[] && installs == []
    {
      items, installs := map[], [];
    }

    /** The maps that the cache holds on to. */
    ghost function Held(): set<FileInfoMap>
      reads this
    {
      set dir | dir in items :: items[dir].data
    }

    /** What the cache would answer, expiry aside. */
    ghost function View(): map<string, Files>
      reads this, Held()
    {
      map dir | dir in items :: items[dir].data.files
    }

    /** Every entry still is what its walk installed. */
    ghost predicate Valid()
      reads this, Held()
    {
      && (forall dir :: dir in items ==>
            Install(dir, items[dir].data.files, items[dir].expiresAt - SCAN_DIRECTORY_CACHE_TTL) in installs)
      && (forall i :: i in installs ==> WellKeyed(i.files))
    }

    /** A walk was put into the cache, in an object of its own. */
    ghost predicate Installed(before: map<string, CacheEntry>, dir: string, files: Files, at: Time, data: FileInfoMap)
      reads this, data
    {
      items == before[dir := CacheEntry(data, at + SCAN_DIRECTORY_CACHE_TTL)] && data.files == files
    }

    method Clone(source: FileInfoMap) returns (copy: FileInfoMap)
      ensures fresh(copy) && copy.files == source.files
    {
      copy := new FileInfoMap(source.files);
    }

    method GetCached(dir: string, now: Time) returns (data: Option<FileInfoMap>)
      ensures data.Some? <==> dir in items && now <= items[dir].expiresAt
      ensures data.Some? ==> data.value == items[dir].data
    {
      if dir !in items || now > items[dir].expiresAt {
        return None;
      }
      data := Some(items[dir].data);
    }

    method SetCached(dir: string, data: FileInfoMap, now: Time)
      requires Valid() && WellKeyed(data.files)
      modifies this
      ensures Valid()
      ensures items == old(items)[dir := CacheEntry(data, now + SCAN_DIRECTORY_CACHE_TTL)]
      ensures installs == old(installs) + [Install(dir, data.files, now)]
    {
      items := items[dir := CacheEntry(data, now + SCAN_DIRECTORY_CACHE_TTL)];
      installs := installs + [Install(dir, data.files, now)];
    }

    /** The files are those of a walk of the directory that was installed no earlier than three
        seconds before `readAt`. */
    ghost predicate Backed(dir: string, files: Files, readAt: Time, source: Install)
      reads this
    {
      && source in installs && source.dir == dir && source.files == files
      && readAt - 3 * SECOND <= source.at
    }

    /** The first look into the cache, before any flight. */
    method LookUp(dir: string, now: Time) returns (result: Option<FileInfoMap>, ghost source: Install)
      requires Valid()
      ensures result.Some? <==> dir in items && now <= items[dir].expiresAt
      ensures result.Some? ==> fresh(result.value) && Backed(dir, result.value.files, now, source)
      ensures result.Some? ==> result.value.files == items[dir].data.files
    {
      source := Install(dir, map[], now);
      result := GetCached(dir, now);
      if result.Some? {
        source := Install(dir, result.value.files, items[dir].expiresAt - SCAN_DIRECTORY_CACHE_TTL);
        var copy := Clone(result.value);
        result := Some(copy);
      }
    }

    /** What one flight does for all the calls that share it.  It looks again, since another
        flight may have ended in between; `walk` is what a walk of the directory would find. */
    method Flight(dir: string, now: Time, walk: Option<Files>, walkedAt: Time)
      returns (result: Option<FileInfoMap>, ghost readAt: Time, ghost source: Install)
      requires Valid() && now <= walkedAt
      requires walk.Some? ==> WellKeyed(walk.value)
      modifies this
      ensures Valid() && old(installs) <= installs
      ensures forall m :: m in Held() ==> m in old(Held()) || fresh(m)
      ensures result.None? <==> walk.None? && !(dir in old(items) && now <= old(items[dir].expiresAt))
      ensures result.None? || (dir in old(items) && now <= old(items[dir].expiresAt)) ==>
                items == old(items) && installs == old(installs)
      ensures result.Some? && !(dir in old(items) && now <= old(items[dir].expiresAt)) ==>
                dir in items && Installed(old(items), dir, walk.value, walkedAt, items[dir].data)
      ensures result.Some? ==> fresh(result.value) && result.value !in Held()
      ensures result.Some? && dir in old(items) && now <= old(items[dir].expiresAt) ==>
                result.value.files == old(items[dir].data.files)
      ensures result.Some? && !(dir in old(items) && now <= old(items[dir].expiresAt)) ==>
                result.value.files == walk.value
      ensures result.Some? ==> readAt in {now, walkedAt} && Backed(dir, result.value.files, readAt, source)
    {
      readAt := now;
      result, source := LookUp(dir, now);
      if result.None? && walk.Some? {
        readAt := walkedAt;
        source := Install(dir, walk.value, walkedAt);
        var files := new FileInfoMap(walk.value);
        SetCached(dir, files, walkedAt);
        var copy := Clone(files);
        result := Some(copy);
      }
    }

    /** What every call does with the result of a flight, its own or one that it joined: it takes
        a copy for itself.  The walk is as old as the flight's reading of it. */
    method TakeCopy(dir: string, flight: Option<FileInfoMap>, ghost readAt: Time, ghost source: Install)
      returns (result: Option<FileInfoMap>)
      requires Valid() && (flight.Some? ==> Backed(dir, flight.value.files, readAt, source))
      ensures result.Some? <==> flight.Some?
      ensures result.Some? ==> fresh(result.value) && Backed(dir, result.value.files, readAt, source)
      ensures result.Some? ==> result.value.files == flight.value.files
    {
      if flight.None? {
        return None;
      }
      var copy := Clone(flight.value);
      result := Some(copy);
    }

    /** One call that joins no other flight. */
    method ScanDirectory(dir: string, now: Time, walk: Option<Files>, walkedAt: Time)
      returns (result: Option<FileInfoMap>, ghost readAt: Time, ghost source: Install)
      requires Valid() && now <= walkedAt
      requires walk.Some? ==> WellKeyed(walk.value)
      modifies this
      ensures Valid() && old(installs) <= installs
      ensures forall m :: m in Held() ==> m in old(Held()) || fresh(m)
      ensures result.None? <==> walk.None? && !(dir in old(items) && now <= old(items[dir].expiresAt))
      ensures result.None? || (dir in old(items) && now <= old(items[dir].expiresAt)) ==>
                items == old(items) && installs == old(installs)
      ensures result.Some? && !(dir in old(items) && now <= old(items[dir].expiresAt)) ==>
                dir in items && Installed(old(items), dir, walk.value, walkedAt, items[dir].data)
      ensures result.Some? ==> fresh(result.value) && result.value !in Held()
      ensures result.Some? && dir in old(items) && now <= old(items[dir].expiresAt) ==>
                result.value.files == old(items[dir].data.files)
      ensures result.Some? && !(dir in old(items) && now <= old(items[dir].expiresAt)) ==>
                result.value.files == walk.value
      ensures result.Some? ==> readAt in {now, walkedAt} && Backed(dir, result.value.files, readAt, source)
    {
      readAt := now;
      result, source := LookUp(dir, now);
      if result.None? {
        result, readAt, source := Flight(dir, now, walk, walkedAt);
        result := TakeCopy(dir, result, readAt, source);
      }
    }
  }

  /** Whatever a caller does to a map it was given, the cache answers as before. */
  method CallerMutates(scanner: DirectoryScanner, result: FileInfoMap, files: Files)
    requires scanner.Valid() && result !in scanner.Held()
    modifies result
    ensures result.files == files
    ensures scanner.Valid() && scanner.View() == old(scanner.View()) && scanner.Held() == old(scanner.Held())
  {
    result.files := files;
  }
}
