/**
 * Streaming a file list to a worker.
 *
 * The server cuts a list into chunks; the worker reassembles them into a map by path.  Sends
 * may fail and streams may break at any point: the worker then reports an error and never
 * takes a part for the whole.
 */
module ScanStreaming {
  import opened Prelude
  import opened ScanCache
  import opened ScanCoalescing

  /** A FileScanChunk. */
  datatype Chunk = Chunk(files: seq<FileInfo>, isComplete: bool, totalFiles: int, error: string)

  /** Go's conversion to int32. */
  function Int32(n: int): (r: int)
    ensures -0x8000_0000 <= r < 0x8000_0000 && (r - n) % 0x1_0000_0000 == 0
  {
    (n + 0x8000_0000) % 0x1_0000_0000 - 0x8000_0000
  }

  /** The server's side of one call's stream: `sends(k)` tells whether the k-th send succeeds. */
  class ServerStream<T> {
    var sent: seq<T>
    const sends: nat -> bool

    constructor (sends: nat -> bool)
      ensures sent == [] && this.sends == sends
    {
      this.sent, this.sends := [], sends;
    }

    method Send(message: T) returns (ok: bool)
      modifies this
      ensures ok == sends(|old(sent)|)
      ensures sent == if ok then old(sent) + [message] else old(sent)
    {
      ok := sends(|sent|);
      if ok {
        sent := sent + [message];
      }
    }

    /** What a handler with these messages did to its stream: all of them are out, or those
        before the first send that failed. */
    ghost predicate Streamed(messages: seq<T>, ok: bool)
      reads this
    {
      && sent <= messages
      && (ok <==> sent == messages)
      && (!ok ==> !sends(|sent|))
    }
  }

  // ----- Cutting a list into chunks -----

  /** The chunks that a list is cut into. */
  function Chunks(files: seq<FileInfo>, size: nat, total: int): seq<Chunk>
    requires size > 0
    decreases |files|
  {
    if files == [] then []
    else if |files| <= size then [Chunk(files, true, total, "")]
    else [Chunk(files[..size], false, total, "")] + Chunks(files[size..], size, total)
  }

  /** All the files in a run of chunks. */
  function Joined(chunks: seq<Chunk>): seq<FileInfo> {
    if chunks == [] then [] else chunks[0].files + Joined(chunks[1..])
  }

  /** What a stream of a list has to look like: the pieces are the list, every piece but the
      last is full, none is empty, each carries the total, and only the last is marked. */
  ghost predicate Delivers(chunks: seq<Chunk>, files: seq<FileInfo>, size: nat, total: int) {
    && Joined(chunks) == files
    && (forall i :: 0 <= i < |chunks| ==>
          && chunks[i].error == "" && chunks[i].totalFiles == total
          && 0 < |chunks[i].files| <= size
          && (chunks[i].isComplete <==> i == |chunks| - 1)
          && (i < |chunks| - 1 ==> |chunks[i].files| == size))
  }

  lemma {:induction false} ChunksDeliver(files: seq<FileInfo>, size: nat, total: int)
    requires size > 0
    ensures Delivers(Chunks(files, size, total), files, size, total)
    decreases |files|
  {
    if |files| > size {
      var rest := Chunks(files[size..], size, total);
      ChunksDeliver(files[size..], size, total);
      assert Chunks(files, size, total)[1..] == rest;
      assert files == files[..size] + files[size..];
    } else if files != [] {
      assert Chunks(files, size, total)[1..] == [];
    }
  }

  lemma {:induction false} OnlyChunksDeliver(chunks: seq<Chunk>, files: seq<FileInfo>, size: nat, total: int)
    requires size > 0 && Delivers(chunks, files, size, total)
    ensures chunks == Chunks(files, size, total)
    decreases |chunks|
  {
    if chunks != [] {
      var first, rest := chunks[0], chunks[1..];
      assert chunks == [first] + rest;
      if rest == [] {
        assert files == first.files + Joined(rest) == first.files;
        assert first == Chunk(files, true, total, "");
      } else {
        assert rest[0] == chunks[1];
        assert files[size..] == Joined(rest) && files[..size] == first.files;
        OnlyChunksDeliver(rest, files[size..], size, total);
      }
    }
  }

  /** The chunks of a list deliver it, and nothing else does. */
  lemma ChunksAreTheDelivery(chunks: seq<Chunk>, files: seq<FileInfo>, size: nat, total: int)
    requires size > 0
    ensures Delivers(chunks, files, size, total) <==> chunks == Chunks(files, size, total)
  {
    ChunksDeliver(files, size, total);
    if Delivers(chunks, files, size, total) {
      OnlyChunksDeliver(chunks, files, size, total);
    }
  }

  /** As few as possible: ceil(n / size), and none at all for the empty list. */
  lemma {:induction false} ChunkCount(files: seq<FileInfo>, size: nat, total: int)
    requires size > 0
    ensures (|Chunks(files, size, total)| - 1) * size < |files| <= |Chunks(files, size, total)| * size
    decreases |files|
  {
    if |files| > size {
      ChunkCount(files[size..], size, total);
      var n := |Chunks(files[size..], size, total)|;
      assert |Chunks(files, size, total)| == n + 1;
      assert (n + 1) * size == n * size + size && (n - 1) * size == n * size - size;
    }
  }

  /** What is out already and what is to come, before and after one chunk. */
  lemma OneChunkFurther(sent: seq<Chunk>, files: seq<FileInfo>, size: nat, total: int)
    requires size > 0 && files != []
    ensures
      var end := if size > |files| then |files| else size;
      sent + Chunks(files, size, total)
        == sent + [Chunk(files[..end], end == |files|, total, "")] + Chunks(files[end..], size, total)
  {
    if |files| <= size {
      assert files[..|files|] == files && files[|files|..] == [];
    }
  }

  lemma NextChunk(sent: seq<Chunk>, files: seq<FileInfo>, i: nat, end: nat, size: nat, total: int)
    requires size > 0 && i < |files| && end == if i + size > |files| then |files| else i + size
    ensures sent + Chunks(files[i..], size, total)
         == sent + [Chunk(files[i..end], end >= |files|, total, "")] + Chunks(files[end..], size, total)
  {
    OneChunkFurther(sent, files[i..], size, total);
    assert files[i..][..end - i] == files[i..end] && files[i..][end - i..] == files[end..];
  }

  /** The loop of streamCachedResult. */
  method StreamCachedResult(stream: ServerStream<Chunk>, files: seq<FileInfo>, chunkSize: nat) returns (ok: bool)
    requires chunkSize > 0 && stream.sent == []
    modifies stream
    ensures stream.Streamed(Chunks(files, chunkSize, Int32(|files|)), ok)
  {
    var total := Int32(|files|);
    ghost var all := Chunks(files, chunkSize, total);
    var i := 0;
    assert files[0..] == files;
    while i < |files|
      invariant
        var rest := if i < |files| then files[i..] else [];
        stream.sent + Chunks(rest, chunkSize, total) == all
    {
      var end := if i + chunkSize > |files| then |files| else i + chunkSize;
      var chunk := Chunk(files[i..end], end >= |files|, total, "");
      NextChunk(stream.sent, files, i, end, chunkSize, total);
      var sent := stream.Send(chunk);
      if !sent {
        assert |stream.sent| < |all|;
        return false;
      }
      i := i + chunkSize;
    }
    return true;
  }

  // ----- Putting it together again on the worker -----

  /** How a stream ends after the messages that arrived: the server returned, or it broke. */
  datatype StreamEnd = Eof | Broken(message: string)

  /** The file list that the worker accepts, unless it reports an error. */
  function ReadList(messages: seq<Chunk>, end: StreamEnd): Option<seq<FileInfo>> {
    if messages == [] then (if end.Eof? then Some([]) else None)
    else if messages[0].error != "" then None
    else if messages[0].isComplete then Some(messages[0].files)
    else
      var rest := ReadList(messages[1..], end);
      if rest.Some? then Some(messages[0].files + rest.value) else None
  }

  /** Whatever part of a streamed list arrives, the worker has all of it or reports an error.
      Only a complete stream ends regularly; of an empty list nothing but that end arrives. */
  lemma {:induction false} ListArrivesWholeOrNotAtAll(
      files: seq<FileInfo>, size: nat, total: int, arrived: nat, end: StreamEnd)
    requires size > 0 && arrived <= |Chunks(files, size, total)|
    requires end.Eof? ==> arrived == |Chunks(files, size, total)|
    ensures ReadList(Chunks(files, size, total)[..arrived], end) ==
              if arrived == |Chunks(files, size, total)| && (files != [] || end.Eof?) then Some(files) else None
    decreases |files|
  {
    var chunks := Chunks(files, size, total);
    if arrived > 0 && |files| > size {
      ListArrivesWholeOrNotAtAll(files[size..], size, total, arrived - 1, end);
      assert chunks[1..] == Chunks(files[size..], size, total);
      assert chunks[..arrived][1..] == chunks[1..][..arrived - 1];
      assert files == files[..size] + files[size..];
    }
  }

  /** The message for one file; the modification time loses its fraction of a second. */
  function ToMessage(f: FsFileInfo): FileInfo {
    FileInfo(f.name, f.path, f.fullPath, f.extension, f.isDir, f.fileSize, f.modTime / SECOND, f.mode, f.hash)
  }

  function FromMessage(f: FileInfo): FsFileInfo {
    FsFileInfo(f.name, f.path, f.fullPath, f.extension, f.isDir, f.fileSize, f.modTime * SECOND, f.mode, f.hash)
  }

  /** The message has everything about the file, its time cut to the second. */
  predicate Describes(m: FileInfo, f: FsFileInfo) {
    && m.name == f.name && m.path == f.path && m.fullPath == f.fullPath && m.extension == f.extension
    && m.isDir == f.isDir && m.fileSize == f.fileSize && m.mode == f.mode && m.hash == f.hash
    && m.modTime * 1_000_000_000 <= f.modTime < (m.modTime + 1) * 1_000_000_000
  }

  lemma OnlyTheMessageDescribes(m: FileInfo, f: FsFileInfo)
    ensures Describes(m, f) <==> m == ToMessage(f)
  {
    var q, r := f.modTime / SECOND, f.modTime % SECOND;
    assert f.modTime == q * SECOND + r;
  }

  /** A list of all the files of a walk, in any order: Go iterates over a map in no fixed one. */
  ghost predicate Lists(list: seq<FileInfo>, files: Files) {
    && |list| == |files|
    && (forall path :: path in files ==> ToMessage(files[path]) in list)
    && (forall i :: 0 <= i < |list| ==>
          list[i].path in files && list[i] == ToMessage(files[list[i].path]))
  }

  /** The map that the worker builds from a list; a later entry replaces an earlier one. */
  function Collect(list: seq<FileInfo>): Files {
    if list == [] then map[]
    else
      var last := list[|list| - 1];
      Collect(list[..|list| - 1])[last.path := FromMessage(last)]
  }

  /** A walk as it looks on the worker. */
  function WholeSeconds(files: Files): Files {
    map path | path in files :: files[path].(modTime := files[path].modTime / SECOND * SECOND)
  }

  lemma {:induction false} CollectHas(list: seq<FileInfo>, path: string)
    ensures path in Collect(list) <==> exists i :: 0 <= i < |list| && list[i].path == path
    ensures path in Collect(list) ==>
              exists i :: 0 <= i < |list| && list[i].path == path && Collect(list)[path] == FromMessage(list[i])
  {
    if list != [] {
      var n := |list| - 1;
      CollectHas(list[..n], path);
      if path in Collect(list) && path != list[n].path {
        var i :| 0 <= i < n && list[..n][i].path == path && Collect(list[..n])[path] == FromMessage(list[..n][i]);
        assert list[i].path == path;
      }
      if path == list[n].path {
        assert Collect(list)[path] == FromMessage(list[n]);
      }
    }
  }

  /** The worker rebuilds the walk from its list, whatever the order was. */
  lemma CollectRebuilds(list: seq<FileInfo>, files: Files)
    requires WellKeyed(files) && Lists(list, files)
    ensures Collect(list) == WholeSeconds(files)
  {
    forall path
      ensures path in Collect(list) <==> path in files
      ensures path in files ==> Collect(list)[path] == WholeSeconds(files)[path]
    {
      CollectHas(list, path);
      if path in files {
        assert ToMessage(files[path]).path == path;
      }
    }
  }

  /** What is read so far, followed by what the rest of the stream gives. */
  function Continue(list: seq<FileInfo>, rest: Option<seq<FileInfo>>): Option<seq<FileInfo>> {
    if rest.Some? then Some(list + rest.value) else None
  }

  lemma ReadOn(list: seq<FileInfo>, messages: seq<Chunk>, end: StreamEnd)
    requires messages != [] && messages[0].error == ""
    ensures Continue(list, ReadList(messages, end)) ==
              if messages[0].isComplete then Some(list + messages[0].files)
              else Continue(list + messages[0].files, ReadList(messages[1..], end))
  {
    var rest := ReadList(messages[1..], end);
    if !messages[0].isComplete && rest.Some? {
      assert list + (messages[0].files + rest.value) == list + messages[0].files + rest.value;
    }
  }

  /** The inner loop: the files of one chunk go into the map. */
  method AddFiles(masterFiles: Files, ghost list: seq<FileInfo>, more: seq<FileInfo>) returns (files: Files)
    requires masterFiles == Collect(list)
    ensures files == Collect(list + more)
  {
    files := masterFiles;
    assert list + more[..0] == list;
    for j := 0 to |more|
      invariant files == Collect(list + more[..j])
    {
      files := files[more[j].path := FromMessage(more[j])];
      var added := list + more[..j + 1];
      assert added[..|added| - 1] == list + more[..j];
    }
    assert more[..|more|] == more;
  }

  /** The receiving loop of the worker. */
  method ReceiveFileList(messages: seq<Chunk>, end: StreamEnd) returns (masterFiles: Option<Files>)
    ensures ReadList(messages, end).None? <==> masterFiles.None?
    ensures masterFiles.Some? ==> masterFiles.value == Collect(ReadList(messages, end).value)
  {
    var files: Files := map[];
    ghost var list: seq<FileInfo> := [];
    assert messages[0..] == messages;
    ghost var all := ReadList(messages, end);
    assert all.Some? ==> [] + all.value == all.value;
    for i := 0 to |messages|
      invariant files == Collect(list)
      invariant all == Continue(list, ReadList(messages[i..], end))
    {
      var chunk := messages[i];
      if chunk.error != "" {
        return None;
      }
      ReadOn(list, messages[i..], end);
      assert messages[i..][1..] == messages[i + 1..];
      files := AddFiles(files, list, chunk.files);
      list := list + chunk.files;
      if chunk.isComplete {
        return Some(files);
      }
    }
    assert list + [] == list;
    return if end.Eof? then Some(files) else None;
  }
}
