/**
 * Downloading one file: the server reads it piece by piece and sends every piece, the worker
 * writes the pieces to its own file until it sees the final message.
 */
module FileDownload {
  import opened Prelude
  import opened ScanStreaming

  const BUFFER_SIZE: nat := 64 * 1024

  datatype ReadError = Nil | EndOfFile | Failure(message: string)

  /** What one read of the open file returns: data and an error can come together. */
  datatype Read = Read(data: seq<byte>, err: ReadError)

  /** The file on the server: it cannot be opened or inspected, or it gives these reads. */
  datatype Source = Unavailable(reason: string) | Readable(totalBytes: int, parts: seq<Read>)

  datatype DownloadChunk = DownloadChunk(data: seq<byte>, isComplete: bool, totalBytes: int, error: string)

  /** Reads fit the buffer, and reading goes on exactly until the first error or the end. */
  predicate Ends(parts: seq<Read>) {
    && parts != []
    && |parts[0].data| <= BUFFER_SIZE
    && if parts[0].err.Nil? then Ends(parts[1..]) else |parts| == 1
  }

  function Content(parts: seq<Read>): seq<byte> {
    if parts == [] then [] else parts[0].data + Content(parts[1..])
  }

  predicate ReachesTheEnd(parts: seq<Read>)
    requires parts != []
  {
    parts[|parts| - 1].err.EndOfFile?
  }

  function Piece(read: Read, totalBytes: int): seq<DownloadChunk> {
    if |read.data| > 0 then [DownloadChunk(read.data, false, totalBytes, "")] else []
  }

  function Final(err: ReadError, totalBytes: int): DownloadChunk
    requires !err.Nil?
  {
    if err.EndOfFile? then DownloadChunk([], true, totalBytes, "")
    else DownloadChunk([], true, 0, "read error: " + err.message)
  }

  /** The messages for a file that gives these reads. */
  function Pieces(parts: seq<Read>, totalBytes: int): seq<DownloadChunk>
    requires Ends(parts)
  {
    Piece(parts[0], totalBytes)
    + if parts[0].err.Nil? then Pieces(parts[1..], totalBytes) else [Final(parts[0].err, totalBytes)]
  }

  function Messages(source: Source): seq<DownloadChunk>
    requires source.Readable? ==> Ends(source.parts)
  {
    match source
    case Unavailable(reason) => [DownloadChunk([], true, 0, reason)]
    case Readable(totalBytes, parts) => Pieces(parts, totalBytes)
  }

  /** All the data in a run of messages. */
  function Data(messages: seq<DownloadChunk>): seq<byte> {
    if messages == [] then [] else messages[0].data + Data(messages[1..])
  }

  /** What a download looks like: its data are what the reads gave, no message is larger than the
      buffer, only the last is marked, and only that one may be empty or carry an error, which it
      does exactly when reading did not reach the end; all others carry the size of the file. */
  ghost predicate DeliversReads(messages: seq<DownloadChunk>, parts: seq<Read>, totalBytes: int)
    requires parts != []
  {
    && messages != [] && Data(messages) == Content(parts)
    && (forall i :: 0 <= i < |messages| - 1 ==>
          && 0 < |messages[i].data| <= 65536 && !messages[i].isComplete
          && messages[i].error == "" && messages[i].totalBytes == totalBytes)
    && var last := messages[|messages| - 1];
       && last.data == [] && last.isComplete
       && if parts[|parts| - 1].err == EndOfFile then last.error == "" && last.totalBytes == totalBytes
          else last.error != ""
  }

  /** Some data in front of a download is a download again. */
  lemma DeliversOneMore(read: Read, rest: seq<DownloadChunk>, parts: seq<Read>, totalBytes: int)
    requires |read.data| <= BUFFER_SIZE && parts != [] && DeliversReads(rest, parts, totalBytes)
    ensures DeliversReads(Piece(read, totalBytes) + rest, [read] + parts, totalBytes)
  {
    var piece := Piece(read, totalBytes);
    var all := piece + rest;
    assert ([read] + parts)[1..] == parts && ([read] + parts)[|parts|] == parts[|parts| - 1];
    if piece == [] {
      assert all == rest && Content([read] + parts) == [] + Content(parts);
    } else {
      assert all[1..] == rest && all[|all| - 1] == rest[|rest| - 1];
    }
  }

  lemma FinalDelivers(err: ReadError, totalBytes: int)
    requires !err.Nil?
    ensures DeliversReads([Final(err, totalBytes)], [Read([], err)], totalBytes)
  {
    assert [Final(err, totalBytes)][1..] == [];
  }

  lemma {:induction false} PiecesDeliver(parts: seq<Read>, totalBytes: int)
    requires Ends(parts)
    ensures DeliversReads(Pieces(parts, totalBytes), parts, totalBytes)
  {
    var first := parts[0];
    if first.err.Nil? {
      PiecesDeliver(parts[1..], totalBytes);
      DeliversOneMore(first, Pieces(parts[1..], totalBytes), parts[1..], totalBytes);
      assert parts == [first] + parts[1..];
    } else {
      FinalDelivers(first.err, totalBytes);
      DeliversOneMore(first, [Final(first.err, totalBytes)], [Read([], first.err)], totalBytes);
      LastRead(first, parts, totalBytes);
    }
  }

  /** The last read gives its data and its error at once or one after the other. */
  lemma LastRead(read: Read, parts: seq<Read>, totalBytes: int)
    requires parts == [read]
    ensures Content([read] + [Read([], read.err)]) == Content(parts)
  {
    assert ([read] + [Read([], read.err)])[1..] == [Read([], read.err)];
    assert [Read([], read.err)][1..] == [] && parts[1..] == [];
    assert read.data + ([] + []) == read.data + [];
  }

  /** What one iteration of the loop sends. */
  function OneRead(read: Read, totalBytes: int): seq<DownloadChunk> {
    Piece(read, totalBytes) + if read.err.Nil? then [] else [Final(read.err, totalBytes)]
  }

  method SendOneRead(stream: ServerStream<DownloadChunk>, read: Read, totalBytes: int) returns (ok: bool)
    modifies stream
    ensures stream.sent <= old(stream.sent) + OneRead(read, totalBytes)
    ensures ok <==> stream.sent == old(stream.sent) + OneRead(read, totalBytes)
    ensures !ok ==> !stream.sends(|stream.sent|)
  {
    if |read.data| > 0 {
      ok := stream.Send(DownloadChunk(read.data, false, totalBytes, ""));
      if !ok {
        return;
      }
    }
    if read.err.Nil? {
      return true;
    }
    ok := stream.Send(Final(read.err, totalBytes));
  }

  lemma OneReadFurther(sent: seq<DownloadChunk>, parts: seq<Read>, totalBytes: int)
    requires Ends(parts)
    ensures
      var rest := if parts[0].err.Nil? then Pieces(parts[1..], totalBytes) else [];
      sent + Pieces(parts, totalBytes) == sent + OneRead(parts[0], totalBytes) + rest
  {
  }

  lemma StillPart(sent: seq<DownloadChunk>, some: seq<DownloadChunk>, all: seq<DownloadChunk>)
    requires sent <= some <= all && sent != some
    ensures sent <= all && sent != all
  {
    assert |sent| < |some|;
  }

  /** The loop of StreamFileDownload. */
  method StreamFileDownload(stream: ServerStream<DownloadChunk>, authorized: bool, resolved: bool, source: Source)
    returns (ok: bool)
    requires source.Readable? ==> Ends(source.parts)
    requires stream.sent == []
    modifies stream
    ensures if authorized && resolved then stream.Streamed(Messages(source), ok) else !ok && stream.sent == []
  {
    if !authorized || !resolved {
      return false;
    }
    if source.Unavailable? {
      ok := stream.Send(DownloadChunk([], true, 0, source.reason));
      return;
    }
    ghost var messages := Messages(source);
    var parts, totalBytes := source.parts, source.totalBytes;
    while true
      invariant Ends(parts) && stream.sent + Pieces(parts, totalBytes) == messages
      decreases |parts|
    {
      OneReadFurther(stream.sent, parts, totalBytes);
      ghost var next := stream.sent + OneRead(parts[0], totalBytes);
      ok := SendOneRead(stream, parts[0], totalBytes);
      if !ok {
        StillPart(stream.sent, next, messages);
        return;
      }
      if !parts[0].err.Nil? {
        return;
      }
      parts := parts[1..];
    }
  }

  /** What the worker ends up with in its file, unless it reports an error. */
  function Written(messages: seq<DownloadChunk>, end: StreamEnd): Option<seq<byte>> {
    if messages == [] then (if end.Eof? then Some([]) else None)
    else if messages[0].error != "" then None
    else if messages[0].isComplete then Some(messages[0].data)
    else
      var rest := Written(messages[1..], end);
      if rest.Some? then Some(messages[0].data + rest.value) else None
  }

  /** One piece, followed by what the rest of the stream gives. */
  function Onto(data: seq<byte>, rest: Option<seq<byte>>): Option<seq<byte>> {
    if rest.Some? then Some(data + rest.value) else None
  }

  lemma WriteOn(file: seq<byte>, messages: seq<DownloadChunk>, end: StreamEnd)
    requires messages != [] && messages[0].error == ""
    ensures Onto(file, Written(messages, end)) ==
              if messages[0].isComplete then Some(file + messages[0].data)
              else Onto(file + messages[0].data, Written(messages[1..], end))
  {
    var rest := Written(messages[1..], end);
    if !messages[0].isComplete && rest.Some? {
      assert file + (messages[0].data + rest.value) == file + messages[0].data + rest.value;
    }
  }

  /** The receiving loop of the worker, writing to the file it has just created; `writes(k)`
      tells whether the k-th write succeeds. */
  method DownloadFile(messages: seq<DownloadChunk>, end: StreamEnd, writes: nat -> bool)
    returns (file: seq<byte>, ok: bool)
    ensures ok ==> Written(messages, end) == Some(file)
    ensures (forall k :: writes(k)) ==> (ok <==> Written(messages, end).Some?)
  {
    file := [];
    assert messages[0..] == messages;
    ghost var all := Written(messages, end);
    assert all.Some? ==> [] + all.value == all.value;
    var k := 0;
    for i := 0 to |messages|
      invariant all == Onto(file, Written(messages[i..], end))
    {
      var chunk := messages[i];
      if chunk.error != "" {
        return file, false;
      }
      WriteOn(file, messages[i..], end);
      assert messages[i..][1..] == messages[i + 1..];
      ghost var before := file;
      if |chunk.data| > 0 {
        if !writes(k) {
          return file, false;
        }
        k := k + 1;
        file := file + chunk.data;
      }
      assert file == before + chunk.data;
      if chunk.isComplete {
        return file, true;
      }
    }
    assert messages[|messages|..] == [] && file + [] == file;
    ok := end.Eof?;
  }

  /** Reading some of a stream that starts with one piece, or with none. */
  lemma WrittenFrom(read: Read, totalBytes: int, rest: seq<DownloadChunk>, arrived: nat, end: StreamEnd)
    requires arrived <= |Piece(read, totalBytes) + rest|
    requires end.Eof? ==> arrived == |Piece(read, totalBytes) + rest|
    ensures
      var piece := Piece(read, totalBytes);
      Written((piece + rest)[..arrived], end) ==
        if arrived < |piece| then None else Onto(read.data, Written(rest[..arrived - |piece|], end))
  {
    var piece := Piece(read, totalBytes);
    var messages := (piece + rest)[..arrived];
    if read.data == [] {
      assert messages == rest[..arrived];
      var written := Written(messages, end);
      assert written.Some? ==> [] + written.value == written.value;
    } else if arrived > 0 {
      assert messages[1..] == rest[..arrived - 1];
    }
  }

  lemma FinalArrives(err: ReadError, totalBytes: int, arrived: nat, end: StreamEnd)
    requires !err.Nil? && arrived <= 1 && (end.Eof? ==> arrived == 1)
    ensures Written([Final(err, totalBytes)][..arrived], end) ==
              if arrived == 1 && err.EndOfFile? then Some([]) else None
  {
    assert [Final(err, totalBytes)][..1] == [Final(err, totalBytes)];
  }

  lemma {:induction false} PiecesArrive(parts: seq<Read>, totalBytes: int, arrived: nat, end: StreamEnd)
    requires Ends(parts) && arrived <= |Pieces(parts, totalBytes)|
    requires end.Eof? ==> arrived == |Pieces(parts, totalBytes)|
    ensures Written(Pieces(parts, totalBytes)[..arrived], end) ==
              if arrived == |Pieces(parts, totalBytes)| && ReachesTheEnd(parts) then Some(Content(parts)) else None
  {
    var first, n := parts[0], |Piece(parts[0], totalBytes)|;
    var rest := if first.err.Nil? then Pieces(parts[1..], totalBytes) else [Final(first.err, totalBytes)];
    WrittenFrom(first, totalBytes, rest, arrived, end);
    if arrived >= n {
      if first.err.Nil? {
        PiecesArrive(parts[1..], totalBytes, arrived - n, end);
      } else {
        FinalArrives(first.err, totalBytes, arrived - n, end);
        assert Content(parts) == first.data + [];
      }
    }
  }

  /** Whatever part of the stream arrives, the worker reports success exactly when it has the
      file to its end, and then it has written exactly that. */
  lemma FileArrivesWholeOrNotAtAll(source: Source, arrived: nat, end: StreamEnd)
    requires source.Readable? ==> Ends(source.parts)
    requires source.Unavailable? ==> source.reason != ""
    requires arrived <= |Messages(source)|
    requires end.Eof? ==> arrived == |Messages(source)|
    ensures Written(Messages(source)[..arrived], end) ==
              if source.Readable? && arrived == |Messages(source)| && ReachesTheEnd(source.parts)
              then Some(Content(source.parts)) else None
  {
    if source.Readable? {
      PiecesArrive(source.parts, source.totalBytes, arrived, end);
    } else if arrived == 1 {
      assert Messages(source)[..1] == Messages(source);
    }
  }
}
