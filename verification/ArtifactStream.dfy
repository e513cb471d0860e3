/**
 Artifacts as streams: the client's 64 KiB chunks, the service's pipe with its
 byte counter and hash, the read-and-send loop of a download, and the client's
 reassembly. How many bytes a read returns is up to the reader.
 */
module ArtifactStream {
  import opened Wrappers
  import opened ArtifactLayout
  import opened ArtifactFs
  import FsDriver

  const CLIENT_CHUNK: nat := 64 * 1024
  const SERVER_CHUNK: nat := 64 * 1024
  const COPY_BUFFER: nat := 32 * 1024

  datatype PutMsg = InitMsg(id: string, contentType: string, metadata: map<string, string>) | ChunkMsg(data: Bytes)

  /** The messages of a client stream, and whether receiving past them fails rather than ends. */
  datatype Inbound = Inbound(msgs: seq<PutMsg>, broken: bool)

  datatype Ref = Ref(id: string, size: nat, contentType: string, sha256: string, createdAt: int)

  datatype ServiceError = InvalidArgument | NoSuchArtifact | Internal

  /** The bytes of the chunks before the first message that is not a chunk. */
  function Payload(msgs: seq<PutMsg>): Bytes
  {
    if msgs == [] || msgs[0].InitMsg? then [] else msgs[0].data + Payload(msgs[1..])
  }

  predicate AllChunks(msgs: seq<PutMsg>)
  {
    forall i :: 0 <= i < |msgs| ==> msgs[i].ChunkMsg?
  }

  lemma {:induction false} PayloadSnoc(msgs: seq<PutMsg>, m: PutMsg)
    requires AllChunks(msgs)
    ensures m.ChunkMsg? ==> Payload(msgs + [m]) == Payload(msgs) + m.data
  {
    if msgs != [] {
      PayloadSnoc(msgs[1..], m);
      assert (msgs + [m])[1..] == msgs[1..] + [m];
    } else if m.ChunkMsg? {
      assert (msgs + [m])[1..] == [];
      assert m.data + [] == m.data;
    }
  }

  lemma {:induction false} PayloadStops(msgs: seq<PutMsg>, i: nat)
    requires i < |msgs| && AllChunks(msgs[..i]) && msgs[i].InitMsg?
    ensures Payload(msgs) == Payload(msgs[..i])
  {
    if i > 0 {
      var rest := msgs[1..][..i - 1];
      assert msgs[..i][1..] == rest && msgs[..i][0] == msgs[0];
      assert forall j :: 0 <= j < |rest| ==> rest[j] == msgs[..i][j + 1];
      PayloadStops(msgs[1..], i - 1);
    }
  }

  // ----- The client's upload -----

  method ClientPut(id: string, contentType: string, metadata: map<string, string>, data: Bytes)
    returns (msgs: seq<PutMsg>)
    ensures |msgs| > 0 && msgs[0] == InitMsg(id, contentType, metadata)
    ensures AllChunks(msgs[1..]) && Payload(msgs[1..]) == data
    ensures forall i :: 1 <= i < |msgs| ==> 0 < |msgs[i].data| <= CLIENT_CHUNK
    ensures forall i :: 1 <= i < |msgs| - 1 ==> |msgs[i].data| == CLIENT_CHUNK
  {
    var chunks: seq<PutMsg> := [];
    var off := 0;
    while off < |data|
      invariant 0 <= off && AllChunks(chunks)
      invariant Payload(chunks) == if off <= |data| then data[..off] else data
      invariant forall i :: 0 <= i < |chunks| ==> 0 < |chunks[i].data| <= CLIENT_CHUNK
      invariant off <= |data| ==> forall i :: 0 <= i < |chunks| ==> |chunks[i].data| == CLIENT_CHUNK
      invariant forall i :: 0 <= i < |chunks| - 1 ==> |chunks[i].data| == CLIENT_CHUNK
    {
      var end := if off + CLIENT_CHUNK <= |data| then off + CLIENT_CHUNK else |data|;
      PayloadSnoc(chunks, ChunkMsg(data[off..end]));
      assert data[..off] + data[off..end] == data[..end];
      chunks := chunks + [ChunkMsg(data[off..end])];
      off := off + CLIENT_CHUNK;
    }
    msgs := [InitMsg(id, contentType, metadata)] + chunks;
    assert msgs[1..] == chunks;
  }

  // ----- The service's upload -----

  /** What the counting, hashing reader has seen so far. */
  datatype Tally = Tally(count: nat, hashed: Bytes)

  predicate Counted(tally: Tally)
  {
    tally.count == |tally.hashed| % TWO_64
  }

  /** The counting reader's Read: hash and count what came through. */
  function Tallied(tally: Tally, read: Bytes): (tally': Tally)
    ensures Counted(tally) ==> Counted(tally')
    ensures tally'.hashed == tally.hashed + read
  {
    Tally((tally.count + |read|) % TWO_64, tally.hashed + read)
  }

  lemma ConcatSnoc(pieces: seq<Bytes>, piece: Bytes)
    ensures Concat(pieces + [piece]) == Concat(pieces) + piece
  {
    assert (pieces + [piece])[..|pieces|] == pieces;
  }

  /** One message written into the pipe, read from it piece by piece. */
  method Deliver(data: Bytes, pieces: seq<Bytes>, tally: Tally) returns (pieces': seq<Bytes>, tally': Tally)
    requires Counted(tally)
    ensures Concat(pieces') == Concat(pieces) + data
    ensures tally'.hashed == tally.hashed + data && Counted(tally')
  {
    pieces', tally' := pieces, tally;
    var rest, once := data, true;
    while once || rest != []
      invariant Concat(pieces') + rest == Concat(pieces) + data
      invariant tally'.hashed + rest == tally.hashed + data && Counted(tally')
      decreases |rest|, once
    {
      once := false;
      var n := ReadSize(|rest|, COPY_BUFFER);
      var read := rest[..n];
      ConcatSnoc(pieces', read);
      assert rest == read + rest[n..];
      pieces', tally', rest := pieces' + [read], Tallied(tally', read), rest[n..];
    }
    assert Concat(pieces') + [] == Concat(pieces') && tally'.hashed + [] == tally'.hashed;
  }

  /** How many of the bytes at hand a read into a buffer returns: at least one if there are any. */
  method ReadSize(available: nat, buffer: nat) returns (n: nat)
    requires buffer > 0
    ensures n <= available && n <= buffer && (available > 0 ==> n > 0)
  {
    if available == 0 {
      n := 0;
    } else {
      n :| 1 <= n <= available && n <= buffer;
    }
  }

  /** The goroutine that moves chunks into the pipe, as the driver's copy loop empties it. */
  method Pump(inbound: Inbound) returns (feed: Feed, tally: Tally, failed: bool)
    ensures Concat(feed.pieces) == Payload(inbound.msgs) == tally.hashed
    ensures Counted(tally)
    ensures feed.failed == failed == (inbound.broken || !AllChunks(inbound.msgs))
  {
    var pieces: seq<Bytes> := [];
    tally := Tally(0, []);
    for i := 0 to |inbound.msgs|
      invariant AllChunks(inbound.msgs[..i])
      invariant Concat(pieces) == Payload(inbound.msgs[..i]) == tally.hashed
      invariant Counted(tally)
    {
      if inbound.msgs[i].InitMsg? {
        PayloadStops(inbound.msgs, i);
        return Feed(pieces, true), tally, true;
      }
      PayloadSnoc(inbound.msgs[..i], inbound.msgs[i]);
      assert inbound.msgs[..i + 1] == inbound.msgs[..i] + [inbound.msgs[i]];
      pieces, tally := Deliver(inbound.msgs[i].data, pieces, tally);
    }
    assert inbound.msgs[..|inbound.msgs|] == inbound.msgs;
    return Feed(pieces, inbound.broken), tally, inbound.broken;
  }

  /** The id an upload stores under: the one named, or the one the driver assigns. */
  function UploadId(init: PutMsg, newId: string): string
    requires init.InitMsg?
  {
    if init.id == "" then newId else init.id
  }

  function UploadHeader(init: PutMsg): Header
    requires init.InitMsg?
  {
    Header(init.id, init.contentType, init.metadata, "", 0)
  }

  /**
   The files and the answer after an upload: the driver's Put over the whole payload, then the size and hash written
   back.
   */
  function AfterUpload(base: Path, c: Codec, hash: Bytes -> string, files: Files, ns: string, inbound: Inbound,
                       newId: string, now: int, fault: PutFault, patchFault: MetaFault)
    : (Files, Result<Ref, ServiceError>)
  {
    if inbound.msgs == [] || inbound.msgs[0].ChunkMsg? then (files, Err(InvalidArgument))
    else
      var init, chunks := inbound.msgs[0], inbound.msgs[1..];
      var data := Payload(chunks);
      var feed := Feed([data], inbound.broken || !AllChunks(chunks));
      var (files', r) := AfterPut(base, c, files, ns, UploadHeader(init), newId, feed, now, fault);
      match r
      case Err(_) => (files', Err(Internal))
      case Ok(meta) =>
        (AfterPatchMeta(base, c, files', ns, meta.id, hash(data), |data| % TWO_64, patchFault).0,
         Ok(Ref(meta.id, |data| % TWO_64, meta.contentType, hash(data), now)))
  }

  method ServicePut(d: FsDriver.Driver, hash: Bytes -> string, ns: string, inbound: Inbound, newId: string, tmp: string,
                    now: int, fault: PutFault, patchFault: MetaFault) returns (r: Result<Ref, ServiceError>)
    requires inbound.msgs != [] && inbound.msgs[0].InitMsg? ==>
               FsDriver.TempIsFree(d.base, d.files, ns, UploadId(inbound.msgs[0], newId), tmp)
    modifies d`files
    ensures (d.files, r) == AfterUpload(d.base, d.codec, hash, old(d.files), ns, inbound, newId, now, fault, patchFault)
  {
    if |inbound.msgs| == 0 || inbound.msgs[0].ChunkMsg? {
      r := Err(InvalidArgument);
    } else {
      r := StoreStream(d, hash, ns, inbound, newId, tmp, now, fault, patchFault);
    }
  }

  method StoreStream(d: FsDriver.Driver, hash: Bytes -> string, ns: string, inbound: Inbound, newId: string,
                     tmp: string, now: int, fault: PutFault, patchFault: MetaFault)
    returns (r: Result<Ref, ServiceError>)
    requires inbound.msgs != [] && inbound.msgs[0].InitMsg?
    requires FsDriver.TempIsFree(d.base, d.files, ns, UploadId(inbound.msgs[0], newId), tmp)
    modifies d`files
    ensures (d.files, r) == AfterUpload(d.base, d.codec, hash, old(d.files), ns, inbound, newId, now, fault, patchFault)
  {
    var init := inbound.msgs[0];
    var feed, tally, broken := Pump(Inbound(inbound.msgs[1..], inbound.broken));
    UploadByParts(d.base, d.codec, hash, d.files, ns, inbound, newId, now, fault, patchFault, feed);
    var put := d.Put(ns, UploadHeader(init), newId, feed, tmp, now, fault);
    if put.Err? || broken {
      r := Err(Internal);
    } else {
      var size, sha256 := tally.count, hash(tally.hashed);
      var _ := d.PatchMeta(ns, put.value.id, sha256, size, patchFault);
      r := Ok(Ref(put.value.id, size, put.value.contentType, sha256, put.value.createdAt));
    }
  }

  /** The upload over the pieces the pipe delivered. */
  lemma UploadByParts(base: Path, c: Codec, hash: Bytes -> string, files: Files, ns: string, inbound: Inbound,
                      newId: string, now: int, fault: PutFault, patchFault: MetaFault, feed: Feed)
    requires inbound.msgs != [] && inbound.msgs[0].InitMsg? && Concat(feed.pieces) == Payload(inbound.msgs[1..])
    requires feed.failed == (inbound.broken || !AllChunks(inbound.msgs[1..]))
    ensures var data := Payload(inbound.msgs[1..]);
            var (files', r) := AfterPut(base, c, files, ns, UploadHeader(inbound.msgs[0]), newId, feed, now, fault);
            AfterUpload(base, c, hash, files, ns, inbound, newId, now, fault, patchFault) ==
              match r
              case Err(_) => (files', Err(Internal))
              case Ok(meta) =>
                (AfterPatchMeta(base, c, files', ns, meta.id, hash(data), |data| % TWO_64, patchFault).0,
                 Ok(Ref(meta.id, |data| % TWO_64, meta.contentType, hash(data), meta.createdAt)))
    ensures feed.failed ==> AfterPut(base, c, files, ns, UploadHeader(inbound.msgs[0]), newId, feed, now, fault).1.Err?
  {
    var whole := Feed([Payload(inbound.msgs[1..])], feed.failed);
    ConcatSnoc([], whole.pieces[0]);
    assert [] + [whole.pieces[0]] == whole.pieces;
    SplitIsIrrelevant(base, c, files, ns, UploadHeader(inbound.msgs[0]), newId, feed, whole, now, fault);
  }

  /** A successful upload stores the payload, and its size and hash unless writing them back failed. */
  lemma UploadStores(base: Path, c: Codec, hash: Bytes -> string, files: Files, ns: string, inbound: Inbound,
                     newId: string, now: int, fault: PutFault, patchFault: MetaFault, offset: Uint64, length: Uint64)
    requires Lawful(c) && offset < TWO_63
    requires AfterUpload(base, c, hash, files, ns, inbound, newId, now, fault, patchFault).1.Ok?
    ensures var (files', r) := AfterUpload(base, c, hash, files, ns, inbound, newId, now, fault, patchFault);
            var data := Payload(inbound.msgs[1..]);
            var stat := Stat(base, c, files', ns, r.value.id);
            && AllChunks(inbound.msgs[1..]) && !inbound.broken
            && r.value.size == |data| % TWO_64 && r.value.sha256 == hash(data)
            && stat.Ok? && stat.value.size == (if patchFault.MetaOk? then |data| % TWO_64 else 0)
            && stat.value.sha256 == (if patchFault.MetaOk? then hash(data) else "")
            && Open(base, c, files', ns, r.value.id, offset, length) == Ok((stat.value, Window(data, offset, length)))
  {
    var init, data := inbound.msgs[0], Payload(inbound.msgs[1..]);
    var feed := Feed([data], inbound.broken || !AllChunks(inbound.msgs[1..]));
    assert Concat([data]) == Concat([]) + data == data;
    PutThenOpen(base, c, files, ns, UploadHeader(init), newId, feed, now, fault, offset, length);
    FootprintIsThree(base, ns, UploadId(init, newId));
  }

  /** A stream that breaks off, or carries a message out of place, changes nothing. */
  lemma BrokenUploadChangesNothing(base: Path, c: Codec, hash: Bytes -> string, files: Files, ns: string,
                                   inbound: Inbound, newId: string, now: int, fault: PutFault, patchFault: MetaFault)
    requires inbound.broken || inbound.msgs == [] || inbound.msgs[0].ChunkMsg? || !AllChunks(inbound.msgs[1..])
    ensures var (files', r) := AfterUpload(base, c, hash, files, ns, inbound, newId, now, fault, patchFault);
              files' == files && r.Err?
  {
  }

  // ----- The service's download -----

  /** The answer to a download: the header's metadata and the bytes of the chunks after it. */
  function DownloadOf(base: Path, c: Codec, files: Files, ns: string, id: string, offset: Uint64, length: Uint64)
    : Result<(Meta, Bytes), ServiceError>
  {
    if ValidateId(id).Some? then Err(InvalidArgument)
    else
      match Open(base, c, files, ns, id, offset, length)
      case Ok((meta, bytes)) => Ok((meta, bytes))
      case Err(NotFound) => Err(NoSuchArtifact)
      case Err(_) => Err(Internal)
  }

  method ServiceGet(d: FsDriver.Driver, ns: string, id: string, offset: Uint64, length: Uint64)
    returns (r: Result<Meta, ServiceError>, sent: seq<Bytes>)
    ensures match DownloadOf(d.base, d.codec, d.files, ns, id, offset, length)
            case Ok((meta, bytes)) => r == Ok(meta) && Concat(sent) == bytes
            case Err(e) => r == Err(e) && sent == []
    ensures forall i :: 0 <= i < |sent| ==> 0 < |sent[i]| <= SERVER_CHUNK
  {
    sent := [];
    if ValidateId(id).Some? {
      return Err(InvalidArgument), sent;
    }
    var file := Open(d.base, d.codec, d.files, ns, id, offset, length);
    if file.Err? {
      return Err(if file.error.NotFound? then NoSuchArtifact else Internal), sent;
    }
    sent := SendAll(file.value.1);
    return Ok(file.value.0), sent;
  }

  /** Read into one buffer, over and over, and send what each read returned. */
  method SendAll(bytes: Bytes) returns (sent: seq<Bytes>)
    ensures Concat(sent) == bytes
    ensures forall i :: 0 <= i < |sent| ==> 0 < |sent[i]| <= SERVER_CHUNK
  {
    sent := [];
    var buf := new Byte[SERVER_CHUNK](_ => 0);
    var rest, eof := bytes, false;
    while !eof
      invariant bytes == Concat(sent) + rest
      invariant eof ==> rest == []
      invariant forall i :: 0 <= i < |sent| ==> 0 < |sent[i]| <= SERVER_CHUNK
      decreases |rest|, !eof
    {
      var n := ReadSize(|rest|, buf.Length);
      forall i | 0 <= i < n {
        buf[i] := rest[i];
      }
      assert buf[..n] == rest[..n];
      if n > 0 {
        ConcatSnoc(sent, buf[..n]);
        sent := sent + [buf[..n]];
      }
      rest := rest[n..];
      if n == 0 {
        eof := true;
      } else if rest == [] {
        eof := *;      // the end may be reported with the last bytes or after them
      }
    }
  }

  // ----- The client's download -----

  method ClientGet(chunks: seq<Bytes>) returns (out: array<Byte>)
    ensures fresh(out) && out[..] == Concat(chunks)
  {
    var total := 0;
    for i := 0 to |chunks|
      invariant total == |Concat(chunks[..i])|
    {
      assert chunks[..i + 1][..i] == chunks[..i];
      total := total + |chunks[i]|;
    }
    assert chunks[..|chunks|] == chunks;
    out := new Byte[total](_ => 0);
    var o := 0;
    for i := 0 to |chunks|
      invariant o == |Concat(chunks[..i])| <= out.Length && out[..o] == Concat(chunks[..i])
    {
      assert chunks[..i + 1][..i] == chunks[..i];
      LongerConcat(chunks, i + 1);
      ghost var done := out[..o];
      forall j | 0 <= j < |chunks[i]| {
        out[o + j] := chunks[i][j];
      }
      assert out[..o] == done && out[o..o + |chunks[i]|] == chunks[i];
      o := o + |chunks[i]|;
      assert out[..o] == done + chunks[i];
    }
    assert out[..] == out[..o];
  }

  /**
   Upload and download through client, service and driver: the requested range of the bytes put, and their exact size.
   An upload without an id gets `newId`.
   */
  method RoundTrip(d: FsDriver.Driver, hash: Bytes -> string, ns: string, id: string, newId: string,
                   contentType: string, metadata: map<string, string>, data: Bytes, tmp: string, now: int,
                   offset: Uint64, length: Uint64)
    returns (out: array<Byte>, meta: Meta)
    requires Lawful(d.codec) && GoodNames(ns, if id == "" then newId else id)
    requires FsDriver.TempIsFree(d.base, d.files, ns, if id == "" then newId else id, tmp)
    requires offset < TWO_63 && length < TWO_63
    modifies d`files
    ensures var from := if offset <= |data| then offset else |data|;
            var to := if length == 0 || offset + length > |data| then |data| else offset + length;
            out[..] == if from <= to then data[from..to] else []
    ensures meta == Meta(if id == "" then newId else id, |data| % TWO_64, contentType, hash(data), metadata, now)
  {
    var msgs := ClientPut(id, contentType, metadata, data);
    ghost var files := d.files;
    ghost var inbound := Inbound(msgs, false);
    UploadSucceeds(d.base, d.codec, hash, files, ns, inbound, newId, now);
    UploadStores(d.base, d.codec, hash, files, ns, inbound, newId, now, AtMeta(MetaOk), MetaOk, offset, length);
    var put := ServicePut(d, hash, ns, Inbound(msgs, false), newId, tmp, now, AtMeta(MetaOk), MetaOk);
    var got, sent := ServiceGet(d, ns, put.value.id, offset, length);
    out := ClientGet(sent);
    meta := got.value;
    WindowIsTheRange(data, offset, length);
  }

  lemma UploadSucceeds(base: Path, c: Codec, hash: Bytes -> string, files: Files, ns: string, inbound: Inbound,
                       newId: string, now: int)
    requires Lawful(c) && !inbound.broken && inbound.msgs != [] && inbound.msgs[0].InitMsg? &&
               AllChunks(inbound.msgs[1..])
    requires GoodNames(ns, UploadId(inbound.msgs[0], newId))
    ensures var (files', r) := AfterUpload(base, c, hash, files, ns, inbound, newId, now, AtMeta(MetaOk), MetaOk);
            var init, data, id := inbound.msgs[0], Payload(inbound.msgs[1..]), UploadId(inbound.msgs[0], newId);
            && r.Ok? && r.value.id == id
            && Stat(base, c, files', ns, id) ==
                 Ok(Meta(id, |data| % TWO_64, init.contentType, hash(data), init.metadata, now))
  {
    FootprintIsThree(base, ns, UploadId(inbound.msgs[0], newId));
  }
}
