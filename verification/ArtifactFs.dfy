/**
 What each call of the file-system artifact driver does to the files, fault by
 fault. A file system is a map from paths to bytes; the temporary file of an
 upload has a name nothing else has, and its removal succeeds.
 */
module ArtifactFs {
  import opened Wrappers
  import opened ArtifactLayout

  type Files = map<Path, Bytes>

  datatype Meta = Meta(id: string, size: nat, contentType: string, sha256: string, metadata: map<string, string>,
                       createdAt: int)

  datatype Header = Header(id: string, contentType: string, metadata: map<string, string>, sha256: string, size: nat)

  /** The JSON form of metadata. */
  datatype Codec = Codec(marshal: Meta -> Bytes, unmarshal: Bytes -> Option<Meta>)

  ghost predicate Lawful(c: Codec)
  {
    forall m :: c.unmarshal(c.marshal(m)) == Some(m)
  }

  datatype FsError = BadName(cause: NameError) | NotFound | OsError | ReaderFailed | BadMeta

  /** What a reader delivers: the results of its reads, then the end or an error. */
  datatype Feed = Feed(pieces: seq<Bytes>, failed: bool)

  function Concat(chunks: seq<Bytes>): Bytes
  {
    if chunks == [] then [] else Concat(chunks[..|chunks| - 1]) + chunks[|chunks| - 1]
  }

  lemma {:induction false} LongerConcat(chunks: seq<Bytes>, i: nat)
    requires i <= |chunks|
    ensures |Concat(chunks[..i])| <= |Concat(chunks)|
    decreases |chunks|
  {
    if i < |chunks| {
      assert chunks[..|chunks| - 1][..i] == chunks[..i];
      LongerConcat(chunks[..|chunks| - 1], i);
    } else {
      assert chunks[..i] == chunks;
    }
  }

  /** Where the operating system may fail a write of metadata, and with how much written. */
  datatype MetaFault = MetaOk | MetaOpenFails | MetaWriteFails(written: nat) | MetaRenameFails

  /** Where it may fail an upload; a write fails when there is no room left for it. */
  datatype PutFault =
    | MkdirFails | CreateTempFails | WriteFails(room: nat) | CloseFails | RenameFails | AtMeta(fault: MetaFault)

  datatype DeleteFault = DeleteOk | StatFails | RemoveDataFails | RemoveMetaFails

  /** Rename replaces the target. */
  function Renamed(files: Files, from: Path, to: Path): Files
    requires from in files
  {
    (files - {from})[to := files[from]]
  }

  function NameFault(ns: string, id: string): Option<NameError>
  {
    if ValidateNamespace(ns).Some? then ValidateNamespace(ns) else ValidateId(id)
  }

  /** Metadata goes to a temporary file that is then renamed. */
  function AfterWriteMeta(files: Files, base: Path, ns: string, id: string, body: Bytes, fault: MetaFault)
    : (Files, bool)
  {
    var tmp, path := MetaTmpPath(base, ns, id), MetaPath(base, ns, id);
    match fault
    case MetaOpenFails => (files, false)
    case MetaWriteFails(n) => (files[tmp := if n < |body| then body[..n] else body], false)
    case MetaRenameFails => (files[tmp := body], false)
    case MetaOk => ((files - {tmp})[path := body], true)
  }

  function NewMeta(h: Header, id: string, now: int): Meta
  {
    Meta(id, h.size, h.contentType, h.sha256, h.metadata, now)
  }

  function AfterPut(base: Path, c: Codec, files: Files, ns: string, h: Header, newId: string, feed: Feed, now: int,
                    fault: PutFault)
    : (Files, Result<Meta, FsError>)
  {
    var id := if h.id == "" then newId else h.id;
    if NameFault(ns, id).Some? then (files, Err(BadName(NameFault(ns, id).value)))
    else if fault.MkdirFails? || fault.CreateTempFails? then (files, Err(OsError))
    else if fault.WriteFails? && fault.room < |Concat(feed.pieces)| then (files, Err(OsError))
    else if feed.failed then (files, Err(ReaderFailed))
    else if fault.CloseFails? || fault.RenameFails? then (files, Err(OsError))
    else
      var data := DataPath(base, ns, id);
      var meta := NewMeta(h, id, now);
      var metaFault := if fault.AtMeta? then fault.fault else MetaOk;
      var (files', ok) := AfterWriteMeta(files[data := Concat(feed.pieces)], base, ns, id, c.marshal(meta), metaFault);
      if ok then (files', Ok(meta)) else (files' - {data}, Err(OsError))
  }

  /** An upload depends on the bytes its reader delivers, not on how they are split into reads. */
  lemma SplitIsIrrelevant(base: Path, c: Codec, files: Files, ns: string, h: Header, newId: string, feed: Feed,
                          whole: Feed, now: int, fault: PutFault)
    requires Concat(feed.pieces) == Concat(whole.pieces) && feed.failed == whole.failed
    ensures AfterPut(base, c, files, ns, h, newId, feed, now, fault) ==
              AfterPut(base, c, files, ns, h, newId, whole, now, fault)
  {
  }

  function Stat(base: Path, c: Codec, files: Files, ns: string, id: string): Result<Meta, FsError>
  {
    if NameFault(ns, id).Some? then Err(BadName(NameFault(ns, id).value))
    else if MetaPath(base, ns, id) !in files then Err(NotFound)
    else
      match c.unmarshal(files[MetaPath(base, ns, id)])
      case Some(meta) => Ok(meta)
      case None => Err(BadMeta)
  }

  function AfterPatchMeta(base: Path, c: Codec, files: Files, ns: string, id: string, sha256: string, size: nat,
                          fault: MetaFault)
    : (Files, Result<(), FsError>)
  {
    match Stat(base, c, files, ns, id)
    case Err(e) => (files, Err(e))
    case Ok(meta) =>
      var (files', ok) := AfterWriteMeta(files, base, ns, id, c.marshal(meta.(sha256 := sha256, size := size)), fault);
      (files', if ok then Ok(()) else Err(OsError))
  }

  function AfterDelete(base: Path, files: Files, ns: string, id: string, fault: DeleteFault)
    : (Files, Result<bool, FsError>)
  {
    if NameFault(ns, id).Some? then (files, Err(BadName(NameFault(ns, id).value)))
    else if fault.StatFails? then (files, Err(OsError))
    else
      var data, meta := DataPath(base, ns, id), MetaPath(base, ns, id);
      if data !in files then (files, Ok(false))
      else if fault.RemoveDataFails? then (files, Err(OsError))
      else if fault.RemoveMetaFails? then (files - {data}, Err(OsError))
      else (files - {data} - {meta}, Ok(true))
  }

  // ----- Reading -----

  type Uint64 = n: nat | n < TWO_64

  /** Go's conversion to int64. */
  function ToInt64(n: Uint64): int
  {
    if n < TWO_63 then n else n - TWO_64
  }

  /** Everything a reader opened at an offset and limited to a length will deliver. */
  function Window(bytes: Bytes, offset: Uint64, length: Uint64): Bytes
  {
    var rest := if offset <= |bytes| then bytes[offset..] else [];
    if length == 0 then rest
    else
      var limit := ToInt64(length);
      if limit <= 0 then [] else if limit <= |rest| then rest[..limit] else rest
  }

  function Open(base: Path, c: Codec, files: Files, ns: string, id: string, offset: Uint64, length: Uint64)
    : Result<(Meta, Bytes), FsError>
  {
    match Stat(base, c, files, ns, id)
    case Err(e) => Err(e)
    case Ok(meta) =>
      var data := DataPath(base, ns, id);
      if data !in files then Err(NotFound)
      else if offset > 0 && ToInt64(offset) < 0 then Err(OsError)   // seeking before the start
      else Ok((meta, Window(files[data], offset, length)))
  }

  /** What a reader of a range means, for offsets and lengths an int64 holds. */
  lemma WindowIsTheRange(bytes: Bytes, offset: Uint64, length: Uint64)
    requires offset < TWO_63 && length < TWO_63
    ensures var from := if offset <= |bytes| then offset else |bytes|;
            var to := if length == 0 || offset + length > |bytes| then |bytes| else offset + length;
            Window(bytes, offset, length) == if from <= to then bytes[from..to] else []
  {
  }

  /** Past the int64 range: an offset is refused, a length reads as nothing. */
  lemma BeyondInt64(base: Path, c: Codec, files: Files, ns: string, id: string, offset: Uint64, length: Uint64)
    requires Stat(base, c, files, ns, id).Ok? && DataPath(base, ns, id) in files
    ensures Open(base, c, files, ns, id, offset, length).Err? <==> offset >= TWO_63
    ensures offset < TWO_63 <= length ==> Open(base, c, files, ns, id, offset, length).value.1 == []
  {
  }

  // ----- What an upload leaves behind -----

  ghost predicate SameOn(before: Files, after: Files, footprint: set<Path>)
  {
    var same := forall p :: p in footprint ==> (p in before <==> p in after) && (p in before ==> before[p] == after[p]);
    same
  }

  ghost predicate SameOutside(before: Files, after: Files, footprint: set<Path>)
  {
    var same := forall p :: p !in footprint ==>
        (p in before <==> p in after) && (p in before ==> before[p] == after[p]);
    same
  }

  lemma FootprintIsThree(base: Path, ns: string, id: string)
    requires GoodNames(ns, id)
    ensures DataPath(base, ns, id) != MetaPath(base, ns, id) && DataPath(base, ns, id) != MetaTmpPath(base, ns, id)
    ensures MetaPath(base, ns, id) != MetaTmpPath(base, ns, id)
  {
    DirOf(base, ns, id);
    var d := Dir(base, ns, id);
    SnocEqual(d, id, d, id + ".json");
    SnocEqual(d, id, d, id + ".json" + ".tmp");
    SnocEqual(d, id + ".json", d, id + ".json" + ".tmp");
  }

  /** A successful write of metadata is seen by Stat and leaves the data alone. */
  lemma WrittenMeta(base: Path, c: Codec, files: Files, ns: string, id: string, m: Meta)
    requires Lawful(c) && GoodNames(ns, id)
    ensures var files' := AfterWriteMeta(files, base, ns, id, c.marshal(m), MetaOk).0;
            && Stat(base, c, files', ns, id) == Ok(m)
            && SameOn(files, files', {DataPath(base, ns, id)})
  {
    FootprintIsThree(base, ns, id);
  }

  lemma OpensAs(base: Path, c: Codec, files: Files, ns: string, id: string, m: Meta, bytes: Bytes, offset: Uint64,
                length: Uint64)
    requires Stat(base, c, files, ns, id) == Ok(m) && offset < TWO_63
    requires DataPath(base, ns, id) in files && files[DataPath(base, ns, id)] == bytes
    ensures Open(base, c, files, ns, id, offset, length) == Ok((m, Window(bytes, offset, length)))
  {
  }

  /** A successful upload can be read back, with its metadata. */
  lemma PutThenOpen(base: Path, c: Codec, files: Files, ns: string, h: Header, newId: string, feed: Feed, now: int,
                    fault: PutFault, offset: Uint64, length: Uint64)
    requires Lawful(c) && offset < TWO_63
    requires AfterPut(base, c, files, ns, h, newId, feed, now, fault).1.Ok?
    ensures var (files', r) := AfterPut(base, c, files, ns, h, newId, feed, now, fault);
            && r.value.id == (if h.id == "" then newId else h.id) && r.value.createdAt == now &&
                 r.value.metadata == h.metadata
            && Stat(base, c, files', ns, r.value.id) == Ok(r.value)
            && Open(base, c, files', ns, r.value.id, offset, length) ==
                 Ok((r.value, Window(Concat(feed.pieces), offset, length)))
  {
    var id := if h.id == "" then newId else h.id;
    var stored := files[DataPath(base, ns, id) := Concat(feed.pieces)];
    WrittenMeta(base, c, stored, ns, id, NewMeta(h, id, now));
    var files' := AfterPut(base, c, files, ns, h, newId, feed, now, fault).0;
    assert files' == AfterWriteMeta(stored, base, ns, id, c.marshal(NewMeta(h, id, now)), MetaOk).0;
    assert DataPath(base, ns, id) in {DataPath(base, ns, id)};
    OpensAs(base, c, files', ns, id, NewMeta(h, id, now), Concat(feed.pieces), offset, length);
  }

  lemma FailedMetaWrite(base: Path, files: Files, ns: string, id: string, body: Bytes, fault: MetaFault)
    requires !fault.MetaOk?
    ensures var (files', ok) := AfterWriteMeta(files, base, ns, id, body, fault);
            !ok && SameOutside(files, files', {MetaTmpPath(base, ns, id)})
  {
  }

  /**
   A failed upload leaves the files as they were unless it got as far as the metadata; then the bytes are
   gone, the old metadata is still there, and nothing else but the metadata's temporary file differs.
   */
  lemma FailedPut(base: Path, c: Codec, files: Files, ns: string, h: Header, newId: string, feed: Feed, now: int,
                  fault: PutFault)
    requires AfterPut(base, c, files, ns, h, newId, feed, now, fault).1.Err?
    ensures var (files', r) := AfterPut(base, c, files, ns, h, newId, feed, now, fault);
            var id := if h.id == "" then newId else h.id;
            if fault.AtMeta? && GoodNames(ns, id) && !feed.failed
            then DataPath(base, ns, id) !in files' &&
                SameOutside(files, files', {DataPath(base, ns, id), MetaTmpPath(base, ns, id)})
            else files' == files
  {
    var id := if h.id == "" then newId else h.id;
    if fault.AtMeta? && GoodNames(ns, id) && !feed.failed {
      FailedAtMeta(base, files, ns, id, Concat(feed.pieces), c.marshal(NewMeta(h, id, now)), fault.fault);
    }
  }

  lemma FailedAtMeta(base: Path, files: Files, ns: string, id: string, bytes: Bytes, body: Bytes, fault: MetaFault)
    requires GoodNames(ns, id) && !fault.MetaOk?
    ensures var data := DataPath(base, ns, id);
            var files' := AfterWriteMeta(files[data := bytes], base, ns, id, body, fault).0 - {data};
            data !in files' && SameOutside(files, files', {data, MetaTmpPath(base, ns, id)})
  {
    FootprintIsThree(base, ns, id);
    FailedMetaWrite(base, files[DataPath(base, ns, id) := bytes], ns, id, body, fault);
  }

  /**
   After such a failure over an existing artifact: it still has its metadata, cannot be read, and Delete does not see
   it.
   */
  lemma FailedOverwriteOrphansMetadata(base: Path, c: Codec, files: Files, ns: string, h: Header, feed: Feed, now: int,
                                       fault: MetaFault)
    requires h.id != "" && GoodNames(ns, h.id) && !feed.failed && !fault.MetaOk?
    requires Stat(base, c, files, ns, h.id).Ok?
    ensures var files' := AfterPut(base, c, files, ns, h, "", feed, now, AtMeta(fault)).0;
            && Stat(base, c, files', ns, h.id) == Stat(base, c, files, ns, h.id)
            && Open(base, c, files', ns, h.id, 0, 0) == Err(NotFound)
            && AfterDelete(base, files', ns, h.id, DeleteOk) == (files', Ok(false))
  {
    FootprintIsThree(base, ns, h.id);
  }

  lemma DeletedIsGone(base: Path, c: Codec, files: Files, ns: string, id: string)
    requires GoodNames(ns, id)
    ensures var (files', r) := AfterDelete(base, files, ns, id, DeleteOk);
            && r == Ok(DataPath(base, ns, id) in files)
            && Open(base, c, files', ns, id, 0, 0).Err?
            && (r.value ==> Stat(base, c, files', ns, id) == Err(NotFound))
  {
    FootprintIsThree(base, ns, id);
  }

  // ----- Calls on one artifact leave the others alone -----

  datatype Op =
    | OpPut(header: Header, feed: Feed, now: int, putFault: PutFault)
    | OpPatchMeta(sha256: string, size: nat, metaFault: MetaFault)
    | OpDelete(deleteFault: DeleteFault)

  /** One call on the artifact `id`, which an upload names in its header. */
  function AfterOp(base: Path, c: Codec, files: Files, ns: string, id: string, op: Op): Files
  {
    match op
    case OpPut(h, feed, now, fault) => AfterPut(base, c, files, ns, h.(id := id), id, feed, now, fault).0
    case OpPatchMeta(sha256, size, fault) => AfterPatchMeta(base, c, files, ns, id, sha256, size, fault).0
    case OpDelete(fault) => AfterDelete(base, files, ns, id, fault).0
  }

  datatype Call = Call(ns: string, id: string, op: Op)

  function AfterCalls(base: Path, c: Codec, files: Files, calls: seq<Call>): Files
  {
    if calls == [] then files
    else
      var last := calls[|calls| - 1];
      AfterOp(base, c, AfterCalls(base, c, files, calls[..|calls| - 1]), last.ns, last.id, last.op)
  }

  lemma OpStaysInside(base: Path, c: Codec, files: Files, ns: string, id: string, op: Op)
    ensures SameOutside(files, AfterOp(base, c, files, ns, id, op), Footprint(base, ns, id))
  {
  }

  /** The artifacts neither share a file nor have one where the other needs a directory. */
  predicate Separate(ns1: string, id1: string, ns2: string, id2: string)
  {
    !Collide(ns1, id1, ns2, id2) && !Blocks(id1, ns2, id2) && !Blocks(id2, ns1, id1)
  }

  /** Calls on artifacts separate from this one. */
  predicate Elsewhere(calls: seq<Call>, ns: string, id: string)
  {
    forall i :: 0 <= i < |calls| && GoodNames(calls[i].ns, calls[i].id) ==> Separate(calls[i].ns, calls[i].id, ns, id)
  }

  lemma {:induction false} CallsElsewhereLeaveFiles(base: Path, c: Codec, files: Files, calls: seq<Call>, ns: string,
                                                    id: string)
    requires GoodNames(ns, id) && Elsewhere(calls, ns, id)
    ensures SameOn(files, AfterCalls(base, c, files, calls), Footprint(base, ns, id))
  {
    if calls != [] {
      var n := |calls| - 1;
      CallsElsewhereLeaveFiles(base, c, files, calls[..n], ns, id);
      var before, call := AfterCalls(base, c, files, calls[..n]), calls[n];
      if GoodNames(call.ns, call.id) {
        OpStaysInside(base, c, before, call.ns, call.id, call.op);
        FilesAreSharedExactlyOnCollision(base, call.ns, call.id, ns, id);
        Apart(before, AfterOp(base, c, before, call.ns, call.id, call.op), Footprint(base, call.ns, call.id),
              Footprint(base, ns, id));
      }
    }
  }

  lemma Apart(before: Files, after: Files, touched: set<Path>, watched: set<Path>)
    requires SameOutside(before, after, touched) && touched * watched == {}
    ensures SameOn(before, after, watched)
  {
    forall p | p in watched ensures p !in touched {
      assert p !in touched * watched;
    }
  }

  /** Whatever is called on artifacts separate from this one, it is read as before. */
  lemma CallsElsewhereAreInvisible(base: Path, c: Codec, files: Files, calls: seq<Call>, ns: string, id: string,
                                   offset: Uint64, length: Uint64)
    requires GoodNames(ns, id) && Elsewhere(calls, ns, id)
    ensures var files' := AfterCalls(base, c, files, calls);
            && Stat(base, c, files', ns, id) == Stat(base, c, files, ns, id)
            && Open(base, c, files', ns, id, offset, length) == Open(base, c, files, ns, id, offset, length)
  {
    CallsElsewhereLeaveFiles(base, c, files, calls, ns, id);
    assert MetaPath(base, ns, id) in Footprint(base, ns, id) && DataPath(base, ns, id) in Footprint(base, ns, id);
  }

  /** For plain ids, any two different artifacts. */
  lemma PlainArtifactsAreIndependent(base: Path, c: Codec, files: Files, calls: seq<Call>, ns: string, id: string,
                                     offset: Uint64, length: Uint64)
    requires GoodNames(ns, id) && PlainId(id)
    requires forall i :: 0 <= i < |calls| ==> PlainId(calls[i].id) && (calls[i].ns != ns || calls[i].id != id)
    ensures var files' := AfterCalls(base, c, files, calls);
            && Stat(base, c, files', ns, id) == Stat(base, c, files, ns, id)
            && Open(base, c, files', ns, id, offset, length) == Open(base, c, files, ns, id, offset, length)
  {
    forall i | 0 <= i < |calls| && GoodNames(calls[i].ns, calls[i].id)
      ensures Separate(calls[i].ns, calls[i].id, ns, id)
    {
      PlainIdsAreDisjoint(base, calls[i].ns, calls[i].id, ns, id);
      FilesAreSharedExactlyOnCollision(base, calls[i].ns, calls[i].id, ns, id);
    }
    CallsElsewhereAreInvisible(base, c, files, calls, ns, id, offset, length);
  }

  /** The premise is needed: an upload of "a2.json" replaces the metadata of "a2". */
  lemma SidecarNamesInterfere(base: Path, ns: string, id: string)
    requires GoodNames(ns, id) && GoodNames(ns, id + ".json") && |id| >= 2
    ensures DataPath(base, ns, id + ".json") == MetaPath(base, ns, id)
  {
    DirOf(base, ns, id);
    DirOf(base, ns, id + ".json");
    SidecarShard(id + ".json", id);
  }
}

/** The driver itself, changing the files step by step. */
module FsDriver {
  import opened Wrappers
  import opened ArtifactLayout
  import opened ArtifactFs

  function Value(digits: string): nat
    requires forall i :: 0 <= i < |digits| ==> '0' <= digits[i] <= '9'
  {
    if digits == "" then 0 else Value(digits[..|digits| - 1]) * 10 + (digits[|digits| - 1] as int - '0' as int)
  }

  /** The decimal form of a 32-bit number. */
  predicate IsUint32(s: string)
  {
    && 0 < |s| && (forall i :: 0 <= i < |s| ==> '0' <= s[i] <= '9')
    && (|s| == 1 || s[0] != '0') && Value(s) < 0x1_0000_0000
  }

  /** The names os.CreateTemp makes of the pattern ".put-*": a random 32-bit number in place of the star. */
  predicate IsTempName(name: string)
  {
    |name| > 5 && name[..5] == ".put-" && IsUint32(name[5..])
  }

  /** A name os.CreateTemp may pick for an upload: one not in use in the artifact's directory. */
  predicate TempIsFree(base: Path, files: Files, ns: string, id: string, tmp: string)
  {
    IsTempName(tmp) && Dir(base, ns, id) + [tmp] !in files
  }

  class Driver {
    const base: Path
    const codec: Codec
    var files: Files

    constructor (base: Path, codec: Codec)
      ensures this.base == base && this.codec == codec && files == map[]
    {
      this.base, this.codec, files := base, codec, map[];
    }

    /** `tmp` is the name the operating system picks for the temporary file. */
    method Put(ns: string, h: Header, newId: string, feed: Feed, tmp: string, now: int, fault: PutFault)
      returns (r: Result<Meta, FsError>)
      requires TempIsFree(base, files, ns, if h.id == "" then newId else h.id, tmp)
      modifies this`files
      ensures (files, r) == AfterPut(base, codec, old(files), ns, h, newId, feed, now, fault)
    {
      var id := if h.id == "" then newId else h.id;
      if NameFault(ns, id).Some? {
        return Err(BadName(NameFault(ns, id).value));
      }
      if fault.MkdirFails? || fault.CreateTempFails? {
        return Err(OsError);
      }
      var path, data := Dir(base, ns, id) + [tmp], DataPath(base, ns, id);
      files := files[path := []];
      var copied := Copy(path, feed, fault);
      if copied.Err? || fault.CloseFails? || fault.RenameFails? {
        files := files - {path};
        assert files == old(files);
        return Err(if copied.Err? then copied.error else OsError);
      }
      files := Renamed(files, path, data);
      assert files == old(files)[data := Concat(feed.pieces)];
      var meta := NewMeta(h, id, now);
      var ok := WriteMeta(ns, id, meta, if fault.AtMeta? then fault.fault else MetaOk);
      if !ok {
        files := files - {data};
        return Err(OsError);
      }
      return Ok(meta);
    }

    /** io.Copy: append what the reader delivers to the temporary file. */
    method Copy(path: Path, feed: Feed, fault: PutFault) returns (r: Result<(), FsError>)
      requires path in files && files[path] == []
      modifies this`files
      ensures r.Ok? <==> !feed.failed && !(fault.WriteFails? && fault.room < |Concat(feed.pieces)|)
      ensures r.Err? ==>
                r.error == if fault.WriteFails? && fault.room < |Concat(feed.pieces)| then OsError else ReaderFailed
      ensures path in files && files == old(files)[path := files[path]]
      ensures r.Ok? ==> files[path] == Concat(feed.pieces)
    {
      for i := 0 to |feed.pieces|
        invariant path in files && files == old(files)[path := files[path]]
        invariant files[path] == Concat(feed.pieces[..i])
        invariant fault.WriteFails? ==> |files[path]| <= fault.room
      {
        assert feed.pieces[..i + 1][..i] == feed.pieces[..i];
        if fault.WriteFails? && fault.room < |files[path]| + |feed.pieces[i]| {
          LongerConcat(feed.pieces, i + 1);
          return Err(OsError);
        }
        files := files[path := files[path] + feed.pieces[i]];
      }
      assert feed.pieces[..|feed.pieces|] == feed.pieces;
      return if feed.failed then Err(ReaderFailed) else Ok(());
    }

    method WriteMeta(ns: string, id: string, m: Meta, fault: MetaFault) returns (ok: bool)
      requires GoodNames(ns, id)
      modifies this`files
      ensures (files, ok) == AfterWriteMeta(old(files), base, ns, id, codec.marshal(m), fault)
    {
      var body, tmp := codec.marshal(m), MetaTmpPath(base, ns, id);
      FootprintIsThree(base, ns, id);
      if fault.MetaOpenFails? {
        return false;
      }
      files := files[tmp := if fault.MetaWriteFails? && fault.written < |body| then body[..fault.written] else body];
      if fault.MetaWriteFails? || fault.MetaRenameFails? {
        return false;
      }
      files := Renamed(files, tmp, MetaPath(base, ns, id));
      assert files == (old(files) - {tmp})[MetaPath(base, ns, id) := body];
      return true;
    }

    method PatchMeta(ns: string, id: string, sha256: string, size: nat, fault: MetaFault)
      returns (r: Result<(), FsError>)
      modifies this`files
      ensures (files, r) == AfterPatchMeta(base, codec, old(files), ns, id, sha256, size, fault)
    {
      var stat := Stat(base, codec, files, ns, id);
      if stat.Err? {
        return Err(stat.error);
      }
      var ok := WriteMeta(ns, id, stat.value.(sha256 := sha256, size := size), fault);
      return if ok then Ok(()) else Err(OsError);
    }

    method Delete(ns: string, id: string, fault: DeleteFault) returns (r: Result<bool, FsError>)
      modifies this`files
      ensures (files, r) == AfterDelete(base, old(files), ns, id, fault)
    {
      if NameFault(ns, id).Some? {
        return Err(BadName(NameFault(ns, id).value));
      }
      if fault.StatFails? {
        return Err(OsError);
      }
      if DataPath(base, ns, id) !in files {
        return Ok(false);
      }
      if fault.RemoveDataFails? {
        return Err(OsError);
      }
      files := files - {DataPath(base, ns, id)};
      if fault.RemoveMetaFails? {
        return Err(OsError);
      }
      files := files - {MetaPath(base, ns, id)};
      return Ok(true);
    }
  }
}
