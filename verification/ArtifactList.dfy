/**
 Listing a namespace of the file-system artifact driver: enumerate the metadata
 files, read and filter them, sort by id, cut to the limit; and paging through
 a listing with the last id received as the cursor.
 */
module ArtifactList {
  import opened Wrappers
  import opened Ordering
  import opened Strings
  import opened ArtifactLayout
  import opened ArtifactFs
  import FsDriver

  datatype ListOptions = ListOptions(filter: map<string, string>, startAfter: string, limit: nat)

  datatype ListError = BadNamespace(cause: NameError) | CannotRead | CallerStopped

  /** Where reading the directories may fail: at the namespace's, or at a shard's after some entries. */
  datatype ReadFault = ReadOk | NamespaceUnreadable | ShardUnreadable(after: nat)

  /** What List hands its caller: the metadata yielded, and the error that stopped it. */
  datatype Listed = Listed(yielded: seq<Meta>, stopped: Option<ListError>)

  /** A missing key reads as the empty string. */
  predicate MatchesFilter(metadata: map<string, string>, filter: map<string, string>)
  {
    forall k :: k in filter ==> (if k in metadata then metadata[k] else "") == filter[k]
  }

  function TrimJson(name: string): string
  {
    if EndsWith(name, ".json") then name[..|name| - 5] else name
  }

  /** A file with a name in ".json" in some shard of the namespace. */
  predicate IsSidecar(base: Path, ns: string, p: Path)
  {
    |p| == |base| + 3 && p[..|base|] == base && p[|base|] == ns && EndsWith(p[|base| + 2], ".json")
  }

  function EntryId(p: Path): string
  {
    TrimJson(LastName(p))
  }

  predicate Passes(base: Path, c: Codec, files: Files, ns: string, o: ListOptions, id: string)
  {
    && (o.startAfter == "" || Less(o.startAfter, id))
    && var stat := Stat(base, c, files, ns, id);
       stat.Ok? && MatchesFilter(stat.value.metadata, o.filter)
  }

  function Entries(base: Path, c: Codec, files: Files, ns: string, o: ListOptions): set<Path>
  {
    set p | p in files && IsSidecar(base, ns, p) && Passes(base, c, files, ns, o, EntryId(p))
  }

  /** The metadata that Stat finds under an id; anything else is irrelevant. */
  function MetaOf(base: Path, c: Codec, files: Files, ns: string, id: string): Meta
  {
    match Stat(base, c, files, ns, id)
    case Ok(m) => m
    case Err(_) => Meta(id, 0, "", "", map[], 0)
  }

  function MetasOf(base: Path, c: Codec, files: Files, ns: string, ids: seq<string>): (metas: seq<Meta>)
    ensures |metas| == |ids| && forall i :: 0 <= i < |ids| ==> metas[i] == MetaOf(base, c, files, ns, ids[i])
  {
    seq(|ids|, i requires 0 <= i < |ids| => MetaOf(base, c, files, ns, ids[i]))
  }

  function LastName(p: Path): string
  {
    if p == [] then "" else p[|p| - 1]
  }

  /** The ids of metadata files, by their paths. */
  function EntryIds(order: seq<Path>): (ids: seq<string>)
    ensures |ids| == |order| && forall i :: 0 <= i < |order| ==> ids[i] == EntryId(order[i])
  {
    seq(|order|, i requires 0 <= i < |order| => EntryId(order[i]))
  }

  /** The metadata of every entry, in whatever order the directories are read. */
  ghost predicate Collected(base: Path, c: Codec, files: Files, ns: string, o: ListOptions, order: seq<Path>,
                            metas: seq<Meta>)
  {
    && Distinct(order) && Elems(order) == Entries(base, c, files, ns, o)
    && (forall p :: p in order ==> p in Entries(base, c, files, ns, o))
    && metas == MetasOf(base, c, files, ns, EntryIds(order))
  }

  function IdOf(m: Meta): string { m.id }

  /** Collected, then sorted by id. */
  ghost predicate IsListing(base: Path, c: Codec, files: Files, ns: string, o: ListOptions, sorted: seq<Meta>)
  {
    && (exists order, metas :: Collected(base, c, files, ns, o, order, metas) && multiset(sorted) == multiset(metas) &&
                               (Distinct(Names(metas, IdOf)) ==> SortedBy(Less, Names(sorted, IdOf))))
    && (forall i, j :: 0 <= i < j < |sorted| ==> !Less(sorted[j].id, sorted[i].id))
  }

  function Limited<T>(s: seq<T>, limit: nat): seq<T>
  {
    if 0 < limit < |s| then s[..limit] else s
  }

  /** Yield to a caller that returns an error on item `patience`, if it gets that far. */
  function Yield(metas: seq<Meta>, patience: nat): Listed
  {
    if |metas| <= patience then Listed(metas, None) else Listed(metas[..patience + 1], Some(CallerStopped))
  }

  /** Nothing is yielded before every directory has been read: a failure to read one is all the caller gets. */
  method List(d: FsDriver.Driver, ns: string, o: ListOptions, patience: nat, fault: ReadFault) returns (r: Listed)
    ensures match ValidateNamespace(ns)
            case Some(e) => r == Listed([], Some(BadNamespace(e)))
            case None =>
              if !fault.ReadOk? then r == Listed([], Some(CannotRead))
              else exists sorted :: IsListing(d.base, d.codec, d.files, ns, o, sorted) &&
                                    r == Yield(Limited(sorted, o.limit), patience)
  {
    if ValidateNamespace(ns).Some? {
      return Listed([], Some(BadNamespace(ValidateNamespace(ns).value)));
    }
    if fault.NamespaceUnreadable? {
      return Listed([], Some(CannotRead));
    }
    var collected := Collect(d, ns, o, fault);
    if collected.None? {
      return Listed([], Some(CannotRead));
    }
    var found := collected.value;
    var metas := new Meta[|found|](i requires 0 <= i < |found| => found[i]);
    assert metas[..] == found;
    SortByName(metas, IdOf);
    assert forall i, j :: 0 <= i < j < metas.Length ==> !Less(IdOf(metas[j]), IdOf(metas[i]));
    assert IsListing(d.base, d.codec, d.files, ns, o, metas[..]);
    r := YieldEach(metas[..], o.limit, patience);
  }

  /** Collected, but for the entries still among `left`. */
  ghost predicate CollectedBut(base: Path, c: Codec, files: Files, ns: string, o: ListOptions, order: seq<Path>,
                               metas: seq<Meta>, left: set<Path>)
  {
    var ok := Distinct(order) && (forall p :: p in order <==> p in Entries(base, c, files, ns, o) && p !in left) &&
              metas == MetasOf(base, c, files, ns, EntryIds(order));
    ok
  }

  lemma Takes(base: Path, c: Codec, files: Files, ns: string, o: ListOptions, order: seq<Path>, metas: seq<Meta>,
              left: set<Path>, p: Path)
    requires CollectedBut(base, c, files, ns, o, order, metas, left) && p in left && p in Entries(base, c, files, ns, o)
    ensures CollectedBut(base, c, files, ns, o, order + [p], metas + [MetaOf(base, c, files, ns, EntryId(p))],
                         left - {p})
  {
    assert EntryIds(order + [p]) == EntryIds(order) + [EntryId(p)];
    assert forall q :: q in order + [p] <==> q in order || q == p;
  }

  lemma Skips(base: Path, c: Codec, files: Files, ns: string, o: ListOptions, order: seq<Path>, metas: seq<Meta>,
              left: set<Path>, p: Path)
    requires CollectedBut(base, c, files, ns, o, order, metas, left) && p !in Entries(base, c, files, ns, o)
    ensures CollectedBut(base, c, files, ns, o, order, metas, left - {p})
  {
  }

  method Collect(d: FsDriver.Driver, ns: string, o: ListOptions, fault: ReadFault) returns (r: Option<seq<Meta>>)
    ensures r.None? <==> fault.ShardUnreadable?
    ensures r.Some? ==> exists order :: Collected(d.base, d.codec, d.files, ns, o, order, r.value)
  {
    var metas, read: nat := [], 0;
    ghost var order: seq<Path> := [];
    var left := set p | p in d.files && IsSidecar(d.base, ns, p);
    while left != {}
      invariant forall p :: p in left ==> p in d.files && IsSidecar(d.base, ns, p)
      invariant CollectedBut(d.base, d.codec, d.files, ns, o, order, metas, left)
      decreases left
    {
      if fault.ShardUnreadable? && read == fault.after {
        return None;
      }
      read := read + 1;
      var p :| p in left;
      var id := EntryId(p);
      LessTrichotomy(o.startAfter, id);
      if o.startAfter != "" && (id == o.startAfter || Less(id, o.startAfter)) {
        Skips(d.base, d.codec, d.files, ns, o, order, metas, left, p);
      } else {
        var stat := Stat(d.base, d.codec, d.files, ns, id);
        if stat.Ok? && MatchesFilter(stat.value.metadata, o.filter) {
          Takes(d.base, d.codec, d.files, ns, o, order, metas, left, p);
          metas, order := metas + [stat.value], order + [p];
        } else {
          Skips(d.base, d.codec, d.files, ns, o, order, metas, left, p);
        }
      }
      left := left - {p};
    }
    if fault.ShardUnreadable? {
      return None;
    }
    assert Collected(d.base, d.codec, d.files, ns, o, order, metas);
    return Some(metas);
  }

  method YieldEach(metas: seq<Meta>, limit: nat, patience: nat) returns (r: Listed)
    ensures r == Yield(Limited(metas, limit), patience)
  {
    r := Listed([], None);
    for n := 0 to |metas|
      invariant n <= patience && (limit > 0 ==> n <= limit)
      invariant r == Listed(metas[..n], None)
    {
      if limit > 0 && n >= limit {
        return;
      }
      r := Listed(metas[..n + 1], if n == patience then Some(CallerStopped) else None);
      if n == patience {
        assert Limited(metas, limit)[..patience + 1] == metas[..patience + 1];
        return;
      }
    }
    assert metas[..|metas|] == metas;
  }

  // ----- What a tidy store lists -----

  /** Every metadata file in a shard is that of a plain id, in its shard, and says so. */
  ghost predicate Tidy(base: Path, c: Codec, files: Files)
  {
    forall p, ns :: p in files && IsSidecar(base, ns, p) && ValidateNamespace(ns).None? ==>
        TidyEntry(base, c, ns, p, files[p])
  }

  ghost predicate TidyEntry(base: Path, c: Codec, ns: string, p: Path, body: Bytes)
    requires IsSidecar(base, ns, p)
  {
    var id := EntryId(p);
    var tidy := ValidateId(id).None? && PlainId(id) && p == MetaPath(base, ns, id) && c.unmarshal(body).Some? &&
        c.unmarshal(body).value.id == id;
    tidy
  }

  lemma MetaPathIsSidecar(base: Path, ns: string, id: string)
    requires GoodNames(ns, id) && !Escapes(id)
    ensures IsSidecar(base, ns, MetaPath(base, ns, id)) && EntryId(MetaPath(base, ns, id)) == id
  {
    DirOf(base, ns, id);
    var p := MetaPath(base, ns, id);
    assert p == base + [ns, Shard(id), id + ".json"];
    assert (id + ".json")[|id|..] == ".json";
    assert p[|base| + 2] == id + ".json";
  }

  /** Of a plain artifact's files, only the metadata file is named like one, and only in its own namespace. */
  lemma OnlySidecar(base: Path, ns: string, id: string, ns': string, p: Path)
    requires GoodNames(ns, id) && PlainId(id) && p in Footprint(base, ns, id) && IsSidecar(base, ns', p)
    ensures p == MetaPath(base, ns, id) && ns' == ns
  {
    DirOf(base, ns, id);
    assert p == base + [ns, Shard(id), p[|base| + 2]];
    assert p[|base|] == ns;
    var tmp := id + ".json" + ".tmp";
    assert tmp[|tmp| - 1] == 'p';
    assert EndsWith(p[|base| + 2], ".json") ==> p[|base| + 2][|p[|base| + 2]| - 1] == 'n';
    assert DataPath(base, ns, id)[|base| + 2] == id;
    assert MetaTmpPath(base, ns, id)[|base| + 2] == tmp;
  }

  lemma MetaAfterWrite(base: Path, files: Files, ns: string, id: string, body: Bytes, fault: MetaFault)
    requires GoodNames(ns, id)
    ensures var p, files' := MetaPath(base, ns, id), AfterWriteMeta(files, base, ns, id, body, fault).0;
            p in files' ==> (p in files && files'[p] == files[p]) || files'[p] == body
  {
    FootprintIsThree(base, ns, id);
  }

  /** What an operation leaves at the metadata path: nothing, what was there, or this artifact's metadata. */
  lemma MetaAfterOp(base: Path, c: Codec, files: Files, ns: string, id: string, op: Op)
    requires Lawful(c) && GoodNames(ns, id) && PlainId(id) && Tidy(base, c, files)
    ensures var p, files' := MetaPath(base, ns, id), AfterOp(base, c, files, ns, id, op);
            p in files' ==> (p in files && files'[p] == files[p]) ||
                            (c.unmarshal(files'[p]).Some? && c.unmarshal(files'[p]).value.id == id)
  {
    FootprintIsThree(base, ns, id);
    MetaPathIsSidecar(base, ns, id);
    match op
    case OpPut(h, feed, now, fault) =>
      var body := c.marshal(NewMeta(h.(id := id), id, now));
      MetaAfterWrite(base, files[DataPath(base, ns, id) := Concat(feed.pieces)], ns, id, body,
                     if fault.AtMeta? then fault.fault else MetaOk);
    case OpPatchMeta(sha256, size, fault) =>
      if Stat(base, c, files, ns, id).Ok? {
        assert TidyEntry(base, c, ns, MetaPath(base, ns, id), files[MetaPath(base, ns, id)]);
        MetaAfterWrite(base, files, ns, id,
                       c.marshal(Stat(base, c, files, ns, id).value.(sha256 := sha256, size := size)), fault);
      }
    case OpDelete(_) =>
  }

  lemma OpKeepsTidy(base: Path, c: Codec, files: Files, ns: string, id: string, op: Op)
    requires Lawful(c) && PlainId(id) && Tidy(base, c, files)
    ensures Tidy(base, c, AfterOp(base, c, files, ns, id, op))
  {
    if GoodNames(ns, id) {
      var files' := AfterOp(base, c, files, ns, id, op);
      OpStaysInside(base, c, files, ns, id, op);
      MetaAfterOp(base, c, files, ns, id, op);
      MetaPathIsSidecar(base, ns, id);
      forall p, ns' | p in files' && IsSidecar(base, ns', p) && ValidateNamespace(ns').None?
        ensures TidyEntry(base, c, ns', p, files'[p])
      {
        if p in Footprint(base, ns, id) {
          OnlySidecar(base, ns, id, ns', p);
        }
      }
    }
  }

  /** Whatever is called on artifacts with plain ids, faults included, the store stays tidy. */
  lemma {:induction false} CallsKeepTidy(base: Path, c: Codec, files: Files, calls: seq<Call>)
    requires Lawful(c) && Tidy(base, c, files) && forall i :: 0 <= i < |calls| ==> PlainId(calls[i].id)
    ensures Tidy(base, c, AfterCalls(base, c, files, calls))
  {
    if calls != [] {
      var n := |calls| - 1;
      CallsKeepTidy(base, c, files, calls[..n]);
      OpKeepsTidy(base, c, AfterCalls(base, c, files, calls[..n]), calls[n].ns, calls[n].id, calls[n].op);
    }
  }

  /** The ids a listing is to contain. */
  function Matching(base: Path, c: Codec, files: Files, ns: string, o: ListOptions): set<string>
  {
    set p | p in Entries(base, c, files, ns, o) :: EntryId(p)
  }

  /** Artifacts whose directory is the base are in no listing. */
  lemma EscapingIdsAreNotListed(base: Path, ns: string, id: string, ns': string)
    requires GoodNames(ns, id) && Escapes(id)
    ensures !IsSidecar(base, ns', MetaPath(base, ns, id))
  {
    DirOf(base, ns, id);
  }

  /** In a tidy store these are the ids that can be read and match, but for those whose directory is the base. */
  lemma MatchingExactly(base: Path, c: Codec, files: Files, ns: string, o: ListOptions, id: string)
    requires Tidy(base, c, files) && ValidateNamespace(ns).None?
    ensures id in Matching(base, c, files, ns, o) <==> Passes(base, c, files, ns, o, id) && !Escapes(id)
  {
    if Escapes(id) && GoodNames(ns, id) {
      EscapingIdsAreNotListed(base, ns, id, ns);
    } else if Passes(base, c, files, ns, o, id) {
      MetaPathIsSidecar(base, ns, id);
      assert MetaPath(base, ns, id) in Entries(base, c, files, ns, o);
    }
  }

  ghost function Listing(base: Path, c: Codec, files: Files, ns: string, o: ListOptions): seq<Meta>
  {
    MetasOf(base, c, files, ns, Ascending(Matching(base, c, files, ns, o)))
  }

  lemma EntryMeta(base: Path, c: Codec, files: Files, ns: string, o: ListOptions, p: Path)
    requires Tidy(base, c, files) && ValidateNamespace(ns).None? && p in Entries(base, c, files, ns, o)
    ensures p == MetaPath(base, ns, EntryId(p)) && Stat(base, c, files, ns, EntryId(p)).value.id == EntryId(p)
  {
    assert TidyEntry(base, c, ns, p, files[p]);
  }

  lemma CollectedIds(base: Path, c: Codec, files: Files, ns: string, o: ListOptions, order: seq<Path>, metas: seq<Meta>)
    requires Tidy(base, c, files) && ValidateNamespace(ns).None? && Collected(base, c, files, ns, o, order, metas)
    ensures Distinct(Names(metas, IdOf)) && Elems(Names(metas, IdOf)) == Matching(base, c, files, ns, o)
    ensures forall m :: m in metas ==> Stat(base, c, files, ns, m.id) == Ok(m)
  {
    forall i | 0 <= i < |order|
      ensures order[i] == MetaPath(base, ns, metas[i].id) && EntryId(order[i]) == metas[i].id
      ensures Stat(base, c, files, ns, metas[i].id) == Ok(metas[i])
    {
      EntryMeta(base, c, files, ns, o, order[i]);
    }
    var names := Names(metas, IdOf);
    forall id | id in Matching(base, c, files, ns, o) ensures id in names {
      var p :| p in Entries(base, c, files, ns, o) && EntryId(p) == id;
      assert p in Elems(order);
      var i :| 0 <= i < |order| && order[i] == p;
      assert names[i] == id;
    }
    forall id | id in names ensures id in Matching(base, c, files, ns, o) {
      var i :| 0 <= i < |names| && names[i] == id;
      assert order[i] in order;
    }
  }

  /** In a tidy store List yields every matching id once, in ascending order, with its metadata. */
  lemma ListingIsDetermined(base: Path, c: Codec, files: Files, ns: string, o: ListOptions, sorted: seq<Meta>)
    requires Tidy(base, c, files) && ValidateNamespace(ns).None? && IsListing(base, c, files, ns, o, sorted)
    ensures sorted == Listing(base, c, files, ns, o)
  {
    var order, metas :| Collected(base, c, files, ns, o, order, metas) && multiset(sorted) == multiset(metas) &&
                        (Distinct(Names(metas, IdOf)) ==> SortedBy(Less, Names(sorted, IdOf)));
    CollectedIds(base, c, files, ns, o, order, metas);
    SameElems(sorted, metas);
    var names, ids := Names(sorted, IdOf), Ascending(Matching(base, c, files, ns, o));
    SameNames(sorted, metas);
    LessIsStrictTotal(Elems(names));
    SortedUnique(Less, names, ids);
    forall i | 0 <= i < |sorted| ensures sorted[i] == Listing(base, c, files, ns, o)[i] {
      assert sorted[i] in Elems(sorted);
      assert names[i] == ids[i];
    }
  }

  lemma SameNames(s: seq<Meta>, t: seq<Meta>)
    requires Elems(s) == Elems(t)
    ensures Elems(Names(s, IdOf)) == Elems(Names(t, IdOf))
  {
    NamesWithin(s, t);
    NamesWithin(t, s);
  }

  lemma NamesWithin(s: seq<Meta>, t: seq<Meta>)
    requires Elems(s) <= Elems(t)
    ensures Elems(Names(s, IdOf)) <= Elems(Names(t, IdOf))
  {
    forall id | id in Names(s, IdOf) ensures id in Names(t, IdOf) {
      var i :| 0 <= i < |s| && Names(s, IdOf)[i] == id;
      assert s[i] in Elems(s);
      var j :| 0 <= j < |t| && t[j] == s[i];
      assert Names(t, IdOf)[j] == id;
    }
  }

  /** Calls on other artifacts leave an artifact's place in the listing as it was. */
  lemma ListingEntryIsIndependent(base: Path, c: Codec, files: Files, calls: seq<Call>, ns: string, o: ListOptions,
                                  id: string)
    requires Lawful(c) && Tidy(base, c, files) && GoodNames(ns, id) && PlainId(id)
    requires forall i :: 0 <= i < |calls| ==> PlainId(calls[i].id) && (calls[i].ns != ns || calls[i].id != id)
    ensures var files' := AfterCalls(base, c, files, calls);
            && (id in Matching(base, c, files', ns, o) <==> id in Matching(base, c, files, ns, o))
            && Stat(base, c, files', ns, id) == Stat(base, c, files, ns, id)
  {
    CallsKeepTidy(base, c, files, calls);
    PlainArtifactsAreIndependent(base, c, files, calls, ns, id, 0, 0);
    MatchingExactly(base, c, files, ns, o, id);
    MatchingExactly(base, c, AfterCalls(base, c, files, calls), ns, o, id);
  }

  // ----- Pages -----

  lemma LaterThan(s: seq<string>, k: nat)
    requires SortedBy(Less, s) && 0 < k <= |s|
    ensures forall id :: id in s && Less(s[k - 1], id) <==> id in s[k..]
  {
    forall i | 0 <= i < |s| ensures Less(s[k - 1], s[i]) <==> i >= k {
      LessTrichotomy(s[k - 1], s[i]);
      assert i < k - 1 ==> Less(s[i], s[k - 1]);
    }
    assert forall i :: 0 <= i < |s[k..]| ==> s[k..][i] == s[k + i];
    assert forall i :: k <= i < |s| ==> s[k..][i - k] == s[i];
  }

  lemma AscendingTail(ids: set<string>, k: nat, later: set<string>)
    requires 0 < k <= |Ascending(ids)| && later == (set id | id in ids && Less(Ascending(ids)[k - 1], id))
    ensures Ascending(later) == Ascending(ids)[k..]
    ensures Ascending(ids)[k - 1] in ids
  {
    var s := Ascending(ids);
    LaterThan(s, k);
    assert forall id :: id in ids <==> id in Elems(s);
    assert Elems(s[k..]) == later;
    LessIsStrictTotal(later);
    assert Elems(Ascending(later)) == later;
    SortedUnique(Less, Ascending(later), s[k..]);
  }

  /** Moving the cursor to a listed id keeps the later ones. */
  lemma CursorMoves(base: Path, c: Codec, files: Files, ns: string, o: ListOptions, last: string)
    requires last in Matching(base, c, files, ns, o)
    ensures last != ""
    ensures Matching(base, c, files, ns, o.(startAfter := last)) ==
              (set id | id in Matching(base, c, files, ns, o) && Less(last, id))
  {
    var o' := o.(startAfter := last);
    forall p | p in Entries(base, c, files, ns, o')
      ensures p in Entries(base, c, files, ns, o) && Less(last, EntryId(p))
    {
      if o.startAfter != "" {
        LessTransitive(o.startAfter, last, EntryId(p));
      }
    }
    forall p | p in Entries(base, c, files, ns, o) && Less(last, EntryId(p))
      ensures p in Entries(base, c, files, ns, o')
    {
    }
  }

  lemma ListedUnderOwnId(base: Path, c: Codec, files: Files, ns: string, o: ListOptions, id: string)
    requires Tidy(base, c, files) && ValidateNamespace(ns).None? && id in Matching(base, c, files, ns, o)
    ensures MetaOf(base, c, files, ns, id).id == id
  {
    var p :| p in Entries(base, c, files, ns, o) && EntryId(p) == id;
    EntryMeta(base, c, files, ns, o, p);
  }

  lemma DropMetas(base: Path, c: Codec, files: Files, ns: string, ids: seq<string>, k: nat)
    requires k <= |ids|
    ensures MetasOf(base, c, files, ns, ids)[k..] == MetasOf(base, c, files, ns, ids[k..])
  {
  }

  /** With the cursor at the last id of a page, the listing is what is left. */
  lemma RestOfListing(base: Path, c: Codec, files: Files, ns: string, o: ListOptions, k: nat)
    requires Tidy(base, c, files) && ValidateNamespace(ns).None?
    requires 0 < k <= |Listing(base, c, files, ns, o)|
    ensures var all := Listing(base, c, files, ns, o);
              Listing(base, c, files, ns, o.(startAfter := all[k - 1].id)) == all[k..]
  {
    var ids := Matching(base, c, files, ns, o);
    var last := Ascending(ids)[k - 1];
    var later := set id | id in ids && Less(last, id);
    AscendingTail(ids, k, later);
    CursorMoves(base, c, files, ns, o, last);
    ListedUnderOwnId(base, c, files, ns, o, last);
    DropMetas(base, c, files, ns, Ascending(ids), k);
  }

  /**
   What a client gathers that asks for page after page, of whatever positive sizes, with the last id received as
   the cursor, until a page is empty.
   */
  ghost function Pages(base: Path, c: Codec, files: Files, ns: string, o: ListOptions, sizes: nat -> nat, turn: nat)
    : seq<Meta>
    requires Tidy(base, c, files) && ValidateNamespace(ns).None? && forall t :: sizes(t) > 0
    decreases |Listing(base, c, files, ns, o)|
  {
    var page := Limited(Listing(base, c, files, ns, o), sizes(turn));
    if page == [] then []
    else
      PageIsPrefix(Listing(base, c, files, ns, o), sizes(turn));
      RestOfListing(base, c, files, ns, o, |page|);
      page + Pages(base, c, files, ns, o.(startAfter := page[|page| - 1].id), sizes, turn + 1)
  }

  lemma PageIsPrefix(all: seq<Meta>, limit: nat)
    requires limit > 0
    ensures var page := Limited(all, limit);
            |page| <= |all| && (page == [] <==> all == []) && all == page + all[|page|..] &&
            (page != [] ==> page[|page| - 1] == all[|page| - 1])
  {
  }

  /** The pages add up to the whole listing: every matching id once, ascending. */
  lemma {:induction false} PaginationIsComplete(base: Path, c: Codec, files: Files, ns: string, o: ListOptions,
                                                sizes: nat -> nat, turn: nat)
    requires Tidy(base, c, files) && ValidateNamespace(ns).None? && forall t :: sizes(t) > 0
    ensures Pages(base, c, files, ns, o, sizes, turn) == Listing(base, c, files, ns, o)
    decreases |Listing(base, c, files, ns, o)|
  {
    var all := Listing(base, c, files, ns, o);
    var page := Limited(all, sizes(turn));
    PageIsPrefix(all, sizes(turn));
    if page != [] {
      RestOfListing(base, c, files, ns, o, |page|);
      PaginationIsComplete(base, c, files, ns, o.(startAfter := page[|page| - 1].id), sizes, turn + 1);
    }
  }
}
