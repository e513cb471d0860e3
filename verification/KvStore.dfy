/**
 The in-memory kv driver as functions on its state: versions and conditional
 writes, expiry, access tracking and eviction. One clock reading per call.
 */
module KvStore {
  import opened Wrappers
  import opened Ordering
  import opened Keyring

  datatype Record = Record(key: string, value: Blob, contentType: string, metadata: map<string, string>, version: nat,
                           created: int, expires: Option<int>, lastAccessed: Option<int>, accesses: nat)

  datatype Loc = Loc(ns: string, key: string)

  /** Namespace and key to record. */
  type Store = map<Loc, Record>

  /** A namespace's opt-in cache-tier behaviour; zero fields are disabled. */
  datatype Policy = Policy(track: bool, slideTtl: int, capacity: int)

  /** `victims` picks the keys to evict from a bucket over capacity, given everything but the values. */
  datatype Config = Config(policy: string -> Policy, victims: (set<(string, Record)>, string, int, int) -> set<string>)

  datatype KvError = NotFound | VersionMismatch | CannotOpen(cause: DecryptError) | CallerStopped

  datatype PutOptions = PutOptions(value: Blob, contentType: string, metadata: map<string, string>, ttl: int,
                                   ifVersion: Option<nat>)

  datatype ScanOptions = ScanOptions(prefix: string, limit: nat, includeValues: bool, startAfter: string)

  predicate Live(r: Record, now: int)
  {
    r.expires.None? || r.expires.value > now
  }

  /** The record without its value: what the driver's decisions may depend on. */
  function Erase(r: Record): Record
  {
    r.(value := Nil)
  }

  function Accessed(p: Policy, r: Record, now: int): Record
  {
    var tracked := if p.track then r.(accesses := r.accesses + 1, lastAccessed := Some(now)) else r;
    if p.slideTtl > 0 && r.expires.Some? then tracked.(expires := Some(now + p.slideTtl)) else tracked
  }

  function Get(cfg: Config, s: Store, l: Loc, now: int): (Store, Result<Record, KvError>)
  {
    if l !in s then (s, Err(NotFound))
    else if !Live(s[l], now) then (s - {l}, Err(NotFound))
    else
      var r := Accessed(cfg.policy(l.ns), s[l], now);
      (s[l := r], Ok(r))
  }

  /** The live records of the first occurrences of `keys`, each read by a Get of its own. */
  function GetEach(cfg: Config, s: Store, ns: string, keys: seq<string>, now: int): (Store, map<string, Record>)
  {
    if keys == [] then (s, map[])
    else
      var (s', found) := GetEach(cfg, s, ns, keys[..|keys| - 1], now);
      var k := keys[|keys| - 1];
      if k in keys[..|keys| - 1] then (s', found)
      else
        match Get(cfg, s', Loc(ns, k), now)
        case (s'', Ok(r)) => (s'', found[k := r])
        case (s'', Err(_)) => (s'', found)
  }

  ghost function InKeyOrder(found: map<string, Record>): (recs: seq<Record>)
    ensures |recs| == |Ascending(found.Keys)|
  {
    var keys := Ascending(found.Keys);
    seq(|keys|, i requires 0 <= i < |keys| => assert keys[i] in Elems(keys); found[keys[i]])
  }

  ghost function MultiGet(cfg: Config, s: Store, ns: string, keys: seq<string>, now: int)
    : (Store, Result<seq<Record>, KvError>)
  {
    var (s', found) := GetEach(cfg, s, ns, keys, now);
    (s', Ok(InKeyOrder(found)))
  }

  function CurrentVersion(s: Store, l: Loc, now: int): nat
  {
    if l in s && Live(s[l], now) then s[l].version else 0
  }

  /** The keys of a namespace with their records, but for the values. */
  function Bucket(s: Store, ns: string): set<(string, Record)>
  {
    set l | l in s && l.ns == ns :: (l.key, Erase(s[l]))
  }

  function Keep(s: Store, l: Loc, gone: set<string>): Store
  {
    s - set m | m in s && m.ns == l.ns && m.key in gone && m != l
  }

  /** The keys to evict from a bucket after a write to `l`: none unless it is over its capacity. */
  function Victims(cfg: Config, bucket: set<(string, Record)>, l: Loc, now: int): set<string>
  {
    var capacity := cfg.policy(l.ns).capacity;
    var over := |bucket| - capacity;
    if capacity <= 0 || over <= 0 then {} else cfg.victims(bucket, l.key, over, now)
  }

  function Evict(cfg: Config, s: Store, l: Loc, now: int): Store
  {
    Keep(s, l, Victims(cfg, Bucket(s, l.ns), l, now))
  }

  /** A write or a delete first drops the record it finds expired. */
  function DropExpired(s: Store, l: Loc, now: int): Store
  {
    if l in s && !Live(s[l], now) then s - {l} else s
  }

  function NewRecord(s: Store, l: Loc, opts: PutOptions, now: int): Record
  {
    var found := l in s && Live(s[l], now);
    Record(l.key, opts.value, opts.contentType, opts.metadata,
           if found then (s[l].version + 1) % TWO_64 else 1,
           if found then s[l].created else now,
           if opts.ttl > 0 then Some(now + opts.ttl) else None, None, 0)
  }

  function Put(cfg: Config, s: Store, l: Loc, opts: PutOptions, now: int): (Store, Result<Record, KvError>)
  {
    var swept := DropExpired(s, l, now);
    if opts.ifVersion.Some? && opts.ifVersion.value != CurrentVersion(s, l, now) then (swept, Err(VersionMismatch))
    else
      var r := NewRecord(s, l, opts, now);
      (Evict(cfg, swept[l := r], l, now), Ok(r))
  }

  function Delete(s: Store, l: Loc, ifVersion: Option<nat>, now: int): (Store, Result<bool, KvError>)
  {
    if ifVersion.Some? && ifVersion.value != CurrentVersion(s, l, now) then
      (DropExpired(s, l, now), Err(VersionMismatch))
    else (s - {l}, Ok(l in s && Live(s[l], now)))
  }

  predicate HasPrefix(s: string, prefix: string)
  {
    prefix <= s
  }

  ghost function ScanKeys(s: Store, ns: string, opts: ScanOptions, now: int): set<string>
  {
    set l | l in s && l.ns == ns && Live(s[l], now) && HasPrefix(l.key, opts.prefix) &&
            (opts.startAfter == "" || Less(opts.startAfter, l.key)) :: l.key
  }

  ghost function ScanOrder(s: Store, ns: string, opts: ScanOptions, now: int): (keys: seq<string>)
    ensures forall k :: k in keys ==> Loc(ns, k) in s
  {
    var keys := Ascending(ScanKeys(s, ns, opts, now));
    assert forall k :: k in keys ==> k in Elems(keys);
    var page := if opts.limit > 0 && |keys| % TWO_32 > opts.limit then keys[..opts.limit] else keys;
    assert forall k :: k in page ==> k in keys;
    page
  }

  /** The snapshot a Scan yields from. */
  ghost function Scan(s: Store, ns: string, opts: ScanOptions, now: int): (recs: seq<Record>)
    ensures |recs| == |ScanOrder(s, ns, opts, now)|
  {
    var keys := ScanOrder(s, ns, opts, now);
    seq(|keys|, i requires 0 <= i < |keys| =>
      if opts.includeValues then s[Loc(ns, keys[i])] else s[Loc(ns, keys[i])].(value := Nil))
  }

  /** The background sweep drops what has expired. */
  function Sweep(s: Store, now: int): Store
  {
    s - set l | l in s && !Live(s[l], now)
  }

  /** Every record carries the key it is stored under. */
  ghost predicate WellKeyed(s: Store)
  {
    forall l :: l in s ==> s[l].key == l.key
  }

  lemma {:induction false} FoundAmong(cfg: Config, s: Store, ns: string, keys: seq<string>, now: int)
    ensures forall k :: k in GetEach(cfg, s, ns, keys, now).1 ==> k in keys
  {
    if keys != [] {
      FoundAmong(cfg, s, ns, keys[..|keys| - 1], now);
    }
  }

  /** `list` holds exactly the records of `recs`, once each. */
  ghost predicate Lists(list: seq<Record>, recs: map<string, Record>)
  {
    && Distinct(Names(list, (r: Record) => r.key))
    && (forall r :: r in list ==> r.key in recs && recs[r.key] == r)
    && (forall k :: k in recs ==> recs[k] in list && recs[k].key == k)
  }

  lemma ListGrows(list: seq<Record>, recs: map<string, Record>, r: Record)
    requires Lists(list, recs) && r.key !in recs
    ensures Lists(list + [r], recs[r.key := r])
  {
    var name := (r: Record) => r.key;
    assert Names(list + [r], name) == Names(list, name) + [r.key];
    forall i | 0 <= i < |list| ensures Names(list, name)[i] != r.key {
      assert list[i] in list;
    }
  }

  lemma ListedKeys(sorted: seq<Record>, list: seq<Record>, recs: map<string, Record>)
    requires Lists(list, recs) && multiset(sorted) == multiset(list)
    ensures forall r :: r in sorted ==> r.key in recs && recs[r.key] == r
    ensures Elems(Names(sorted, (r: Record) => r.key)) == recs.Keys
  {
    var names := Names(sorted, (r: Record) => r.key);
    SameElems(sorted, list);
    assert forall r :: r in sorted <==> r in Elems(sorted);
    assert forall r :: r in list <==> r in Elems(list);
    forall k | k in recs ensures k in names {
      var i :| 0 <= i < |sorted| && sorted[i] == recs[k];
      assert names[i] == k;
    }
    forall k | k in names ensures k in recs {
      var i :| 0 <= i < |sorted| && names[i] == k;
      assert sorted[i] in sorted;
    }
  }

  /** Sorting what was found by key gives the records in ascending key order. */
  lemma InKeyOrderIsSorted(sorted: seq<Record>, list: seq<Record>, recs: map<string, Record>)
    requires Lists(list, recs) && multiset(sorted) == multiset(list)
    requires SortedBy(Less, Names(sorted, (r: Record) => r.key))
    ensures sorted == InKeyOrder(recs)
  {
    var names, keys := Names(sorted, (r: Record) => r.key), Ascending(recs.Keys);
    ListedKeys(sorted, list, recs);
    LessIsStrictTotal(Elems(keys));
    SortedUnique(Less, names, keys);
    forall i | 0 <= i < |sorted| ensures sorted[i] == InKeyOrder(recs)[i] {
      assert sorted[i] in sorted && names[i] == keys[i];
    }
  }

  // ----- What the operations mean to each other -----

  /**
   A write goes through exactly when it is unconditional or names the current version, zero for an absent or
   expired key; it then moves the version up by one and keeps the creation time of a live record.
   */
  lemma ConditionalPut(cfg: Config, s: Store, l: Loc, opts: PutOptions, now: int)
    ensures var (s', r) := Put(cfg, s, l, opts, now);
      && (r.Ok? <==> opts.ifVersion.None? || opts.ifVersion.value == CurrentVersion(s, l, now))
      && (r.Ok? ==> r.value.version == (CurrentVersion(s, l, now) + 1) % TWO_64 &&
                    (l in s && Live(s[l], now) ==> r.value.created == s[l].created))
      && (r.Err? ==> s' == DropExpired(s, l, now))
  {
  }

  /**
   What was written is read back until it expires, whatever the write evicted; other keys were evicted or are untouched.
   */
  lemma PutThenGet(cfg: Config, s: Store, l: Loc, opts: PutOptions, now: int, later: int)
    requires Put(cfg, s, l, opts, now).1.Ok?
    ensures var (s', r) := Put(cfg, s, l, opts, now);
      var got := Get(cfg, s', l, later).1;
      && (got.Ok? <==> opts.ttl <= 0 || later < now + opts.ttl)
      && (got.Ok? ==>
            got.value.value == opts.value && got.value.version == r.value.version &&
            got.value.metadata == opts.metadata)
      && forall m :: m in s' && m != l ==> m in s && s'[m] == s[m]
  {
  }

  /** A deleted key is gone, and the answer says whether it was there. */
  lemma DeleteThenGet(cfg: Config, s: Store, l: Loc, ifVersion: Option<nat>, now: int, later: int)
    requires Delete(s, l, ifVersion, now).1.Ok?
    ensures var (s', r) := Delete(s, l, ifVersion, now);
      && (r.value <==> Get(cfg, s, l, now).1.Ok?)
      && Get(cfg, s', l, later).1 == Err(NotFound)
      && forall m :: m != l ==> (m in s' <==> m in s) && (m in s ==> s'[m] == s[m])
  {
  }

  /** A scan pages through the live keys after its cursor: each at most once, ascending. */
  lemma ScanPages(s: Store, ns: string, opts: ScanOptions, now: int)
    ensures var keys := ScanOrder(s, ns, opts, now);
      && SortedBy(Less, keys)
      && (forall k :: k in keys ==> k in ScanKeys(s, ns, opts, now))
      && (opts.limit == 0 ==> Elems(keys) == ScanKeys(s, ns, opts, now))
  {
    var all := Ascending(ScanKeys(s, ns, opts, now));
    assert forall k :: k in all <==> k in Elems(all);
    var keys := ScanOrder(s, ns, opts, now);
    assert forall i :: 0 <= i < |keys| ==> keys[i] == all[i];
  }
}
