/**
 The encrypting kv driver: seals a record's value on the way to the backend and
 opens it on the way back.
 */
module KvEncrypted {
  import opened Wrappers
  import opened Ordering
  import opened Aad
  import opened Keyring
  import opened KvStore

  function Seal(c: Crypto, kr: Keyring, nonce: Bytes, l: Loc, plain: Blob): Blob
  {
    Encrypt(c, kr, nonce, plain, ValueAad(l.ns, l.key))
  }

  function OpenRecord(c: Crypto, w: Wrapper, l: Loc, r: Record): Result<Record, KvError>
  {
    match OpenStored(c, w, ValueAad(l.ns, l.key), r.value)
    case Ok(plain) => Ok(r.(value := plain))
    case Err(e) => Err(CannotOpen(e))
  }

  function Opened(c: Crypto, w: Wrapper, l: Loc, got: Result<Record, KvError>): Result<Record, KvError>
  {
    match got
    case Ok(r) => OpenRecord(c, w, l, r)
    case Err(e) => Err(e)
  }

  /** Every record opened, or the error of the first that does not open. */
  function OpenAll(c: Crypto, w: Wrapper, ns: string, recs: seq<Record>): Result<seq<Record>, KvError>
  {
    if recs == [] then Ok([])
    else
      match OpenAll(c, w, ns, recs[..|recs| - 1])
      case Err(e) => Err(e)
      case Ok(before) =>
        var r := recs[|recs| - 1];
        match OpenRecord(c, w, Loc(ns, r.key), r)
        case Err(e) => Err(e)
        case Ok(plain) => Ok(before + [plain])
  }

  /** What a Scan hands its caller: the records yielded, and the error that stopped it. */
  datatype Scanned = Scanned(yielded: seq<Record>, stopped: Option<KvError>)

  /** Yield the snapshot to a caller that returns an error on record `patience`, if it gets that far. */
  function YieldAll(snapshot: seq<Record>, patience: nat): Scanned
  {
    if |snapshot| <= patience then Scanned(snapshot, None) else Scanned(snapshot[..patience + 1], Some(CallerStopped))
  }

  /** The same through the encrypting driver, which opens each record before yielding it. */
  function YieldOpened(c: Crypto, w: Wrapper, ns: string, snapshot: seq<Record>, patience: nat): Scanned
  {
    if snapshot == [] then Scanned([], None)
    else
      var before := YieldOpened(c, w, ns, snapshot[..|snapshot| - 1], patience);
      var r := snapshot[|snapshot| - 1];
      if before.stopped.Some? then before
      else
        match OpenRecord(c, w, Loc(ns, r.key), r)
        case Err(e) => Scanned(before.yielded, Some(e))
        case Ok(plain) =>
          Scanned(before.yielded + [plain], if |before.yielded| == patience then Some(CallerStopped) else None)
  }

  /** The backing driver with its state. */
  class MemoryDriver {
    const cfg: Config
    var items: Store

    constructor (cfg: Config)
      ensures items == map[] && this.cfg == cfg
    {
      this.cfg, items := cfg, map[];
    }

    method Get(l: Loc, now: int) returns (r: Result<Record, KvError>)
      modifies this
      ensures (items, r) == KvStore.Get(cfg, old(items), l, now)
    {
      var after := KvStore.Get(cfg, items, l, now);
      items, r := after.0, after.1;
    }

    method Put(l: Loc, opts: PutOptions, now: int) returns (r: Result<Record, KvError>)
      modifies this
      ensures (items, r) == KvStore.Put(cfg, old(items), l, opts, now)
    {
      var after := KvStore.Put(cfg, items, l, opts, now);
      items, r := after.0, after.1;
    }

    method MultiGet(ns: string, keys: seq<string>, now: int) returns (found: array<Record>)
      requires WellKeyed(items)
      modifies this
      ensures WellKeyed(items) && fresh(found)
      ensures KvStore.MultiGet(cfg, old(items), ns, keys, now) == (items, Ok(found[..]))
    {
      var recs: map<string, Record> := map[];
      var list: seq<Record> := [];
      for i := 0 to |keys|
        invariant WellKeyed(items) && (items, recs) == GetEach(cfg, old(items), ns, keys[..i], now)
        invariant Lists(list, recs)
      {
        assert keys[..i + 1][..i] == keys[..i];
        if keys[i] !in keys[..i] {
          ghost var before := recs;
          var r := Get(Loc(ns, keys[i]), now);
          if r.Ok? {
            assert keys[i] !in recs by { FoundAmong(cfg, old(items), ns, keys[..i], now); }
            ListGrows(list, recs, r.value);
            list := list + [r.value];
            recs := recs[keys[i] := r.value];
          }
        }
      }
      assert keys[..|keys|] == keys;
      found := new Record[|list|](i requires 0 <= i < |list| => list[i]);
      assert found[..] == list;
      SortByName(found, (r: Record) => r.key);
      InKeyOrderIsSorted(found[..], list, recs);
    }

    method Delete(l: Loc, ifVersion: Option<nat>, now: int) returns (r: Result<bool, KvError>)
      modifies this
      ensures (items, r) == KvStore.Delete(old(items), l, ifVersion, now)
    {
      var after := KvStore.Delete(items, l, ifVersion, now);
      items, r := after.0, after.1;
    }
  }

  class EncryptedDriver {
    const c: Crypto
    const w: Wrapper
    const inner: MemoryDriver

    constructor (c: Crypto, w: Wrapper, inner: MemoryDriver)
      ensures this.c == c && this.w == w && this.inner == inner
    {
      this.c, this.w, this.inner := c, w, inner;
    }

    method Get(l: Loc, now: int) returns (r: Result<Record, KvError>)
      modifies inner
      ensures var (items, got) := KvStore.Get(inner.cfg, old(inner.items), l, now);
              inner.items == items && r == Opened(c, w, l, got)
    {
      r := inner.Get(l, now);
      if r.Ok? {
        r := OpenRecord(c, w, l, r.value);
      }
    }

    method Put(l: Loc, opts: PutOptions, nonce: Bytes, now: int) returns (r: Result<Record, KvError>)
      modifies inner
      ensures var sealed := opts.(value := Seal(c, w.kr, nonce, l, opts.value));
              var (items, got) := KvStore.Put(inner.cfg, old(inner.items), l, sealed, now);
              inner.items == items && r == Opened(c, w, l, got)
    {
      var sealed := opts.(value := Seal(c, w.kr, nonce, l, opts.value));
      r := inner.Put(l, sealed, now);
      if r.Ok? {
        r := OpenRecord(c, w, l, r.value);
      }
    }

    /** The loop of MultiGet: open every record in place, stopping at the first that does not open. */
    method OpenInPlace(ns: string, recs: array<Record>) returns (failed: Option<KvError>)
      modifies recs
      ensures match OpenAll(c, w, ns, old(recs[..]))
              case Ok(plain) => failed.None? && recs[..] == plain
              case Err(e) => failed == Some(e)
    {
      ghost var was := recs[..];
      for i := 0 to recs.Length
        invariant recs[i..] == was[i..]
        invariant OpenAll(c, w, ns, was[..i]) == Ok(recs[..i])
      {
        assert was[..i + 1][..i] == was[..i];
        assert recs[i] == recs[i..][0] && was[i] == was[i..][0];
        var plain := OpenRecord(c, w, Loc(ns, recs[i].key), recs[i]);
        if plain.Err? {
          FirstErrorStands(c, w, ns, was, i + 1);
          return Some(plain.error);
        }
        ghost var done := recs[..i];
        recs[i] := plain.value;
        assert recs[..i + 1] == done + [plain.value];
      }
      assert was[..recs.Length] == was && recs[..recs.Length] == recs[..];
      return None;
    }

    method MultiGet(ns: string, keys: seq<string>, now: int) returns (recs: array<Record>, failed: Option<KvError>)
      requires WellKeyed(inner.items)
      modifies inner
      ensures WellKeyed(inner.items)
      ensures var (items, got) := KvStore.MultiGet(inner.cfg, old(inner.items), ns, keys, now);
              inner.items == items &&
              match OpenAll(c, w, ns, got.value)
              case Ok(plain) => failed.None? && recs[..] == plain
              case Err(e) => failed == Some(e)
    {
      recs := inner.MultiGet(ns, keys, now);
      failed := OpenInPlace(ns, recs);
    }

    /** Scan's yield wrapper run over the driver's snapshot, for a caller that returns an error on record `patience`. */
    method ScanThrough(ns: string, snapshot: seq<Record>, patience: nat) returns (r: Scanned)
      ensures r == YieldOpened(c, w, ns, snapshot, patience)
    {
      r := Scanned([], None);
      for i := 0 to |snapshot|
        invariant r.stopped.None? && r == YieldOpened(c, w, ns, snapshot[..i], patience)
      {
        assert snapshot[..i + 1][..i] == snapshot[..i];
        var plain := OpenRecord(c, w, Loc(ns, snapshot[i].key), snapshot[i]);
        if plain.Err? {
          r := r.(stopped := Some(plain.error));
          StopStands(c, w, ns, snapshot, i + 1, patience);
          return;
        }
        if |r.yielded| == patience {
          r := Scanned(r.yielded + [plain.value], Some(CallerStopped));
          StopStands(c, w, ns, snapshot, i + 1, patience);
          return;
        }
        r := r.(yielded := r.yielded + [plain.value]);
      }
      assert snapshot[..|snapshot|] == snapshot;
    }
  }

  lemma {:induction false} FirstErrorStands(c: Crypto, w: Wrapper, ns: string, recs: seq<Record>, i: nat)
    requires i <= |recs| && OpenAll(c, w, ns, recs[..i]).Err?
    ensures OpenAll(c, w, ns, recs) == OpenAll(c, w, ns, recs[..i])
    decreases |recs|
  {
    if i == |recs| {
      assert recs[..i] == recs;
    } else {
      assert recs[..|recs| - 1][..i] == recs[..i];
      FirstErrorStands(c, w, ns, recs[..|recs| - 1], i);
    }
  }

  lemma {:induction false} StopStands(c: Crypto, w: Wrapper, ns: string, recs: seq<Record>, i: nat, patience: nat)
    requires i <= |recs| && YieldOpened(c, w, ns, recs[..i], patience).stopped.Some?
    ensures YieldOpened(c, w, ns, recs, patience) == YieldOpened(c, w, ns, recs[..i], patience)
    decreases |recs|
  {
    if i == |recs| {
      assert recs[..i] == recs;
    } else {
      assert recs[..|recs| - 1][..i] == recs[..i];
      StopStands(c, w, ns, recs[..|recs| - 1], i, patience);
    }
  }
}
