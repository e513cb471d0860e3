/**
 The encrypting kv driver is invisible: over every run, with keyrings rotated
 and plaintext migrated along the way, callers get what a driver without
 encryption would give them, up to nil versus empty values.
 */
module KvRefinement {
  import opened Wrappers
  import opened Ordering
  import opened Aad
  import opened Keyring
  import opened KvStore
  import opened KvEncrypted

  datatype Op =
    | OpGet(l: Loc)
    | OpMultiGet(ns: string, keys: seq<string>)
    | OpPut(l: Loc, opts: PutOptions)
    | OpDelete(l: Loc, ifVersion: Option<nat>)
    | OpScan(ns: string, scan: ScanOptions, patience: nat)
    | OpSweep

  datatype Response =
    | One(rec: Result<Record, KvError>)
    | Many(recs: Result<seq<Record>, KvError>)
    | Existed(existed: Result<bool, KvError>)
    | Yielded(scanned: Scanned)
    | Nothing

  /** One call on the driver without encryption. */
  ghost function PlainStep(cfg: Config, p: Store, op: Op, now: int): (Store, Response)
  {
    match op
    case OpGet(l) => var (p', r) := Get(cfg, p, l, now); (p', One(r))
    case OpMultiGet(ns, keys) => var (p', r) := MultiGet(cfg, p, ns, keys, now); (p', Many(r))
    case OpPut(l, opts) => var (p', r) := Put(cfg, p, l, opts, now); (p', One(r))
    case OpDelete(l, ifVersion) => var (p', r) := Delete(p, l, ifVersion, now); (p', Existed(r))
    case OpScan(ns, scan, patience) => (p, Yielded(YieldAll(Scan(p, ns, scan, now), patience)))
    case OpSweep => (Sweep(p, now), Nothing)
  }

  /** The same call through the encrypting driver. */
  ghost function SealedStep(c: Crypto, cfg: Config, w: Wrapper, s: Store, op: Op, now: int, nonce: Bytes)
    : (Store, Response)
  {
    match op
    case OpGet(l) =>
      var (s', r) := Get(cfg, s, l, now);
      (s', One(Opened(c, w, l, r)))
    case OpMultiGet(ns, keys) =>
      var (s', r) := MultiGet(cfg, s, ns, keys, now);
      (s', Many(OpenAll(c, w, ns, r.value)))
    case OpPut(l, opts) =>
      var (s', r) := Put(cfg, s, l, opts.(value := Seal(c, w.kr, nonce, l, opts.value)), now);
      (s', One(Opened(c, w, l, r)))
    case OpDelete(l, ifVersion) => var (s', r) := Delete(s, l, ifVersion, now); (s', Existed(r))
    case OpScan(ns, scan, patience) =>
      (s, Yielded(YieldOpened(c, w, ns, Scan(s, ns, scan, now), patience)))
    case OpSweep => (Sweep(s, now), Nothing)
  }

  // ----- What the two stores have in common -----

  predicate SameRecord(a: Record, b: Record)
  {
    Erase(a) == Erase(b) && Same(a.value, b.value)
  }

  ghost predicate SameRecords(a: seq<Record>, b: seq<Record>)
  {
    var same := |a| == |b| && forall i :: 0 <= i < |a| ==> SameRecord(a[i], b[i]);
    same
  }

  /** Responses alike in everything a caller sees, up to nil versus empty values. */
  ghost predicate SameResponse(a: Response, b: Response)
  {
    match (a, b)
    case (One(Ok(r)), One(Ok(q))) => SameRecord(r, q)
    case (Many(Ok(rs)), Many(Ok(qs))) => SameRecords(rs, qs)
    case (Yielded(y), Yielded(z)) => y.stopped == z.stopped && SameRecords(y.yielded, z.yielded)
    case _ => a == b
  }

  ghost predicate RecordStands(c: Crypto, w: Wrapper, l: Loc, stored: Record, plain: Record)
  {
    var stands := stored.key == l.key && Erase(stored) == Erase(plain) &&
        StandsFor(c, w, ValueAad(l.ns, l.key), stored.value, plain.value);
    stands
  }

  /** The encrypted store stands for the plain one, record by record. */
  ghost predicate Stands(c: Crypto, w: Wrapper, s: Store, p: Store)
  {
    var stands := s.Keys == p.Keys && forall l :: l in s ==> RecordStands(c, w, l, s[l], p[l]);
    stands
  }

  lemma OpenedIsPlain(c: Crypto, w: Wrapper, l: Loc, stored: Record, plain: Record)
    requires RecordStands(c, w, l, stored, plain)
    ensures OpenRecord(c, w, l, stored).Ok?
    ensures SameRecord(OpenRecord(c, w, l, stored).value, plain)
  {
  }

  lemma GetStands(c: Crypto, cfg: Config, w: Wrapper, s: Store, p: Store, l: Loc, now: int)
    requires Stands(c, w, s, p)
    ensures Stands(c, w, Get(cfg, s, l, now).0, Get(cfg, p, l, now).0)
    ensures match (Get(cfg, s, l, now).1, Get(cfg, p, l, now).1)
            case (Ok(r), Ok(q)) => RecordStands(c, w, l, r, q)
            case (a, b) => a == b
  {
    if l in s {
      assert RecordStands(c, w, l, s[l], p[l]);
    }
  }

  ghost predicate FoundStand(c: Crypto, w: Wrapper, ns: string, found: map<string, Record>, plain: map<string, Record>)
  {
    var stand := found.Keys == plain.Keys && forall k :: k in found ==>
        RecordStands(c, w, Loc(ns, k), found[k], plain[k]);
    stand
  }

  lemma FoundGrows(c: Crypto, w: Wrapper, ns: string, found: map<string, Record>, plain: map<string, Record>,
                   k: string, r: Record, q: Record)
    requires FoundStand(c, w, ns, found, plain) && RecordStands(c, w, Loc(ns, k), r, q)
    ensures FoundStand(c, w, ns, found[k := r], plain[k := q])
  {
  }

  lemma {:induction false} GetEachStands(c: Crypto, cfg: Config, w: Wrapper, s: Store, p: Store, ns: string,
                                         keys: seq<string>, now: int)
    requires Stands(c, w, s, p)
    ensures Stands(c, w, GetEach(cfg, s, ns, keys, now).0, GetEach(cfg, p, ns, keys, now).0)
    ensures FoundStand(c, w, ns, GetEach(cfg, s, ns, keys, now).1, GetEach(cfg, p, ns, keys, now).1)
  {
    if keys != [] {
      var before, k := keys[..|keys| - 1], keys[|keys| - 1];
      GetEachStands(c, cfg, w, s, p, ns, before, now);
      var ((s', found), (p', plain)) := (GetEach(cfg, s, ns, before, now), GetEach(cfg, p, ns, before, now));
      GetStands(c, cfg, w, s', p', Loc(ns, k), now);
      var got, want := Get(cfg, s', Loc(ns, k), now).1, Get(cfg, p', Loc(ns, k), now).1;
      if got.Ok? {
        FoundGrows(c, w, ns, found, plain, k, got.value, want.value);
      }
    }
  }

  lemma SameSnoc(a: seq<Record>, x: Record, b: seq<Record>)
    requires b != [] && SameRecords(a, b[..|b| - 1]) && SameRecord(x, b[|b| - 1])
    ensures SameRecords(a + [x], b)
  {
  }

  lemma {:induction false} OpenAllStands(c: Crypto, w: Wrapper, ns: string, stored: seq<Record>, plain: seq<Record>)
    requires |stored| == |plain|
    requires forall i :: 0 <= i < |stored| ==> RecordStands(c, w, Loc(ns, stored[i].key), stored[i], plain[i])
    ensures var all := OpenAll(c, w, ns, stored); all.Ok? && SameRecords(all.value, plain)
  {
    var n := |stored|;
    if n != 0 {
      OpenAllStands(c, w, ns, stored[..n - 1], plain[..n - 1]);
      assert RecordStands(c, w, Loc(ns, stored[n - 1].key), stored[n - 1], plain[n - 1]);
      OpenedIsPlain(c, w, Loc(ns, stored[n - 1].key), stored[n - 1], plain[n - 1]);
      var before := OpenAll(c, w, ns, stored[..n - 1]).value;
      SameSnoc(before, OpenRecord(c, w, Loc(ns, stored[n - 1].key), stored[n - 1]).value, plain);
    }
  }

  lemma MultiGetStands(c: Crypto, cfg: Config, w: Wrapper, s: Store, p: Store, ns: string, keys: seq<string>, now: int)
    requires Stands(c, w, s, p)
    ensures var (s', stored), (p', plain) := MultiGet(cfg, s, ns, keys, now), MultiGet(cfg, p, ns, keys, now);
      var all := OpenAll(c, w, ns, stored.value);
      Stands(c, w, s', p') && all.Ok? && SameRecords(all.value, plain.value)
  {
    GetEachStands(c, cfg, w, s, p, ns, keys, now);
    var found, plain := GetEach(cfg, s, ns, keys, now).1, GetEach(cfg, p, ns, keys, now).1;
    var order := Ascending(found.Keys);
    forall i | 0 <= i < |order|
      ensures RecordStands(c, w, Loc(ns, order[i]), InKeyOrder(found)[i], InKeyOrder(plain)[i])
    {
      assert order[i] in Elems(order);
    }
    OpenAllStands(c, w, ns, InKeyOrder(found), InKeyOrder(plain));
  }

  /** Seen without their values the two stores are the same, so the driver decides alike on both. */
  lemma SameBuckets(c: Crypto, w: Wrapper, s: Store, p: Store, ns: string)
    requires Stands(c, w, s, p)
    ensures Bucket(s, ns) == Bucket(p, ns)
  {
    forall l | l in s ensures Erase(s[l]) == Erase(p[l]) {
      assert RecordStands(c, w, l, s[l], p[l]);
    }
  }

  lemma KeepStands(c: Crypto, w: Wrapper, s: Store, p: Store, l: Loc, gone: set<string>)
    requires Stands(c, w, s, p)
    ensures Stands(c, w, Keep(s, l, gone), Keep(p, l, gone))
  {
  }

  lemma EvictStands(c: Crypto, cfg: Config, w: Wrapper, s: Store, p: Store, l: Loc, now: int)
    requires Stands(c, w, s, p)
    ensures Stands(c, w, Evict(cfg, s, l, now), Evict(cfg, p, l, now))
  {
    SameBuckets(c, w, s, p, l.ns);
    KeepStands(c, w, s, p, l, Victims(cfg, Bucket(s, l.ns), l, now));
  }

  lemma DropExpiredStands(c: Crypto, w: Wrapper, s: Store, p: Store, l: Loc, now: int)
    requires Stands(c, w, s, p)
    ensures Stands(c, w, DropExpired(s, l, now), DropExpired(p, l, now))
    ensures CurrentVersion(s, l, now) == CurrentVersion(p, l, now)
  {
    if l in s {
      assert RecordStands(c, w, l, s[l], p[l]);
    }
    WithoutStands(c, w, s, p, l);
  }

  lemma WithoutStands(c: Crypto, w: Wrapper, s: Store, p: Store, l: Loc)
    requires Stands(c, w, s, p)
    ensures Stands(c, w, s - {l}, p - {l})
  {
  }

  lemma WriteStands(c: Crypto, w: Wrapper, s: Store, p: Store, l: Loc, stored: Record, plain: Record)
    requires Stands(c, w, s, p) && RecordStands(c, w, l, stored, plain)
    ensures Stands(c, w, s[l := stored], p[l := plain])
  {
  }

  lemma NewRecordStands(c: Crypto, w: Wrapper, s: Store, p: Store, l: Loc, opts: PutOptions, sealed: Blob, now: int)
    requires Stands(c, w, s, p) && StandsFor(c, w, ValueAad(l.ns, l.key), sealed, opts.value)
    ensures RecordStands(c, w, l, NewRecord(s, l, opts.(value := sealed), now), NewRecord(p, l, opts, now))
  {
    if l in s {
      assert RecordStands(c, w, l, s[l], p[l]);
    }
  }

  lemma PutStands(c: Crypto, cfg: Config, w: Wrapper, s: Store, p: Store, l: Loc, opts: PutOptions, sealed: Blob,
                  now: int)
    requires Stands(c, w, s, p) && StandsFor(c, w, ValueAad(l.ns, l.key), sealed, opts.value)
    ensures var (s', r), (p', q) := Put(cfg, s, l, opts.(value := sealed), now), Put(cfg, p, l, opts, now);
      && Stands(c, w, s', p')
      && match (r, q)
         case (Ok(stored), Ok(plain)) => RecordStands(c, w, l, stored, plain)
         case (a, b) => a == b
  {
    DropExpiredStands(c, w, s, p, l, now);
    NewRecordStands(c, w, s, p, l, opts, sealed, now);
    var s1, p1 := DropExpired(s, l, now), DropExpired(p, l, now);
    var stored, plain := NewRecord(s, l, opts.(value := sealed), now), NewRecord(p, l, opts, now);
    WriteStands(c, w, s1, p1, l, stored, plain);
    EvictStands(c, cfg, w, s1[l := stored], p1[l := plain], l, now);
  }

  lemma DeleteStands(c: Crypto, w: Wrapper, s: Store, p: Store, l: Loc, ifVersion: Option<nat>, now: int)
    requires Stands(c, w, s, p)
    ensures Stands(c, w, Delete(s, l, ifVersion, now).0, Delete(p, l, ifVersion, now).0)
    ensures Delete(s, l, ifVersion, now).1 == Delete(p, l, ifVersion, now).1
  {
    if l in s {
      assert RecordStands(c, w, l, s[l], p[l]);
    }
    DropExpiredStands(c, w, s, p, l, now);
    WithoutStands(c, w, s, p, l);
  }

  lemma SweepStands(c: Crypto, w: Wrapper, s: Store, p: Store, now: int)
    requires Stands(c, w, s, p)
    ensures Stands(c, w, Sweep(s, now), Sweep(p, now))
  {
    forall l | l in s ensures Live(s[l], now) <==> Live(p[l], now) {
      assert RecordStands(c, w, l, s[l], p[l]);
    }
  }

  lemma SameScanKeys(c: Crypto, w: Wrapper, s: Store, p: Store, ns: string, opts: ScanOptions, now: int)
    requires Stands(c, w, s, p)
    ensures ScanKeys(s, ns, opts, now) == ScanKeys(p, ns, opts, now)
  {
    forall l | l in s ensures Live(s[l], now) <==> Live(p[l], now) {
      assert RecordStands(c, w, l, s[l], p[l]);
    }
  }

  lemma YieldAllSnoc(recs: seq<Record>, patience: nat)
    requires recs != []
    ensures var before := YieldAll(recs[..|recs| - 1], patience);
      YieldAll(recs, patience) ==
        if before.stopped.Some? then before
        else Scanned(recs, if |recs| - 1 == patience then Some(CallerStopped) else None)
  {
    if |recs| - 1 > patience {
      assert recs[..|recs| - 1][..patience + 1] == recs[..patience + 1];
    } else if |recs| - 1 == patience {
      assert recs[..patience + 1] == recs;
    }
  }

  lemma {:induction false} YieldStands(c: Crypto, w: Wrapper, ns: string, stored: seq<Record>, plain: seq<Record>,
                                       patience: nat)
    requires |stored| == |plain|
    requires forall i :: 0 <= i < |stored| ==> RecordStands(c, w, Loc(ns, stored[i].key), stored[i], plain[i])
    ensures var y, z := YieldOpened(c, w, ns, stored, patience), YieldAll(plain, patience);
      y.stopped == z.stopped && SameRecords(y.yielded, z.yielded)
  {
    var n := |stored|;
    if n != 0 {
      YieldStands(c, w, ns, stored[..n - 1], plain[..n - 1], patience);
      assert RecordStands(c, w, Loc(ns, stored[n - 1].key), stored[n - 1], plain[n - 1]);
      OpenedIsPlain(c, w, Loc(ns, stored[n - 1].key), stored[n - 1], plain[n - 1]);
      YieldAllSnoc(plain, patience);
      var before := YieldOpened(c, w, ns, stored[..n - 1], patience);
      if before.stopped.None? {
        SameSnoc(before.yielded, OpenRecord(c, w, Loc(ns, stored[n - 1].key), stored[n - 1]).value, plain);
      }
    }
  }

  lemma ScanStands(c: Crypto, w: Wrapper, s: Store, p: Store, ns: string, opts: ScanOptions, patience: nat, now: int)
    requires Stands(c, w, s, p)
    ensures var y, z := YieldOpened(c, w, ns, Scan(s, ns, opts, now), patience),
                        YieldAll(Scan(p, ns, opts, now), patience);
      y.stopped == z.stopped && SameRecords(y.yielded, z.yielded)
  {
    SameScanKeys(c, w, s, p, ns, opts, now);
    var stored, plain := Scan(s, ns, opts, now), Scan(p, ns, opts, now);
    var order := ScanOrder(s, ns, opts, now);
    forall i | 0 <= i < |stored| ensures RecordStands(c, w, Loc(ns, stored[i].key), stored[i], plain[i]) {
      assert order[i] in order;
      assert RecordStands(c, w, Loc(ns, order[i]), s[Loc(ns, order[i])], p[Loc(ns, order[i])]);
    }
    YieldStands(c, w, ns, stored, plain, patience);
  }

  lemma ReadStands(c: Crypto, cfg: Config, w: Wrapper, s: Store, p: Store, op: Op, now: int, nonce: Bytes)
    requires (op.OpGet? || op.OpMultiGet? || op.OpScan?) && Stands(c, w, s, p)
    ensures var (s', r), (p', q) := SealedStep(c, cfg, w, s, op, now, nonce), PlainStep(cfg, p, op, now);
      Stands(c, w, s', p') && SameResponse(r, q)
  {
    match op
    case OpGet(l) =>
      GetStands(c, cfg, w, s, p, l, now);
    case OpMultiGet(ns, keys) =>
      MultiGetStands(c, cfg, w, s, p, ns, keys, now);
    case OpScan(ns, scan, patience) =>
      ScanStands(c, w, s, p, ns, scan, patience, now);
  }

  /** One call through the wrapper keeps the correspondence and answers alike. */
  lemma StepStands(c: Crypto, cfg: Config, w: Wrapper, s: Store, p: Store, op: Op, now: int, nonce: Bytes)
    requires Lawful(c) && Valid(w.kr) && |nonce| == NONCE_LEN && Stands(c, w, s, p)
    ensures var (s', r), (p', q) := SealedStep(c, cfg, w, s, op, now, nonce), PlainStep(cfg, p, op, now);
      Stands(c, w, s', p') && SameResponse(r, q)
  {
    match op
    case OpPut(l, opts) =>
      SealedStands(c, w, ValueAad(l.ns, l.key), nonce, opts.value);
      PutStands(c, cfg, w, s, p, l, opts, Seal(c, w.kr, nonce, l, opts.value), now);
    case OpDelete(l, ifVersion) =>
      DeleteStands(c, w, s, p, l, ifVersion, now);
    case OpSweep =>
      SweepStands(c, w, s, p, now);
    case _ =>
      ReadStands(c, cfg, w, s, p, op, now, nonce);
  }

  // ----- Whole runs, with rotation and migration -----

  datatype Event = Call(op: Op, now: int, nonce: Bytes) | Rebuild(next: Wrapper)

  datatype Sealed = Sealed(w: Wrapper, store: Store, log: seq<Response>)
  datatype Plain = Plain(store: Store, log: seq<Response>)

  ghost function SealedNext(c: Crypto, cfg: Config, st: Sealed, e: Event): Sealed
  {
    match e
    case Call(op, now, nonce) =>
      var (store, r) := SealedStep(c, cfg, st.w, st.store, op, now, nonce);
      Sealed(st.w, store, st.log + [r])
    case Rebuild(next) => st.(w := next)
  }

  ghost function PlainNext(cfg: Config, st: Plain, e: Event): Plain
  {
    match e
    case Call(op, now, _) => var (store, r) := PlainStep(cfg, st.store, op, now); Plain(store, st.log + [r])
    case Rebuild(_) => st
  }

  ghost function SealedRun(c: Crypto, cfg: Config, st: Sealed, events: seq<Event>): Sealed
  {
    if events == [] then st
    else SealedNext(c, cfg, SealedRun(c, cfg, st, events[..|events| - 1]), events[|events| - 1])
  }

  ghost function PlainRun(cfg: Config, st: Plain, events: seq<Event>): Plain
  {
    if events == [] then st
    else PlainNext(cfg, PlainRun(cfg, st, events[..|events| - 1]), events[|events| - 1])
  }

  /**
   A rebuilt wrapper may replace another over a store when it keeps every key that an envelope in the
   store names, and still allows plaintext reads while the store holds any plaintext.
   */
  ghost predicate MayReplace(w: Wrapper, next: Wrapper, s: Store)
  {
    Valid(next.kr) && forall l :: l in s ==> StillReads(w, next, s[l].value)
  }

  ghost predicate EventOk(st: Sealed, e: Event)
  {
    match e
    case Call(_, _, nonce) => |nonce| == NONCE_LEN
    case Rebuild(next) => MayReplace(st.w, next, st.store)
  }

  ghost predicate RunOk(c: Crypto, cfg: Config, st: Sealed, events: seq<Event>)
  {
    forall i :: 0 <= i < |events| ==> EventOk(SealedRun(c, cfg, st, events[..i]), events[i])
  }

  lemma ReplaceStands(c: Crypto, w: Wrapper, next: Wrapper, s: Store, p: Store)
    requires Stands(c, w, s, p) && MayReplace(w, next, s)
    ensures Stands(c, next, s, p)
  {
    forall l | l in s ensures RecordStands(c, next, l, s[l], p[l]) {
      assert RecordStands(c, w, l, s[l], p[l]);
      StillStands(c, w, next, ValueAad(l.ns, l.key), s[l].value, p[l].value);
    }
  }

  ghost predicate SameLogs(a: seq<Response>, b: seq<Response>)
  {
    var same := |a| == |b| && forall i :: 0 <= i < |a| ==> SameResponse(a[i], b[i]);
    same
  }

  lemma LogGrows(a: seq<Response>, r: Response, b: seq<Response>, q: Response)
    requires SameLogs(a, b) && SameResponse(r, q)
    ensures SameLogs(a + [r], b + [q])
  {
  }

  ghost predicate Corresponds(c: Crypto, st: Sealed, pt: Plain)
  {
    Valid(st.w.kr) && Stands(c, st.w, st.store, pt.store) && SameLogs(st.log, pt.log)
  }

  lemma EventCorresponds(c: Crypto, cfg: Config, st: Sealed, pt: Plain, e: Event)
    requires Lawful(c) && Corresponds(c, st, pt) && EventOk(st, e)
    ensures Corresponds(c, SealedNext(c, cfg, st, e), PlainNext(cfg, pt, e))
  {
    match e
    case Call(op, now, nonce) =>
      StepStands(c, cfg, st.w, st.store, pt.store, op, now, nonce);
      LogGrows(st.log, SealedStep(c, cfg, st.w, st.store, op, now, nonce).1, pt.log,
               PlainStep(cfg, pt.store, op, now).1);
    case Rebuild(next) =>
      ReplaceStands(c, st.w, next, st.store, pt.store);
  }

  lemma RunOkPrefix(c: Crypto, cfg: Config, st: Sealed, events: seq<Event>)
    requires events != [] && RunOk(c, cfg, st, events)
    ensures RunOk(c, cfg, st, events[..|events| - 1])
    ensures EventOk(SealedRun(c, cfg, st, events[..|events| - 1]), events[|events| - 1])
  {
    var before := events[..|events| - 1];
    forall i | 0 <= i < |before| ensures EventOk(SealedRun(c, cfg, st, before[..i]), before[i]) {
      assert before[..i] == events[..i];
    }
  }

  /** Encryption is invisible over every run: same records, versions, order and errors, call by call. */
  lemma {:induction false} EncryptionIsInvisible(c: Crypto, cfg: Config, st: Sealed, pt: Plain, events: seq<Event>)
    requires Lawful(c) && Corresponds(c, st, pt) && RunOk(c, cfg, st, events)
    ensures Corresponds(c, SealedRun(c, cfg, st, events), PlainRun(cfg, pt, events))
  {
    if events != [] {
      var before := events[..|events| - 1];
      RunOkPrefix(c, cfg, st, events);
      EncryptionIsInvisible(c, cfg, st, pt, before);
      EventCorresponds(c, cfg, SealedRun(c, cfg, st, before), PlainRun(cfg, pt, before), events[|events| - 1]);
    }
  }

  /** In particular every run from an empty store. */
  lemma InvisibleFromTheStart(c: Crypto, cfg: Config, w: Wrapper, events: seq<Event>)
    requires Lawful(c) && Valid(w.kr) && RunOk(c, cfg, Sealed(w, map[], []), events)
    ensures SameLogs(SealedRun(c, cfg, Sealed(w, map[], []), events).log, PlainRun(cfg, Plain(map[], []), events).log)
  {
    EncryptionIsInvisible(c, cfg, Sealed(w, map[], []), Plain(map[], []), events);
  }

  // ----- Migration of existing plaintext -----

  /** Where the store holds a non-empty value that is no envelope. */
  ghost function Legacy(s: Store): set<Loc>
  {
    set l | l in s && BytesOf(s[l].value) != [] && !IsEnvelope(BytesOf(s[l].value))
  }

  ghost predicate NoEnvelopes(s: Store)
  {
    forall l :: l in s ==> s[l].key == l.key && !IsEnvelope(BytesOf(s[l].value))
  }

  /** With plaintext reads allowed, a store of plaintext that never looks like an envelope stands for itself. */
  lemma MigrationStarts(c: Crypto, w: Wrapper, s: Store)
    requires w.allowPlaintext && NoEnvelopes(s)
    ensures Stands(c, w, s, s)
  {
  }

  /** The exact condition: one value shaped like an envelope and the store does not read as it did before. */
  lemma MigrationStartsExactly(c: Crypto, w: Wrapper, s: Store)
    requires NeverExpands(c) && w.allowPlaintext && forall l :: l in s ==> s[l].key == l.key
    ensures Stands(c, w, s, s) <==> NoEnvelopes(s)
  {
    if Stands(c, w, s, s) {
      forall l | l in s ensures !IsEnvelope(BytesOf(s[l].value)) {
        assert RecordStands(c, w, l, s[l], s[l]);
        if s[l].value.Data? {
          PlaintextReadsExactly(c, w, ValueAad(l.ns, l.key), s[l].value.bytes);
        }
      }
    }
  }

  /** How it fails: plaintext naming a key the ring does not have is refused, with that key's tag. */
  lemma EnvelopeShapedPlaintextFails(c: Crypto, w: Wrapper, l: Loc, plain: Bytes)
    requires IsEnvelope(plain) && TagOf(plain) !in w.kr.byTag
    ensures OpenStored(c, w, ValueAad(l.ns, l.key), Data(plain)) == Err(NoKeyForTag(TagOf(plain)))
  {
  }

  lemma EvictKeepsRecords(cfg: Config, s: Store, l: Loc, now: int)
    ensures var kept := Evict(cfg, s, l, now); forall m :: m in kept ==> m in s && kept[m] == s[m]
  {
  }

  /** No call leaves plaintext behind that was not there before, and a successful write or delete clears its own key. */
  lemma LegacyShrinks(c: Crypto, cfg: Config, w: Wrapper, s: Store, op: Op, now: int, nonce: Bytes)
    requires Valid(w.kr) && |nonce| == NONCE_LEN
    ensures var (s', r) := SealedStep(c, cfg, w, s, op, now, nonce);
      && Legacy(s') <= Legacy(s)
      && (op.OpPut? && r.rec.Ok? ==> op.l !in Legacy(s'))
      && (op.OpDelete? && r.existed.Ok? ==> op.l !in Legacy(s'))
  {
    match op
    case OpMultiGet(ns, keys) =>
      GetEachKeepsLegacy(cfg, s, ns, keys, now);
    case OpPut(l, opts) =>
      var sealed := opts.(value := Seal(c, w.kr, nonce, l, opts.value));
      if opts.value.Data? {
        SealedShape(c, w.kr, nonce, opts.value.bytes, ValueAad(l.ns, l.key));
      }
      EvictKeepsRecords(cfg, DropExpired(s, l, now)[l := NewRecord(s, l, sealed, now)], l, now);
    case _ =>
  }

  lemma {:induction false} GetEachKeepsLegacy(cfg: Config, s: Store, ns: string, keys: seq<string>, now: int)
    ensures Legacy(GetEach(cfg, s, ns, keys, now).0) <= Legacy(s)
  {
    if keys != [] {
      GetEachKeepsLegacy(cfg, s, ns, keys[..|keys| - 1], now);
    }
  }

  /** Call `i` of the run wrote or deleted `l`, and succeeded. */
  ghost predicate Rewrites(c: Crypto, cfg: Config, st: Sealed, events: seq<Event>, i: nat, l: Loc)
    requires i < |events|
  {
    var at := SealedRun(c, cfg, st, events[..i]);
    match events[i]
    case Call(OpPut(m, opts), now, nonce) => m == l &&
        SealedStep(c, cfg, at.w, at.store, OpPut(m, opts), now, nonce).1.rec.Ok?
    case Call(OpDelete(m, v), now, nonce) => m == l &&
        SealedStep(c, cfg, at.w, at.store, OpDelete(m, v), now, nonce).1.existed.Ok?
    case _ => false
  }

  lemma RewriteOfPrefix(c: Crypto, cfg: Config, st: Sealed, events: seq<Event>, i: nat, l: Loc)
    requires i < |events| - 1
    ensures Rewrites(c, cfg, st, events, i, l) == Rewrites(c, cfg, st, events[..|events| - 1], i, l)
  {
    assert events[..|events| - 1][..i] == events[..i];
  }

  lemma LastEventShrinks(c: Crypto, cfg: Config, st: Sealed, events: seq<Event>)
    requires events != [] && Valid(SealedRun(c, cfg, st, events[..|events| - 1]).w.kr)
    requires EventOk(SealedRun(c, cfg, st, events[..|events| - 1]), events[|events| - 1])
    ensures Legacy(SealedRun(c, cfg, st, events).store) <= Legacy(SealedRun(c, cfg, st, events[..|events| - 1]).store)
    ensures Valid(SealedRun(c, cfg, st, events).w.kr)
    ensures forall l :: Rewrites(c, cfg, st, events, |events| - 1, l) ==>
              l !in Legacy(SealedRun(c, cfg, st, events).store)
  {
    var at, e := SealedRun(c, cfg, st, events[..|events| - 1]), events[|events| - 1];
    if e.Call? {
      LegacyShrinks(c, cfg, at.w, at.store, e.op, e.now, e.nonce);
    }
  }

  lemma {:induction false} RewrittenIsGone(c: Crypto, cfg: Config, st: Sealed, events: seq<Event>)
    requires Valid(st.w.kr) && RunOk(c, cfg, st, events)
    ensures var end := SealedRun(c, cfg, st, events);
      && Valid(end.w.kr) && Legacy(end.store) <= Legacy(st.store)
      && forall i, l :: 0 <= i < |events| && Rewrites(c, cfg, st, events, i, l) ==> l !in Legacy(end.store)
  {
    if events != [] {
      RunOkPrefix(c, cfg, st, events);
      RewrittenIsGone(c, cfg, st, events[..|events| - 1]);
      LastEventShrinks(c, cfg, st, events);
      forall i, l | 0 <= i < |events| && Rewrites(c, cfg, st, events, i, l)
        ensures l !in Legacy(SealedRun(c, cfg, st, events).store)
      {
        if i < |events| - 1 {
          RewriteOfPrefix(c, cfg, st, events, i, l);
        }
      }
    }
  }

  /**
   A migration: starting from plaintext, reads follow the logical values throughout; once every key that held
   plaintext has been rewritten or deleted, no plaintext is left and the flag may be turned off.
   */
  lemma MigrationCompletes(c: Crypto, cfg: Config, w: Wrapper, s: Store, events: seq<Event>)
    requires Lawful(c) && Valid(w.kr) && w.allowPlaintext && NoEnvelopes(s)
    requires RunOk(c, cfg, Sealed(w, s, []), events)
    requires forall l :: l in Legacy(s) ==>
               exists i :: 0 <= i < |events| && Rewrites(c, cfg, Sealed(w, s, []), events, i, l)
    ensures var end, plain := SealedRun(c, cfg, Sealed(w, s, []), events), PlainRun(cfg, Plain(s, []), events);
      && SameLogs(end.log, plain.log)
      && Legacy(end.store) == {}
      && MayReplace(end.w, end.w.(allowPlaintext := false), end.store)
      && Stands(c, end.w.(allowPlaintext := false), end.store, plain.store)
  {
    var st := Sealed(w, s, []);
    MigrationStarts(c, w, s);
    EncryptionIsInvisible(c, cfg, st, Plain(s, []), events);
    RewrittenIsGone(c, cfg, st, events);
    var end := SealedRun(c, cfg, st, events);
    forall l ensures l !in Legacy(end.store) {
      if l in Legacy(s) {
        var i :| 0 <= i < |events| && Rewrites(c, cfg, st, events, i, l);
      }
    }
    forall l | l in end.store ensures StillReads(end.w, end.w.(allowPlaintext := false), end.store[l].value) {
      assert l !in Legacy(end.store);
    }
    ReplaceStands(c, end.w, end.w.(allowPlaintext := false), end.store, PlainRun(cfg, Plain(s, []), events).store);
  }

  /** Turning the flag off changes the reading of a stored value exactly when that value is still plaintext. */
  lemma FlagMattersForLegacyOnly(c: Crypto, kr: Keyring, s: Store, l: Loc)
    requires l in s
    ensures var aad := ValueAad(l.ns, l.key);
      OpenStored(c, Wrapper(kr, true), aad, s[l].value) == OpenStored(c, Wrapper(kr, false), aad, s[l].value) <==>
          l !in Legacy(s)
  {
  }
}
