/**
 The encrypting episodic driver is invisible over every run, dedup replays and
 rotation included, and a replay returns the event its key first wrote.
 */
module EpisodicRefinement {
  import opened Wrappers
  import opened Aad
  import opened Keyring
  import opened EpisodicLog
  import opened EpisodicEncrypted

  datatype Op =
    | OpAppend(opts: AppendOptions, id: string)
    | OpRange(range: RangeOptions, patience: nat)
    | OpHistory(afterCursor: nat, patience: nat)
    | OpExpire(expire: ExpireOptions)

  datatype Response =
    | Appended(event: Result<Event, EpisodicError>)
    | Yielded(seen: Yields)
    | Expired(affected: Option<nat>)

  /** One call on the log without encryption. */
  function PlainStep(p: Stream, op: Op, now: int): (Stream, Response)
  {
    match op
    case OpAppend(opts, id) => var (p', e) := Append(p, opts, id, now); (p', Appended(Ok(e)))
    case OpRange(o, patience) => (p, Yielded(YieldAll(Range(p, o), patience)))
    case OpHistory(after, patience) => (p, Yielded(YieldAll(History(p.events, after), patience)))
    case OpExpire(o) => var (p', n) := Expire(p, o, now); (p', Expired(n))
  }

  /** The same call through the encrypting driver. */
  function SealedStep(c: Crypto, w: Wrapper, ns: string, s: Stream, op: Op, now: int, nonce: Bytes): (Stream, Response)
  {
    match op
    case OpAppend(opts, id) =>
      var (s', e) := Append(s, SealOptions(c, w, ns, opts, nonce), id, now);
      (s', Appended(OpenEvent(c, w, ns, e)))
    case OpRange(o, patience) => (s, Yielded(YieldOpened(c, w, ns, Range(s, o), patience)))
    case OpHistory(after, patience) => (s, Yielded(YieldOpened(c, w, ns, History(s.events, after), patience)))
    case OpExpire(o) => var (s', n) := Expire(s, o, now); (s', Expired(n))
  }

  // ----- What the two logs have in common -----

  predicate SameEvent(a: Event, b: Event)
  {
    EraseEvent(a) == EraseEvent(b) && Same(a.payload, b.payload)
  }

  ghost predicate SameEvents(a: seq<Event>, b: seq<Event>)
  {
    var same := |a| == |b| && forall i :: 0 <= i < |a| ==> SameEvent(a[i], b[i]);
    same
  }

  ghost predicate SameResponse(a: Response, b: Response)
  {
    match (a, b)
    case (Appended(Ok(e)), Appended(Ok(f))) => SameEvent(e, f)
    case (Yielded(y), Yielded(z)) => y.stopped == z.stopped && SameEvents(y.events, z.events)
    case _ => a == b
  }

  ghost predicate EventStands(c: Crypto, w: Wrapper, ns: string, stored: Event, plain: Event)
  {
    var stands := EraseEvent(stored) == EraseEvent(plain) &&
        StandsFor(c, w, PayloadAad(ns), stored.payload, plain.payload);
    stands
  }

  ghost predicate EventsStand(c: Crypto, w: Wrapper, ns: string, stored: seq<Event>, plain: seq<Event>)
  {
    var stand := |stored| == |plain| && forall i :: 0 <= i < |stored| ==> EventStands(c, w, ns, stored[i], plain[i]);
    stand
  }

  ghost predicate Stands(c: Crypto, w: Wrapper, ns: string, s: Stream, p: Stream)
  {
    EventsStand(c, w, ns, s.events, p.events) && s.lastCursor == p.lastCursor && s.dedupToId == p.dedupToId
  }

  lemma Prefixes(c: Crypto, w: Wrapper, ns: string, s: seq<Event>, p: seq<Event>)
    requires s != [] && EventsStand(c, w, ns, s, p)
    ensures EventsStand(c, w, ns, s[..|s| - 1], p[..|p| - 1]) && EventStands(c, w, ns, s[|s| - 1], p[|p| - 1])
  {
  }

  lemma Snoc(c: Crypto, w: Wrapper, ns: string, s: seq<Event>, e: Event, p: seq<Event>, f: Event)
    requires EventsStand(c, w, ns, s, p) && EventStands(c, w, ns, e, f)
    ensures EventsStand(c, w, ns, s + [e], p + [f])
  {
  }

  lemma {:induction false} SameIndex(c: Crypto, w: Wrapper, ns: string, s: seq<Event>, p: seq<Event>, id: string)
    requires EventsStand(c, w, ns, s, p)
    ensures IndexById(s, id) == IndexById(p, id)
  {
    if s != [] {
      Prefixes(c, w, ns, s, p);
      SameIndex(c, w, ns, s[..|s| - 1], p[..|p| - 1], id);
    }
  }

  lemma TombstoneStands(c: Crypto, w: Wrapper, ns: string, s: seq<Event>, p: seq<Event>, id: string, now: int)
    requires EventsStand(c, w, ns, s, p)
    ensures EventsStand(c, w, ns, Tombstone(s, id, now), Tombstone(p, id, now))
  {
    SameIndex(c, w, ns, s, p, id);
    var i := IndexById(s, id);
    if i.Some? {
      assert EventStands(c, w, ns, s[i.value], p[i.value]);
    }
  }

  lemma {:induction false} TombstoneAllStands(c: Crypto, w: Wrapper, ns: string, s: seq<Event>, p: seq<Event>,
                                              ids: seq<string>, self: string, now: int)
    requires EventsStand(c, w, ns, s, p)
    ensures EventsStand(c, w, ns, TombstoneAll(s, ids, self, now), TombstoneAll(p, ids, self, now))
  {
    if ids != [] {
      var before := ids[..|ids| - 1];
      TombstoneAllStands(c, w, ns, s, p, before, self, now);
      TombstoneStands(c, w, ns, TombstoneAll(s, before, self, now), TombstoneAll(p, before, self, now), ids[|ids| - 1],
                      now);
    }
  }

  lemma {:induction false} FilterStands(c: Crypto, w: Wrapper, ns: string, s: seq<Event>, p: seq<Event>,
                                        o: RangeOptions)
    requires EventsStand(c, w, ns, s, p)
    ensures EventsStand(c, w, ns, Filter(s, o), Filter(p, o))
  {
    if s != [] {
      Prefixes(c, w, ns, s, p);
      FilterStands(c, w, ns, s[..|s| - 1], p[..|p| - 1], o);
      Snoc(c, w, ns, Filter(s[..|s| - 1], o), s[|s| - 1], Filter(p[..|p| - 1], o), p[|p| - 1]);
    }
  }

  lemma {:induction false} HistoryStands(c: Crypto, w: Wrapper, ns: string, s: seq<Event>, p: seq<Event>, after: nat)
    requires EventsStand(c, w, ns, s, p)
    ensures EventsStand(c, w, ns, History(s, after), History(p, after))
  {
    if s != [] {
      Prefixes(c, w, ns, s, p);
      HistoryStands(c, w, ns, s[..|s| - 1], p[..|p| - 1], after);
      Snoc(c, w, ns, History(s[..|s| - 1], after), s[|s| - 1], History(p[..|p| - 1], after), p[|p| - 1]);
    }
  }

  lemma RangeStands(c: Crypto, w: Wrapper, ns: string, s: Stream, p: Stream, o: RangeOptions)
    requires Stands(c, w, ns, s, p)
    ensures EventsStand(c, w, ns, Range(s, o), Range(p, o))
  {
    FilterStands(c, w, ns, s.events, p.events, o);
  }

  lemma {:induction false} ExpireEventsStand(c: Crypto, w: Wrapper, ns: string, s: seq<Event>, p: seq<Event>,
                                             o: ExpireOptions, now: int)
    requires EventsStand(c, w, ns, s, p)
    ensures EventsStand(c, w, ns, ExpireEvents(s, o, now).0, ExpireEvents(p, o, now).0)
    ensures ExpireEvents(s, o, now).1 == ExpireEvents(p, o, now).1
  {
    if s != [] {
      Prefixes(c, w, ns, s, p);
      ExpireEventsStand(c, w, ns, s[..|s| - 1], p[..|p| - 1], o, now);
      var before, plain := ExpireEvents(s[..|s| - 1], o, now).0, ExpireEvents(p[..|p| - 1], o, now).0;
      var e, f := s[|s| - 1], p[|p| - 1];
      Snoc(c, w, ns, before, e, plain, f);
      Snoc(c, w, ns, before, e.(deletedAt := Some(now)), plain, f.(deletedAt := Some(now)));
    }
  }

  lemma ExpireStands(c: Crypto, w: Wrapper, ns: string, s: Stream, p: Stream, o: ExpireOptions, now: int)
    requires Stands(c, w, ns, s, p)
    ensures Stands(c, w, ns, Expire(s, o, now).0, Expire(p, o, now).0) && Expire(s, o, now).1 == Expire(p, o, now).1
  {
    ExpireEventsStand(c, w, ns, s.events, p.events, o, now);
    var kept, plain := ExpireEvents(s.events, o, now).0, ExpireEvents(p.events, o, now).0;
    forall id ensures IndexById(kept, id) == IndexById(plain, id) {
      SameIndex(c, w, ns, kept, plain, id);
    }
  }

  lemma AppendStands(c: Crypto, w: Wrapper, ns: string, s: Stream, p: Stream, opts: AppendOptions, sealed: Blob,
                     id: string, now: int)
    requires Stands(c, w, ns, s, p) && StandsFor(c, w, PayloadAad(ns), sealed, opts.payload)
    ensures var (s', e), (p', f) := Append(s, opts.(payload := sealed), id, now), Append(p, opts, id, now);
      Stands(c, w, ns, s', p') && EventStands(c, w, ns, e, f)
  {
    if opts.dedupKey in s.dedupToId {
      SameIndex(c, w, ns, s.events, p.events, s.dedupToId[opts.dedupKey]);
    }
    if Replayed(s, opts.dedupKey).None? {
      var e, f := NewEvent(s, opts.(payload := sealed), id, now), NewEvent(p, opts, id, now);
      Snoc(c, w, ns, s.events, e, p.events, f);
      TombstoneAllStands(c, w, ns, s.events + [e], p.events + [f], opts.supersedes, id, now);
    }
  }

  lemma SameSnoc(a: seq<Event>, x: Event, b: seq<Event>)
    requires b != [] && SameEvents(a, b[..|b| - 1]) && SameEvent(x, b[|b| - 1])
    ensures SameEvents(a + [x], b)
  {
  }

  lemma YieldAllSnoc(events: seq<Event>, patience: nat)
    requires events != []
    ensures var before := YieldAll(events[..|events| - 1], patience);
      YieldAll(events, patience) ==
        if before.stopped.Some? then before
        else Yields(events, if |events| - 1 == patience then Some(CallerStopped) else None)
  {
    if |events| - 1 > patience {
      assert events[..|events| - 1][..patience + 1] == events[..patience + 1];
    } else if |events| - 1 == patience {
      assert events[..patience + 1] == events;
    }
  }

  lemma {:induction false} YieldStands(c: Crypto, w: Wrapper, ns: string, s: seq<Event>, p: seq<Event>, patience: nat)
    requires EventsStand(c, w, ns, s, p)
    ensures var y, z := YieldOpened(c, w, ns, s, patience), YieldAll(p, patience);
      y.stopped == z.stopped && SameEvents(y.events, z.events)
  {
    if s != [] {
      Prefixes(c, w, ns, s, p);
      YieldStands(c, w, ns, s[..|s| - 1], p[..|p| - 1], patience);
      OpenedIsPlain(c, w, ns, s[|s| - 1], p[|p| - 1]);
      YieldAllSnoc(p, patience);
      var before := YieldOpened(c, w, ns, s[..|s| - 1], patience);
      if before.stopped.None? {
        SameSnoc(before.events, OpenEvent(c, w, ns, s[|s| - 1]).value, p);
      }
    }
  }

  lemma OpenedIsPlain(c: Crypto, w: Wrapper, ns: string, stored: Event, plain: Event)
    requires EventStands(c, w, ns, stored, plain)
    ensures OpenEvent(c, w, ns, stored).Ok?
    ensures SameEvent(OpenEvent(c, w, ns, stored).value, plain)
  {
  }

  /** One call through the wrapper keeps the correspondence and answers alike. */
  lemma StepStands(c: Crypto, w: Wrapper, ns: string, s: Stream, p: Stream, op: Op, now: int, nonce: Bytes)
    requires Lawful(c) && Valid(w.kr) && |nonce| == NONCE_LEN && Stands(c, w, ns, s, p)
    ensures var (s', r), (p', q) := SealedStep(c, w, ns, s, op, now, nonce), PlainStep(p, op, now);
      Stands(c, w, ns, s', p') && SameResponse(r, q)
  {
    match op
    case OpAppend(opts, id) =>
      var sealed := SealOptions(c, w, ns, opts, nonce);
      SealedStands(c, w, PayloadAad(ns), nonce, opts.payload);
      AppendStands(c, w, ns, s, p, opts, sealed.payload, id, now);
      OpenedIsPlain(c, w, ns, Append(s, sealed, id, now).1, Append(p, opts, id, now).1);
    case OpRange(o, patience) =>
      RangeStands(c, w, ns, s, p, o);
      YieldStands(c, w, ns, Range(s, o), Range(p, o), patience);
    case OpHistory(after, patience) =>
      HistoryStands(c, w, ns, s.events, p.events, after);
      YieldStands(c, w, ns, History(s.events, after), History(p.events, after), patience);
    case OpExpire(o) =>
      ExpireStands(c, w, ns, s, p, o, now);
  }

  // ----- Whole runs, with rotation and migration -----

  datatype Move = Call(op: Op, now: int, nonce: Bytes) | Rebuild(next: Wrapper)

  datatype Sealed = Sealed(w: Wrapper, stream: Stream, log: seq<Response>)
  datatype Plain = Plain(stream: Stream, log: seq<Response>)

  function SealedNext(c: Crypto, ns: string, st: Sealed, m: Move): Sealed
  {
    match m
    case Call(op, now, nonce) => var (s, r) := SealedStep(c, st.w, ns, st.stream, op, now, nonce);
        Sealed(st.w, s, st.log + [r])
    case Rebuild(next) => st.(w := next)
  }

  function PlainNext(st: Plain, m: Move): Plain
  {
    match m
    case Call(op, now, _) => var (p, r) := PlainStep(st.stream, op, now); Plain(p, st.log + [r])
    case Rebuild(_) => st
  }

  function SealedRun(c: Crypto, ns: string, st: Sealed, moves: seq<Move>): Sealed
  {
    if moves == [] then st else SealedNext(c, ns, SealedRun(c, ns, st, moves[..|moves| - 1]), moves[|moves| - 1])
  }

  function PlainRun(st: Plain, moves: seq<Move>): Plain
  {
    if moves == [] then st else PlainNext(PlainRun(st, moves[..|moves| - 1]), moves[|moves| - 1])
  }

  /** A rebuilt wrapper keeps the keys that stored envelopes name, and plaintext reads while there is plaintext. */
  ghost predicate MoveOk(st: Sealed, m: Move)
  {
    match m
    case Call(_, _, nonce) => |nonce| == NONCE_LEN
    case Rebuild(next) => Valid(next.kr) && forall i :: 0 <= i < |st.stream.events| ==>
        StillReads(st.w, next, st.stream.events[i].payload)
  }

  ghost predicate RunOk(c: Crypto, ns: string, st: Sealed, moves: seq<Move>)
  {
    moves == [] ||
    (RunOk(c, ns, st, moves[..|moves| - 1]) && MoveOk(SealedRun(c, ns, st, moves[..|moves| - 1]), moves[|moves| - 1]))
  }

  ghost predicate SameLogs(a: seq<Response>, b: seq<Response>)
  {
    var same := |a| == |b| && forall i :: 0 <= i < |a| ==> SameResponse(a[i], b[i]);
    same
  }

  ghost predicate Corresponds(c: Crypto, ns: string, st: Sealed, pt: Plain)
  {
    Valid(st.w.kr) && Stands(c, st.w, ns, st.stream, pt.stream) && SameLogs(st.log, pt.log)
  }

  lemma LogGrows(a: seq<Response>, r: Response, b: seq<Response>, q: Response)
    requires SameLogs(a, b) && SameResponse(r, q)
    ensures SameLogs(a + [r], b + [q])
  {
  }

  lemma ReplaceStands(c: Crypto, w: Wrapper, next: Wrapper, ns: string, s: seq<Event>, p: seq<Event>)
    requires EventsStand(c, w, ns, s, p) && forall i :: 0 <= i < |s| ==> StillReads(w, next, s[i].payload)
    ensures EventsStand(c, next, ns, s, p)
  {
    forall i | 0 <= i < |s| ensures EventStands(c, next, ns, s[i], p[i]) {
      assert EventStands(c, w, ns, s[i], p[i]);
      StillStands(c, w, next, PayloadAad(ns), s[i].payload, p[i].payload);
    }
  }

  /** Payload encryption is invisible over every run of appends, ranges, tail replays and expiries. */
  lemma {:induction false} EncryptionIsInvisible(c: Crypto, ns: string, st: Sealed, pt: Plain, moves: seq<Move>)
    requires Lawful(c) && Corresponds(c, ns, st, pt) && RunOk(c, ns, st, moves)
    ensures Corresponds(c, ns, SealedRun(c, ns, st, moves), PlainRun(pt, moves))
  {
    if moves != [] {
      var before, m := moves[..|moves| - 1], moves[|moves| - 1];
      EncryptionIsInvisible(c, ns, st, pt, before);
      MoveCorresponds(c, ns, SealedRun(c, ns, st, before), PlainRun(pt, before), m);
    }
  }

  lemma MoveCorresponds(c: Crypto, ns: string, st: Sealed, pt: Plain, m: Move)
    requires Lawful(c) && Corresponds(c, ns, st, pt) && MoveOk(st, m)
    ensures Corresponds(c, ns, SealedNext(c, ns, st, m), PlainNext(pt, m))
  {
    match m
    case Call(op, now, nonce) =>
      StepStands(c, st.w, ns, st.stream, pt.stream, op, now, nonce);
      LogGrows(st.log, SealedStep(c, st.w, ns, st.stream, op, now, nonce).1, pt.log, PlainStep(pt.stream, op, now).1);
    case Rebuild(next) =>
      ReplaceStands(c, st.w, next, ns, st.stream.events, pt.stream.events);
  }

  // ----- Replays -----

  predicate SameButTombstone(a: Event, b: Event)
  {
    a.(deletedAt := None) == b.(deletedAt := None)
  }

  /** The dedup key names `e`, the one event stored under its id. */
  ghost predicate Held(st: Stream, dedupKey: string, e: Event)
  {
    var held := dedupKey in st.dedupToId && st.dedupToId[dedupKey] == e.id && IndexById(st.events, e.id).Some? &&
        Sole(st.events, e);
    held
  }

  ghost predicate Sole(events: seq<Event>, e: Event)
  {
    forall i :: 0 <= i < |events| && events[i].id == e.id ==> SameButTombstone(events[i], e)
  }

  lemma {:induction false} TombstonesKeep(events: seq<Event>, ids: seq<string>, self: string, now: int)
    ensures forall i :: 0 <= i < |events| ==> SameButTombstone(TombstoneAll(events, ids, self, now)[i], events[i])
  {
    if ids != [] {
      TombstonesKeep(events, ids[..|ids| - 1], self, now);
    }
  }

  lemma Found(events: seq<Event>, i: nat, id: string)
    requires i < |events| && events[i].id == id
    ensures IndexById(events, id).Some?
  {
  }

  lemma AppendKeeps(st: Stream, dedupKey: string, e: Event, opts: AppendOptions, id: string, now: int)
    requires Held(st, dedupKey, e) && id != e.id
    ensures Held(Append(st, opts, id, now).0, dedupKey, e)
  {
    if Replayed(st, opts.dedupKey).None? {
      var events := st.events + [NewEvent(st, opts, id, now)];
      TombstonesKeep(events, opts.supersedes, id, now);
      var i := IndexById(st.events, e.id).value;
      Found(TombstoneAll(events, opts.supersedes, id, now), i, e.id);
    }
  }

  lemma {:induction false} ExpiryKeeps(events: seq<Event>, e: Event, o: ExpireOptions, now: int)
    requires Sole(events, e)
    ensures Sole(ExpireEvents(events, o, now).0, e)
  {
    if events != [] {
      var before, last := events[..|events| - 1], events[|events| - 1];
      assert events == before + [last];
      ExpiryKeeps(before, e, o, now);
    }
  }

  lemma {:induction false} IdsStay(events: seq<Event>, o: ExpireOptions, now: int)
    requires !o.hard
    ensures |ExpireEvents(events, o, now).0| == |events|
    ensures forall i :: 0 <= i < |events| ==> SameButTombstone(ExpireEvents(events, o, now).0[i], events[i])
  {
    if events != [] {
      IdsStay(events[..|events| - 1], o, now);
    }
  }

  lemma {:induction false} NothingExpired(events: seq<Event>, o: ExpireOptions, now: int)
    requires ExpireEvents(events, o, now).1 == 0
    ensures ExpireEvents(events, o, now).0 == events
  {
    if events != [] {
      NothingExpired(events[..|events| - 1], o, now);
    }
  }

  /** A dedup key goes on naming the event it first wrote, unless a hard expiry forgets the key. */
  lemma StepHolds(st: Stream, dedupKey: string, e: Event, op: Op, now: int)
    requires Held(st, dedupKey, e) && (op.OpAppend? ==> op.id != e.id)
    ensures var st' := PlainStep(st, op, now).0;
              Held(st', dedupKey, e) || (dedupKey !in st'.dedupToId && op.OpExpire? && op.expire.hard)
  {
    match op
    case OpAppend(opts, id) => AppendKeeps(st, dedupKey, e, opts, id, now);
    case OpExpire(o) =>
      ExpiryKeeps(st.events, e, o, now);
      if ExpireEvents(st.events, o, now).1 == 0 {
        NothingExpired(st.events, o, now);
      }
      if !o.hard {
        IdsStay(st.events, o, now);
        Found(ExpireEvents(st.events, o, now).0, IndexById(st.events, e.id).value, e.id);
      }
    case _ =>
  }

  /** Every dedup key names a stored event, so a replay always finds what it replays. */
  ghost predicate Indexed(st: Stream)
  {
    forall k :: k in st.dedupToId ==> IndexById(st.events, st.dedupToId[k]).Some?
  }

  lemma DedupKeysStayIndexed(st: Stream, op: Op, now: int)
    requires Indexed(st)
    ensures Indexed(PlainStep(st, op, now).0)
  {
    var st' := PlainStep(st, op, now).0;
    forall k | k in st'.dedupToId ensures IndexById(st'.events, st'.dedupToId[k]).Some? {
      match op
      case OpAppend(opts, id) =>
        if Replayed(st, opts.dedupKey).None? {
          var events := st.events + [NewEvent(st, opts, id, now)];
          TombstonesKeep(events, opts.supersedes, id, now);
          var i := if st'.dedupToId[k] == id then |st.events| else IndexById(st.events, st.dedupToId[k]).value;
          Found(st'.events, i, st'.dedupToId[k]);
        }
      case OpExpire(o) =>
        if !o.hard {
          IdsStay(st.events, o, now);
          Found(st'.events, IndexById(st.events, st.dedupToId[k]).value, st.dedupToId[k]);
        } else if ExpireEvents(st.events, o, now).1 == 0 {
          NothingExpired(st.events, o, now);
        }
      case _ =>
    }
  }

  /** Along the run the key is never forgotten, and the id is not handed out again. */
  ghost predicate KeyLasts(pt: Plain, moves: seq<Move>, dedupKey: string, id: string)
  {
    dedupKey in PlainRun(pt, moves).stream.dedupToId &&
    (moves != [] ==>
      && KeyLasts(pt, moves[..|moves| - 1], dedupKey, id)
      && var m := moves[|moves| - 1]; m.Call? && m.op.OpAppend? ==> m.op.id != id)
  }

  lemma {:induction false} RunHolds(pt: Plain, moves: seq<Move>, dedupKey: string, e: Event)
    requires Held(pt.stream, dedupKey, e) && KeyLasts(pt, moves, dedupKey, e.id)
    ensures Held(PlainRun(pt, moves).stream, dedupKey, e)
  {
    if moves != [] {
      var before, m := moves[..|moves| - 1], moves[|moves| - 1];
      RunHolds(pt, before, dedupKey, e);
      if m.Call? {
        StepHolds(PlainRun(pt, before).stream, dedupKey, e, m.op, m.now);
      }
    }
  }

  lemma FirstAppendHolds(st: Stream, opts: AppendOptions, id: string, now: int)
    requires opts.dedupKey != "" && Replayed(st, opts.dedupKey).None? && IndexById(st.events, id).None?
    ensures Held(Append(st, opts, id, now).0, opts.dedupKey, Append(st, opts, id, now).1)
  {
    var events := st.events + [NewEvent(st, opts, id, now)];
    TombstonesKeep(events, opts.supersedes, id, now);
    Found(TombstoneAll(events, opts.supersedes, id, now), |st.events|, id);
  }

  /**
   A retried append changes nothing and returns the event its dedup key first wrote, with the payload of the
   first append, whatever the retry carried and however the keyring was rotated in between.
   */
  lemma RetryReturnsTheFirst(c: Crypto, ns: string, st: Sealed, pt: Plain, opts: AppendOptions, id: string, now: int,
                             nonce: Bytes, moves: seq<Move>, retry: AppendOptions, id': string, now': int,
                             nonce': Bytes)
    requires Lawful(c) && Corresponds(c, ns, st, pt) && |nonce| == |nonce'| == NONCE_LEN
    requires opts.dedupKey != "" && Replayed(pt.stream, opts.dedupKey).None? && IndexById(pt.stream.events, id).None?
    requires retry.dedupKey == opts.dedupKey
    requires var first := Call(OpAppend(opts, id), now, nonce);
      RunOk(c, ns, SealedNext(c, ns, st, first), moves) && KeyLasts(PlainNext(pt, first), moves, opts.dedupKey, id)
    ensures var end := SealedRun(c, ns, SealedNext(c, ns, st, Call(OpAppend(opts, id), now, nonce)), moves);
      var (stream, r) := SealedStep(c, end.w, ns, end.stream, OpAppend(retry, id'), now', nonce');
      && stream == end.stream
      && r.Appended? && r.event.Ok? && r.event.value.id == id && r.event.value.cursor == pt.stream.lastCursor + 1
      && Same(r.event.value.payload, opts.payload)
  {
    var first := Call(OpAppend(opts, id), now, nonce);
    var st1, pt1 := SealedNext(c, ns, st, first), PlainNext(pt, first);
    MoveCorresponds(c, ns, st, pt, first);
    FirstAppendHolds(pt.stream, opts, id, now);
    RunHolds(pt1, moves, opts.dedupKey, Append(pt.stream, opts, id, now).1);
    EncryptionIsInvisible(c, ns, st1, pt1, moves);
    var end, plain := SealedRun(c, ns, st1, moves), PlainRun(pt1, moves);
    StepStands(c, end.w, ns, end.stream, plain.stream, OpAppend(retry, id'), now', nonce');
    SameIndex(c, end.w, ns, end.stream.events, plain.stream.events, id);
  }
}
