/**
 The in-memory episodic log of one namespace: appends with idempotent replay and
 supersession, ranges and retention. The driver picks ids and times.
 */
module EpisodicLog {
  import opened Wrappers
  import opened Keyring

  datatype Event = Event(id: string, cursor: nat, timestamp: int, kind: string, payload: Blob,
                         metadata: map<string, string>, role: string, sessionId: string, supersedes: seq<string>,
                         source: string, deletedAt: Option<int>)

  datatype AppendOptions = AppendOptions(kind: string, payload: Blob, metadata: map<string, string>, role: string,
                                         sessionId: string, dedupKey: string, supersedes: seq<string>, source: string)

  datatype RangeOptions = RangeOptions(afterCursor: nat, beforeCursor: nat, limit: nat, reverse: bool,
                                       afterTime: Option<int>, beforeTime: Option<int>, includeDeleted: bool,
                                       sessionId: string, role: string, kind: string)

  datatype ExpireOptions = ExpireOptions(beforeCursor: nat, beforeTime: Option<int>, hard: bool, maxRows: nat)

  datatype Stream = Stream(events: seq<Event>, lastCursor: nat, dedupToId: map<string, string>)

  const NEW_STREAM: Stream := Stream([], 0, map[])

  function EraseEvent(e: Event): Event
  {
    e.(payload := Nil)
  }

  /** The index byID holds for an id: the last event that carries it. */
  function IndexById(events: seq<Event>, id: string): (i: Option<nat>)
    ensures i.Some? ==> i.value < |events| && events[i.value].id == id
    ensures i.None? ==> forall j :: 0 <= j < |events| ==> events[j].id != id
  {
    if events == [] then None
    else if events[|events| - 1].id == id then Some(|events| - 1)
    else
      var i := IndexById(events[..|events| - 1], id);
      assert events == events[..|events| - 1] + [events[|events| - 1]];
      i
  }

  /** The event that an append with this dedup key replays, if one was stored under it. */
  function Replayed(st: Stream, dedupKey: string): Option<nat>
  {
    if dedupKey != "" && dedupKey in st.dedupToId then IndexById(st.events, st.dedupToId[dedupKey]) else None
  }

  function Tombstone(events: seq<Event>, id: string, now: int): (r: seq<Event>)
    ensures |r| == |events|
  {
    match IndexById(events, id)
    case Some(i) => if events[i].deletedAt.None? then events[i := events[i].(deletedAt := Some(now))] else events
    case None => events
  }

  /** Tombstone every live event among `ids`, but not the one just written. */
  function TombstoneAll(events: seq<Event>, ids: seq<string>, self: string, now: int): (r: seq<Event>)
    ensures |r| == |events|
  {
    if ids == [] then events
    else
      var before := TombstoneAll(events, ids[..|ids| - 1], self, now);
      if ids[|ids| - 1] == self then before else Tombstone(before, ids[|ids| - 1], now)
  }

  function NewEvent(st: Stream, opts: AppendOptions, id: string, now: int): Event
  {
    Event(id, st.lastCursor + 1, now, opts.kind, opts.payload, opts.metadata, opts.role, opts.sessionId,
          opts.supersedes, opts.source, None)
  }

  /** Append with the id and time the driver picks. */
  function Append(st: Stream, opts: AppendOptions, id: string, now: int): (Stream, Event)
  {
    var replay := Replayed(st, opts.dedupKey);
    if replay.Some? then (st, st.events[replay.value])
    else
      var e := NewEvent(st, opts, id, now);
      var dedup := if opts.dedupKey != "" then st.dedupToId[opts.dedupKey := id] else st.dedupToId;
      (Stream(TombstoneAll(st.events + [e], opts.supersedes, id, now), st.lastCursor + 1, dedup), e)
  }

  predicate InRange(o: RangeOptions, e: Event)
  {
    && (o.includeDeleted || e.deletedAt.None?)
    && (o.sessionId == "" || e.sessionId == o.sessionId)
    && (o.role == "" || e.role == o.role)
    && (o.kind == "" || e.kind == o.kind)
    && (o.afterCursor == 0 || e.cursor > o.afterCursor)
    && (o.beforeCursor == 0 || e.cursor < o.beforeCursor)
    && (o.afterTime.None? || e.timestamp > o.afterTime.value)
    && (o.beforeTime.None? || e.timestamp < o.beforeTime.value)
  }

  function Filter(events: seq<Event>, o: RangeOptions): seq<Event>
  {
    if events == [] then []
    else
      var before, e := Filter(events[..|events| - 1], o), events[|events| - 1];
      if InRange(o, e) then before + [e] else before
  }

  function Reverse(events: seq<Event>): (r: seq<Event>)
    ensures |r| == |events|
  {
    seq(|events|, i requires 0 <= i < |events| => events[|events| - 1 - i])
  }

  /** The snapshot a Range yields from. */
  function Range(st: Stream, o: RangeOptions): seq<Event>
  {
    var out := Filter(st.events, o);
    var ordered := if o.reverse then Reverse(out) else out;
    if o.limit > 0 && |ordered| % TWO_32 > o.limit then ordered[..o.limit] else ordered
  }

  predicate InWindow(o: ExpireOptions, e: Event)
  {
    && (o.beforeCursor == 0 || e.cursor < o.beforeCursor)
    && (o.beforeTime.None? || e.timestamp < o.beforeTime.value)
  }

  /** Oldest first, tombstone or drop the matching events until `maxRows` are affected. */
  function ExpireEvents(events: seq<Event>, o: ExpireOptions, now: int): (r: (seq<Event>, nat))
    ensures r.1 <= o.maxRows
  {
    if events == [] then ([], 0)
    else
      var (before, n) := ExpireEvents(events[..|events| - 1], o, now);
      var e := events[|events| - 1];
      if n >= o.maxRows || !InWindow(o, e) then (before + [e], n)
      else if o.hard then (before, n + 1)
      else if e.deletedAt.None? then (before + [e.(deletedAt := Some(now))], n + 1)
      else (before + [e], n)
  }

  function Expire(st: Stream, o: ExpireOptions, now: int): (Stream, Option<nat>)
  {
    if o.beforeCursor == 0 && o.beforeTime.None? then (st, None)   // an unbounded window is refused
    else
      var (events, n) := ExpireEvents(st.events, o, now);
      var dedup := if o.hard && n > 0
                   then st.dedupToId - set k | k in st.dedupToId && IndexById(events, st.dedupToId[k]).None?
                   else st.dedupToId;
      (Stream(events, st.lastCursor, dedup), Some(n))
  }

  /** What a Tail replays before it goes live. */
  function History(events: seq<Event>, afterCursor: nat): seq<Event>
  {
    if events == [] then []
    else
      var before, e := History(events[..|events| - 1], afterCursor), events[|events| - 1];
      if e.cursor > afterCursor then before + [e] else before
  }
}

/**
 The encrypting episodic driver: payloads sealed on the way in, opened on the
 way out, everything else left as it is.
 */
module EpisodicEncrypted {
  import opened Wrappers
  import opened Aad
  import opened Keyring
  import opened EpisodicLog

  datatype EpisodicError = CannotOpen(cause: DecryptError) | CallerStopped

  function OpenEvent(c: Crypto, w: Wrapper, ns: string, e: Event): Result<Event, EpisodicError>
  {
    match OpenStored(c, w, PayloadAad(ns), e.payload)
    case Ok(plain) => Ok(e.(payload := plain))
    case Err(cause) => Err(CannotOpen(cause))
  }

  function SealOptions(c: Crypto, w: Wrapper, ns: string, opts: AppendOptions, nonce: Bytes): AppendOptions
  {
    opts.(payload := Encrypt(c, w.kr, nonce, opts.payload, PayloadAad(ns)))
  }

  datatype Yields = Yields(events: seq<Event>, stopped: Option<EpisodicError>)

  function YieldAll(snapshot: seq<Event>, patience: nat): Yields
  {
    if |snapshot| <= patience then Yields(snapshot, None) else Yields(snapshot[..patience + 1], Some(CallerStopped))
  }

  function YieldOpened(c: Crypto, w: Wrapper, ns: string, snapshot: seq<Event>, patience: nat): Yields
  {
    if snapshot == [] then Yields([], None)
    else
      var before := YieldOpened(c, w, ns, snapshot[..|snapshot| - 1], patience);
      if before.stopped.Some? then before
      else
        match OpenEvent(c, w, ns, snapshot[|snapshot| - 1])
        case Err(e) => Yields(before.events, Some(e))
        case Ok(e) => Yields(before.events + [e], if |before.events| == patience then Some(CallerStopped) else None)
  }

  class MemoryLog {
    var stream: Stream

    constructor ()
      ensures stream == NEW_STREAM
    {
      stream := NEW_STREAM;
    }

    method Append(opts: AppendOptions, id: string, now: int) returns (e: Event)
      modifies this
      ensures (stream, e) == EpisodicLog.Append(old(stream), opts, id, now)
    {
      var after := EpisodicLog.Append(stream, opts, id, now);
      stream, e := after.0, after.1;
    }
  }

  class EncryptedLog {
    const c: Crypto
    const w: Wrapper
    const ns: string
    const inner: MemoryLog

    constructor (c: Crypto, w: Wrapper, ns: string, inner: MemoryLog)
      ensures this.c == c && this.w == w && this.ns == ns && this.inner == inner
    {
      this.c, this.w, this.ns, this.inner := c, w, ns, inner;
    }

    method Append(opts: AppendOptions, id: string, now: int, nonce: Bytes) returns (r: Result<Event, EpisodicError>)
      modifies inner
      ensures var (stream, e) := EpisodicLog.Append(old(inner.stream), SealOptions(c, w, ns, opts, nonce), id, now);
              inner.stream == stream && r == OpenEvent(c, w, ns, e)
    {
      var e := inner.Append(SealOptions(c, w, ns, opts, nonce), id, now);
      r := OpenEvent(c, w, ns, e);
    }

    /** Range's and Tail's yield wrapper over the events the driver yields. */
    method YieldThrough(snapshot: seq<Event>, patience: nat) returns (r: Yields)
      ensures r == YieldOpened(c, w, ns, snapshot, patience)
    {
      r := Yields([], None);
      for i := 0 to |snapshot|
        invariant r.stopped.None? && r == YieldOpened(c, w, ns, snapshot[..i], patience)
      {
        assert snapshot[..i + 1][..i] == snapshot[..i];
        var e := OpenEvent(c, w, ns, snapshot[i]);
        if e.Err? || |r.events| == patience {
          r := if e.Err? then r.(stopped := Some(e.error)) else Yields(r.events + [e.value], Some(CallerStopped));
          StopStands(c, w, ns, snapshot, i + 1, patience);
          return;
        }
        r := r.(events := r.events + [e.value]);
      }
      assert snapshot[..|snapshot|] == snapshot;
    }
  }

  lemma {:induction false} StopStands(c: Crypto, w: Wrapper, ns: string, snapshot: seq<Event>, i: nat, patience: nat)
    requires i <= |snapshot| && YieldOpened(c, w, ns, snapshot[..i], patience).stopped.Some?
    ensures YieldOpened(c, w, ns, snapshot, patience) == YieldOpened(c, w, ns, snapshot[..i], patience)
    decreases |snapshot|
  {
    if i == |snapshot| {
      assert snapshot[..i] == snapshot;
    } else {
      assert snapshot[..|snapshot| - 1][..i] == snapshot[..i];
      StopStands(c, w, ns, snapshot[..|snapshot| - 1], i, patience);
    }
  }
}

/** What the episodic log keeps over every run, and what its queries and retention mean. */
module EpisodicLaws {
  import opened Wrappers
  import opened EpisodicLog

  /** Cursors ascend strictly in storage order and never pass the last one handed out. */
  ghost predicate InOrder(st: Stream)
  {
    Ascend(st.events) && forall i :: 0 <= i < |st.events| ==> st.events[i].cursor <= st.lastCursor
  }

  ghost predicate Ascend(events: seq<Event>)
  {
    forall i, j :: 0 <= i < j < |events| ==> events[i].cursor < events[j].cursor
  }

  /** `part` is `whole` with some events left out, tombstones aside. */
  ghost predicate Within(part: seq<Event>, whole: seq<Event>)
  {
    forall i :: 0 <= i < |part| ==> exists j :: 0 <= j < |whole| && part[i].cursor == whole[j].cursor
  }

  lemma {:induction false} TombstonesKeepCursors(events: seq<Event>, ids: seq<string>, self: string, now: int)
    ensures forall i :: 0 <= i < |events| ==> TombstoneAll(events, ids, self, now)[i].cursor == events[i].cursor
  {
    if ids != [] {
      TombstonesKeepCursors(events, ids[..|ids| - 1], self, now);
    }
  }

  /** A new event gets the next cursor; a replay changes nothing. */
  lemma AppendKeepsOrder(st: Stream, opts: AppendOptions, id: string, now: int)
    requires InOrder(st)
    ensures var (st', e) := Append(st, opts, id, now);
      && InOrder(st')
      && (if Replayed(st, opts.dedupKey).Some? then st' == st && e in st.events
          else e.cursor == st'.lastCursor == st.lastCursor + 1 && |st'.events| == |st.events| + 1)
  {
    if Replayed(st, opts.dedupKey).None? {
      TombstonesKeepCursors(st.events + [NewEvent(st, opts, id, now)], opts.supersedes, id, now);
    }
  }

  lemma {:induction false} ExpiryKeepsOrder(events: seq<Event>, o: ExpireOptions, now: int)
    requires Ascend(events)
    ensures Ascend(ExpireEvents(events, o, now).0) && Within(ExpireEvents(events, o, now).0, events)
  {
    if events != [] {
      var before, last := events[..|events| - 1], events[|events| - 1];
      ExpiryKeepsOrder(before, o, now);
      var kept := ExpireEvents(before, o, now).0;
      forall i | 0 <= i < |kept|
        ensures exists j :: 0 <= j < |before| && kept[i].cursor == before[j].cursor == events[j].cursor
      {
        var j :| 0 <= j < |before| && kept[i].cursor == before[j].cursor;
        assert before[j] == events[j];
      }
    }
  }

  /** Cursors never run backwards or come round again, hard deletion or not. */
  lemma ExpireKeepsOrder(st: Stream, o: ExpireOptions, now: int)
    requires InOrder(st)
    ensures InOrder(Expire(st, o, now).0) && Expire(st, o, now).0.lastCursor == st.lastCursor
  {
    ExpiryKeepsOrder(st.events, o, now);
    var kept := ExpireEvents(st.events, o, now).0;
    forall i | 0 <= i < |kept| ensures kept[i].cursor <= st.lastCursor {
      var j :| 0 <= j < |st.events| && kept[i].cursor == st.events[j].cursor;
    }
  }

  /** Supersession: with ids used once, an append tombstones exactly the live events it names. */
  lemma {:induction false} SupersededExactly(events: seq<Event>, ids: seq<string>, self: string, now: int, i: nat)
    requires i < |events| && events[i].deletedAt.None? && events[i].id != self
    requires forall j :: 0 <= j < |events| && events[j].id == events[i].id ==> j == i
    ensures TombstoneAll(events, ids, self, now)[i] ==
            if events[i].id in ids then events[i].(deletedAt := Some(now)) else events[i]
  {
    if ids != [] {
      var before := ids[..|ids| - 1];
      SupersededExactly(events, before, self, now, i);
      assert ids == before + [ids[|ids| - 1]];
      SameIds(events, before, self, now);
      var done := TombstoneAll(events, before, self, now);
      var k := IndexById(done, ids[|ids| - 1]);
      assert k.Some? && ids[|ids| - 1] == events[i].id ==> k.value == i;
      assert k.None? ==> done[i].id != ids[|ids| - 1];
    }
  }

  lemma {:induction false} SameIds(events: seq<Event>, ids: seq<string>, self: string, now: int)
    ensures forall i :: 0 <= i < |events| ==> TombstoneAll(events, ids, self, now)[i].id == events[i].id
  {
    if ids != [] {
      SameIds(events, ids[..|ids| - 1], self, now);
    }
  }

  /** A range is exactly the events that match, in cursor order, or in reverse. */
  lemma {:induction false} FilterExactly(events: seq<Event>, o: RangeOptions)
    ensures forall e :: e in Filter(events, o) <==> e in events && InRange(o, e)
    ensures Ascend(events) ==> Ascend(Filter(events, o))
  {
    if events != [] {
      var before, last := events[..|events| - 1], events[|events| - 1];
      assert events == before + [last];
      FilterExactly(before, o);
      forall i | 0 <= i < |Filter(before, o)| && Ascend(events) ensures Filter(before, o)[i].cursor < last.cursor {
        assert Filter(before, o)[i] in Filter(before, o);
        var j :| 0 <= j < |before| && before[j] == Filter(before, o)[i];
        assert before[j] == events[j];
      }
    }
  }
}
