/**
 Upsert on a semantic namespace: records without a vector are embedded in one
 batch, and each gets its own embedding back before the driver sees the batch.
 */
module SemanticUpsert {
  import opened Wrappers
  import opened Ordering
  import opened EmbedCache
  import opened CachingEmbedder

  const DEFAULT_EMBED_CACHE_SIZE: nat := 4096

  /** What a namespace embeds with: the provider itself, or the cache in front of it. */
  datatype Embedder = Direct(provider: Provider) | Cached(front: CachingEmbedder)

  /** A negative capacity leaves the provider unwrapped; zero means the default size. */
  method NewCachingEmbedder(hash: string -> Digest, inner: Provider, capacity: int) returns (e: Embedder)
    requires inner.Valid()
    ensures Usable(e) && ProviderOf(e) == inner
    ensures e.Direct? <==> capacity < 0
    ensures e.Cached? ==> fresh(e.front) && fresh(e.front.cache) && e.front.hash == hash && e.front.cache.model == []
    ensures e.Cached? ==> e.front.cache.cap == if capacity == 0 then DEFAULT_EMBED_CACHE_SIZE else capacity
  {
    if capacity < 0 {
      return Direct(inner);
    }
    var front := new CachingEmbedder(hash, inner, if capacity == 0 then DEFAULT_EMBED_CACHE_SIZE else capacity);
    return Cached(front);
  }

  function ProviderOf(e: Embedder): Provider
  {
    match e
    case Direct(provider) => provider
    case Cached(front) => front.inner
  }

  ghost function Footprint(e: Embedder): set<object>
    reads if e.Cached? then {e.front.cache} else {}
  {
    match e
    case Direct(provider) => {provider}
    case Cached(front) => {front.cache, front.inner} + front.cache.entries
  }

  ghost predicate Usable(e: Embedder)
    reads Footprint(e), if e.Cached? then {e.front, e.front.cache} + e.front.cache.arrays else {}
  {
    match e
    case Direct(provider) => provider.Valid()
    case Cached(front) => front.Valid()
  }

  /** The cache, if any, holds only vectors of texts in `seen`, and no collision among those texts can be noticed. */
  ghost predicate Trustworthy(e: Embedder, seen: set<string>)
    reads if e.Cached? then {e.front.cache} else {}
  {
    e.Cached? ==>
      && Sound(e.front.hash, e.front.inner.vector, e.front.cache.model, seen)
      && CollisionsHarmless(e.front.hash, e.front.inner.vector, seen)
  }

  /** The provider was asked once more, and failed or returned a wrong number of vectors. */
  predicate AskedInVain(o: Outcome, before: seq<seq<string>>, after: seq<seq<string>>)
  {
    |after| == |before| + 1 && !Delivers(o, |after[|before|]|)
  }

  /** With texts it can be trusted on, the cached path returns the provider's vectors and stays trustworthy. */
  method EmbedCached(front: CachingEmbedder, texts: seq<string>, ghost seen: set<string>)
    returns (r: Result<seq<array?<real>>, EmbedError>)
    requires front.Valid()
    modifies front.cache, front.cache.entries, front.inner
    ensures front.Valid() && fresh(front.cache.entries - old(front.cache.entries))
    ensures |front.inner.requests| <= |old(front.inner.requests)| + 1
    ensures r.Err? ==> AskedInVain(front.inner.outcome(old(front.inner.calls)), old(front.inner.requests),
                                   front.inner.requests)
    ensures r.Ok? ==> |r.value| == |texts|
    ensures old(Trustworthy(Cached(front), seen)) && Elems(texts) <= seen ==>
              && Trustworthy(Cached(front), seen)
              && (r.Ok? ==> forall i :: 0 <= i < |texts| ==> Contents(r.value[i]) == front.inner.vector(texts[i]))
  {
    ghost var lru := front.cache.model;
    var out := front.Embed(texts);
    if Sound(front.hash, front.inner.vector, lru, seen) && CollisionsHarmless(front.hash, front.inner.vector, seen) &&
        Elems(texts) <= seen {
      assert seen + Elems(texts) == seen;
      BatchKeepsSound(front.hash, front.inner.vector, lru, seen, front.cache.cap, texts);
      forall i | 0 <= i < |texts|
        ensures Answer(front.hash, front.inner.vector, lru, texts, front.hash(texts[i])) == front.inner.vector(texts[i])
      {
        AgreesWithProvider(front.hash, front.inner.vector, lru, seen, texts, i);
      }
    }
    r := if out.Err? then Err(out.error) else Ok(out.value[..]);
  }

  /** Embed through either kind of embedder. */
  method Embed(e: Embedder, texts: seq<string>, ghost seen: set<string>)
    returns (r: Result<seq<array?<real>>, EmbedError>)
    requires Usable(e)
    modifies Footprint(e)
    ensures Usable(e) && fresh(Footprint(e) - old(Footprint(e)))
    ensures |ProviderOf(e).requests| <= |old(ProviderOf(e).requests)| + 1
    ensures r.Err? || |r.value| != |texts| ==>
              AskedInVain(ProviderOf(e).outcome(old(ProviderOf(e).calls)), old(ProviderOf(e).requests),
                          ProviderOf(e).requests)
    ensures old(Trustworthy(e, seen)) && Elems(texts) <= seen ==>
              && Trustworthy(e, seen)
              && (r.Ok? && |r.value| == |texts| ==>
                    forall i :: 0 <= i < |texts| ==> Contents(r.value[i]) == ProviderOf(e).vector(texts[i]))
  {
    match e
    case Direct(provider) =>
      r := provider.Embed(texts);
    case Cached(front) =>
      r := EmbedCached(front, texts, seen);
  }

  datatype Input = Input(id: string, content: string, payload: Bytes, vector: array?<real>,
                         metadata: map<string, string>, supersedes: seq<string>, source: string, ifVersion: Option<nat>)

  datatype Record = Record(tenant: string, id: string, content: string, payload: Bytes, vector: array?<real>,
                           metadata: map<string, string>, supersedes: seq<string>, source: string,
                           ifVersion: Option<nat>)

  datatype UpsertResult =
    | Empty
    | BadDim(i: nat)             // a given vector of the wrong dimension
    | NothingToEmbed(i: nat)     // neither content nor vector
    | EmbedFailed
    | EmbedWrongDim(j: nat)
    | ToDriver(recs: seq<Record>)

  predicate HasVector(r: Input)
  {
    r.vector != null && r.vector.Length > 0
  }

  predicate Acceptable(dim: nat, r: Input)
  {
    if HasVector(r) then r.vector.Length == dim else r.content != ""
  }

  function LengthOf(v: array?<real>): nat
  {
    if v == null then 0 else v.Length
  }

  function SizeOf(v: Vec): nat
  {
    match v
    case Nil => 0
    case Floats(elems) => |elems|
  }

  function RecordOf(tenant: string, r: Input): Record
  {
    Record(tenant, r.id, r.content, r.payload, r.vector, r.metadata, r.supersedes, r.source, r.ifVersion)
  }

  /** `idx` lists, in order, the records among the first `n` that carry no vector. */
  ghost predicate Lacking(pb: seq<Input>, n: nat, idx: seq<int>)
    requires n <= |pb|
  {
    var lacking :=
      && (forall j :: 0 <= j < |idx| ==> 0 <= idx[j] < n && !HasVector(pb[idx[j]]))
      && (forall i, j :: 0 <= i < j < |idx| ==> idx[i] < idx[j])
      && (forall i :: 0 <= i < n && !HasVector(pb[i]) ==> i in idx);
    lacking
  }

  lemma LackingGrows(pb: seq<Input>, n: nat, idx: seq<int>)
    requires n < |pb| && Lacking(pb, n, idx)
    ensures if HasVector(pb[n]) then Lacking(pb, n + 1, idx) else Lacking(pb, n + 1, idx + [n])
  {
    assert forall i :: i in idx + [n] <==> i in idx || i == n;
  }

  ghost predicate TextsOf(pb: seq<Input>, idx: seq<int>, texts: seq<string>)
  {
    var matching := |texts| == |idx| && forall j :: 0 <= j < |idx| ==>
        0 <= idx[j] < |pb| && texts[j] == pb[idx[j]].content;
    matching
  }

  lemma TextsGrow(pb: seq<Input>, idx: seq<int>, texts: seq<string>, n: nat)
    requires n < |pb| && TextsOf(pb, idx, texts)
    ensures TextsOf(pb, idx + [n], texts + [pb[n].content])
  {
  }

  /** First loop of Upsert: the records to embed, or the first record that cannot be accepted. */
  method Classify(dim: nat, pb: seq<Input>) returns (bad: Option<nat>, idx: seq<int>, texts: seq<string>)
    ensures bad.Some? ==> bad.value < |pb| && !Acceptable(dim, pb[bad.value]) && forall i :: 0 <= i < bad.value ==>
              Acceptable(dim, pb[i])
    ensures bad.None? ==> forall i :: 0 <= i < |pb| ==> Acceptable(dim, pb[i])
    ensures bad.None? ==> Lacking(pb, |pb|, idx)
    ensures TextsOf(pb, idx, texts)
  {
    idx, texts := [], [];
    for i := 0 to |pb|
      invariant forall p :: 0 <= p < i ==> Acceptable(dim, pb[p])
      invariant Lacking(pb, i, idx)
      invariant TextsOf(pb, idx, texts)
    {
      LackingGrows(pb, i, idx);
      if HasVector(pb[i]) {
        if pb[i].vector.Length != dim {
          return Some(i), idx, texts;
        }
        continue;
      }
      if pb[i].content == "" {
        return Some(i), idx, texts;
      }
      TextsGrow(pb, idx, texts, i);
      idx, texts := idx + [i], texts + [pb[i].content];
    }
    return None, idx, texts;
  }

  /** Last loops of Upsert: copy every record, then overwrite the vectors of those that were embedded. */
  method Assemble(tenant: string, pb: seq<Input>, idx: seq<int>, embedded: seq<array?<real>>)
    returns (recs: array<Record>)
    requires Lacking(pb, |pb|, idx) && |embedded| == |idx|
    ensures fresh(recs) && recs.Length == |pb|
    ensures forall i :: 0 <= i < |pb| && HasVector(pb[i]) ==> recs[i] == RecordOf(tenant, pb[i])
    ensures forall j :: 0 <= j < |idx| ==> recs[idx[j]] == RecordOf(tenant, pb[idx[j]]).(vector := embedded[j])
  {
    recs := new Record[|pb|](i requires 0 <= i < |pb| => RecordOf(tenant, pb[i]));
    for j := 0 to |idx|
      invariant forall i :: 0 <= i < |pb| && HasVector(pb[i]) ==> recs[i] == RecordOf(tenant, pb[i])
      invariant forall k :: 0 <= k < j ==> recs[idx[k]] == RecordOf(tenant, pb[idx[k]]).(vector := embedded[k])
      invariant forall k :: j <= k < |idx| ==> recs[idx[k]] == RecordOf(tenant, pb[idx[k]])
    {
      recs[idx[j]] := recs[idx[j]].(vector := embedded[j]);
    }
  }

  /**
   What reaches the driver: every record in its place with all its fields, its own vector when one was
   given and otherwise a vector for its own content, and every vector of the namespace dimension.
   */
  ghost predicate Faithful(tenant: string, pb: seq<Input>, recs: seq<Record>, dim: nat)
  {
    && |recs| == |pb|
    && (forall i :: 0 <= i < |pb| ==> recs[i] == RecordOf(tenant, pb[i]).(vector := recs[i].vector))
    && (forall i :: 0 <= i < |pb| && HasVector(pb[i]) ==> recs[i].vector == pb[i].vector)
    && (forall i :: 0 <= i < |pb| ==> LengthOf(recs[i].vector) == dim)
  }

  /** The embedding in the middle of Upsert: one vector of the namespace dimension per text, or why not. */
  method EmbedAll(e: Embedder, texts: seq<string>, ghost seen: set<string>)
    returns (failed: Option<UpsertResult>, embedded: seq<array?<real>>)
    requires Usable(e)
    modifies Footprint(e)
    ensures Usable(e) && fresh(Footprint(e) - old(Footprint(e)))
    ensures old(Trustworthy(e, seen)) && Elems(texts) <= seen ==> Trustworthy(e, seen)
    ensures failed.Some? ==> failed.value.EmbedFailed? || (failed.value.EmbedWrongDim? && failed.value.j < |texts|)
    ensures failed == Some(EmbedFailed) ==>
              AskedInVain(ProviderOf(e).outcome(old(ProviderOf(e).calls)), old(ProviderOf(e).requests),
                          ProviderOf(e).requests)
    ensures failed.Some? && failed.value.EmbedWrongDim? && old(Trustworthy(e, seen)) && Elems(texts) <= seen ==>
              SizeOf(ProviderOf(e).vector(texts[failed.value.j])) != ProviderOf(e).dim
    ensures failed.None? ==> |embedded| == |texts| && forall j :: 0 <= j < |embedded| ==>
              LengthOf(embedded[j]) == ProviderOf(e).dim
    ensures failed.None? && old(Trustworthy(e, seen)) && Elems(texts) <= seen ==>
              forall j :: 0 <= j < |texts| ==> Contents(embedded[j]) == ProviderOf(e).vector(texts[j])
  {
    failed, embedded := None, [];
    if |texts| > 0 {
      var answer := Embed(e, texts, seen);
      if answer.Err? || |answer.value| != |texts| {
        return Some(EmbedFailed), [];
      }
      embedded := answer.value;
      for j := 0 to |embedded|
        invariant forall k :: 0 <= k < j ==> LengthOf(embedded[k]) == ProviderOf(e).dim
      {
        if LengthOf(embedded[j]) != ProviderOf(e).dim {
          return Some(EmbedWrongDim(j)), embedded;
        }
      }
    }
  }

  ghost function ContentsOf(pb: seq<Input>): set<string>
  {
    set r | r in pb :: r.content
  }

  lemma TextsAreContents(pb: seq<Input>, idx: seq<int>, texts: seq<string>)
    requires TextsOf(pb, idx, texts)
    ensures Elems(texts) <= ContentsOf(pb)
  {
    forall t | t in texts ensures t in ContentsOf(pb) {
      var j :| 0 <= j < |texts| && texts[j] == t;
      assert pb[idx[j]] in pb;
    }
  }

  lemma AssembledIsFaithful(tenant: string, pb: seq<Input>, idx: seq<int>, embedded: seq<array?<real>>,
                            recs: seq<Record>, dim: nat)
    requires |recs| == |pb| && |embedded| == |idx| && Lacking(pb, |pb|, idx)
    requires forall i :: 0 <= i < |pb| ==> Acceptable(dim, pb[i])
    requires forall j :: 0 <= j < |embedded| ==> LengthOf(embedded[j]) == dim
    requires forall i :: 0 <= i < |pb| && HasVector(pb[i]) ==> recs[i] == RecordOf(tenant, pb[i])
    requires forall j :: 0 <= j < |idx| ==> recs[idx[j]] == RecordOf(tenant, pb[idx[j]]).(vector := embedded[j])
    ensures Faithful(tenant, pb, recs, dim)
    ensures forall i :: 0 <= i < |pb| && !HasVector(pb[i]) ==>
              exists j :: 0 <= j < |idx| && idx[j] == i && recs[i].vector == embedded[j]
  {
    forall i | 0 <= i < |pb| && !HasVector(pb[i])
      ensures exists j :: 0 <= j < |idx| && idx[j] == i && recs[i] == RecordOf(tenant, pb[i]).(vector := embedded[j])
    {
      assert i in idx;
    }
  }

  /** Every record that came without a vector has the provider's vector for its own content. */
  ghost predicate ContentsEmbedded(vector: string -> Vec, pb: seq<Input>, recs: seq<Record>)
    reads set r | r in recs && r.vector != null :: r.vector
  {
    var all := |recs| == |pb| && forall i :: 0 <= i < |pb| && !HasVector(pb[i]) ==>
                 Contents(recs[i].vector) == vector(pb[i].content);
    all
  }

  lemma AssembledIsEmbedded(pb: seq<Input>, idx: seq<int>, texts: seq<string>, embedded: seq<array?<real>>,
                            recs: seq<Record>, vector: string -> Vec)
    requires |recs| == |pb| && |embedded| == |idx| && TextsOf(pb, idx, texts)
    requires forall j :: 0 <= j < |texts| ==> Contents(embedded[j]) == vector(texts[j])
    requires forall i :: 0 <= i < |pb| && !HasVector(pb[i]) ==>
              exists j :: 0 <= j < |idx| && idx[j] == i && recs[i].vector == embedded[j]
    ensures ContentsEmbedded(vector, pb, recs)
  {
  }

  /** Some record without a vector has content for which the provider's vector has a wrong dimension. */
  ghost predicate WrongDimGiven(vector: string -> Vec, pb: seq<Input>, dim: nat)
  {
    exists i :: 0 <= i < |pb| && !HasVector(pb[i]) && SizeOf(vector(pb[i].content)) != dim
  }

  lemma WrongDimIsOfARecord(pb: seq<Input>, idx: seq<int>, texts: seq<string>, vector: string -> Vec, dim: nat, j: nat)
    requires TextsOf(pb, idx, texts) && Lacking(pb, |pb|, idx) && j < |texts| && SizeOf(vector(texts[j])) != dim
    ensures WrongDimGiven(vector, pb, dim)
  {
    assert !HasVector(pb[idx[j]]);
  }

  /** Upsert past its first loop: embed what lacks a vector and put the records together. */
  method Complete(e: Embedder, tenant: string, pb: seq<Input>, idx: seq<int>, texts: seq<string>,
                  ghost seen: set<string>)
    returns (r: UpsertResult)
    requires Usable(e) && Lacking(pb, |pb|, idx) && TextsOf(pb, idx, texts)
    requires forall i :: 0 <= i < |pb| ==> Acceptable(ProviderOf(e).dim, pb[i])
    modifies Footprint(e)
    ensures Usable(e) && fresh(Footprint(e) - old(Footprint(e)))
    ensures old(Trustworthy(e, seen)) && ContentsOf(pb) <= seen ==> Trustworthy(e, seen)
    ensures r.EmbedFailed? || r.EmbedWrongDim? || r.ToDriver?
    ensures r.EmbedFailed? ==>
              AskedInVain(ProviderOf(e).outcome(old(ProviderOf(e).calls)), old(ProviderOf(e).requests),
                          ProviderOf(e).requests)
    ensures r.EmbedWrongDim? && old(Trustworthy(e, seen)) && ContentsOf(pb) <= seen ==>
              WrongDimGiven(ProviderOf(e).vector, pb, ProviderOf(e).dim)
    ensures r.ToDriver? ==> Faithful(tenant, pb, r.recs, ProviderOf(e).dim)
    ensures r.ToDriver? && old(Trustworthy(e, seen)) && ContentsOf(pb) <= seen ==>
              ContentsEmbedded(ProviderOf(e).vector, pb, r.recs)
  {
    ghost var trusted := Trustworthy(e, seen) && ContentsOf(pb) <= seen;
    TextsAreContents(pb, idx, texts);
    var failed, embedded := EmbedAll(e, texts, seen);
    if failed.Some? {
      if trusted && failed.value.EmbedWrongDim? {
        WrongDimIsOfARecord(pb, idx, texts, ProviderOf(e).vector, ProviderOf(e).dim, failed.value.j);
      }
      return failed.value;
    }
    var recs := Assemble(tenant, pb, idx, embedded);
    AssembledIsFaithful(tenant, pb, idx, embedded, recs[..], ProviderOf(e).dim);
    if trusted {
      AssembledIsEmbedded(pb, idx, texts, embedded, recs[..], ProviderOf(e).vector);
    }
    r := ToDriver(recs[..]);
  }

  method Upsert(e: Embedder, tenant: string, pb: seq<Input>, ghost seen: set<string>) returns (r: UpsertResult)
    requires Usable(e)
    modifies Footprint(e)
    ensures Usable(e) && fresh(Footprint(e) - old(Footprint(e)))
    // whatever becomes of the batch, the cache can be trusted with the next one
    ensures old(Trustworthy(e, seen)) && ContentsOf(pb) <= seen ==> Trustworthy(e, seen)
    ensures r.Empty? <==> pb == []
    // rejected exactly for its first unacceptable record, before anything is embedded
    ensures r.BadDim? || r.NothingToEmbed? <==> exists i :: 0 <= i < |pb| && !Acceptable(ProviderOf(e).dim, pb[i])
    ensures r.BadDim? || r.NothingToEmbed? ==>
              && r.i < |pb| && !Acceptable(ProviderOf(e).dim, pb[r.i]) && (r.BadDim? <==> HasVector(pb[r.i]))
              && (forall i :: 0 <= i < r.i ==> Acceptable(ProviderOf(e).dim, pb[i]))
              && ProviderOf(e).requests == old(ProviderOf(e).requests)
    // past that it stops short of the driver only when the provider does not deliver, or delivers a wrong dimension
    ensures r.EmbedFailed? ==>
              AskedInVain(ProviderOf(e).outcome(old(ProviderOf(e).calls)), old(ProviderOf(e).requests),
                          ProviderOf(e).requests)
    ensures r.EmbedWrongDim? && old(Trustworthy(e, seen)) && ContentsOf(pb) <= seen ==>
              WrongDimGiven(ProviderOf(e).vector, pb, ProviderOf(e).dim)
    ensures r.ToDriver? ==> Faithful(tenant, pb, r.recs, ProviderOf(e).dim)
    ensures r.ToDriver? && old(Trustworthy(e, seen)) && ContentsOf(pb) <= seen ==>
              ContentsEmbedded(ProviderOf(e).vector, pb, r.recs)
  {
    if |pb| == 0 {
      return Empty;
    }
    var dim := ProviderOf(e).dim;
    var bad, idx, texts := Classify(dim, pb);
    if bad.Some? {
      return if HasVector(pb[bad.value]) then BadDim(bad.value) else NothingToEmbed(bad.value);
    }
    r := Complete(e, tenant, pb, idx, texts, seen);
  }
}
