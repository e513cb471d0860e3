/**
 The caching embedder: Embed splits a batch into cached texts and distinct
 misses, asks the provider once for the misses, and scatters the vectors.
 */
module CachingEmbedder {
  import opened Wrappers
  import opened Ordering
  import opened Lru
  import opened EmbedCache

  method CloneVec(v: array?<real>) returns (out: array?<real>)
    ensures Contents(out) == Contents(v)
    ensures out != null ==> fresh(out)
  {
    if v == null {
      return null;
    }
    var copied := new real[v.Length];
    for i := 0 to v.Length
      invariant copied[..i] == v[..i]
    {
      copied[i] := v[i];
    }
    assert copied[..] == copied[..v.Length] && v[..] == v[..v.Length];
    return copied;
  }

  datatype EmbedError = ProviderFailed | WrongCount(got: nat, want: nat)

  /** What the provider does on one call: answer, fail, or return some other number of vectors. */
  datatype Outcome = Answers | Fails | Returns(n: nat)

  /** An embedding provider whose vectors are a function of the text. */
  class Provider {
    const dim: nat
    const vector: string -> Vec
    const outcome: nat -> Outcome
    var calls: nat
    ghost var requests: seq<seq<string>>

    ghost predicate Valid()
      reads this
    {
      |requests| == calls
    }

    constructor (dim: nat, vector: string -> Vec, outcome: nat -> Outcome)
      ensures Valid() && requests == []
      ensures this.dim == dim && this.vector == vector && this.outcome == outcome
    {
      this.dim, this.vector, this.outcome := dim, vector, outcome;
      calls, requests := 0, [];
    }

    method Embed(texts: seq<string>) returns (r: Result<seq<array?<real>>, EmbedError>)
      requires Valid()
      modifies this
      ensures Valid() && requests == old(requests) + [texts]
      ensures r.Err? <==> outcome(old(calls)).Fails?
      ensures r.Err? ==> r.error == ProviderFailed
      ensures r.Ok? && outcome(old(calls)).Answers? ==> |r.value| == |texts|
      ensures r.Ok? && outcome(old(calls)).Returns? ==> |r.value| == outcome(old(calls)).n
      ensures r.Ok? && |r.value| == |texts| ==> forall i :: 0 <= i < |texts| ==>
                Contents(r.value[i]) == vector(texts[i])
    {
      var o := outcome(calls);
      calls, requests := calls + 1, requests + [texts];
      if o.Fails? {
        return Err(ProviderFailed);
      }
      var n := if o.Returns? then o.n else |texts|;
      var vecs: seq<array?<real>> := [];
      for i := 0 to n
        invariant Valid() && requests == old(requests) + [texts] && |vecs| == i
        invariant n == |texts| ==> forall j :: 0 <= j < i ==> Contents(vecs[j]) == vector(texts[j])
      {
        var v := if i < |texts| then vector(texts[i]) else Nil;
        if v.Nil? {
          vecs := vecs + [null];
        } else {
          var a := new real[|v.elems|](k requires 0 <= k < |v.elems| => v.elems[k]);
          assert a[..] == v.elems;
          vecs := vecs + [a];
        }
      }
      return Ok(vecs);
    }
  }

  // ----- What a batch does to the list -----

  function Digests(hash: string -> Digest, texts: seq<string>): (ks: seq<Digest>)
    ensures |ks| == |texts| && forall i :: 0 <= i < |ks| ==> ks[i] == hash(texts[i])
  {
    seq(|texts|, i requires 0 <= i < |texts| => hash(texts[i]))
  }

  function GetAll(lru: seq<Slot<Digest, Vec>>, ks: seq<Digest>): seq<Slot<Digest, Vec>>
  {
    if ks == [] then lru else Get(GetAll(lru, ks[..|ks| - 1]), ks[|ks| - 1])
  }

  function PutAll(lru: seq<Slot<Digest, Vec>>, cap: nat, ks: seq<Digest>, vs: seq<Vec>): seq<Slot<Digest, Vec>>
    requires |ks| == |vs|
  {
    if ks == [] then lru
    else Put(PutAll(lru, cap, ks[..|ks| - 1], vs[..|ks| - 1]), cap, ks[|ks| - 1], vs[|ks| - 1])
  }

  function Vectors(vector: string -> Vec, texts: seq<string>): (vs: seq<Vec>)
    ensures |vs| == |texts| && forall i :: 0 <= i < |vs| ==> vs[i] == vector(texts[i])
  {
    seq(|texts|, i requires 0 <= i < |texts| => vector(texts[i]))
  }

  /** The first text of each digest the cache does not hold, in batch order: what the provider is asked for. */
  function Misses(hash: string -> Digest, known: set<Digest>, texts: seq<string>): seq<string>
  {
    if texts == [] then []
    else
      var before, t := Misses(hash, known, texts[..|texts| - 1]), texts[|texts| - 1];
      if hash(t) in known || hash(t) in Digests(hash, before) then before else before + [t]
  }

  /** The vector a batch gets for digest `k`: the cached one, else that of its first text with the digest. */
  function Answer(hash: string -> Digest, vector: string -> Vec, lru: seq<Slot<Digest, Vec>>, texts: seq<string>,
                  k: Digest): Vec
  {
    if k in Keys(lru) then Lookup(lru, k)
    else if k in Digests(hash, texts) then vector(texts[IndexOf(Digests(hash, texts), k)])
    else Nil
  }

  lemma GetKeepsSlots<K(!new), V(!new)>(lru: seq<Slot<K, V>>, k: K)
    requires Distinct(Keys(lru))
    ensures Distinct(Keys(Get(lru, k))) && |Get(lru, k)| == |lru|
    ensures Elems(Get(lru, k)) == Elems(lru) && Elems(Keys(Get(lru, k))) == Elems(Keys(lru))
  {
    GetKeys(lru, k);
    var i := IndexOf(Keys(lru), k);
    if i < |lru| {
      TouchKeepsDistinct(Keys(lru), k);
      FrontKeepsElems(lru, i);
    }
  }

  lemma LookupSlot<K(!new), V(!new)>(lru: seq<Slot<K, V>>, k: K, v: V)
    requires Distinct(Keys(lru))
    ensures Slot(k, v) in lru <==> k in Keys(lru) && Lookup(lru, k) == v
  {
    if Slot(k, v) in lru {
      var i :| 0 <= i < |lru| && lru[i] == Slot(k, v);
      assert Keys(lru)[i] == k;
    }
    if k in Keys(lru) {
      assert lru[IndexOf(Keys(lru), k)].key == k;
    }
  }

  /** Gets move slots about but change neither which digests are held nor their vectors. */
  lemma {:induction false} GetAllKeepsSlots(lru: seq<Slot<Digest, Vec>>, ks: seq<Digest>)
    requires Distinct(Keys(lru))
    ensures var after := GetAll(lru, ks);
      && Distinct(Keys(after)) && Elems(after) == Elems(lru) && Elems(Keys(after)) == Elems(Keys(lru))
      && |after| == |lru|
      && forall k :: k in Keys(lru) ==> k in Keys(after) && Lookup(after, k) == Lookup(lru, k)
  {
    var after := GetAll(lru, ks);
    if ks != [] {
      GetAllKeepsSlots(lru, ks[..|ks| - 1]);
      GetKeepsSlots(GetAll(lru, ks[..|ks| - 1]), ks[|ks| - 1]);
    }
    forall k | k in Keys(lru) ensures k in Keys(after) && Lookup(after, k) == Lookup(lru, k) {
      LookupSlot(lru, k, Lookup(lru, k));
      LookupSlot(after, k, Lookup(lru, k));
    }
  }

  lemma {:induction false} MissesOnce(hash: string -> Digest, known: set<Digest>, texts: seq<string>)
    ensures var missed := Misses(hash, known, texts);
      Distinct(Digests(hash, missed)) && Elems(Digests(hash, missed)) == Elems(Digests(hash, texts)) - known
  {
    if texts != [] {
      var before, t := texts[..|texts| - 1], texts[|texts| - 1];
      var missed, ks := Misses(hash, known, before), Digests(hash, before);
      MissesOnce(hash, known, before);
      assert Digests(hash, texts) == ks + [hash(t)];
      assert Digests(hash, missed + [t]) == Digests(hash, missed) + [hash(t)];
      assert Elems(ks + [hash(t)]) == Elems(ks) + {hash(t)};
      assert Elems(Digests(hash, missed) + [hash(t)]) == Elems(Digests(hash, missed)) + {hash(t)};
    }
  }

  /** Every text of `missed` is the first one of the batch with its digest. */
  ghost predicate Firsts(hash: string -> Digest, missed: seq<string>, texts: seq<string>)
  {
    var ks := Digests(hash, texts);
    var firsts := forall j :: 0 <= j < |missed| ==>
        hash(missed[j]) in ks && missed[j] == texts[IndexOf(ks, hash(missed[j]))];
    firsts
  }

  lemma FirstsStay(hash: string -> Digest, missed: seq<string>, before: seq<string>, t: string)
    requires Firsts(hash, missed, before)
    ensures Firsts(hash, missed, before + [t])
  {
    var ks := Digests(hash, before);
    assert Digests(hash, before + [t]) == ks + [hash(t)];
    forall j | 0 <= j < |missed|
      ensures hash(missed[j]) in ks + [hash(t)] && missed[j] == (before + [t])[IndexOf(ks + [hash(t)], hash(missed[j]))]
    {
      IndexOfPrefix(ks, hash(t), hash(missed[j]));
    }
  }

  lemma NewIsFirst(hash: string -> Digest, missed: seq<string>, before: seq<string>, t: string)
    requires Firsts(hash, missed, before + [t]) && hash(t) !in Digests(hash, before)
    ensures Firsts(hash, missed + [t], before + [t])
  {
    var ks := Digests(hash, before);
    assert Digests(hash, before + [t]) == ks + [hash(t)];
    IndexOfNew(ks, hash(t));
  }

  lemma {:induction false} MissesAreFirst(hash: string -> Digest, known: set<Digest>, texts: seq<string>)
    ensures Firsts(hash, Misses(hash, known, texts), texts)
  {
    if texts != [] {
      var before, t := texts[..|texts| - 1], texts[|texts| - 1];
      var missed := Misses(hash, known, before);
      MissesOnce(hash, known, before);
      MissesAreFirst(hash, known, before);
      assert texts == before + [t];
      FirstsStay(hash, missed, before, t);
      if hash(t) !in known && hash(t) !in Digests(hash, missed) {
        assert hash(t) !in Elems(Digests(hash, missed)) && hash(t) !in Elems(Digests(hash, before)) - known;
        NewIsFirst(hash, missed, before, t);
      }
    }
  }

  /** The misses are exactly the unknown digests of the batch, once each, represented by their first text. */
  lemma MissesMeaning(hash: string -> Digest, known: set<Digest>, texts: seq<string>)
    ensures Distinct(Digests(hash, Misses(hash, known, texts)))
    ensures Elems(Digests(hash, Misses(hash, known, texts))) == Elems(Digests(hash, texts)) - known
    ensures Firsts(hash, Misses(hash, known, texts), texts)
  {
    MissesOnce(hash, known, texts);
    MissesAreFirst(hash, known, texts);
  }

  lemma {:induction false} IndexOfPrefix<K(!new)>(ks: seq<K>, x: K, k: K)
    requires k in ks
    ensures IndexOf(ks + [x], k) == IndexOf(ks, k)
  {
    if ks[0] != k {
      assert (ks + [x])[1..] == ks[1..] + [x];
      IndexOfPrefix(ks[1..], x, k);
    }
  }

  lemma {:induction false} IndexOfNew<K(!new)>(ks: seq<K>, x: K)
    requires x !in ks
    ensures IndexOf(ks + [x], x) == |ks|
  {
    if ks != [] {
      assert (ks + [x])[1..] == ks[1..] + [x];
      IndexOfNew(ks[1..], x);
    }
  }

  // ----- The embedder -----

  /**
   What the first loop has collected from the first `n` texts: the distinct misses and every position waiting for each.
   */
  ghost predicate Planned(hash: string -> Digest, known: set<Digest>, texts: seq<string>, n: nat,
                          missText: seq<string>, missKey: seq<Digest>, missPos: map<Digest, seq<int>>)
    requires n <= |texts|
  {
    var planned :=
      && missText == Misses(hash, known, texts[..n]) && missKey == Digests(hash, missText)
      && missPos.Keys == Elems(missKey)
      && (forall k, p {:trigger p in missPos[k]} :: k in missPos && p in missPos[k] ==>
          0 <= p < n && hash(texts[p]) == k)
      && (forall p :: 0 <= p < n && hash(texts[p]) !in known ==>
            hash(texts[p]) in missPos && p in missPos[hash(texts[p])]);
    planned
  }

  datatype Plan = Plan(missText: seq<string>, missKey: seq<Digest>, missPos: map<Digest, seq<int>>)

  function PlanOf(hash: string -> Digest, known: set<Digest>, texts: seq<string>, n: nat): Plan
    requires n <= |texts|
  {
    if n == 0 then Plan([], [], map[])
    else
      var plan, t := PlanOf(hash, known, texts, n - 1), texts[n - 1];
      var k := hash(t);
      if k in known then plan else Note(plan, t, k, n - 1)
  }

  /** Note that text `t` at position `i` missed: its first miss also joins the texts to embed. */
  function Note(plan: Plan, t: string, k: Digest, i: int): Plan
  {
    var waiting := plan.missPos[k := (if k in plan.missPos then plan.missPos[k] else []) + [i]];
    if k in plan.missPos then Plan(plan.missText, plan.missKey, waiting)
    else Plan(plan.missText + [t], plan.missKey + [k], waiting)
  }

  lemma {:induction false} PlanAsks(hash: string -> Digest, known: set<Digest>, texts: seq<string>, n: nat)
    requires n <= |texts|
    ensures var plan := PlanOf(hash, known, texts, n);
      && plan.missText == Misses(hash, known, texts[..n]) && plan.missKey == Digests(hash, plan.missText)
      && plan.missPos.Keys == Elems(plan.missKey)
  {
    if n != 0 {
      PlanAsks(hash, known, texts, n - 1);
      var plan, t := PlanOf(hash, known, texts, n - 1), texts[n - 1];
      var k := hash(t);
      assert texts[..n][..n - 1] == texts[..n - 1];
      assert Digests(hash, plan.missText + [t]) == plan.missKey + [k];
      assert Elems(plan.missKey + [k]) == Elems(plan.missKey) + {k};
      assert k in plan.missPos <==> k in Elems(plan.missKey);
    }
  }

  lemma {:induction false} PlanWaits(hash: string -> Digest, known: set<Digest>, texts: seq<string>, n: nat)
    requires n <= |texts|
    ensures var missPos := PlanOf(hash, known, texts, n).missPos;
      && (forall k, p {:trigger p in missPos[k]} :: k in missPos && p in missPos[k] ==>
          0 <= p < n && hash(texts[p]) == k)
      && (forall p :: 0 <= p < n && hash(texts[p]) !in known ==>
            hash(texts[p]) in missPos && p in missPos[hash(texts[p])])
  {
    if n != 0 {
      PlanWaits(hash, known, texts, n - 1);
      var plan, k := PlanOf(hash, known, texts, n - 1), hash(texts[n - 1]);
      if k in plan.missPos {
        WaitGrows(plan.missPos, k, n - 1);
      }
    }
  }

  lemma PlanMeaning(hash: string -> Digest, known: set<Digest>, texts: seq<string>, n: nat)
    requires n <= |texts|
    ensures var plan := PlanOf(hash, known, texts, n);
      Planned(hash, known, texts, n, plan.missText, plan.missKey, plan.missPos)
  {
    PlanAsks(hash, known, texts, n);
    PlanWaits(hash, known, texts, n);
  }

  lemma WaitGrows(missPos: map<Digest, seq<int>>, k: Digest, n: int)
    requires k in missPos
    ensures forall p :: p in missPos[k := missPos[k] + [n]][k] <==> p in missPos[k] || p == n
  {
  }

  /** Exactly the positions of digest `k`, which the cache does not hold, wait for it. */
  ghost predicate WaitingFor(missPos: map<Digest, seq<int>>, k: Digest, lru: seq<Slot<Digest, Vec>>, ks: seq<Digest>)
  {
    var waiting :=
      && k in missPos && k !in Keys(lru)
      && forall p {:trigger p in missPos[k]} :: p in missPos[k] <==> 0 <= p < |ks| && ks[p] == k;
    waiting
  }

  lemma WaitingExactly(hash: string -> Digest, lru: seq<Slot<Digest, Vec>>, texts: seq<string>, plan: Plan)
    requires Planned(hash, Elems(Keys(lru)), texts, |texts|, plan.missText, plan.missKey, plan.missPos)
    ensures Distinct(plan.missKey)
    ensures forall j :: 0 <= j < |plan.missKey| ==> WaitingFor(plan.missPos, plan.missKey[j], lru, Digests(hash, texts))
  {
    var known, ks := Elems(Keys(lru)), Digests(hash, texts);
    MissesMeaning(hash, known, texts);
    assert texts[..|texts|] == texts;
    forall j | 0 <= j < |plan.missKey| ensures WaitingFor(plan.missPos, plan.missKey[j], lru, ks) {
      var k := plan.missKey[j];
      assert k in Elems(plan.missKey);
      assert k !in known;
    }
  }

  /** No two outputs share an array, and none is one the cache keeps. */
  ghost predicate Isolated(out: array<array?<real>>, arrays: set<array<real>>)
    reads out
  {
    var isolated :=
      && (forall i :: 0 <= i < out.Length && out[i] != null ==> out[i] !in arrays)
      && (forall i, j :: 0 <= i < j < out.Length && out[i] != null ==> out[i] != out[j]);
    isolated
  }

  /** The outputs that hit so far hold the cached vectors; the rest are still nil. */
  ghost predicate HitsFilled(out: array<array?<real>>, n: nat, lru: seq<Slot<Digest, Vec>>, ks: seq<Digest>)
    requires n <= out.Length == |ks|
    reads out, set i | 0 <= i < out.Length && out[i] != null :: out[i]
  {
    forall i :: 0 <= i < out.Length ==>
      if i < n && ks[i] in Keys(lru) then Contents(out[i]) == Lookup(lru, ks[i]) else out[i] == null
  }

  /** Outputs once the first `j` misses have been scattered: cached vectors, those misses' vectors, nil elsewhere. */
  ghost predicate Scattered(out: array<array?<real>>, lru: seq<Slot<Digest, Vec>>, ks: seq<Digest>,
                            missKey: seq<Digest>, vs: seq<Vec>, j: nat)
    requires out.Length == |ks| && j <= |missKey| == |vs|
    reads out, set i | 0 <= i < out.Length && out[i] != null :: out[i]
  {
    var scattered := forall i :: 0 <= i < out.Length ==>
      if ks[i] in Keys(lru) then Contents(out[i]) == Lookup(lru, ks[i])
      else if IndexOf(missKey, ks[i]) < j then Contents(out[i]) == vs[IndexOf(missKey, ks[i])]
      else out[i] == null;
    scattered
  }

  /** Every output is the batch's answer for its text. */
  ghost predicate Answered(out: array<array?<real>>, hash: string -> Digest, vector: string -> Vec,
                           lru: seq<Slot<Digest, Vec>>, texts: seq<string>)
    reads out, set i | 0 <= i < out.Length && out[i] != null :: out[i]
  {
    && out.Length == |texts|
    && forall i :: 0 <= i < out.Length ==> Contents(out[i]) == Answer(hash, vector, lru, texts, hash(texts[i]))
  }

  /** Once every miss is scattered, each output is the batch's answer for its digest. */
  lemma ScatteredAnswers(out: array<array?<real>>, hash: string -> Digest, vector: string -> Vec,
                         lru: seq<Slot<Digest, Vec>>, texts: seq<string>, missText: seq<string>)
    requires missText == Misses(hash, Elems(Keys(lru)), texts) && out.Length == |texts|
    requires Scattered(out, lru, Digests(hash, texts), Digests(hash, missText), Vectors(vector, missText), |missText|)
    ensures Answered(out, hash, vector, lru, texts)
  {
    var ks, missKey := Digests(hash, texts), Digests(hash, missText);
    MissesMeaning(hash, Elems(Keys(lru)), texts);
    forall i | 0 <= i < |texts| ensures Contents(out[i]) == Answer(hash, vector, lru, texts, hash(texts[i])) {
      assert ks[i] in Elems(ks);
      assert ks[i] in Keys(lru) <==> ks[i] in Elems(Keys(lru));
      assert ks[i] !in Keys(lru) ==> ks[i] in Elems(missKey);
    }
  }

  /** Inner loop of the scatter: a separate copy of `v` at every waiting position. */
  method ScatterOne(out: array<array?<real>>, positions: seq<int>, v: array?<real>)
    requires forall p :: p in positions ==> 0 <= p < out.Length
    requires Isolated(out, {})
    modifies out
    ensures forall p :: 0 <= p < out.Length ==>
              if p in positions then Contents(out[p]) == Contents(v) && (out[p] != null ==> fresh(out[p]))
              else out[p] == old(out[p])
    ensures Isolated(out, {})
  {
    for n := 0 to |positions|
      invariant forall p :: 0 <= p < out.Length ==>
                  if p in positions[..n] then Contents(out[p]) == Contents(v) && (out[p] != null ==> fresh(out[p]))
                  else out[p] == old(out[p])
      invariant Isolated(out, {})
    {
      var c := CloneVec(v);
      var pos := positions[n];
      assert pos in positions;
      assert positions[..n + 1] == positions[..n] + [pos];
      out[pos] := c;
    }
    assert positions[..|positions|] == positions;
  }

  method ScatterStep(out: array<array?<real>>, positions: seq<int>, v: array?<real>, ghost lru: seq<Slot<Digest, Vec>>,
                     ghost ks: seq<Digest>, ghost missKey: seq<Digest>, ghost vs: seq<Vec>, ghost j: nat)
    requires out.Length == |ks| && j < |missKey| == |vs| && Distinct(missKey) && missKey[j] !in Keys(lru)
    requires forall p {:trigger p in positions} :: p in positions <==> 0 <= p < |ks| && ks[p] == missKey[j]
    requires Contents(v) == vs[j]
    requires Scattered(out, lru, ks, missKey, vs, j) && Isolated(out, {})
    modifies out
    ensures Scattered(out, lru, ks, missKey, vs, j + 1) && Isolated(out, {})
    ensures forall p :: 0 <= p < |ks| && out[p] != null ==> fresh(out[p]) || out[p] == old(out[p])
  {
    assert IndexOf(missKey, missKey[j]) == j;
    ScatterOne(out, positions, v);
  }

  lemma HitsSkip(out: array<array?<real>>, n: nat, lru: seq<Slot<Digest, Vec>>, ks: seq<Digest>)
    requires n < out.Length == |ks| && HitsFilled(out, n, lru, ks) && ks[n] !in Keys(lru)
    ensures HitsFilled(out, n + 1, lru, ks)
  {
  }

  method FillHit(out: array<array?<real>>, n: nat, v: array?<real>, ghost lru: seq<Slot<Digest, Vec>>,
                 ghost ks: seq<Digest>)
    requires n < out.Length == |ks| && HitsFilled(out, n, lru, ks) && Isolated(out, {})
    requires ks[n] in Keys(lru) && Contents(v) == Lookup(lru, ks[n])
    requires v != null ==> forall i :: 0 <= i < out.Length ==> out[i] != v
    modifies out
    ensures HitsFilled(out, n + 1, lru, ks) && Isolated(out, {})
    ensures forall i :: 0 <= i < out.Length ==> out[i] == if i == n then v else old(out[i])
  {
    out[n] := v;
  }

  lemma NextPut(lru: seq<Slot<Digest, Vec>>, cap: nat, ks: seq<Digest>, vs: seq<Vec>, j: nat)
    requires j < |ks| == |vs|
    ensures PutAll(lru, cap, ks[..j + 1], vs[..j + 1]) == Put(PutAll(lru, cap, ks[..j], vs[..j]), cap, ks[j], vs[j])
  {
    assert ks[..j + 1][..j] == ks[..j] && vs[..j + 1][..j] == vs[..j];
  }

  lemma NextGet(lru: seq<Slot<Digest, Vec>>, ks: seq<Digest>, i: nat)
    requires Distinct(Keys(lru)) && i < |ks|
    ensures GetAll(lru, ks[..i + 1]) == Get(GetAll(lru, ks[..i]), ks[i])
    ensures ks[i] in Keys(GetAll(lru, ks[..i])) <==> ks[i] in Keys(lru)
    ensures ks[i] in Keys(lru) ==> Lookup(GetAll(lru, ks[..i]), ks[i]) == Lookup(lru, ks[i])
  {
    assert ks[..i + 1][..i] == ks[..i];
    GetAllKeepsSlots(lru, ks[..i]);
    assert ks[i] in Keys(GetAll(lru, ks[..i])) <==> ks[i] in Elems(Keys(GetAll(lru, ks[..i])));
    assert ks[i] in Keys(lru) <==> ks[i] in Elems(Keys(lru));
  }

  class CachingEmbedder {
    const hash: string -> Digest
    const inner: Provider
    const cache: Cache

    ghost predicate Valid()
      reads this, cache, cache.entries, cache.arrays, inner
    {
      cache.Valid() && inner.Valid()
    }

    constructor (hash: string -> Digest, inner: Provider, cap: nat)
      requires 0 < cap && inner.Valid()
      ensures Valid() && fresh(cache) && cache.model == [] && cache.entries == {} && cache.cap == cap
      ensures this.hash == hash && this.inner == inner
    {
      this.hash, this.inner := hash, inner;
      cache := new Cache(cap);
    }

    /** A get, with the copy handed to the caller on a hit. */
    method GetClone(k: Digest) returns (copied: array?<real>, ok: bool)
      requires cache.Valid()
      modifies cache
      ensures cache.Valid() && cache.model == Get(old(cache.model), k)
      ensures cache.arrays == old(cache.arrays) && cache.entries == old(cache.entries)
      ensures ok <==> k in Keys(old(cache.model))
      ensures ok ==> Contents(copied) == Lookup(old(cache.model), k)
      ensures copied != null ==> fresh(copied)
    {
      var v;
      v, ok := cache.Get(k);
      copied := null;
      if ok {
        copied := CloneVec(v);
      }
    }

    /** One text of the first loop: fill a hit, or note a miss and its position. */
    method Visit(texts: seq<string>, i: nat, out: array<array?<real>>, plan: Plan, ghost m0: seq<Slot<Digest, Vec>>)
      returns (next: Plan)
      requires cache.Valid()
      requires i < |texts| == out.Length && Distinct(Keys(m0))
      requires cache.model == GetAll(m0, Digests(hash, texts)[..i])
      requires plan == PlanOf(hash, Elems(Keys(m0)), texts, i)
      requires HitsFilled(out, i, m0, Digests(hash, texts)) && Isolated(out, {})
      modifies cache, out
      ensures cache.Valid() && cache.arrays == old(cache.arrays) && cache.entries == old(cache.entries)
      ensures cache.model == GetAll(m0, Digests(hash, texts)[..i + 1])
      ensures next == PlanOf(hash, Elems(Keys(m0)), texts, i + 1)
      ensures HitsFilled(out, i + 1, m0, Digests(hash, texts)) && Isolated(out, {})
      ensures forall p :: 0 <= p < |texts| && out[p] != null ==> fresh(out[p]) || out[p] == old(out[p])
    {
      var t := texts[i];
      var k := hash(t);
      NextGet(m0, Digests(hash, texts), i);
      var v, ok := GetClone(k);
      if ok {
        FillHit(out, i, v, m0, Digests(hash, texts));
        return plan;
      }
      HitsSkip(out, i, m0, Digests(hash, texts));
      var waiting := plan.missPos[k := (if k in plan.missPos then plan.missPos[k] else []) + [i]];
      if k in plan.missPos {
        return Plan(plan.missText, plan.missKey, waiting);
      }
      return Plan(plan.missText + [t], plan.missKey + [k], waiting);
    }

    /** First loop of Embed: fill the hits, and collect the distinct misses with the positions that wait for them. */
    method Partition(texts: seq<string>, out: array<array?<real>>) returns (plan: Plan)
      requires cache.Valid()
      requires out.Length == |texts| && forall i :: 0 <= i < |texts| ==> out[i] == null
      modifies cache, out
      ensures cache.Valid() && cache.model == GetAll(old(cache.model), Digests(hash, texts))
      ensures cache.arrays == old(cache.arrays) && cache.entries == old(cache.entries)
      ensures Planned(hash, Elems(Keys(old(cache.model))), texts, |texts|, plan.missText, plan.missKey, plan.missPos)
      ensures plan.missText == Misses(hash, Elems(Keys(old(cache.model))), texts)
      ensures HitsFilled(out, |texts|, old(cache.model), Digests(hash, texts))
      ensures Isolated(out, {}) && forall i :: 0 <= i < |texts| && out[i] != null ==> fresh(out[i])
    {
      ghost var m0, ks := cache.model, Digests(hash, texts);
      MirrorsMeaning(cache.ll, m0, cache.arrays);
      LinkedDistinct(cache.ll, cache.items);
      plan := Plan([], [], map[]);
      for i := 0 to |texts|
        invariant cache.Valid() && cache.model == GetAll(m0, ks[..i])
        invariant cache.arrays == old(cache.arrays) && cache.entries == old(cache.entries)
        invariant plan == PlanOf(hash, Elems(Keys(m0)), texts, i)
        invariant HitsFilled(out, i, m0, ks)
        invariant Isolated(out, {}) && forall p :: 0 <= p < |texts| && out[p] != null ==> fresh(out[p])
      {
        plan := Visit(texts, i, out, plan, m0);
      }
      assert ks[..|texts|] == ks && texts[..|texts|] == texts;
      PlanMeaning(hash, Elems(Keys(m0)), texts, |texts|);
    }

    /** One miss of the scatter: cache an isolated copy of its vector and hand a copy to every waiting position. */
    method Deposit(out: array<array?<real>>, k: Digest, positions: seq<int>, v: array?<real>,
                   ghost missPos: map<Digest, seq<int>>, ghost lru: seq<Slot<Digest, Vec>>, ghost ks: seq<Digest>,
                   ghost missKey: seq<Digest>, ghost vs: seq<Vec>, ghost j: nat)
      requires cache.Valid()
      requires out.Length == |ks| && j < |missKey| == |vs| && Distinct(missKey) && k == missKey[j]
      requires WaitingFor(missPos, k, lru, ks) && positions == missPos[k]
      requires Contents(v) == vs[j]
      requires Scattered(out, lru, ks, missKey, vs, j) && Isolated(out, cache.arrays)
      modifies cache, cache.entries, out
      ensures cache.Valid() && cache.model == Put(old(cache.model), cache.cap, k, vs[j])
      ensures fresh(cache.entries - old(cache.entries))
      ensures fresh(cache.arrays - old(cache.arrays))
      ensures forall p :: 0 <= p < |ks| && out[p] != null ==> out[p] == old(out[p]) || fresh(out[p])
      ensures Scattered(out, lru, ks, missKey, vs, j + 1) && Isolated(out, cache.arrays)
    {
      var c := CloneVec(v);
      cache.Put(k, c);
      ScatterStep(out, positions, v, lru, ks, missKey, vs, j);
    }

    /** Second loop of Embed: cache and scatter the provider's vectors, miss by miss. */
    method Scatter(out: array<array?<real>>, missKey: seq<Digest>, missPos: map<Digest, seq<int>>,
                   vecs: seq<array?<real>>, ghost lru: seq<Slot<Digest, Vec>>, ghost ks: seq<Digest>,
                   ghost vs: seq<Vec>)
      requires cache.Valid() && out.Length == |ks| && |vecs| == |missKey| == |vs| && Distinct(missKey)
      requires forall j :: 0 <= j < |missKey| ==> WaitingFor(missPos, missKey[j], lru, ks)
      requires forall j :: 0 <= j < |vecs| ==> Contents(vecs[j]) == vs[j]
      requires Scattered(out, lru, ks, missKey, vs, 0) && Isolated(out, cache.arrays)
      modifies cache, cache.entries, out
      ensures cache.Valid() && cache.model == PutAll(old(cache.model), cache.cap, missKey, vs)
      ensures fresh(cache.entries - old(cache.entries)) && fresh(cache.arrays - old(cache.arrays))
      ensures Scattered(out, lru, ks, missKey, vs, |missKey|) && Isolated(out, cache.arrays)
      ensures forall p :: 0 <= p < out.Length && out[p] != null ==> fresh(out[p]) || out[p] == old(out[p])
    {
      hide Put, Distinct, Linked, Mirrors;
      for j := 0 to |missKey|
        invariant cache.Valid()
        invariant cache.model == PutAll(old(cache.model), cache.cap, missKey[..j], vs[..j])
        invariant fresh(cache.entries - old(cache.entries))
        invariant fresh(cache.arrays - old(cache.arrays))
        invariant Scattered(out, lru, ks, missKey, vs, j)
        invariant Isolated(out, cache.arrays)
        invariant forall p :: 0 <= p < out.Length && out[p] != null ==> fresh(out[p]) || out[p] == old(out[p])
      {
        NextPut(old(cache.model), cache.cap, missKey, vs, j);
        assert WaitingFor(missPos, missKey[j], lru, ks) && Contents(vecs[j]) == vs[j];
        Deposit(out, missKey[j], missPos[missKey[j]], vecs[j], missPos, lru, ks, missKey, vs, j);
      }
      assert missKey[..|missKey|] == missKey && vs[..|missKey|] == vs;
    }

    /** Ask the provider for the misses; anything but one vector per text is an error. */
    method Ask(texts: seq<string>) returns (r: Result<seq<array?<real>>, EmbedError>)
      requires inner.Valid()
      modifies inner
      ensures inner.Valid() && inner.requests == old(inner.requests) + [texts]
      ensures r.Ok? <==> Delivers(inner.outcome(old(inner.calls)), |texts|)
      ensures r.Ok? ==> |r.value| == |texts| && forall i :: 0 <= i < |texts| ==>
                Contents(r.value[i]) == inner.vector(texts[i])
    {
      r := inner.Embed(texts);
      if r.Ok? && |r.value| != |texts| {
        r := Err(WrongCount(|r.value|, |texts|));
      }
    }

    /** Ask for the misses that Partition left, and scatter the answer. */
    method Complete(out: array<array?<real>>, plan: Plan, ghost lru: seq<Slot<Digest, Vec>>, ghost texts: seq<string>)
      returns (failed: Option<EmbedError>)
      requires Valid() && out.Length == |texts|
      requires Planned(hash, Elems(Keys(lru)), texts, |texts|, plan.missText, plan.missKey, plan.missPos)
      requires HitsFilled(out, |texts|, lru, Digests(hash, texts)) && Isolated(out, cache.arrays)
      modifies cache, cache.entries, inner, out
      ensures Valid()
      ensures fresh(cache.entries - old(cache.entries)) && fresh(cache.arrays - old(cache.arrays))
      ensures inner.requests == old(inner.requests) + [plan.missText]
      ensures failed.Some? <==> !Delivers(inner.outcome(old(inner.calls)), |plan.missText|)
      ensures failed.Some? ==> cache.model == old(cache.model)
      ensures failed.None? ==>
                && cache.model == PutAll(old(cache.model), cache.cap, plan.missKey,
                                         Vectors(inner.vector, plan.missText))
                && Isolated(out, cache.arrays)
                && Scattered(out, lru, Digests(hash, texts), plan.missKey, Vectors(inner.vector, plan.missText),
                             |plan.missKey|)
      ensures forall p :: 0 <= p < out.Length && out[p] != null ==> fresh(out[p]) || out[p] == old(out[p])
    {
      var answer := Ask(plan.missText);
      if answer.Err? {
        return Some(answer.error);
      }
      WaitingExactly(hash, lru, texts, plan);
      Scatter(out, plan.missKey, plan.missPos, answer.value, lru, Digests(hash, texts),
              Vectors(inner.vector, plan.missText));
      return None;
    }

    /** Both loops of Embed, over an empty output: the first fills what hits, the second what the provider gave. */
    method Fill(texts: seq<string>, out: array<array?<real>>) returns (failed: Option<EmbedError>)
      requires Valid() && out.Length == |texts| && forall i :: 0 <= i < |texts| ==> out[i] == null
      modifies cache, cache.entries, inner, out
      ensures Valid()
      ensures fresh(cache.entries - old(cache.entries))
      ensures fresh(cache.arrays - old(cache.arrays))
      ensures inner.requests == old(inner.requests) +
                if Missed(old(cache.model), texts) == [] then [] else [Missed(old(cache.model), texts)]
      ensures failed.Some? <==> Missed(old(cache.model), texts) != [] &&
                                !Delivers(inner.outcome(old(inner.calls)), |Missed(old(cache.model), texts)|)
      ensures failed.Some? ==> cache.model == GetAll(old(cache.model), Digests(hash, texts))
      ensures failed.None? ==> cache.model == AfterBatch(old(cache.model), texts)
      ensures failed.None? ==>
                var missed := Missed(old(cache.model), texts);
                && Isolated(out, cache.arrays)
                && Scattered(out, old(cache.model), Digests(hash, texts), Digests(hash, missed),
                             Vectors(inner.vector, missed),
                             |missed|)
      ensures forall i :: 0 <= i < |texts| && out[i] != null ==> fresh(out[i])
    {
      ghost var m0 := cache.model;
      var plan := Partition(texts, out);
      failed := None;
      if |plan.missText| != 0 {
        failed := Complete(out, plan, m0, texts);
      }
    }

    /** One vector per text: cached texts from the list, each distinct miss once from the provider. */
    method Embed(texts: seq<string>) returns (r: Result<array<array?<real>>, EmbedError>)
      requires Valid()
      modifies cache, cache.entries, inner
      ensures Valid()
      ensures fresh(cache.entries - old(cache.entries))
      ensures fresh(cache.arrays - old(cache.arrays))
      // at most one provider call, for exactly the distinct texts the cache does not hold
      ensures inner.requests == old(inner.requests) +
                if Missed(old(cache.model), texts) == [] then [] else [Missed(old(cache.model), texts)]
      // it fails exactly when that call fails or returns a wrong number of vectors
      ensures r.Err? <==> Missed(old(cache.model), texts) != [] &&
                          !Delivers(inner.outcome(old(inner.calls)), |Missed(old(cache.model), texts)|)
      ensures r.Err? ==> cache.model == GetAll(old(cache.model), Digests(hash, texts))
      ensures r.Ok? ==> cache.model == AfterBatch(old(cache.model), texts)
      ensures r.Ok? ==> fresh(r.value) && Answered(r.value, hash, inner.vector, old(cache.model), texts)
      // the arrays handed out are new, pairwise distinct, and not those the cache keeps
      ensures r.Ok? ==> Isolated(r.value, cache.arrays) && forall i :: 0 <= i < |texts| && r.value[i] != null ==>
                fresh(r.value[i])
    {
      var out := new array?<real>[|texts|](_ => null);
      var failed := Fill(texts, out);
      if failed.Some? {
        return Err(failed.value);
      }
      ScatteredAnswers(out, hash, inner.vector, old(cache.model), texts, Missed(old(cache.model), texts));
      return Ok(out);
    }

    ghost function Missed(lru: seq<Slot<Digest, Vec>>, texts: seq<string>): seq<string>
    {
      Misses(hash, Elems(Keys(lru)), texts)
    }

    /** The list after a batch that succeeds: every text got, then every miss put. */
    ghost function AfterBatch(lru: seq<Slot<Digest, Vec>>, texts: seq<string>): seq<Slot<Digest, Vec>>
    {
      var missed := Missed(lru, texts);
      PutAll(GetAll(lru, Digests(hash, texts)), cache.cap, Digests(hash, missed), Vectors(inner.vector, missed))
    }
  }

  predicate Delivers(o: Outcome, want: nat)
  {
    o.Answers? || (o.Returns? && o.n == want)
  }

  /** A caller overwrites everything a call returned: the cache is as that call left it. */
  method CallerScribbles(c: CachingEmbedder, texts: seq<string>, junk: real)
    requires c.Valid()
    modifies c.cache, c.cache.entries, c.inner
    ensures c.Valid()
    ensures c.cache.model == c.AfterBatch(old(c.cache.model), texts) ||
            c.cache.model == GetAll(old(c.cache.model), Digests(c.hash, texts))
  {
    var r := c.Embed(texts);
    if r.Ok? {
      ghost var kept := c.cache.model;
      for i := 0 to r.value.Length
        invariant c.Valid() && c.cache.model == kept && Isolated(r.value, c.cache.arrays)
        invariant forall p :: 0 <= p < r.value.Length && r.value[p] != null ==> fresh(r.value[p])
      {
        var v := r.value[i];
        if v != null {
          forall k | 0 <= k < v.Length {
            v[k] := junk;
          }
        }
      }
    }
  }

  // ----- Agreement with the provider -----

  /** Texts whose digests collide have the same vector: no collision can be noticed. */
  ghost predicate CollisionsHarmless(hash: string -> Digest, vector: string -> Vec, texts: set<string>)
  {
    forall a, b :: a in texts && b in texts && hash(a) == hash(b) ==> vector(a) == vector(b)
  }

  /** Every slot holds the provider's vector of some text seen before, under that text's digest. */
  ghost predicate Sound(hash: string -> Digest, vector: string -> Vec, lru: seq<Slot<Digest, Vec>>, seen: set<string>)
  {
    forall s :: s in lru ==> exists t :: t in seen && s == Slot(hash(t), vector(t))
  }

  lemma PutKeepsSound(hash: string -> Digest, vector: string -> Vec, lru: seq<Slot<Digest, Vec>>, seen: set<string>,
                      cap: nat, t: string)
    requires Sound(hash, vector, lru, seen) && t in seen
    ensures Sound(hash, vector, Put(lru, cap, hash(t), vector(t)), seen)
  {
    forall s | s in Put(lru, cap, hash(t), vector(t)) ensures s in lru || s == Slot(hash(t), vector(t)) {
    }
  }

  lemma GetKeepsSound(hash: string -> Digest, vector: string -> Vec, lru: seq<Slot<Digest, Vec>>, seen: set<string>,
                      k: Digest)
    requires Sound(hash, vector, lru, seen)
    ensures Sound(hash, vector, Get(lru, k), seen)
  {
    forall s | s in Get(lru, k) ensures s in lru {
    }
  }

  lemma {:induction false} PutAllKeepsSound(hash: string -> Digest, vector: string -> Vec, lru: seq<Slot<Digest, Vec>>,
                                            seen: set<string>, cap: nat, texts: seq<string>)
    requires Sound(hash, vector, lru, seen) && Elems(texts) <= seen
    ensures Sound(hash, vector, PutAll(lru, cap, Digests(hash, texts), Vectors(vector, texts)), seen)
  {
    if texts != [] {
      var before, t := texts[..|texts| - 1], texts[|texts| - 1];
      assert Elems(before) <= Elems(texts) && t in Elems(texts);
      PutAllKeepsSound(hash, vector, lru, seen, cap, before);
      assert Digests(hash, texts)[..|before|] == Digests(hash, before);
      assert Vectors(vector, texts)[..|before|] == Vectors(vector, before);
      PutKeepsSound(hash, vector, PutAll(lru, cap, Digests(hash, before), Vectors(vector, before)), seen, cap, t);
    }
  }

  lemma {:induction false} GetAllKeepsSound(hash: string -> Digest, vector: string -> Vec, lru: seq<Slot<Digest, Vec>>,
                                            seen: set<string>, ks: seq<Digest>)
    requires Sound(hash, vector, lru, seen)
    ensures Sound(hash, vector, GetAll(lru, ks), seen)
  {
    if ks != [] {
      GetAllKeepsSound(hash, vector, lru, seen, ks[..|ks| - 1]);
      GetKeepsSound(hash, vector, GetAll(lru, ks[..|ks| - 1]), seen, ks[|ks| - 1]);
    }
  }

  /** Whatever a batch does, the list stays sound for the texts seen so far and those of the batch. */
  lemma BatchKeepsSound(hash: string -> Digest, vector: string -> Vec, lru: seq<Slot<Digest, Vec>>,
                        seen: set<string>, cap: nat, texts: seq<string>)
    requires Sound(hash, vector, lru, seen)
    ensures var gets, missed := GetAll(lru, Digests(hash, texts)), Misses(hash, Elems(Keys(lru)), texts);
      && Sound(hash, vector, gets, seen)
      && Sound(hash, vector, PutAll(gets, cap, Digests(hash, missed), Vectors(vector, missed)), seen + Elems(texts))
  {
    var gets, missed := GetAll(lru, Digests(hash, texts)), Misses(hash, Elems(Keys(lru)), texts);
    GetAllKeepsSound(hash, vector, lru, seen, Digests(hash, texts));
    MissesMeaning(hash, Elems(Keys(lru)), texts);
    forall t | t in missed ensures t in texts {
      var j :| 0 <= j < |missed| && missed[j] == t;
      assert missed[j] == texts[IndexOf(Digests(hash, texts), hash(missed[j]))];
    }
    PutAllKeepsSound(hash, vector, gets, seen + Elems(texts), cap, missed);
  }

  /** Each position of a batch gets exactly the provider's vector for its text. */
  lemma AgreesWithProvider(hash: string -> Digest, vector: string -> Vec, lru: seq<Slot<Digest, Vec>>,
                           seen: set<string>, texts: seq<string>, i: nat)
    requires Sound(hash, vector, lru, seen) && i < |texts|
    requires CollisionsHarmless(hash, vector, seen + Elems(texts))
    ensures Answer(hash, vector, lru, texts, hash(texts[i])) == vector(texts[i])
  {
    var k, ks := hash(texts[i]), Digests(hash, texts);
    if k in Keys(lru) {
      var j := IndexOf(Keys(lru), k);
      assert lru[j] in lru;
      var t :| t in seen && lru[j] == Slot(hash(t), vector(t));
      assert t in seen + Elems(texts) && texts[i] in seen + Elems(texts);
    } else {
      assert ks[i] == k && k in ks;
      assert texts[IndexOf(ks, k)] in seen + Elems(texts) && texts[i] in seen + Elems(texts);
    }
  }

  /** The texts of a batch whose digests the list does not hold. */
  function Uncached(hash: string -> Digest, lru: seq<Slot<Digest, Vec>>, texts: seq<string>): set<string>
  {
    set t | t in texts && hash(t) !in Keys(lru)
  }

  /**
   The premise is needed: a batch is answered right at every position exactly when the list has the right vector for
   every text it has one for, and no two of the other texts collide with different vectors.
   */
  lemma CollisionIsNoticed(hash: string -> Digest, vector: string -> Vec, lru: seq<Slot<Digest, Vec>>,
                           texts: seq<string>)
    ensures (forall i :: 0 <= i < |texts| ==> Answer(hash, vector, lru, texts, hash(texts[i])) == vector(texts[i])) <==>
              (forall t :: t in texts && hash(t) in Keys(lru) ==> Lookup(lru, hash(t)) == vector(t)) &&
              CollisionsHarmless(hash, vector, Uncached(hash, lru, texts))
  {
    var ks := Digests(hash, texts);
    forall i | 0 <= i < |texts| && ks[i] !in Keys(lru)
      ensures var first := texts[IndexOf(ks, ks[i])];
        Answer(hash, vector, lru, texts, ks[i]) == vector(first) && first in Uncached(hash, lru, texts) &&
        hash(first) == ks[i]
    {
      assert ks[i] in ks;
    }
    if forall i :: 0 <= i < |texts| ==> Answer(hash, vector, lru, texts, hash(texts[i])) == vector(texts[i]) {
      forall t, u | t in Uncached(hash, lru, texts) && u in Uncached(hash, lru, texts) && hash(t) == hash(u)
        ensures vector(t) == vector(u)
      {
        var i :| 0 <= i < |texts| && texts[i] == t;
        var j :| 0 <= j < |texts| && texts[j] == u;
        assert ks[i] == ks[j];
      }
    }
  }

  /** A batch of one text is one access of the list. */
  lemma SingleIsAccess(hash: string -> Digest, vector: string -> Vec, lru: seq<Slot<Digest, Vec>>, cap: nat, t: string)
    ensures var missed := Misses(hash, Elems(Keys(lru)), [t]);
      PutAll(GetAll(lru, Digests(hash, [t])), cap, Digests(hash, missed), Vectors(vector, missed)) ==
      Access(lru, cap, hash(t), vector(t))
  {
    var k := hash(t);
    assert Digests(hash, [t]) == [k];
    assert [t][..0] == [] && [k][..0] == Digests(hash, []);
    assert Misses(hash, Elems(Keys(lru)), [t]) == if k in Keys(lru) then [] else [t];
    assert GetAll(lru, [k]) == Get(lru, k);
    if k !in Keys(lru) {
      var vs := Vectors(vector, [t]);
      assert vs[..0] == [];
      assert PutAll(lru, cap, [k], vs) == Put(lru, cap, k, vector(t));
    }
  }
}
