/**
 The bounded LRU list of the caching embedder as a value: slots front to back,
 most recently used first, and what a whole history of accesses leaves in it.
 */
module Lru {
  import opened Ordering

  datatype Slot<K, V> = Slot(key: K, value: V)

  function Keys<K, V>(lru: seq<Slot<K, V>>): (ks: seq<K>)
    ensures |ks| == |lru|
  {
    seq(|lru|, i requires 0 <= i < |lru| => lru[i].key)
  }

  function IndexOf<K(==)>(ks: seq<K>, k: K): (i: nat)
    ensures i <= |ks| && (i < |ks| <==> k in ks) && (i < |ks| ==> ks[i] == k) && k !in ks[..i]
  {
    if ks == [] || ks[0] == k then 0 else
      var i := 1 + IndexOf(ks[1..], k);
      assert ks[..i] == [ks[0]] + ks[1..][..i - 1];
      i
  }

  /** Remove the element at `i` and put `x` in front. */
  function ToFront<T>(s: seq<T>, i: nat, x: T): seq<T>
    requires i < |s|
  {
    [x] + s[..i] + s[i + 1..]
  }

  lemma FrontKeepsElems<T>(s: seq<T>, i: nat)
    requires i < |s|
    ensures Elems(ToFront(s, i, s[i])) == Elems(s)
    ensures Distinct(s) ==> Distinct(ToFront(s, i, s[i]))
  {
    assert s == s[..i] + [s[i]] + s[i + 1..];
  }

  lemma FrontSwap<T>(s: seq<T>, i: nat, x: T)
    requires i < |s|
    ensures [x] + ToFront(s, i, s[i])[1..] == ToFront(s, i, x)
  {
  }

  /** The effect of get on the list: a hit moves to the front, a miss changes nothing. */
  function Get<K(==), V>(lru: seq<Slot<K, V>>, k: K): seq<Slot<K, V>>
  {
    var i := IndexOf(Keys(lru), k);
    if i < |lru| then ToFront(lru, i, lru[i]) else lru
  }

  /** The effect of put: replace and move to the front, or insert and evict the back slot when over capacity. */
  function Put<K(==), V>(lru: seq<Slot<K, V>>, cap: nat, k: K, v: V): seq<Slot<K, V>>
  {
    var i := IndexOf(Keys(lru), k);
    if i < |lru| then ToFront(lru, i, Slot(k, v))
    else
      var longer := [Slot(k, v)] + lru;
      if |longer| > cap then longer[..|longer| - 1] else longer
  }

  // ----- Recency: the specification of what an LRU cache should hold -----

  /** Every distinct element of a history, the most recently touched first. */
  function Recency<K(==)>(touched: seq<K>): seq<K>
  {
    if touched == [] then []
    else Touch(Recency(touched[..|touched| - 1]), touched[|touched| - 1])
  }

  function Touch<K(==)>(order: seq<K>, k: K): seq<K>
  {
    var i := IndexOf(order, k);
    if i < |order| then ToFront(order, i, k) else [k] + order
  }

  function Take<T>(s: seq<T>, n: nat): seq<T>
  {
    if |s| <= n then s else s[..n]
  }

  /** The position just after the last occurrence of `k`; 0 when it never occurs. */
  function LastTouch<K(==)>(touched: seq<K>, k: K): (n: nat)
    ensures n <= |touched| && (n > 0 <==> k in touched)
    ensures n > 0 ==> touched[n - 1] == k
    ensures forall j :: n <= j < |touched| ==> touched[j] != k
  {
    if touched == [] then 0
    else if touched[|touched| - 1] == k then |touched|
    else
      var n := LastTouch(touched[..|touched| - 1], k);
      assert touched == touched[..|touched| - 1] + [touched[|touched| - 1]];
      n
  }

  lemma LastTouchSnoc<K(!new)>(touched: seq<K>, k: K, x: K)
    ensures LastTouch(touched + [k], x) == if x == k then |touched| + 1 else LastTouch(touched, x)
  {
    assert (touched + [k])[..|touched|] == touched;
  }

  /** The elements are listed by strictly decreasing time of last touch. */
  ghost predicate LatestFirst<K(!new)>(touched: seq<K>, order: seq<K>)
  {
    forall i, j :: 0 <= i < j < |order| ==> LastTouch(touched, order[i]) > LastTouch(touched, order[j])
  }

  lemma TouchIsLatest<K(!new)>(touched: seq<K>, order: seq<K>, k: K)
    requires Distinct(order) && LatestFirst(touched, order)
    ensures LatestFirst(touched + [k], Touch(order, k))
  {
    var r := Touch(order, k);
    TouchKeepsDistinct(order, k);
    TouchShift(order, k);
    forall i, j | 0 <= i < j < |r| ensures LastTouch(touched + [k], r[i]) > LastTouch(touched + [k], r[j]) {
      LastTouchSnoc(touched, k, r[i]);
      LastTouchSnoc(touched, k, r[j]);
    }
  }

  /** Recency is the duplicate-free list of what was touched, by strictly decreasing time of last touch. */
  lemma {:induction false} RecencyMeaning<K(!new)>(touched: seq<K>)
    ensures Distinct(Recency(touched)) && Elems(Recency(touched)) == Elems(touched)
    ensures LatestFirst(touched, Recency(touched))
  {
    if touched != [] {
      var before, k := touched[..|touched| - 1], touched[|touched| - 1];
      RecencyMeaning(before);
      TouchKeepsDistinct(Recency(before), k);
      TouchIsLatest(before, Recency(before), k);
      assert touched == before + [k];
    }
  }

  lemma TouchKeepsDistinct<K(!new)>(order: seq<K>, k: K)
    requires Distinct(order)
    ensures Distinct(Touch(order, k)) && Elems(Touch(order, k)) == Elems(order) + {k}
  {
    var n := IndexOf(order, k);
    if n < |order| {
      FrontKeepsElems(order, n);
    }
  }

  /** Behind the touched element, the others keep their order. */
  lemma TouchShift<K(!new)>(order: seq<K>, k: K)
    ensures Touch(order, k)[0] == k
    ensures forall i {:trigger Touch(order, k)[i]} :: 1 <= i < |Touch(order, k)| ==>
              var j := if i <= IndexOf(order, k) then i - 1 else i;
              j < |order| && Touch(order, k)[i] == order[j]
  {
  }

  /** What survives in the first `cap` places when one element is touched. */
  lemma TouchTake<K(!new)>(order: seq<K>, cap: nat, k: K)
    requires Distinct(order) && cap > 0
    ensures Take(Touch(order, k), cap) ==
            if k in Take(order, cap) then Touch(Take(order, cap), k) else Take([k] + Take(order, cap), cap)
  {
    var n := IndexOf(order, k);
    InTake(order, cap, k);
    if k in Take(order, cap) {
      assert Take(order, cap)[n] == k;
      assert IndexOf(Take(order, cap), k) == n;
      TakeFront(order, cap, n, k);
    } else if n < |order| {
      assert Take(Touch(order, k), cap) == [k] + order[..cap - 1];
    }
  }

  lemma TakeFront<T>(s: seq<T>, cap: nat, n: nat, x: T)
    requires n < |s| && n < cap
    ensures Take(ToFront(s, n, x), cap) == ToFront(Take(s, cap), n, x)
  {
  }

  lemma InTake<K(!new)>(s: seq<K>, cap: nat, k: K)
    ensures k in Take(s, cap) <==> IndexOf(s, k) < |s| && IndexOf(s, k) < cap
  {
    var n := IndexOf(s, k);
    if n < |s| && n < cap {
      assert Take(s, cap)[n] == k;
    } else if cap < |s| {
      assert k !in s[..cap] by {
        assert s[..n][..cap] == s[..cap];
      }
    }
  }

  lemma RecencySnoc<K(!new)>(touched: seq<K>, k: K)
    ensures Recency(touched + [k]) == Touch(Recency(touched), k)
  {
    assert (touched + [k])[..|touched|] == touched;
  }

  lemma GetKeys<K(!new), V>(lru: seq<Slot<K, V>>, k: K)
    ensures Keys(Get(lru, k)) == if k in Keys(lru) then Touch(Keys(lru), k) else Keys(lru)
  {
    var i := IndexOf(Keys(lru), k);
    if i < |lru| {
      FrontKeys(lru, i, lru[i]);
    }
  }

  lemma FrontKeys<K(!new), V>(lru: seq<Slot<K, V>>, i: nat, x: Slot<K, V>)
    requires i < |lru|
    ensures Keys(ToFront(lru, i, x)) == ToFront(Keys(lru), i, x.key)
  {
  }

  lemma PutKeys<K(!new), V>(lru: seq<Slot<K, V>>, cap: nat, k: K, v: V)
    requires |lru| <= cap
    ensures Keys(Put(lru, cap, k, v)) == if k in Keys(lru) then Touch(Keys(lru), k) else Take([k] + Keys(lru), cap)
  {
    var i := IndexOf(Keys(lru), k);
    if i < |lru| {
      FrontKeys(lru, i, Slot(k, v));
    } else {
      assert Keys([Slot(k, v)] + lru) == [k] + Keys(lru);
    }
  }

  /** A get that hits counts as a touch; one that misses leaves the cache as it was. */
  lemma GetIsTouch<K(!new), V>(lru: seq<Slot<K, V>>, cap: nat, touched: seq<K>, k: K)
    requires cap > 0 && Keys(lru) == Take(Recency(touched), cap)
    ensures k in Keys(lru) ==> Keys(Get(lru, k)) == Take(Recency(touched + [k]), cap)
    ensures k !in Keys(lru) ==> Get(lru, k) == lru
  {
    var order := Recency(touched);
    assert Distinct(order) by { RecencyMeaning(touched); }
    RecencySnoc(touched, k);
    TouchTake(order, cap, k);
    GetKeys(lru, k);
  }

  /** A put counts as a touch, whether it replaces, inserts or evicts. */
  lemma PutIsTouch<K(!new), V>(lru: seq<Slot<K, V>>, cap: nat, touched: seq<K>, k: K, v: V)
    requires cap > 0 && Keys(lru) == Take(Recency(touched), cap)
    ensures Keys(Put(lru, cap, k, v)) == Take(Recency(touched + [k]), cap)
  {
    var order := Recency(touched);
    assert Distinct(order) by { RecencyMeaning(touched); }
    RecencySnoc(touched, k);
    TouchTake(order, cap, k);
    PutKeys(lru, cap, k, v);
  }

  // ----- Runs of successful single-text calls -----

  /** One single-text Embed call that succeeds: get, and on a miss embed and put. */
  function Access<K(==), V>(lru: seq<Slot<K, V>>, cap: nat, k: K, v: V): seq<Slot<K, V>>
  {
    if k in Keys(lru) then Get(lru, k) else Put(lru, cap, k, v)
  }

  function Run<K(==), V>(cap: nat, history: seq<K>, value: K -> V): seq<Slot<K, V>>
  {
    if history == [] then []
    else
      var k := history[|history| - 1];
      Access(Run(cap, history[..|history| - 1], value), cap, k, value(k))
  }

  /** The cache holds exactly the `cap` most recently embedded distinct texts, in recency order. */
  lemma {:induction false} LruExactness<K(!new), V>(cap: nat, history: seq<K>, value: K -> V)
    requires cap > 0
    ensures Keys(Run(cap, history, value)) == Take(Recency(history), cap)
  {
    if history != [] {
      var before, k := history[..|history| - 1], history[|history| - 1];
      LruExactness(cap, before, value);
      GetIsTouch(Run(cap, before, value), cap, before, k);
      PutIsTouch(Run(cap, before, value), cap, before, k, value(k));
      assert before + [k] == history;
    }
  }

  /** On the same run a smaller cache is a prefix of a larger one, so the larger never misses where the smaller hits. */
  lemma Inclusion<K(!new), V>(small: nat, large: nat, history: seq<K>, value: K -> V)
    requires 0 < small <= large
    ensures Keys(Run(small, history, value)) <= Keys(Run(large, history, value))
    ensures Keys(Run(small, history, value)) == Take(Keys(Run(large, history, value)), small)
    ensures forall k :: k in Keys(Run(small, history, value)) ==> k in Keys(Run(large, history, value))
  {
    LruExactness(small, history, value);
    LruExactness(large, history, value);
  }

  lemma {:induction false} DistinctSize<T(!new)>(s: seq<T>)
    requires Distinct(s)
    ensures |Elems(s)| == |s|
  {
    if s != [] {
      assert forall i :: 0 <= i < |s[1..]| ==> s[1..][i] == s[i + 1] && s[0] != s[i + 1];
      DistinctSize(s[1..]);
      assert Elems(s) == {s[0]} + Elems(s[1..]);
    }
  }

  lemma AheadTouchedSince<K(!new)>(touched: seq<K>, n: nat, i: nat)
    requires i < n < |Recency(touched)|
    ensures Recency(touched)[i] in touched[LastTouch(touched, Recency(touched)[n])..]
  {
    RecencyMeaning(touched);
    var x, last := Recency(touched)[i], LastTouch(touched, Recency(touched)[n]);
    var j := LastTouch(touched, x);
    assert j > last && touched[j - 1] == x;
    assert touched[last..][j - 1 - last] == x;
  }

  lemma TouchedSinceAhead<K(!new)>(touched: seq<K>, n: nat, j: nat)
    requires n < |Recency(touched)| && LastTouch(touched, Recency(touched)[n]) <= j < |touched|
    ensures touched[j] in Recency(touched)[..n]
  {
    RecencyMeaning(touched);
    var r, x := Recency(touched), touched[j];
    assert x in Elems(touched) && x in Elems(r);
    var i := IndexOf(r, x);
    assert LastTouch(touched, r[i]) > j;
    assert i < n;
    assert r[..n][i] == x;
  }

  /** The elements ahead of the one at `n` are those touched after its last touch. */
  lemma AheadIsSince<K(!new)>(touched: seq<K>, n: nat)
    requires n < |Recency(touched)|
    ensures Elems(Recency(touched)[..n]) == Elems(touched[LastTouch(touched, Recency(touched)[n])..])
  {
    var ahead, last := Recency(touched)[..n], LastTouch(touched, Recency(touched)[n]);
    forall x | x in touched[last..] ensures x in ahead {
      var j :| 0 <= j < |touched| - last && touched[last..][j] == x;
      TouchedSinceAhead(touched, n, last + j);
    }
    forall x | x in ahead ensures x in touched[last..] {
      var i :| 0 <= i < n && ahead[i] == x;
      AheadTouchedSince(touched, n, i);
    }
  }

  /** A text hits exactly when it was embedded before and fewer than `cap` distinct texts were embedded since. */
  lemma HitDistance<K(!new), V>(cap: nat, history: seq<K>, value: K -> V, k: K)
    requires cap > 0
    ensures k in Keys(Run(cap, history, value)) <==>
              k in history && |Elems(history[LastTouch(history, k)..])| < cap
  {
    LruExactness(cap, history, value);
    var r := Recency(history);
    var n := IndexOf(r, k);
    assert Distinct(r) && (k in Elems(r) <==> k in Elems(history)) by { RecencyMeaning(history); }
    InTake(r, cap, k);
    if n < |r| {
      AheadIsSince(history, n);
      DistinctSize(r[..n]);
    }
  }
}
