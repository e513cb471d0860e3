/**
 The locked part of the caching embedder: a linked list and a map from digests
 to its elements, with get and put.
 */
module EmbedCache {
  import opened Wrappers
  import opened Ordering
  import opened Lru

  type Digest = Bytes

  /** The contents of a float slice, which may be nil. */
  datatype Vec = Nil | Floats(elems: seq<real>)

  ghost function Contents(a: array?<real>): Vec
    reads a
  {
    if a == null then Nil else Floats(a[..])
  }

  function Lookup<K(==), V>(lru: seq<Slot<K, V>>, k: K): V
    requires k in Keys(lru)
  {
    lru[IndexOf(Keys(lru), k)].value
  }

  class Entry {
    const key: Digest
    var vec: array?<real>

    constructor (key: Digest, vec: array?<real>)
      ensures this.key == key && this.vec == vec
    {
      this.key, this.vec := key, vec;
    }
  }

  function KeysOf(es: seq<Entry>): (ks: seq<Digest>)
    ensures |ks| == |es| && forall i :: 0 <= i < |es| ==> ks[i] == es[i].key
  {
    seq(|es|, i requires 0 <= i < |es| => es[i].key)
  }

  /** The list and the map hold the same entries, and no digest twice. */
  ghost predicate Linked(es: seq<Entry>, items: map<Digest, Entry>)
  {
    var linked :=
      if es == [] then items == map[]
      else es[0].key in items && items[es[0].key] == es[0] && Linked(es[1..], items - {es[0].key});
    linked
  }

  lemma {:induction false} LinkedEntries(es: seq<Entry>, items: map<Digest, Entry>)
    requires Linked(es, items)
    ensures forall e :: e in es ==> e.key in items && items[e.key] == e
    ensures forall k :: k in items ==> items[k] in es && items[k].key == k
  {
    if es != [] {
      var rest := items - {es[0].key};
      LinkedEntries(es[1..], rest);
      assert forall e :: e in es ==> e == es[0] || e in es[1..];
      assert forall k :: k in items ==> k == es[0].key || k in rest;
    }
  }

  lemma {:induction false} LinkedDistinct(es: seq<Entry>, items: map<Digest, Entry>)
    requires Linked(es, items)
    ensures Distinct(KeysOf(es)) && |items| == |es|
  {
    if es != [] {
      var e, rest := es[0], items - {es[0].key};
      LinkedDistinct(es[1..], rest);
      LinkedEntries(es[1..], rest);
      assert items == rest[e.key := e];
      forall i, j | 0 <= i < j < |es| ensures KeysOf(es)[i] != KeysOf(es)[j] {
        assert es[1..][j - 1] == es[j];
        if i == 0 {
          assert es[j] in es[1..];
        } else {
          assert KeysOf(es[1..])[i - 1] == es[i].key && KeysOf(es[1..])[j - 1] == es[j].key;
        }
      }
    }
  }

  lemma ConsLinks(e: Entry, es: seq<Entry>, items: map<Digest, Entry>)
    requires e.key !in items && Linked(es, items)
    ensures Linked([e] + es, items[e.key := e])
  {
    assert ([e] + es)[1..] == es;
    assert items[e.key := e] - {e.key} == items;
  }

  function Without<T>(s: seq<T>, i: nat): seq<T>
    requires i < |s|
  {
    s[..i] + s[i + 1..]
  }

  lemma {:induction false} RemoveKeepsLinks(es: seq<Entry>, items: map<Digest, Entry>, i: nat)
    requires i < |es| && Linked(es, items)
    ensures es[i].key in items && items[es[i].key] == es[i]
    ensures Linked(Without(es, i), items - {es[i].key})
  {
    if i == 0 {
      assert Without(es, 0) == es[1..];
    } else {
      var e := es[0];
      RemoveKeepsLinks(es[1..], items - {e.key}, i - 1);
      assert Without(es, i) == [e] + Without(es[1..], i - 1);
      ConsLinks(e, Without(es[1..], i - 1), items - {e.key} - {es[i].key});
      assert (items - {e.key} - {es[i].key})[e.key := e] == items - {es[i].key};
    }
  }

  lemma FrontKeepsLinks(es: seq<Entry>, items: map<Digest, Entry>, i: nat)
    requires i < |es| && Linked(es, items)
    ensures Linked(ToFront(es, i, es[i]), items)
  {
    RemoveKeepsLinks(es, items, i);
    ConsLinks(es[i], Without(es, i), items - {es[i].key});
    assert (items - {es[i].key})[es[i].key := es[i]] == items;
    assert ToFront(es, i, es[i]) == [es[i]] + Without(es, i);
  }

  /** The map finds a digest where the list has it, at the one place it can be. */
  lemma LinkedIndex(es: seq<Entry>, items: map<Digest, Entry>, k: Digest)
    requires Linked(es, items)
    ensures k in items <==> k in KeysOf(es)
    ensures k in items ==> var i := IndexOf(es, items[k]); i < |es| && IndexOf(KeysOf(es), k) == i
  {
    LinkedEntries(es, items);
    LinkedDistinct(es, items);
    if k in items {
      var i := IndexOf(es, items[k]);
      assert KeysOf(es)[i] == k;
    }
    if k in KeysOf(es) {
      assert es[IndexOf(KeysOf(es), k)] in es;
    }
  }

  /** The private arrays behind some entries are among `arrays`, and `m` lists what the entries hold. */
  ghost predicate Mirrors(es: seq<Entry>, m: seq<Slot<Digest, Vec>>, arrays: set<array<real>>)
    reads es, arrays
  {
    var mirrored :=
      if es == [] then m == []
      else
        && m != [] && (es[0].vec != null ==> es[0].vec in arrays)
        && m[0] == Slot(es[0].key, Contents(es[0].vec))
        && Mirrors(es[1..], m[1..], arrays);
    mirrored
  }

  lemma {:induction false} MirrorsMeaning(es: seq<Entry>, m: seq<Slot<Digest, Vec>>, arrays: set<array<real>>)
    requires Mirrors(es, m, arrays)
    ensures |m| == |es| && Keys(m) == KeysOf(es)
    ensures forall i :: 0 <= i < |es| ==> m[i].value == Contents(es[i].vec)
  {
    if es != [] {
      MirrorsMeaning(es[1..], m[1..], arrays);
      forall i | 0 <= i < |es| ensures m[i] == Slot(es[i].key, Contents(es[i].vec)) {
        if i > 0 {
          assert m[1..][i - 1] == m[i] && es[1..][i - 1] == es[i];
          assert Keys(m[1..])[i - 1] == KeysOf(es[1..])[i - 1];
        }
      }
    }
  }

  function ArrayOf(vec: array?<real>): set<array<real>>
  {
    if vec == null then {} else {vec}
  }

  lemma {:induction false} MoreArrays(es: seq<Entry>, m: seq<Slot<Digest, Vec>>, arrays: set<array<real>>,
                                      more: set<array<real>>)
    requires Mirrors(es, m, arrays) && arrays <= more
    ensures Mirrors(es, m, more)
  {
    if es != [] {
      MoreArrays(es[1..], m[1..], arrays, more);
    }
  }

  lemma ConsMirrors(e: Entry, es: seq<Entry>, m: seq<Slot<Digest, Vec>>, arrays: set<array<real>>)
    requires Mirrors(es, m, arrays)
    ensures Mirrors([e] + es, [Slot(e.key, Contents(e.vec))] + m, arrays + ArrayOf(e.vec))
  {
    MoreArrays(es, m, arrays, arrays + ArrayOf(e.vec));
    assert ([e] + es)[1..] == es && ([Slot(e.key, Contents(e.vec))] + m)[1..] == m;
  }

  lemma {:induction false} RemoveMirrors(es: seq<Entry>, m: seq<Slot<Digest, Vec>>, arrays: set<array<real>>, i: nat)
    requires i < |es| && Mirrors(es, m, arrays)
    ensures i < |m| && m[i] == Slot(es[i].key, Contents(es[i].vec)) && ArrayOf(es[i].vec) <= arrays
    ensures Mirrors(Without(es, i), Without(m, i), arrays)
  {
    if i == 0 {
      assert Without(es, 0) == es[1..] && Without(m, 0) == m[1..];
    } else {
      MirrorsMeaning(es, m, arrays);
      RemoveMirrors(es[1..], m[1..], arrays, i - 1);
      ConsMirrors(es[0], Without(es[1..], i - 1), Without(m[1..], i - 1), arrays);
      assert Without(es, i) == [es[0]] + Without(es[1..], i - 1);
      assert Without(m, i) == [m[0]] + Without(m[1..], i - 1);
      assert arrays + ArrayOf(es[0].vec) == arrays;
    }
  }

  lemma FrontMirrors(es: seq<Entry>, m: seq<Slot<Digest, Vec>>, arrays: set<array<real>>, i: nat)
    requires i < |es| && Mirrors(es, m, arrays)
    ensures i < |m| && Mirrors(ToFront(es, i, es[i]), ToFront(m, i, m[i]), arrays)
  {
    RemoveMirrors(es, m, arrays, i);
    ConsMirrors(es[i], Without(es, i), Without(m, i), arrays);
    assert ToFront(es, i, es[i]) == [es[i]] + Without(es, i);
    assert ToFront(m, i, m[i]) == [m[i]] + Without(m, i);
    assert arrays + ArrayOf(es[i].vec) == arrays;
  }

  class Cache {
    const cap: nat
    var ll: seq<Entry>               // front = most recently used
    var items: map<Digest, Entry>
    ghost var model: seq<Slot<Digest, Vec>>  // the cache as a value: slots front to back
    ghost var arrays: set<array<real>>       // holds every array behind a cached vector
    ghost var entries: set<Entry>            // holds every entry of the list

    /** The list and the map are in bijection, and `model` is what they hold. */
    ghost predicate Wired()
      reads this, entries, arrays
    {
      var wired := (forall e :: e in ll ==> e in entries) && Linked(ll, items) && Mirrors(ll, model, arrays);
      wired
    }

    ghost predicate Valid()
      reads this, entries, arrays
    {
      var valid := 0 < cap && |ll| <= cap && Wired();
      valid
    }

    constructor (cap: nat)
      requires 0 < cap
      ensures Valid() && model == [] && arrays == {} && entries == {} && this.cap == cap
    {
      this.cap := cap;
      ll, items, model, arrays, entries := [], map[], [], {}, {};
    }

    method MoveToFront(i: nat)
      requires Wired() && i < |ll|
      modifies this
      ensures Wired() && arrays == old(arrays) && entries == old(entries) && items == old(items)
      ensures ll == ToFront(old(ll), i, old(ll)[i])
      ensures i < |old(model)| && model == ToFront(old(model), i, old(model)[i])
    {
      FrontKeepsLinks(ll, items, i);
      FrontMirrors(ll, model, arrays, i);
      ll := ToFront(ll, i, ll[i]);
      model := ToFront(model, i, model[i]);
    }

    method PushFront(el: Entry)
      requires Wired() && el.key !in items
      modifies this
      ensures Wired() && ll == [el] + old(ll) && items == old(items)[el.key := el]
      ensures arrays == old(arrays) + ArrayOf(el.vec) && entries == old(entries) + {el}
      ensures model == [Slot(el.key, Contents(el.vec))] + old(model)
    {
      ConsLinks(el, ll, items);
      ConsMirrors(el, ll, model, arrays);
      ll := [el] + ll;
      items := items[el.key := el];
      model := [Slot(el.key, Contents(el.vec))] + model;
      arrays, entries := arrays + ArrayOf(el.vec), entries + {el};
    }

    method RemoveBack()
      requires Wired() && ll != []
      modifies this
      ensures Wired() && arrays == old(arrays) && entries == old(entries)
      ensures ll == old(ll)[..|old(ll)| - 1] && |old(model)| == |old(ll)| && model == old(model)[..|old(ll)| - 1]
    {
      MirrorsMeaning(ll, model, arrays);
      RemoveKeepsLinks(ll, items, |ll| - 1);
      RemoveMirrors(ll, model, arrays, |ll| - 1);
      var back := ll[|ll| - 1];
      model := Without(model, |ll| - 1);
      ll := Without(ll, |ll| - 1);
      items := items - {back.key};
    }

    /** Replace the vector of the front entry. */
    method SetFront(vec: array?<real>)
      requires Wired() && ll != []
      modifies this, ll[0]
      ensures Wired() && ll == old(ll) && items == old(items)
      ensures arrays == old(arrays) + ArrayOf(vec) && entries == old(entries)
      ensures old(model) != [] && model == [Slot(ll[0].key, Contents(vec))] + old(model)[1..]
    {
      var el, rest := ll[0], ll[1..];
      assert el !in rest by {
        LinkedEntries(rest, items - {el.key});
      }
      el.vec := vec;
      assert Mirrors(rest, model[1..], arrays);
      ConsMirrors(el, rest, model[1..], arrays);
      assert ll == [el] + rest;
      model := [Slot(el.key, Contents(vec))] + model[1..];
      arrays := arrays + ArrayOf(vec);
    }

    method Get(k: Digest) returns (vec: array?<real>, ok: bool)
      requires Valid()
      modifies this
      ensures Valid() && model == Lru.Get(old(model), k)
      ensures arrays == old(arrays) && entries == old(entries)
      ensures ok <==> k in Keys(old(model))
      ensures ok ==> Contents(vec) == Lookup(old(model), k)
    {
      MirrorsMeaning(ll, model, arrays);
      LinkedIndex(ll, items, k);
      if k !in items {
        return null, false;
      }
      var el := items[k];
      var i := IndexOf(ll, el);
      MoveToFront(i);
      return el.vec, true;
    }

    method Put(k: Digest, vec: array?<real>)
      requires Valid()
      modifies this, entries
      ensures Valid() && model == Lru.Put(old(model), cap, k, Contents(vec))
      ensures arrays == old(arrays) + ArrayOf(vec)
      ensures fresh(entries - old(entries))
    {
      MirrorsMeaning(ll, model, arrays);
      LinkedIndex(ll, items, k);
      if k in items {
        var i := IndexOf(ll, items[k]);
        FrontSwap(model, i, Slot(k, Contents(vec)));
        MoveToFront(i);
        SetFront(vec);
      } else {
        var el := new Entry(k, vec);
        PushFront(el);
        if |ll| > cap {
          RemoveBack();
        }
      }
    }
  }
}
