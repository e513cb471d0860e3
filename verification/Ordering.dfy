/**
 The order in which Go compares strings, and what sorting by a strict total
 order determines: at most one strictly sorted sequence has given elements.
 */
module Ordering {

  predicate Less(a: string, b: string)
  {
    |b| != 0 &&
    (|a| == 0 || a[0] < b[0] || (a[0] == b[0] && Less(a[1..], b[1..])))
  }

  lemma {:induction false} LessTrichotomy(a: string, b: string)
    ensures a == b || Less(a, b) || Less(b, a)
    ensures Less(a, b) ==> a != b && !Less(b, a)
  {
    if |a| != 0 && |b| != 0 && a[0] == b[0] {
      LessTrichotomy(a[1..], b[1..]);
      assert a == [a[0]] + a[1..] && b == [b[0]] + b[1..];
    }
  }

  lemma {:induction false} LessTransitive(a: string, b: string, c: string)
    requires Less(a, b) && Less(b, c)
    ensures Less(a, c)
  {
    if |a| != 0 && a[0] == b[0] == c[0] {
      LessTransitive(a[1..], b[1..], c[1..]);
    }
  }

  /** `less` orders the elements of `s` strictly and totally. */
  ghost predicate StrictTotalOn<T(!new)>(less: (T, T) -> bool, s: set<T>)
  {
    && (forall x, y :: x in s && y in s && x != y ==> less(x, y) || less(y, x))
    && (forall x, y :: x in s && y in s && less(x, y) ==> !less(y, x))
    && (forall x, y, z :: x in s && y in s && z in s && less(x, y) && less(y, z) ==> less(x, z))
  }

  /** `less` orders the elements of `s` up to ties, as sort.Slice demands. */
  ghost predicate WeakOn<T(!new)>(less: (T, T) -> bool, s: set<T>)
  {
    && (forall x, y :: x in s && y in s && less(x, y) ==> !less(y, x))
    && (forall x, y, z :: x in s && y in s && z in s && less(x, z) ==> less(x, y) || less(y, z))
  }

  lemma StrictTotalIsWeak<T(!new)>(less: (T, T) -> bool, s: set<T>)
    requires StrictTotalOn(less, s)
    ensures WeakOn(less, s)
  {
    forall x, y, z | x in s && y in s && z in s && less(x, z) ensures less(x, y) || less(y, z) {
      if x != y && !less(x, y) {
        assert less(y, x);
      }
    }
  }

  lemma LessIsStrictTotal(s: set<string>)
    ensures StrictTotalOn(Less, s)
  {
    forall x, y | x in s && y in s
      ensures x != y ==> Less(x, y) || Less(y, x)
      ensures Less(x, y) ==> !Less(y, x)
    {
      LessTrichotomy(x, y);
    }
    forall x, y, z | x in s && y in s && z in s && Less(x, y) && Less(y, z)
      ensures Less(x, z)
    {
      LessTransitive(x, y, z);
    }
  }

  function Elems<T>(s: seq<T>): set<T>
  {
    set x | x in s
  }

  ghost predicate SortedBy<T(!new)>(less: (T, T) -> bool, s: seq<T>)
  {
    forall i, j :: 0 <= i < j < |s| ==> less(s[i], s[j])
  }

  ghost predicate Distinct<T>(s: seq<T>)
  {
    forall i, j :: 0 <= i < j < |s| ==> s[i] != s[j]
  }

  lemma HeadFirst<T(!new)>(less: (T, T) -> bool, s: seq<T>)
    requires SortedBy(less, s)
    ensures s == [] || (s[0] in Elems(s) && forall x :: x in s ==> x == s[0] || less(s[0], x))
  {
  }

  /** Two strictly sorted sequences over the same elements are the same sequence. */
  lemma {:induction false} SortedUnique<T(!new)>(less: (T, T) -> bool, s: seq<T>, t: seq<T>)
    requires StrictTotalOn(less, Elems(s))
    requires SortedBy(less, s) && SortedBy(less, t)
    requires Elems(s) == Elems(t)
    ensures s == t
    decreases |s|
  {
    HeadFirst(less, s);
    HeadFirst(less, t);
    if s != [] {
      SortedTail(less, s);
      SortedTail(less, t);
      SortedUnique(less, s[1..], t[1..]);
      assert s == [s[0]] + s[1..] && t == [t[0]] + t[1..];
    }
  }

  lemma SortedTail<T(!new)>(less: (T, T) -> bool, s: seq<T>)
    requires s != [] && SortedBy(less, s) && forall x :: x in s ==> !less(x, x)
    ensures SortedBy(less, s[1..]) && Elems(s[1..]) == Elems(s) - {s[0]}
  {
    forall x | x in s[1..] ensures x != s[0] {
      var i :| 0 <= i < |s| - 1 && s[1..][i] == x;
      assert less(s[0], s[i + 1]);
    }
    assert forall x :: x in s ==> x == s[0] || x in s[1..];
  }

  /** The first `n` elements are in order, but for the one at `m`, which is still sinking to its place. */
  ghost predicate SortedExcept<T(!new)>(less: (T, T) -> bool, s: seq<T>, n: nat, m: int)
    requires n <= |s|
  {
    forall i, j :: 0 <= i < j < n && j != m ==> !less(s[j], s[i])
  }

  lemma SinkStep<T(!new)>(less: (T, T) -> bool, s: seq<T>, n: nat, m: nat)
    requires 0 < m < n <= |s| && SortedExcept(less, s, n, m)
    requires !less(s[m - 1], s[m])
    ensures SortedExcept(less, Swapped(s, m), n, m - 1)
  {
    var t := Swapped(s, m);
    forall i, j | 0 <= i < j < n && j != m - 1 ensures !less(t[j], t[i]) {
      var i', j' := if i == m then m - 1 else if i == m - 1 then m else i, if j == m then m - 1 else j;
      assert t[i] == s[i'] && t[j] == s[j'];
      assert (j == m && i == m - 1) || i' < j';
    }
  }

  lemma SinkDone<T(!new)>(less: (T, T) -> bool, s: seq<T>, n: nat, m: nat)
    requires m < n <= |s| && SortedExcept(less, s, n, m) && WeakOn(less, Elems(s))
    requires m == 0 || !less(s[m], s[m - 1])
    ensures SortedExcept(less, s, n, -1)
  {
    forall i | 0 <= i < m ensures !less(s[m], s[i]) {
      assert s[i] in Elems(s) && s[m] in Elems(s) && s[m - 1] in Elems(s);
      assert i == m - 1 || !less(s[m - 1], s[i]);
    }
  }

  /** Go's sort.Slice: an in-place insertion sort. */
  lemma NotBoth<T(!new)>(less: (T, T) -> bool, s: seq<T>, i: nat, j: nat)
    requires WeakOn(less, Elems(s)) && i < |s| && j < |s| && less(s[j], s[i])
    ensures !less(s[i], s[j])
  {
    assert s[i] in Elems(s) && s[j] in Elems(s);
  }

  method SortSlice<T(!new)>(a: array<T>, less: (T, T) -> bool)
    requires WeakOn(less, Elems(a[..]))
    modifies a
    ensures multiset(a[..]) == multiset(old(a[..]))
    ensures forall i, j :: 0 <= i < j < a.Length ==> !less(a[j], a[i])
  {
    hide WeakOn;
    for n := 0 to a.Length
      invariant multiset(a[..]) == multiset(old(a[..])) && Elems(a[..]) == old(Elems(a[..]))
      invariant SortedExcept(less, a[..], n, -1)
    {
      var m := n;
      while m > 0 && less(a[m], a[m - 1])
        invariant 0 <= m <= n
        invariant multiset(a[..]) == multiset(old(a[..])) && Elems(a[..]) == old(Elems(a[..]))
        invariant SortedExcept(less, a[..], n + 1, m)
      {
        ghost var s := a[..];
        NotBoth(less, s, m - 1, m);
        SinkStep(less, s, n + 1, m);
        SwapKeepsElems(s, m);
        a[m - 1], a[m] := a[m], a[m - 1];
        assert a[..] == Swapped(s, m);
        m := m - 1;
      }
      SinkDone(less, a[..], n + 1, m);
    }
    assert forall i, j :: 0 <= i < j < a.Length ==> !less(a[..][j], a[..][i]);
  }

  function Swapped<T>(s: seq<T>, m: nat): seq<T>
    requires 0 < m < |s|
  {
    s[m - 1 := s[m]][m := s[m - 1]]
  }

  lemma SwapKeepsElems<T>(s: seq<T>, m: nat)
    requires 0 < m < |s|
    ensures multiset(Swapped(s, m)) == multiset(s) && Elems(Swapped(s, m)) == Elems(s)
  {
    SameElems(Swapped(s, m), s);
  }

  lemma SameElems<T>(s: seq<T>, t: seq<T>)
    requires multiset(s) == multiset(t)
    ensures |s| == |t| && Elems(s) == Elems(t)
  {
    assert |multiset(s)| == |s| && |multiset(t)| == |t|;
    assert forall x :: x in s <==> x in multiset(s);
    assert forall x :: x in t <==> x in multiset(t);
  }

  /** Sorting a duplicate-free slice leaves the strictly sorted sequence of its elements. */
  lemma SortedPermutation<T(!new)>(less: (T, T) -> bool, s: seq<T>, t: seq<T>)
    requires multiset(s) == multiset(t) && Distinct(t)
    requires StrictTotalOn(less, Elems(t))
    requires forall i, j :: 0 <= i < j < |s| ==> !less(s[j], s[i])
    ensures SortedBy(less, s) && Elems(s) == Elems(t)
  {
    SameElems(s, t);
    DistinctPermutation(s, t);
    forall i, j | 0 <= i < j < |s| ensures less(s[i], s[j]) {
      assert s[i] in Elems(t) && s[j] in Elems(t) && s[i] != s[j];
    }
  }

  lemma DistinctPermutation<T(!new)>(s: seq<T>, t: seq<T>)
    requires multiset(s) == multiset(t) && Distinct(t)
    ensures Distinct(s)
  {
    forall i, j | 0 <= i < j < |s| ensures s[i] != s[j] {
      CountAtMostOne(t, s[i]);
      assert s == s[..j] + [s[j]] + s[j + 1..];
      assert s[..j][i] == s[i];
      assert multiset(s)[s[i]] == multiset(s[..j])[s[i]] + multiset([s[j]])[s[i]] + multiset(s[j + 1..])[s[i]];
      assert s[i] in multiset(s[..j]);
    }
  }

  lemma {:induction false} CountAtMostOne<T(!new)>(t: seq<T>, x: T)
    requires Distinct(t)
    ensures multiset(t)[x] <= 1
  {
    if t != [] {
      CountAtMostOne(t[1..], x);
      assert t == [t[0]] + t[1..];
      if t[0] == x {
        assert forall i :: 0 <= i < |t[1..]| ==> t[1..][i] == t[i + 1] && t[0] != t[i + 1];
        assert x !in multiset(t[1..]);
      }
    }
  }

  ghost predicate IsMinimum(m: string, s: set<string>)
  {
    m in s && forall x :: x in s && x != m ==> Less(m, x)
  }

  lemma {:induction false} MinimumExists(s: set<string>)
    requires s != {}
    ensures exists m :: IsMinimum(m, s)
  {
    var x :| x in s;
    if s == {x} {
      assert IsMinimum(x, s);
    } else {
      MinimumExists(s - {x});
      var m :| IsMinimum(m, s - {x});
      LessIsStrictTotal(s);
      assert IsMinimum(if Less(x, m) then x else m, s);
    }
  }

  lemma ConsSorted(m: string, rest: seq<string>, s: set<string>)
    requires IsMinimum(m, s) && SortedBy(Less, rest) && Elems(rest) == s - {m}
    ensures SortedBy(Less, [m] + rest) && Elems([m] + rest) == s
  {
    forall x | x in rest ensures Less(m, x) {
      assert x in Elems(rest);
    }
    assert forall x :: x in rest <==> x in Elems(rest);
    assert forall x :: x in [m] + rest <==> x == m || x in rest;
  }

  /** The elements of a set of strings, in ascending order. */
  ghost function Ascending(s: set<string>): (r: seq<string>)
    ensures SortedBy(Less, r) && Elems(r) == s
  {
    if s == {} then [] else
      MinimumExists(s);
      var m :| IsMinimum(m, s);
      var rest := Ascending(s - {m});
      ConsSorted(m, rest, s);
      [m] + rest
  }

  /** Names of a slice's elements. */
  function Names<T>(s: seq<T>, name: T -> string): (ns: seq<string>)
    ensures |ns| == |s| && forall i :: 0 <= i < |s| ==> ns[i] == name(s[i])
  {
    seq(|s|, i requires 0 <= i < |s| => name(s[i]))
  }

  lemma NamesOrderTotally<T(!new)>(s: seq<T>, name: T -> string)
    requires Distinct(Names(s, name))
    ensures Distinct(s) && StrictTotalOn((x: T, y: T) => Less(name(x), name(y)), Elems(s))
  {
    forall i, j | 0 <= i < j < |s| ensures s[i] != s[j] {
      assert Names(s, name)[i] != Names(s, name)[j];
    }
    var less := (x: T, y: T) => Less(name(x), name(y));
    forall x, y | x in Elems(s) && y in Elems(s)
      ensures x != y ==> less(x, y) || less(y, x)
      ensures less(x, y) ==> !less(y, x)
    {
      var i :| 0 <= i < |s| && s[i] == x;
      var j :| 0 <= j < |s| && s[j] == y;
      assert Names(s, name)[i] == Names(s, name)[j] ==> i == j;
      LessTrichotomy(name(x), name(y));
    }
    forall x, y, z | x in Elems(s) && y in Elems(s) && z in Elems(s) && less(x, y) && less(y, z) ensures less(x, z) {
      LessTransitive(name(x), name(y), name(z));
    }
  }

  /** Sort a slice by name, in place; ties can only come from equal names. */
  method SortByName<T(!new)>(a: array<T>, name: T -> string)
    modifies a
    ensures multiset(a[..]) == multiset(old(a[..]))
    ensures forall i, j :: 0 <= i < j < a.Length ==> !Less(name(a[j]), name(a[i]))
    ensures Distinct(Names(old(a[..]), name)) ==> SortedBy(Less, Names(a[..], name))
  {
    ghost var was := a[..];
    var less := (x: T, y: T) => Less(name(x), name(y));
    NamesOrderWeakly(was, name);
    SortSlice(a, less);
    assert forall i, j :: 0 <= i < j < |a[..]| ==> !less(a[..][j], a[..][i]);
    if Distinct(Names(was, name)) {
      NamesOrderTotally(was, name);
      SortedPermutation(less, a[..], was);
      assert forall i, j :: 0 <= i < j < a.Length ==> less(a[..][i], a[..][j]);
    }
  }

  lemma NamesOrderWeakly<T(!new)>(s: seq<T>, name: T -> string)
    ensures WeakOn((x: T, y: T) => Less(name(x), name(y)), Elems(s))
  {
    var names := set x | x in s :: name(x);
    LessIsStrictTotal(names);
    StrictTotalIsWeak(Less, names);
  }
}
