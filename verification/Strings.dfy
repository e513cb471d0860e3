/** Splitting a string at a separator and joining it up again. */
module Strings {

  function Split(s: string, sep: char): (parts: seq<string>)
    ensures |parts| >= 1
  {
    if s == [] then [[]]
    else
      var rest := Split(s[1..], sep);
      if s[0] == sep then [[]] + rest else [[s[0]] + rest[0]] + rest[1..]
  }

  function Join(parts: seq<string>, sep: char): string
  {
    if parts == [] then ""
    else if |parts| == 1 then parts[0]
    else parts[0] + [sep] + Join(parts[1..], sep)
  }

  lemma {:induction false} SplitWhole(s: string, sep: char)
    ensures sep !in s ==> Split(s, sep) == [s]
    ensures sep in s ==> |Split(s, sep)| >= 2
  {
    if s != [] {
      SplitWhole(s[1..], sep);
      assert s == [s[0]] + s[1..];
    }
  }

  lemma {:induction false} SplitFirst(first: string, rest: string, sep: char)
    requires sep !in first
    ensures Split(first + [sep] + rest, sep) == [first] + Split(rest, sep)
  {
    var s := first + [sep] + rest;
    if first == [] {
      assert s[1..] == rest;
    } else {
      SplitFirst(first[1..], rest, sep);
      assert s[1..] == first[1..] + [sep] + rest;
      assert [first[0]] + first[1..] == first;
      assert ([first[1..]] + Split(rest, sep))[1..] == Split(rest, sep);
    }
  }

  /** The first part can be recovered when it alone is free of the separator. */
  lemma FirstOfJoin(parts: seq<string>, sep: char)
    requires parts != [] && sep !in parts[0]
    ensures Split(Join(parts, sep), sep)[0] == parts[0]
  {
    if |parts| == 1 {
      SplitWhole(parts[0], sep);
    } else {
      SplitFirst(parts[0], Join(parts[1..], sep), sep);
    }
  }

  lemma {:induction false} SplitLast(rest: string, last: string, sep: char)
    requires sep !in last
    ensures Split(rest + [sep] + last, sep)[|Split(rest + [sep] + last, sep)| - 1] == last
  {
    var s := rest + [sep] + last;
    if rest == [] {
      SplitWhole(last, sep);
      assert s[1..] == last;
    } else {
      SplitLast(rest[1..], last, sep);
      assert s[1..] == rest[1..] + [sep] + last;
      SplitWhole(s[1..], sep);
    }
  }

  /** The part after the last separator, and all that comes before, can be recovered. */
  lemma LastPartIsBound(rest1: string, last1: string, rest2: string, last2: string, sep: char)
    requires sep !in last1 && sep !in last2
    ensures rest1 + [sep] + last1 == rest2 + [sep] + last2 <==> rest1 == rest2 && last1 == last2
  {
    SplitLast(rest1, last1, sep);
    SplitLast(rest2, last2, sep);
    var s1, s2 := rest1 + [sep] + last1, rest2 + [sep] + last2;
    if s1 == s2 {
      assert last1 == last2;
      assert s1[..|rest1|] == rest1 && s2[..|rest2|] == rest2;
    }
  }

  /** The part before the first separator, and all that comes after, can be recovered. */
  lemma FirstPartIsBound(first1: string, rest1: string, first2: string, rest2: string, sep: char)
    requires sep !in first1 && sep !in first2
    ensures first1 + [sep] + rest1 == first2 + [sep] + rest2 <==> first1 == first2 && rest1 == rest2
  {
    SplitFirst(first1, rest1, sep);
    SplitFirst(first2, rest2, sep);
    var s1, s2 := first1 + [sep] + rest1, first2 + [sep] + rest2;
    if s1 == s2 {
      assert Split(s1, sep)[0] == first1 && Split(s2, sep)[0] == first2;
      assert s1[|first1| + 1..] == rest1 && s2[|first2| + 1..] == rest2;
    }
  }

  /** One of the strings begins the other. */
  predicate Overlap(a: string, b: string)
  {
    a <= b || b <= a
  }

  /** Two strings can be continued to the same string exactly when one begins the other. */
  lemma ContinueAlike(a: string, b: string)
    ensures (exists x, y :: a + x == b + y) <==> Overlap(a, b)
  {
    if a <= b {
      assert a + b[|a|..] == b + "";
    }
    if b <= a {
      assert a + "" == b + a[|b|..];
    }
    forall x, y | a + x == b + y ensures Overlap(a, b) {
      assert (a + x)[..|a|] == a && (b + y)[..|b|] == b;
    }
  }

  predicate EndsWith(s: string, suffix: string)
  {
    |suffix| <= |s| && s[|s| - |suffix|..] == suffix
  }
}
