/**
 Strings made of constant pieces with something open between each two, as the
 keys of a rule's buckets are: which strings those are, and when two lists of
 pieces can be filled to the same one.
 */
module Patterns {
  import opened Strings

  /** The constant pieces with the values between them. */
  function Fill(pieces: seq<string>, values: seq<string>): string
    requires |pieces| == |values| + 1
  {
    if values == [] then pieces[0] else pieces[0] + values[0] + Fill(pieces[1..], values[1..])
  }

  /** The string can be made of the pieces, with something between each two. */
  predicate Fits(pieces: seq<string>, s: string)
    requires pieces != []
  {
    if |pieces| == 1 then s == pieces[0]
    else pieces[0] <= s && exists i :: |pieces[0]| <= i <= |s| && Fits(pieces[1..], s[i..])
  }

  lemma {:induction false} FillFits(pieces: seq<string>, values: seq<string>)
    requires |pieces| == |values| + 1
    ensures Fits(pieces, Fill(pieces, values))
  {
    if values != [] {
      var s, i := Fill(pieces, values), |pieces[0]| + |values[0]|;
      FillFits(pieces[1..], values[1..]);
      assert s[..|pieces[0]|] == pieces[0];
      assert s[i..] == Fill(pieces[1..], values[1..]);
    }
  }

  lemma {:induction false} FitsIsFilled(pieces: seq<string>, s: string) returns (values: seq<string>)
    requires pieces != [] && Fits(pieces, s)
    ensures |pieces| == |values| + 1 && Fill(pieces, values) == s
  {
    if |pieces| == 1 {
      values := [];
    } else {
      var i :| |pieces[0]| <= i <= |s| && Fits(pieces[1..], s[i..]);
      var rest := FitsIsFilled(pieces[1..], s[i..]);
      values := [s[|pieces[0]|..i]] + rest;
      assert values[1..] == rest;
      assert s == pieces[0] + s[|pieces[0]|..i] + s[i..];
    }
  }

  /** One of the strings ends the other. */
  predicate EndAlike(a: string, b: string)
  {
    EndsWith(a, b) || EndsWith(b, a)
  }

  function Last(pieces: seq<string>): string
    requires pieces != []
  {
    pieces[|pieces| - 1]
  }

  /** Whether two lists of pieces can be filled to the same string. */
  predicate CanMeet(p: seq<string>, q: seq<string>)
    requires p != [] && q != []
  {
    if |p| == 1 then Fits(q, p[0])
    else if |q| == 1 then Fits(p, q[0])
    else Overlap(p[0], q[0]) && EndAlike(Last(p), Last(q))
  }

  /** With `first` and `last` put next to the outer pieces, and nothing elsewhere. */
  function Outer(pieces: seq<string>, first: string, last: string): (values: seq<string>)
    requires |pieces| >= 2
    ensures |pieces| == |values| + 1
  {
    if |pieces| == 2 then [first + last] else [first] + Inner(pieces[1..], last)
  }

  function Inner(pieces: seq<string>, last: string): (values: seq<string>)
    requires |pieces| >= 2
    ensures |pieces| == |values| + 1
  {
    if |pieces| == 2 then [last] else [""] + Inner(pieces[1..], last)
  }

  /** The pieces but for the last, one after another. */
  function Run(pieces: seq<string>): string
    requires pieces != []
  {
    if |pieces| == 1 then "" else pieces[0] + Run(pieces[1..])
  }

  lemma {:induction false} FillInner(pieces: seq<string>, last: string)
    requires |pieces| >= 2
    ensures Fill(pieces, Inner(pieces, last)) == Run(pieces) + last + Last(pieces)
  {
    if |pieces| == 2 {
      assert Run(pieces[1..]) == "";
    } else {
      FillInner(pieces[1..], last);
      assert pieces[0] + "" + (Run(pieces[1..]) + last + Last(pieces)) == Run(pieces) + last + Last(pieces);
    }
  }

  lemma Flatten(a: string, b: string, c: string, d: string, e: string)
    ensures a + b + (c + d + e) == a + b + c + d + e
    ensures a + (b + d) + e == a + b + "" + d + e
  {
  }

  lemma FillCons(piece: string, pieces: seq<string>, value: string, values: seq<string>)
    requires |pieces| == |values| + 1
    ensures Fill([piece] + pieces, [value] + values) == piece + value + Fill(pieces, values)
  {
    assert ([piece] + pieces)[1..] == pieces && ([value] + values)[1..] == values;
  }

  lemma FillOuter(pieces: seq<string>, first: string, last: string)
    requires |pieces| >= 2
    ensures Fill(pieces, Outer(pieces, first, last)) == pieces[0] + first + Run(pieces[1..]) + last + Last(pieces)
  {
    if |pieces| == 2 {
      FillTwo(pieces, first, last);
    } else {
      FillMore(pieces, first, last);
    }
  }

  lemma FillTwo(pieces: seq<string>, first: string, last: string)
    requires |pieces| == 2
    ensures Fill(pieces, Outer(pieces, first, last)) == pieces[0] + first + Run(pieces[1..]) + last + Last(pieces)
  {
    assert Run(pieces[1..]) == "";
    hide Fill, Run;
    FillOne(pieces, first + last);
    Flatten(pieces[0], first, "", last, Last(pieces));
  }

  lemma FillMore(pieces: seq<string>, first: string, last: string)
    requires |pieces| > 2
    ensures Fill(pieces, Outer(pieces, first, last)) == pieces[0] + first + Run(pieces[1..]) + last + Last(pieces)
  {
    hide Fill, Run, Inner;
    FillCons(pieces[0], pieces[1..], first, Inner(pieces[1..], last));
    assert [pieces[0]] + pieces[1..] == pieces && Last(pieces[1..]) == Last(pieces);
    FillInner(pieces[1..], last);
    Flatten(pieces[0], first, Run(pieces[1..]), last, Last(pieces));
  }

  lemma FillOne(pieces: seq<string>, value: string)
    requires |pieces| == 2
    ensures Fill(pieces, [value]) == pieces[0] + value + pieces[1]
  {
    assert [value][1..] == [];
  }

  lemma {:induction false} FilledEnds(pieces: seq<string>, values: seq<string>)
    requires |pieces| == |values| + 1
    ensures pieces[0] <= Fill(pieces, values) && EndsWith(Fill(pieces, values), Last(pieces))
  {
    if values != [] {
      FilledEnds(pieces[1..], values[1..]);
    }
  }

  lemma BothEnd(s: string, a: string, b: string)
    requires EndsWith(s, a) && EndsWith(s, b)
    ensures EndAlike(a, b)
  {
    if |a| <= |b| {
      assert b[|b| - |a|..] == s[|s| - |b|..][|b| - |a|..] == a;
    } else {
      assert a[|a| - |b|..] == s[|s| - |a|..][|a| - |b|..] == b;
    }
  }

  lemma BothBegin(s: string, a: string, b: string)
    requires a <= s && b <= s
    ensures Overlap(a, b)
  {
  }

  /** Where both leave something open, the outer pieces decide. */
  lemma OuterPiecesDecide(p: seq<string>, q: seq<string>) returns (v: seq<string>, w: seq<string>)
    requires |p| >= 2 && |q| >= 2 && p[0] <= q[0] && EndAlike(Last(p), Last(q))
    ensures |p| == |v| + 1 && |q| == |w| + 1 && Fill(p, v) == Fill(q, w)
  {
    assert q[0] == p[0] + q[0][|p[0]|..];
    var d, mp, mq := q[0][|p[0]|..], Run(p[1..]), Run(q[1..]);
    var x, y := FillEnds(Last(p), Last(q));
    v, w := Outer(p, d + mq, x), Outer(q, "", mp + y);
    FillOuter(p, d + mq, x);
    FillOuter(q, "", mp + y);
    SameFilling(p[0], d, mq, mp, x, Last(p), y, Last(q));
  }

  lemma FillEnds(a: string, b: string) returns (x: string, y: string)
    requires EndAlike(a, b)
    ensures x + a == y + b
  {
    if EndsWith(b, a) {
      x, y := b[..|b| - |a|], "";
    } else {
      x, y := "", a[..|a| - |b|];
    }
  }

  lemma SameFilling(p: string, d: string, mq: string, mp: string, x: string, a: string, y: string, b: string)
    requires x + a == y + b
    ensures p + (d + mq) + mp + x + a == p + d + "" + mq + (mp + y) + b
  {
    assert p + (d + mq) + mp + x + a == p + d + mq + mp + (x + a);
    assert p + d + "" + mq + (mp + y) + b == p + d + mq + mp + (y + b);
  }

  lemma CanMeetExactly(p: seq<string>, q: seq<string>)
    requires p != [] && q != []
    ensures (exists v, w :: |p| == |v| + 1 && |q| == |w| + 1 && Fill(p, v) == Fill(q, w)) <==> CanMeet(p, q)
  {
    forall v, w | |p| == |v| + 1 && |q| == |w| + 1 && Fill(p, v) == Fill(q, w) ensures CanMeet(p, q) {
      FillFits(p, v);
      FillFits(q, w);
      FilledEnds(p, v);
      FilledEnds(q, w);
      BothEnd(Fill(p, v), Last(p), Last(q));
      BothBegin(Fill(p, v), p[0], q[0]);
    }
    if CanMeet(p, q) {
      ghost var v, w;
      if |p| == 1 {
        v := [];
        w := FitsIsFilled(q, p[0]);
      } else if |q| == 1 {
        v := FitsIsFilled(p, q[0]);
        w := [];
      } else if p[0] <= q[0] {
        v, w := OuterPiecesDecide(p, q);
      } else {
        w, v := OuterPiecesDecide(q, p);
      }
      assert Fill(p, v) == Fill(q, w);
    }
  }
}
