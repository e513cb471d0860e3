/**
 Reciprocal Rank Fusion: the score of an id is the sum of 1/(60 + rank) over its
 occurrences in the lanes, ranks counted from one. Scores are real numbers.
 */
module Fusion {
  import opened Ordering

  const RRF_K: nat := 60

  /** What an occurrence at a rank, counted from zero, adds to a score. */
  function Gain(rank: nat): (g: real)
    ensures g > 0.0
  {
    1.0 / ((RRF_K + rank + 1) as real)
  }

  /** What one lane adds to the score of an id. */
  function LaneScore(lane: seq<string>, id: string): (s: real)
    ensures s >= 0.0 && (id in lane <==> s > 0.0)
  {
    if lane == [] then 0.0
    else
      var n := |lane| - 1;
      assert lane == lane[..n] + [lane[n]];
      LaneScore(lane[..n], id) + if lane[n] == id then Gain(n) else 0.0
  }

  function Score(lanes: seq<seq<string>>, id: string): (s: real)
    ensures s >= 0.0
  {
    if lanes == [] then 0.0 else Score(lanes[..|lanes| - 1], id) + LaneScore(lanes[|lanes| - 1], id)
  }

  function Ids(lanes: seq<seq<string>>): (ids: set<string>)
  {
    set lane, id | lane in lanes && id in lane :: id
  }

  /** By score, best first, ties by id. */
  function Order(lanes: seq<seq<string>>): (string, string) -> bool
  {
    (x, y) => Score(lanes, x) > Score(lanes, y) || (Score(lanes, x) == Score(lanes, y) && Less(x, y))
  }

  lemma OrderIsStrictTotal(lanes: seq<seq<string>>)
    ensures StrictTotalOn(Order(lanes), Ids(lanes))
  {
    LessIsStrictTotal(Ids(lanes));
  }

  /** The whole fused ranking: every id of the lanes, once, in order. */
  ghost predicate IsRanking(lanes: seq<seq<string>>, full: seq<string>)
  {
    SortedBy(Order(lanes), full) && Elems(full) == Ids(lanes)
  }

  function Cut<T>(s: seq<T>, topK: int): seq<T>
  {
    if 0 < topK < |s| then s[..topK] else s
  }

  /** `scores` is what the lanes give every id in them. */
  ghost predicate ScoresOf(lanes: seq<seq<string>>, scores: map<string, real>)
  {
    var ok := scores.Keys == Ids(lanes) && forall id :: id in scores ==> scores[id] == Score(lanes, id);
    ok
  }

  method RRFFuse(lanes: seq<seq<string>>, topK: int) returns (ids: seq<string>, scores: map<string, real>)
    ensures ScoresOf(lanes, scores)
    ensures exists full :: IsRanking(lanes, full) && ids == Cut(full, topK)
  {
    scores := Accumulate(lanes);
    var listed := ListKeys(scores);
    ghost var was := listed[..];
    OrderIsStrictTotal(lanes);
    StrictTotalIsWeak(Order(lanes), Ids(lanes));
    SortSlice(listed, Order(lanes));
    SortedPermutation(Order(lanes), listed[..], was);
    assert IsRanking(lanes, listed[..]);
    ids := if topK > 0 && topK < listed.Length then listed[..topK] else listed[..];
  }

  /** The outer loop over the lanes. */
  method Accumulate(lanes: seq<seq<string>>) returns (scores: map<string, real>)
    ensures ScoresOf(lanes, scores)
  {
    scores := map[];
    for l := 0 to |lanes|
      invariant ScoresOf(lanes[..l], scores)
    {
      scores := AddLane(lanes[..l], lanes[l], scores);
      assert lanes[..l + 1] == lanes[..l] + [lanes[l]];
    }
    assert lanes[..|lanes|] == lanes;
  }

  /** The inner loop: every occurrence in a lane adds its reciprocal rank. */
  method AddLane(ghost done: seq<seq<string>>, lane: seq<string>, before: map<string, real>)
    returns (scores: map<string, real>)
    requires ScoresOf(done, before)
    ensures ScoresOf(done + [lane], scores)
  {
    scores := before;
    OpenLane(done, scores);
    assert lane[..0] == [];
    for rank := 0 to |lane|
      invariant ScoresOf(done + [lane[..rank]], scores)
    {
      var id := lane[rank];
      AddOccurrence(done, lane[..rank], id, scores);
      assert lane[..rank + 1] == lane[..rank] + [id];
      scores := scores[id := (if id in scores then scores[id] else 0.0) + 1.0 / ((RRF_K + rank + 1) as real)];
    }
    assert lane[..|lane|] == lane;
  }

  /** The keys of a map, once each, in whatever order the map is iterated. */
  method ListKeys(scores: map<string, real>) returns (ids: array<string>)
    ensures fresh(ids) && Distinct(ids[..]) && Elems(ids[..]) == scores.Keys
  {
    var listed: seq<string> := [];
    var left := scores.Keys;
    while left != {}
      invariant Distinct(listed) && Elems(listed) == scores.Keys - left && left <= scores.Keys
      decreases left
    {
      var id :| id in left;
      assert forall x :: x in listed <==> x in Elems(listed);
      assert forall x :: x in listed + [id] <==> x in listed || x == id;
      listed := listed + [id];
      left := left - {id};
    }
    ids := new string[|listed|](i requires 0 <= i < |listed| => listed[i]);
    assert ids[..] == listed;
  }

  lemma OpenLane(done: seq<seq<string>>, scores: map<string, real>)
    requires ScoresOf(done, scores)
    ensures ScoresOf(done + [[]], scores)
  {
    assert (done + [[]])[..|done|] == done;
    assert forall lane :: lane in done + [[]] <==> lane in done || lane == [];
  }

  lemma AddOccurrence(done: seq<seq<string>>, part: seq<string>, id: string, scores: map<string, real>)
    requires ScoresOf(done + [part], scores)
    ensures var before := if id in scores then scores[id] else 0.0;
      ScoresOf(done + [part + [id]], scores[id := before + Gain(|part|)])
  {
    var old_, new_ := done + [part], done + [part + [id]];
    assert old_[..|done|] == done && new_[..|done|] == done;
    assert (part + [id])[..|part|] == part;
    IdsOfSnoc(done, part);
    IdsOfSnoc(done, part + [id]);
    if id !in scores {
      NoScoreOutside(old_, id);
    }
  }

  lemma IdsOfSnoc(done: seq<seq<string>>, lane: seq<string>)
    ensures Ids(done + [lane]) == Ids(done) + Elems(lane)
  {
    assert forall l :: l in done + [lane] <==> l in done || l == lane;
  }

  lemma {:induction false} NoScoreOutside(lanes: seq<seq<string>>, id: string)
    ensures id in Ids(lanes) <==> Score(lanes, id) > 0.0
  {
    if lanes != [] {
      var n := |lanes| - 1;
      NoScoreOutside(lanes[..n], id);
      IdsOfSnoc(lanes[..n], lanes[n]);
      assert lanes == lanes[..n] + [lanes[n]];
    }
  }

  // ----- The result is determined -----

  /** One ranking only, whatever the map's iteration order and the sorting algorithm. */
  lemma RankingIsUnique(lanes: seq<seq<string>>, one: seq<string>, two: seq<string>)
    requires IsRanking(lanes, one) && IsRanking(lanes, two)
    ensures one == two
  {
    OrderIsStrictTotal(lanes);
    SortedUnique(Order(lanes), one, two);
  }

  /** Cutting to topK keeps the best: no dropped id precedes a kept one. */
  lemma CutKeepsTheBest(lanes: seq<seq<string>>, full: seq<string>, topK: int, kept: string, dropped: string)
    requires IsRanking(lanes, full) && kept in Cut(full, topK) && dropped in full && dropped !in Cut(full, topK)
    ensures Order(lanes)(kept, dropped) && !Order(lanes)(dropped, kept)
    ensures |Cut(full, topK)| == topK
  {
    OrderIsStrictTotal(lanes);
    var i :| 0 <= i < |Cut(full, topK)| && Cut(full, topK)[i] == kept;
    var j :| 0 <= j < |full| && full[j] == dropped;
    assert forall k :: 0 <= k < topK < |full| ==> full[k] == Cut(full, topK)[k] != dropped;
    assert kept in Elems(full) && dropped in Elems(full);
  }

  lemma {:induction false} ScoreWithout(lanes: seq<seq<string>>, i: nat, id: string)
    requires i < |lanes|
    ensures Score(lanes, id) == Score(lanes[..i] + lanes[i + 1..], id) + LaneScore(lanes[i], id)
    decreases |lanes|
  {
    var n, rest := |lanes| - 1, lanes[..i] + lanes[i + 1..];
    if i == n {
      assert rest == lanes[..n];
    } else {
      ScoreWithout(lanes[..n], i, id);
      assert rest[..|rest| - 1] == lanes[..n][..i] + lanes[..n][i + 1..];
      assert rest[|rest| - 1] == lanes[n];
    }
  }

  lemma Removed<T>(s: seq<T>, i: nat)
    requires i < |s|
    ensures multiset(s[..i] + s[i + 1..]) == multiset(s) - multiset{s[i]}
  {
    assert s == s[..i] + [s[i]] + s[i + 1..];
  }

  lemma {:induction false} PermutedScore(one: seq<seq<string>>, two: seq<seq<string>>, id: string)
    requires multiset(one) == multiset(two)
    ensures Score(one, id) == Score(two, id)
    decreases |one|
  {
    SameElems(one, two);
    if one != [] {
      var n := |one| - 1;
      assert one[n] in multiset(two);
      var i :| 0 <= i < |two| && two[i] == one[n];
      var rest := two[..i] + two[i + 1..];
      Removed(one, n);
      Removed(two, i);
      assert one[..n] + one[n + 1..] == one[..n];
      PermutedScore(one[..n], rest, id);
      ScoreWithout(two, i, id);
    }
  }

  /** The order of the lanes does not matter. */
  lemma LaneOrderIsIrrelevant(one: seq<seq<string>>, two: seq<seq<string>>, full: seq<string>)
    requires multiset(one) == multiset(two)
    ensures IsRanking(one, full) <==> IsRanking(two, full)
  {
    forall id ensures Score(one, id) == Score(two, id) {
      PermutedScore(one, two, id);
    }
    SameElems(one, two);
    assert forall lane :: lane in one <==> lane in Elems(one);
    assert forall lane :: lane in two <==> lane in Elems(two);
    assert Ids(one) == Ids(two);
  }

  // ----- Ranks -----

  /** The rank of an id in a lane, counted from zero; an absent id counts as last. */
  function RankOf(lane: seq<string>, id: string): (r: nat)
    ensures r <= |lane| && (id in lane <==> r < |lane|)
    ensures r < |lane| ==> lane[r] == id
  {
    if lane == [] then 0
    else if lane[0] == id then 0
    else
      assert lane == [lane[0]] + lane[1..];
      RankOf(lane[1..], id) + 1
  }

  lemma {:induction false} ScoreAtRank(lane: seq<string>, id: string)
    requires Distinct(lane)
    ensures LaneScore(lane, id) == if id in lane then Gain(RankOf(lane, id)) else 0.0
  {
    if lane != [] {
      var n := |lane| - 1;
      ScoreAtRank(lane[..n], id);
      assert lane == lane[..n] + [lane[n]];
      if id in lane {
        if lane[n] == id {
          assert id !in lane[..n];
          assert lane[RankOf(lane, id)] == lane[n];
        } else {
          assert lane[RankOf(lane, id)] == lane[RankOf(lane[..n], id)];
        }
      }
    }
  }

  lemma GainFalls(i: nat, j: nat)
    requires i <= j
    ensures Gain(i) >= Gain(j)
    ensures i < j ==> Gain(i) > Gain(j)
  {
    var x, y := (RRF_K + i + 1) as real, (RRF_K + j + 1) as real;
    assert 1.0 / x - 1.0 / y == (y - x) / (x * y);
  }

  ghost predicate DuplicateFree(lanes: seq<seq<string>>)
  {
    forall l :: 0 <= l < |lanes| ==> Distinct(lanes[l])
  }

  // ----- Dominance -----

  /** `x` ranks at or above `y` in every lane. */
  ghost predicate NeverBelow(lanes: seq<seq<string>>, x: string, y: string)
  {
    forall l :: 0 <= l < |lanes| ==> RankOf(lanes[l], x) <= RankOf(lanes[l], y)
  }

  lemma LaneDominance(lane: seq<string>, x: string, y: string)
    requires Distinct(lane) && RankOf(lane, x) <= RankOf(lane, y)
    ensures LaneScore(lane, x) >= LaneScore(lane, y)
    ensures RankOf(lane, x) < RankOf(lane, y) ==> LaneScore(lane, x) > LaneScore(lane, y)
  {
    ScoreAtRank(lane, x);
    ScoreAtRank(lane, y);
    GainFalls(RankOf(lane, x), RankOf(lane, y));
  }

  lemma {:induction false} DominanceInScore(lanes: seq<seq<string>>, x: string, y: string)
    requires DuplicateFree(lanes) && NeverBelow(lanes, x, y)
    ensures Score(lanes, x) >= Score(lanes, y)
    ensures (exists l :: 0 <= l < |lanes| && RankOf(lanes[l], x) < RankOf(lanes[l], y)) ==>
              Score(lanes, x) > Score(lanes, y)
  {
    if lanes != [] {
      var n := |lanes| - 1;
      DominanceInScore(lanes[..n], x, y);
      LaneDominance(lanes[n], x, y);
      if l :| 0 <= l < |lanes| && RankOf(lanes[l], x) < RankOf(lanes[l], y) && l < n {
        assert lanes[..n][l] == lanes[l];
      }
    }
  }

  /** An id at or above another in every lane, and above it in one, precedes it in the fused order. */
  lemma Dominance(lanes: seq<seq<string>>, x: string, y: string, l: nat)
    requires DuplicateFree(lanes) && NeverBelow(lanes, x, y)
    requires l < |lanes| && RankOf(lanes[l], x) < RankOf(lanes[l], y)
    ensures Order(lanes)(x, y) && !Order(lanes)(y, x)
  {
    DominanceInScore(lanes, x, y);
  }

  lemma {:induction false} RankIsIndex(lane: seq<string>, i: nat)
    requires Distinct(lane) && i < |lane|
    ensures RankOf(lane, lane[i]) == i
  {
    if i > 0 {
      RankIsIndex(lane[1..], i - 1);
    }
  }

  /** Fusing one lane gives that lane back. */
  lemma OneLane(lane: seq<string>)
    requires Distinct(lane)
    ensures IsRanking([lane], lane)
  {
    forall i, j | 0 <= i < j < |lane| ensures Order([lane])(lane[i], lane[j]) {
      RankIsIndex(lane, i);
      RankIsIndex(lane, j);
      Dominance([lane], lane[i], lane[j], 0);
    }
    assert [lane] == [] + [lane];
    IdsOfSnoc([], lane);
  }

  // ----- Consensus -----

  lemma {:induction false} AtLeast(lanes: seq<seq<string>>, id: string, i: nat)
    requires i < |lanes|
    ensures Score(lanes, id) >= LaneScore(lanes[i], id)
  {
    ScoreWithout(lanes, i, id);
  }

  /** Two occurrences at ranks within the depth outscore any single occurrence. */
  lemma TwoBeatOne(i: nat, j: nat, k: nat)
    ensures i <= 60 && j <= 60 ==> Gain(i) + Gain(j) > Gain(k)
    ensures i >= 61 && j >= 61 ==> Gain(i) + Gain(j) <= Gain(0)
    ensures i >= 61 && j >= 61 ==> (Gain(i) + Gain(j) == Gain(0) <==> i == j == 61)
  {
    GainFalls(0, k);
    if i <= 60 && j <= 60 {
      GainFalls(i, 60);
      GainFalls(j, 60);
    }
    if i >= 61 && j >= 61 {
      GainFalls(61, i);
      GainFalls(61, j);
    }
  }

  lemma InTwoLanes(lanes: seq<seq<string>>, id: string, i: nat, j: nat)
    requires i < j < |lanes|
    ensures Score(lanes, id) >= LaneScore(lanes[i], id) + LaneScore(lanes[j], id)
  {
    ScoreWithout(lanes, j, id);
    var rest := lanes[..j] + lanes[j + 1..];
    assert rest[i] == lanes[i];
    AtLeast(rest, id, i);
  }

  lemma {:induction false} InNoLane(lanes: seq<seq<string>>, id: string)
    requires forall l :: 0 <= l < |lanes| ==> id !in lanes[l]
    ensures Score(lanes, id) == 0.0
  {
    if lanes != [] {
      InNoLane(lanes[..|lanes| - 1], id);
    }
  }

  lemma InOneLane(lanes: seq<seq<string>>, id: string, k: nat)
    requires k < |lanes| && forall l :: 0 <= l < |lanes| && l != k ==> id !in lanes[l]
    ensures Score(lanes, id) == LaneScore(lanes[k], id)
  {
    ScoreWithout(lanes, k, id);
    var rest := lanes[..k] + lanes[k + 1..];
    forall l | 0 <= l < |rest| ensures id !in rest[l] {
      assert rest[l] == lanes[if l < k then l else l + 1];
    }
    InNoLane(rest, id);
  }

  /**
   Consensus: among duplicate-free lanes, however many, an id that two of them rank within their first 61
   outscores every id that only one of them holds.
   */
  lemma Consensus(lanes: seq<seq<string>>, x: string, i: nat, j: nat, y: string, k: nat)
    requires DuplicateFree(lanes) && i < j < |lanes| && k < |lanes|
    requires x in lanes[i] && RankOf(lanes[i], x) < 61 && x in lanes[j] && RankOf(lanes[j], x) < 61
    requires forall l :: 0 <= l < |lanes| && l != k ==> y !in lanes[l]
    ensures Score(lanes, x) > Score(lanes, y)
  {
    ScoreAtRank(lanes[i], x);
    ScoreAtRank(lanes[j], x);
    InTwoLanes(lanes, x, i, j);
    InOneLane(lanes, y, k);
    ScoreAtRank(lanes[k], y);
    TwoBeatOne(RankOf(lanes[i], x), RankOf(lanes[j], x), RankOf(lanes[k], y));
  }

  /**
   Two duplicate-free lanes of at most 61 ids, the default depth among them: every id in both precedes every id in one.
   */
  lemma ConsensusOfTwo(a: seq<string>, b: seq<string>, x: string, y: string)
    requires Distinct(a) && Distinct(b) && |a| <= 61 && |b| <= 61
    requires x in a && x in b && !(y in a && y in b)
    ensures Score([a, b], x) > Score([a, b], y)
    ensures Order([a, b])(x, y) && !Order([a, b])(y, x)
  {
    Consensus([a, b], x, 0, 1, y, if y in a then 0 else 1);
  }

  lemma ScoreInTwo(a: seq<string>, b: seq<string>, id: string)
    ensures Score([a, b], id) == LaneScore(a, id) + LaneScore(b, id)
  {
    var lanes := [a, b];
    assert lanes[..1] == [a] && [a][..0] == [];
    assert Score([a], id) == LaneScore(a, id);
  }

  /** 61 is tight: an id below rank 61 in both lanes never outscores the head of one, and ties with it exactly at 62. */
  lemma ConsensusIsTight(a: seq<string>, b: seq<string>, x: string)
    requires Distinct(a) && Distinct(b) && x in a && x in b && a[0] !in b
    requires RankOf(a, x) >= 61 && RankOf(b, x) >= 61
    ensures Score([a, b], x) <= Score([a, b], a[0])
    ensures Score([a, b], x) == Score([a, b], a[0]) <==> RankOf(a, x) == RankOf(b, x) == 61
    ensures Less(a[0], x) ==> Order([a, b])(a[0], x)
  {
    ScoreInTwo(a, b, x);
    ScoreInTwo(a, b, a[0]);
    ScoreAtRank(a, x);
    ScoreAtRank(b, x);
    ScoreAtRank(a, a[0]);
    RankIsIndex(a, 0);
    TwoBeatOne(RankOf(a, x), RankOf(b, x), 0);
  }

  /** Two occurrences outscore one exactly when the harmonic sum of their ranks is small enough for that one's. */
  predicate Outweighs(i: nat, j: nat, k: nat)
  {
    (RRF_K + 1 + i) * (RRF_K + 1 + j) < (RRF_K + 1 + k) * (2 * (RRF_K + 1) + i + j)
  }

  lemma TwoBeatOneExactly(i: nat, j: nat, k: nat)
    ensures Gain(i) + Gain(j) > Gain(k) <==> Outweighs(i, j, k)
  {
    var x, y, z := RRF_K + 1 + i, RRF_K + 1 + j, RRF_K + 1 + k;
    var p, q := z * (x + y), x * y;
    SumOfInverses(x as real, y as real, z as real);
    assert p as real == z as real * (x as real + y as real) && q as real == x as real * y as real;
  }

  lemma SumOfInverses(x: real, y: real, z: real)
    requires x > 0.0 && y > 0.0 && z > 0.0
    ensures 1.0 / x + 1.0 / y > 1.0 / z <==> z * (x + y) > x * y
  {
    var d := 1.0 / x + 1.0 / y - 1.0 / z;
    var m := x * y * z;
    assert m > 0.0;
    assert d * m == z * (x + y) - x * y by {
      assert 1.0 / x * m == y * z && 1.0 / y * m == x * z && 1.0 / z * m == x * y;
    }
    assert d > 0.0 <==> d * m > 0.0;
  }

  /** Between two lanes, whatever their depths: the exact ranks at which an id in both precedes an id in only one. */
  lemma ConsensusExactly(a: seq<string>, b: seq<string>, x: string, y: string)
    requires Distinct(a) && Distinct(b) && x in a && x in b && y in a && y !in b
    ensures Score([a, b], x) > Score([a, b], y) <==> Outweighs(RankOf(a, x), RankOf(b, x), RankOf(a, y))
    ensures Score([b, a], x) > Score([b, a], y) <==> Outweighs(RankOf(a, x), RankOf(b, x), RankOf(a, y))
  {
    ScoreInTwo(a, b, x);
    ScoreInTwo(a, b, y);
    ScoreInTwo(b, a, x);
    ScoreInTwo(b, a, y);
    ScoreAtRank(a, x);
    ScoreAtRank(b, x);
    ScoreAtRank(a, y);
    TwoBeatOneExactly(RankOf(a, x), RankOf(b, x), RankOf(a, y));
  }

  function Repeat(c: char, n: nat): (s: string)
    ensures |s| == n && forall i :: 0 <= i < n ==> s[i] == c
  {
    seq(n, _ => c)
  }

  /** At 62 ids a lane the guarantee is gone: there is an id in both lanes that follows an id in only one. */
  lemma ConsensusFailsAtSixtyTwo()
    ensures exists a: seq<string>, b: seq<string>, x: string ::
              |a| == |b| == 62 && Distinct(a) && Distinct(b) && x in a && x in b && a[0] !in b && Order([a, b])(a[0], x)
  {
    var a := seq(62, i requires 0 <= i < 62 => if i == 61 then "z" else Repeat('a', i + 1));
    var b := seq(62, i requires 0 <= i < 62 => if i == 61 then "z" else Repeat('b', i + 1));
    forall i, j | 0 <= i < j < 62 ensures a[i] != a[j] && b[i] != b[j] {
      if j < 61 {
        assert |a[i]| != |a[j]| && |b[i]| != |b[j]|;
      } else {
        assert a[i][0] == 'a' && a[j][0] == 'z' && b[i][0] == 'b' && b[j][0] == 'z';
      }
    }
    forall j | 0 <= j < 62 ensures b[j] != a[0] {
      assert a[0][0] == 'a' && b[j][0] != 'a';
    }
    assert a[61] == "z" && b[61] == "z";
    RankIsIndex(a, 61);
    RankIsIndex(b, 61);
    assert a[0] == Repeat('a', 1);
    assert Less(a[0], "z");
    ConsensusIsTight(a, b, "z");
  }
}

/** The hybrid lane of the in-memory driver: a dense and a sparse ranking, fused. */
module Hybrid {
  import opened Ordering
  import opened Fusion

  datatype Candidate = Candidate(id: string, cosine: real, overlap: nat)
  datatype Hit = Hit(rec: Candidate, score: real)

  function Dense(c: Candidate): real { c.cosine }
  function Sparse(c: Candidate): real { c.overlap as real }

  /** By a lane's score, best first, ties by id. */
  function By(score: Candidate -> real): (Candidate, Candidate) -> bool
  {
    (c, d) => score(c) > score(d) || (score(c) == score(d) && Less(c.id, d.id))
  }

  function IdsOf(cands: seq<Candidate>): seq<string>
  {
    Names(cands, (c: Candidate) => c.id)
  }

  ghost predicate UniqueIds(cands: set<Candidate>)
  {
    forall c, d :: c in cands && d in cands && c.id == d.id ==> c == d
  }

  function Overlapping(cands: set<Candidate>): set<Candidate>
  {
    set c | c in cands && c.overlap > 0
  }

  /** The ids of the best `rerank` candidates under a lane's score. */
  ghost predicate IsLane(score: Candidate -> real, cands: set<Candidate>, rerank: int, lane: seq<string>)
  {
    exists full: seq<Candidate> :: SortedBy(By(score), full) && Elems(full) == cands && lane == IdsOf(Cut(full, rerank))
  }

  /** What the hybrid search returns: the cut of the fused ranking of the two lanes, as hits. */
  ghost predicate IsHybrid(cands: set<Candidate>, rerank: int, topK: int, dense: seq<string>, sparse: seq<string>,
                           hits: seq<Hit>)
  {
    && IsLane(Dense, cands, rerank, dense)
    && IsLane(Sparse, Overlapping(cands), rerank, sparse)
    && exists full :: IsRanking([dense, sparse], full) && AreHits(cands, [dense, sparse], Cut(full, topK), hits)
  }

  /** The hits of a list of ids, one each, in order: their records and their fused scores. */
  ghost predicate AreHits(cands: set<Candidate>, lanes: seq<seq<string>>, ids: seq<string>, hits: seq<Hit>)
  {
    var ok := |hits| == |ids| &&
              forall i :: 0 <= i < |ids| ==>
                  hits[i].rec.id == ids[i] && hits[i].rec in cands && hits[i].score == Score(lanes, ids[i]);
    ok
  }

  ghost predicate AreCandidates(cands: set<Candidate>, lanes: seq<seq<string>>, ids: seq<string>)
  {
    forall id :: id in ids ==> id in Ids(lanes) && exists c :: c in cands && c.id == id
  }

  lemma ByIsStrictTotal(score: Candidate -> real, cands: set<Candidate>)
    requires UniqueIds(cands)
    ensures StrictTotalOn(By(score), cands)
  {
    forall c, d | c in cands && d in cands
      ensures c != d ==> By(score)(c, d) || By(score)(d, c)
      ensures By(score)(c, d) ==> !By(score)(d, c)
    {
      LessTrichotomy(c.id, d.id);
    }
    forall c, d, e | c in cands && d in cands && e in cands && By(score)(c, d) && By(score)(d, e)
      ensures By(score)(c, e)
    {
      if score(c) == score(e) {
        LessTransitive(c.id, d.id, e.id);
      }
    }
  }

  method SortedLane(score: Candidate -> real, cands: seq<Candidate>, rerank: int) returns (lane: seq<string>)
    requires Distinct(cands) && UniqueIds(Elems(cands))
    ensures IsLane(score, Elems(cands), rerank, lane)
  {
    var sorted := new Candidate[|cands|](i requires 0 <= i < |cands| => cands[i]);
    assert sorted[..] == cands;
    ByIsStrictTotal(score, Elems(cands));
    StrictTotalIsWeak(By(score), Elems(cands));
    SortSlice(sorted, By(score));
    SortedPermutation(By(score), sorted[..], cands);
    var top := if rerank > 0 && rerank < sorted.Length then sorted[..rerank] else sorted[..];
    lane := IdsOf(top);
    assert top == Cut(sorted[..], rerank);
  }

  /** Rank both lanes, fuse them, and look the records up; `cands` come in the driver's map order. */
  method RankHybrid(cands: seq<Candidate>, rerank: int, topK: int)
    returns (hits: seq<Hit>)
    requires Distinct(cands) && UniqueIds(Elems(cands))
    ensures exists dense, sparse :: IsHybrid(Elems(cands), rerank, topK, dense, sparse, hits)
  {
    var denseIds := SortedLane(Dense, cands, rerank);
    var matched := Matching(cands);
    var sparseIds := SortedLane(Sparse, matched, rerank);
    var fused, scores := RRFFuse([denseIds, sparseIds], topK);
    ghost var full :| IsRanking([denseIds, sparseIds], full) && fused == Cut(full, topK);
    FusedAreCandidates(Elems(cands), rerank, denseIds, sparseIds, full, topK);
    hits := Materialize(cands, [denseIds, sparseIds], fused, scores);
    assert IsHybrid(Elems(cands), rerank, topK, denseIds, sparseIds, hits);
  }

  method Materialize(cands: seq<Candidate>, ghost lanes: seq<seq<string>>, fused: seq<string>,
                     scores: map<string, real>)
    returns (hits: seq<Hit>)
    requires UniqueIds(Elems(cands)) && ScoresOf(lanes, scores) && AreCandidates(Elems(cands), lanes, fused)
    ensures AreHits(Elems(cands), lanes, fused, hits)
  {
    var byId := map c | c in cands :: c.id := c;
    hits := [];
    for i := 0 to |fused|
      invariant AreHits(Elems(cands), lanes, fused[..i], hits)
    {
      assert fused[..i + 1] == fused[..i] + [fused[i]];
      assert fused[i] in fused;
      if fused[i] in byId {
        HitsGrow(Elems(cands), lanes, fused[..i], hits, Hit(byId[fused[i]], scores[fused[i]]));
        hits := hits + [Hit(byId[fused[i]], scores[fused[i]])];
      }
    }
    assert fused[..|fused|] == fused;
  }

  lemma HitsGrow(cands: set<Candidate>, lanes: seq<seq<string>>, ids: seq<string>, hits: seq<Hit>, h: Hit)
    requires AreHits(cands, lanes, ids, hits) && h.rec in cands && h.score == Score(lanes, h.rec.id)
    ensures AreHits(cands, lanes, ids + [h.rec.id], hits + [h])
  {
  }

  method Matching(cands: seq<Candidate>) returns (matched: seq<Candidate>)
    requires Distinct(cands)
    ensures Distinct(matched) && Elems(matched) == Overlapping(Elems(cands))
  {
    matched := [];
    for i := 0 to |cands|
      invariant Distinct(matched)
      invariant forall c :: c in matched <==> c in cands[..i] && c.overlap > 0
    {
      assert forall c :: c in cands[..i + 1] <==> c in cands[..i] || c == cands[i];
      assert cands[i] !in cands[..i];
      if cands[i].overlap > 0 {
        matched := matched + [cands[i]];
      }
    }
    assert cands[..|cands|] == cands;
  }

  lemma SortedIdsDiffer(score: Candidate -> real, cands: set<Candidate>, full: seq<Candidate>)
    requires UniqueIds(cands) && SortedBy(By(score), full) && Elems(full) == cands
    ensures Distinct(IdsOf(full)) && forall i :: 0 <= i < |full| ==> full[i] in cands
  {
    ByIsStrictTotal(score, cands);
    forall i | 0 <= i < |full| ensures full[i] in cands {
      assert full[i] in Elems(full);
    }
    forall i, j | 0 <= i < j < |full| ensures full[i].id != full[j].id {
      assert By(score)(full[i], full[j]);
    }
  }

  lemma LaneIds(score: Candidate -> real, cands: set<Candidate>, rerank: int, lane: seq<string>)
    requires UniqueIds(cands) && IsLane(score, cands, rerank, lane)
    ensures Distinct(lane) && (rerank > 0 ==> |lane| <= rerank)
    ensures forall id :: id in lane ==> exists c :: c in cands && c.id == id
  {
    var full: seq<Candidate> :| SortedBy(By(score), full) && Elems(full) == cands && lane == IdsOf(Cut(full, rerank));
    SortedIdsDiffer(score, cands, full);
    assert forall i :: 0 <= i < |lane| ==> lane[i] == IdsOf(full)[i] == full[i].id;
  }

  lemma FusedAreCandidates(cands: set<Candidate>, rerank: int, dense: seq<string>, sparse: seq<string>,
                           full: seq<string>, topK: int)
    requires UniqueIds(cands) && IsLane(Dense, cands, rerank, dense) &&
               IsLane(Sparse, Overlapping(cands), rerank, sparse)
    requires IsRanking([dense, sparse], full)
    ensures AreCandidates(cands, [dense, sparse], Cut(full, topK))
  {
    LaneIds(Dense, cands, rerank, dense);
    LaneIds(Sparse, Overlapping(cands), rerank, sparse);
    forall id | id in Cut(full, topK) ensures id in Ids([dense, sparse]) {
      assert id in Elems(full);
    }
  }

  lemma LaneIsUnique(score: Candidate -> real, cands: set<Candidate>, rerank: int, one: seq<string>, two: seq<string>)
    requires UniqueIds(cands) && IsLane(score, cands, rerank, one) && IsLane(score, cands, rerank, two)
    ensures one == two
  {
    ByIsStrictTotal(score, cands);
    var full1 :| SortedBy(By(score), full1) && Elems(full1) == cands && one == IdsOf(Cut(full1, rerank));
    var full2 :| SortedBy(By(score), full2) && Elems(full2) == cands && two == IdsOf(Cut(full2, rerank));
    SortedUnique(By(score), full1, full2);
  }

  /** The hits depend on the candidates alone, not on the order the driver's map yields them in. */
  lemma HybridIsDetermined(cands: set<Candidate>, rerank: int, topK: int,
                           dense1: seq<string>, sparse1: seq<string>, hits1: seq<Hit>,
                           dense2: seq<string>, sparse2: seq<string>, hits2: seq<Hit>)
    requires UniqueIds(cands)
    requires IsHybrid(cands, rerank, topK, dense1, sparse1, hits1) &&
               IsHybrid(cands, rerank, topK, dense2, sparse2, hits2)
    ensures hits1 == hits2
  {
    LaneIsUnique(Dense, cands, rerank, dense1, dense2);
    LaneIsUnique(Sparse, Overlapping(cands), rerank, sparse1, sparse2);
    var lanes := [dense1, sparse1];
    var full1 :| IsRanking(lanes, full1) && AreHits(cands, lanes, Cut(full1, topK), hits1);
    var full2 :| IsRanking(lanes, full2) && AreHits(cands, lanes, Cut(full2, topK), hits2);
    RankingIsUnique(lanes, full1, full2);
  }

  /** Up to a depth of 61, the default of 50 included, no hit found by one lane precedes a hit found by both. */
  lemma HybridConsensus(cands: set<Candidate>, rerank: int, topK: int, dense: seq<string>, sparse: seq<string>,
                        hits: seq<Hit>, i: nat, j: nat)
    requires UniqueIds(cands) && IsHybrid(cands, rerank, topK, dense, sparse, hits) && 0 < rerank <= 61
    requires i < |hits| && j < |hits|
    requires hits[i].rec.id in dense && hits[i].rec.id in sparse
    requires !(hits[j].rec.id in dense && hits[j].rec.id in sparse)
    ensures i < j && hits[i].score > hits[j].score
  {
    var lanes := [dense, sparse];
    LaneIds(Dense, cands, rerank, dense);
    LaneIds(Sparse, Overlapping(cands), rerank, sparse);
    ConsensusOfTwo(dense, sparse, hits[i].rec.id, hits[j].rec.id);
    var full :| IsRanking(lanes, full) && AreHits(cands, lanes, Cut(full, topK), hits);
    assert full[i] == hits[i].rec.id && full[j] == hits[j].rec.id;
    Positions(lanes, full, i, j);
  }

  lemma Positions(lanes: seq<seq<string>>, full: seq<string>, i: nat, j: nat)
    requires IsRanking(lanes, full) && i < |full| && j < |full|
    ensures i < j || full[i] == full[j] || Order(lanes)(full[j], full[i])
  {
  }
}
