/**
 Any number of concurrent Embed calls on one caching embedder. The lock makes
 each get and each put one atomic step; the provider call happens between them,
 outside the lock. A run is any interleaving of these steps.
 */
module ConcurrentEmbed {
  import opened Wrappers
  import opened Ordering
  import opened Lru
  import opened EmbedCache
  import opened CachingEmbedder

  datatype Setup = Setup(hash: string -> Digest, vector: string -> Vec, cap: nat)

  datatype Phase = Getting(i: nat) | Calling | Putting(j: nat) | Returned | Failed

  datatype Call = Call(texts: seq<string>, phase: Phase, out: seq<Option<Vec>>, plan: Plan, vecs: seq<Vec>,
                       asked: seq<seq<string>>)

  /** `touched` records the digests of the gets that hit and of the puts, in order. */
  datatype World = World(lru: seq<Slot<Digest, Vec>>, touched: seq<Digest>, calls: map<nat, Call>)

  datatype Step =
    | Start(id: nat, texts: seq<string>)
    | DoGet(id: nat)
    | EndGets(id: nat)
    | ProviderReturns(id: nat, outcome: Outcome)
    | DoPut(id: nat)
    | EndPuts(id: nat)

  predicate CanMove(c: Call, step: Step)
  {
    match step
    case Start(_, _) => false
    case DoGet(_) => c.phase.Getting? && c.phase.i < |c.texts|
    case EndGets(_) => c.phase.Getting? && c.phase.i == |c.texts|
    case ProviderReturns(_, _) => c.phase.Calling?
    case DoPut(_) => c.phase.Putting? && c.phase.j < |c.plan.missKey| && c.phase.j < |c.vecs|
    case EndPuts(_) => c.phase.Putting? && c.phase.j == |c.plan.missKey|
  }

  predicate Enabled(w: World, step: Step)
  {
    if step.Start? then step.id !in w.calls else step.id in w.calls && CanMove(w.calls[step.id], step)
  }

  function Fill(out: seq<Option<Vec>>, positions: seq<int>, v: Vec): (filled: seq<Option<Vec>>)
    ensures |filled| == |out|
    ensures forall p :: 0 <= p < |out| ==> filled[p] == if p in positions then Some(v) else out[p]
  {
    seq(|out|, p requires 0 <= p < |out| => if p in positions then Some(v) else out[p])
  }

  /** What a step does to the call that takes it, given the list it finds. */
  function Moved(s: Setup, lru: seq<Slot<Digest, Vec>>, c: Call, step: Step): Call
    requires CanMove(c, step)
  {
    match step
    case DoGet(_) =>
      var i := c.phase.i;
      var k := s.hash(c.texts[i]);
      if k in Keys(lru) then c.(phase := Getting(i + 1), out := Fill(c.out, [i], Lookup(lru, k)))
      else c.(phase := Getting(i + 1), plan := Note(c.plan, c.texts[i], k, i))
    case EndGets(_) =>
      c.(phase := if c.plan.missText == [] then Returned else Calling)
    case ProviderReturns(_, outcome) =>
      var asked := c.asked + [c.plan.missText];
      if Delivers(outcome, |c.plan.missText|) then
        c.(phase := Putting(0), vecs := Vectors(s.vector, c.plan.missText), asked := asked)
      else
        c.(phase := Failed, asked := asked)
    case DoPut(_) =>
      var j := c.phase.j;
      var k := c.plan.missKey[j];
      var positions := if k in c.plan.missPos then c.plan.missPos[k] else [];
      c.(phase := Putting(j + 1), out := Fill(c.out, positions, c.vecs[j]))
    case EndPuts(_) =>
      c.(phase := Returned)
  }

  /** What a step does to the list. */
  function MovedList(s: Setup, lru: seq<Slot<Digest, Vec>>, c: Call, step: Step): seq<Slot<Digest, Vec>>
    requires CanMove(c, step)
  {
    match step
    case DoGet(_) => Get(lru, s.hash(c.texts[c.phase.i]))
    case DoPut(_) => Put(lru, s.cap, c.plan.missKey[c.phase.j], c.vecs[c.phase.j])
    case _ => lru
  }

  /** The digests a step touches. */
  function Touches(s: Setup, lru: seq<Slot<Digest, Vec>>, c: Call, step: Step): seq<Digest>
    requires CanMove(c, step)
  {
    match step
    case DoGet(_) => if s.hash(c.texts[c.phase.i]) in Keys(lru) then [s.hash(c.texts[c.phase.i])] else []
    case DoPut(_) => [c.plan.missKey[c.phase.j]]
    case _ => []
  }

  function Next(s: Setup, w: World, step: Step): World
    requires Enabled(w, step)
  {
    if step.Start? then
      var c := Call(step.texts, Getting(0), seq(|step.texts|, _ => None), Plan([], [], map[]), [], []);
      w.(calls := w.calls[step.id := c])
    else
      var c := w.calls[step.id];
      World(MovedList(s, w.lru, c, step), w.touched + Touches(s, w.lru, c, step),
            w.calls[step.id := Moved(s, w.lru, c, step)])
  }

  const EMPTY: World := World([], [], map[])

  /** The world after a sequence of steps from an empty cache; None when some step was not enabled in its turn. */
  function After(s: Setup, steps: seq<Step>): Option<World>
  {
    if steps == [] then Some(EMPTY)
    else
      var before, step := After(s, steps[..|steps| - 1]), steps[|steps| - 1];
      if before.Some? && Enabled(before.value, step) then Some(Next(s, before.value, step)) else None
  }

  /** Every text any call so far was given. */
  ghost function Seen(calls: map<nat, Call>): set<string>
  {
    set id, t | id in calls && t in calls[id].texts :: t
  }

  // ----- What every step keeps -----

  /** The vector of some text seen so far whose digest is that of `t`. */
  ghost predicate SomeonesVector(s: Setup, seen: set<string>, t: string, v: Vec)
  {
    exists u :: u in seen && s.hash(u) == s.hash(t) && v == s.vector(u)
  }

  ghost predicate PlanOk(s: Setup, c: Call)
  {
    var ok :=
      && c.plan.missKey == Digests(s.hash, c.plan.missText) && Distinct(c.plan.missKey)
      && c.plan.missPos.Keys == Elems(c.plan.missKey)
      && (forall t :: t in c.plan.missText ==> t in c.texts)
      && (forall k, p {:trigger p in c.plan.missPos[k]} :: k in c.plan.missPos && p in c.plan.missPos[k] ==>
            0 <= p < |c.texts| && s.hash(c.texts[p]) == k);
    ok
  }

  /** Position `p` waits for a miss not yet put, of index at least `j`. */
  ghost predicate Waits(s: Setup, c: Call, p: nat, j: nat)
    requires p < |c.texts|
  {
    var k := s.hash(c.texts[p]);
    k in c.plan.missPos && p in c.plan.missPos[k] && IndexOf(c.plan.missKey, k) >= j
  }

  ghost predicate OutOk(s: Setup, seen: set<string>, c: Call)
  {
    var ok :=
      && |c.out| == |c.texts|
      && (forall p :: 0 <= p < |c.texts| && c.out[p].Some? ==> SomeonesVector(s, seen, c.texts[p], c.out[p].value));
    ok
  }

  ghost predicate PhaseOk(s: Setup, c: Call)
  {
    |c.out| == |c.texts| &&
    match c.phase
    case Getting(i) =>
      && i <= |c.texts| && c.asked == []
      && forall p :: 0 <= p < i ==> c.out[p].Some? || Waits(s, c, p, 0)
    case Calling =>
      && c.plan.missText != [] && c.asked == []
      && forall p :: 0 <= p < |c.texts| ==> c.out[p].Some? || Waits(s, c, p, 0)
    case Putting(j) =>
      && j <= |c.plan.missKey| && c.plan.missText != [] && c.asked == [c.plan.missText] &&
           c.vecs == Vectors(s.vector, c.plan.missText)
      && forall p :: 0 <= p < |c.texts| ==> c.out[p].Some? || Waits(s, c, p, j)
    case Returned =>
      && c.asked == (if c.plan.missText == [] then [] else [c.plan.missText])
      && forall p :: 0 <= p < |c.texts| ==> c.out[p].Some?
    case Failed => c.asked == [c.plan.missText]
  }

  ghost predicate CallOk(s: Setup, seen: set<string>, c: Call)
  {
    var ok := Elems(c.texts) <= seen && PlanOk(s, c) && OutOk(s, seen, c) && PhaseOk(s, c);
    ok
  }

  ghost predicate CacheOk(s: Setup, seen: set<string>, lru: seq<Slot<Digest, Vec>>, touched: seq<Digest>)
  {
    var ok := Keys(lru) == Take(Recency(touched), s.cap) && Sound(s.hash, s.vector, lru, seen);
    ok
  }

  ghost predicate WorldOk(s: Setup, w: World)
  {
    && CacheOk(s, Seen(w.calls), w.lru, w.touched)
    && forall id :: id in w.calls ==> CallOk(s, Seen(w.calls), w.calls[id])
  }

  lemma MoreSeen(s: Setup, seen: set<string>, more: set<string>, c: Call)
    requires CallOk(s, seen, c) && seen <= more
    ensures CallOk(s, more, c)
  {
  }

  /** A step by one call leaves every other call as it was, and no text is forgotten. */
  lemma OnlyOneMoves(s: Setup, w: World, step: Step)
    requires Enabled(w, step)
    ensures var w' := Next(s, w, step);
      && w'.calls.Keys == w.calls.Keys + {step.id}
      && (forall id :: id in w.calls && id != step.id ==> w'.calls[id] == w.calls[id])
      && Seen(w'.calls) == Seen(w.calls) + (if step.Start? then Elems(step.texts) else {})
  {
    var w' := Next(s, w, step);
    if !step.Start? {
      assert w'.calls[step.id].texts == w.calls[step.id].texts;
    }
    forall t ensures t in Seen(w'.calls) <==> t in Seen(w.calls) || (step.Start? && t in step.texts) {
      if t in Seen(w.calls) {
        var id :| id in w.calls && t in w.calls[id].texts;
        assert id in w'.calls && t in w'.calls[id].texts;
      }
      if step.Start? && t in step.texts {
        assert t in w'.calls[step.id].texts;
      }
      if t in Seen(w'.calls) {
        var id :| id in w'.calls && t in w'.calls[id].texts;
        assert id == step.id || (id in w.calls && t in w.calls[id].texts);
      }
    }
  }

  lemma HitOk(s: Setup, seen: set<string>, lru: seq<Slot<Digest, Vec>>, c: Call)
    requires CallOk(s, seen, c) && c.phase.Getting? && c.phase.i < |c.texts| && Sound(s.hash, s.vector, lru, seen)
    requires s.hash(c.texts[c.phase.i]) in Keys(lru)
    ensures var i := c.phase.i;
      CallOk(s, seen, c.(phase := Getting(i + 1), out := Fill(c.out, [i], Lookup(lru, s.hash(c.texts[i])))))
  {
    var i := c.phase.i;
    var k := s.hash(c.texts[i]);
    var n := IndexOf(Keys(lru), k);
    assert lru[n] in lru;
    var t :| t in seen && lru[n] == Slot(s.hash(t), s.vector(t));
    assert SomeonesVector(s, seen, c.texts[i], Lookup(lru, k));
    var c' := c.(phase := Getting(i + 1), out := Fill(c.out, [i], Lookup(lru, k)));
    assert PlanOk(s, c');
    forall p | 0 <= p < i + 1 ensures c'.out[p].Some? || Waits(s, c', p, 0) {
      assert p == i || c.out[p].Some? || Waits(s, c, p, 0);
    }
  }

  lemma NotePlanOk(s: Setup, c: Call, i: nat, c': Call)
    requires PlanOk(s, c) && i < |c.texts|
    requires c'.texts == c.texts && c'.plan == Note(c.plan, c.texts[i], s.hash(c.texts[i]), i)
    ensures PlanOk(s, c')
  {
    var t := c.texts[i];
    var k := s.hash(t);
    if k in c.plan.missPos {
      WaitGrows(c.plan.missPos, k, i);
    } else {
      assert Digests(s.hash, c.plan.missText + [t]) == c.plan.missKey + [k];
      assert Elems(c.plan.missKey + [k]) == Elems(c.plan.missKey) + {k};
      assert k !in Elems(c.plan.missKey);
    }
  }

  lemma NoteOk(s: Setup, seen: set<string>, c: Call)
    requires CallOk(s, seen, c) && c.phase.Getting? && c.phase.i < |c.texts|
    ensures var i := c.phase.i;
      CallOk(s, seen, c.(phase := Getting(i + 1), plan := Note(c.plan, c.texts[i], s.hash(c.texts[i]), i)))
  {
    var i := c.phase.i;
    var k := s.hash(c.texts[i]);
    var c' := c.(phase := Getting(i + 1), plan := Note(c.plan, c.texts[i], k, i));
    NotePlanOk(s, c, i, c');
    assert OutOk(s, seen, c');
    forall p | 0 <= p < i + 1 ensures c'.out[p].Some? || Waits(s, c', p, 0) {
      assert p == i || c.out[p].Some? || Waits(s, c, p, 0);
      NoteWaits(c.plan, c.texts[i], k, i, p, s.hash(c.texts[p]));
    }
  }

  /** Noting a miss adds its position to those waiting, and removes none. */
  lemma NoteWaits(plan: Plan, t: string, k: Digest, i: nat, p: nat, at: Digest)
    ensures (p == i && at == k) || (at in plan.missPos && p in plan.missPos[at]) ==>
              at in Note(plan, t, k, i).missPos && p in Note(plan, t, k, i).missPos[at]
  {
  }

  lemma DepositOk(s: Setup, seen: set<string>, c: Call)
    requires CallOk(s, seen, c) && c.phase.Putting? && c.phase.j < |c.plan.missKey|
    ensures var j := c.phase.j;
      && j < |c.vecs| && c.plan.missText[j] in seen && c.plan.missKey[j] == s.hash(c.plan.missText[j])
      && c.vecs[j] == s.vector(c.plan.missText[j]) && c.plan.missKey[j] in c.plan.missPos
      && CallOk(s, seen, c.(phase := Putting(j + 1), out := Fill(c.out, c.plan.missPos[c.plan.missKey[j]], c.vecs[j])))
  {
    var j := c.phase.j;
    var k, v := c.plan.missKey[j], c.vecs[j];
    assert c.plan.missText[j] in c.plan.missText && k in Elems(c.plan.missKey);
    var c' := c.(phase := Putting(j + 1), out := Fill(c.out, c.plan.missPos[k], v));
    assert PlanOk(s, c');
    assert c.plan.missText[j] in Elems(c.texts);
    forall p | 0 <= p < |c.texts| && c'.out[p].Some? ensures SomeonesVector(s, seen, c.texts[p], c'.out[p].value) {
      assert p in c.plan.missPos[k] || c'.out[p] == c.out[p];
    }
    forall p | 0 <= p < |c.texts| ensures c'.out[p].Some? || Waits(s, c', p, j + 1) {
      assert c.out[p].Some? || Waits(s, c, p, j);
      assert IndexOf(c.plan.missKey, s.hash(c.texts[p])) == j ==> s.hash(c.texts[p]) == k;
    }
  }

  /** A step keeps the cache sound, and its list exactly the most recently touched digests. */
  lemma MovedListOk(s: Setup, seen: set<string>, lru: seq<Slot<Digest, Vec>>, touched: seq<Digest>, c: Call, step: Step)
    requires s.cap > 0 && CacheOk(s, seen, lru, touched) && CallOk(s, seen, c) && CanMove(c, step)
    ensures CacheOk(s, seen, MovedList(s, lru, c, step), touched + Touches(s, lru, c, step))
  {
    assert touched + [] == touched;
    if step.DoGet? {
      var k := s.hash(c.texts[c.phase.i]);
      GetIsTouch(lru, s.cap, touched, k);
      GetKeepsSound(s.hash, s.vector, lru, seen, k);
    } else if step.DoPut? {
      DepositOk(s, seen, c);
      var j := c.phase.j;
      PutIsTouch(lru, s.cap, touched, c.plan.missKey[j], c.vecs[j]);
      PutKeepsSound(s.hash, s.vector, lru, seen, s.cap, c.plan.missText[j]);
    }
  }

  lemma GetOk(s: Setup, seen: set<string>, lru: seq<Slot<Digest, Vec>>, c: Call, step: Step)
    requires CallOk(s, seen, c) && Sound(s.hash, s.vector, lru, seen) && CanMove(c, step) && step.DoGet?
    ensures CallOk(s, seen, Moved(s, lru, c, step))
  {
    if s.hash(c.texts[c.phase.i]) in Keys(lru) {
      HitOk(s, seen, lru, c);
    } else {
      NoteOk(s, seen, c);
    }
  }

  lemma MovedCallOk(s: Setup, seen: set<string>, lru: seq<Slot<Digest, Vec>>, c: Call, step: Step)
    requires CallOk(s, seen, c) && Sound(s.hash, s.vector, lru, seen) && CanMove(c, step)
    ensures CallOk(s, seen, Moved(s, lru, c, step))
  {
    match step
    case DoGet(_) => GetOk(s, seen, lru, c, step);
    case EndGets(_) => EndGetsOk(s, seen, c);
    case ProviderReturns(_, outcome) => AnswerOk(s, seen, c, outcome);
    case DoPut(_) => DepositOk(s, seen, c);
    case EndPuts(_) => EndPutsOk(s, seen, c);
  }

  lemma EndGetsOk(s: Setup, seen: set<string>, c: Call)
    requires CallOk(s, seen, c) && c.phase == Getting(|c.texts|)
    ensures CallOk(s, seen, c.(phase := if c.plan.missText == [] then Returned else Calling))
  {
    var c' := c.(phase := if c.plan.missText == [] then Returned else Calling);
    assert PlanOk(s, c') && OutOk(s, seen, c');
    forall p | 0 <= p < |c.texts| ensures c'.out[p].Some? || (c.plan.missText != [] && Waits(s, c', p, 0)) {
      assert c.out[p].Some? || Waits(s, c, p, 0);
      assert Waits(s, c, p, 0) ==> s.hash(c.texts[p]) in Elems(c.plan.missKey);
    }
  }

  lemma AnswerOk(s: Setup, seen: set<string>, c: Call, outcome: Outcome)
    requires CallOk(s, seen, c) && c.phase.Calling?
    ensures var asked := c.asked + [c.plan.missText];
      && CallOk(s, seen, c.(phase := Failed, asked := asked))
      && CallOk(s, seen, c.(phase := Putting(0), vecs := Vectors(s.vector, c.plan.missText), asked := asked))
  {
    var asked := c.asked + [c.plan.missText];
    var failed := c.(phase := Failed, asked := asked);
    var answered := c.(phase := Putting(0), vecs := Vectors(s.vector, c.plan.missText), asked := asked);
    assert PlanOk(s, failed) && OutOk(s, seen, failed) && PlanOk(s, answered) && OutOk(s, seen, answered);
    forall p | 0 <= p < |c.texts| ensures answered.out[p].Some? || Waits(s, answered, p, 0) {
      assert c.out[p].Some? || Waits(s, c, p, 0);
    }
  }

  lemma EndPutsOk(s: Setup, seen: set<string>, c: Call)
    requires CallOk(s, seen, c) && c.phase == Putting(|c.plan.missKey|)
    ensures CallOk(s, seen, c.(phase := Returned))
  {
    var c' := c.(phase := Returned);
    assert PlanOk(s, c') && OutOk(s, seen, c');
    forall p | 0 <= p < |c.texts| ensures c'.out[p].Some? {
      assert c.out[p].Some? || Waits(s, c, p, |c.plan.missKey|);
      assert Waits(s, c, p, |c.plan.missKey|) ==> s.hash(c.texts[p]) in Elems(c.plan.missKey);
    }
    assert |Digests(s.hash, c.plan.missText)| == |c.plan.missText|;
  }

  lemma StepKeepsOk(s: Setup, w: World, step: Step)
    requires s.cap > 0 && WorldOk(s, w) && Enabled(w, step)
    ensures WorldOk(s, Next(s, w, step))
  {
    var w' := Next(s, w, step);
    OnlyOneMoves(s, w, step);
    if !step.Start? {
      MovedListOk(s, Seen(w.calls), w.lru, w.touched, w.calls[step.id], step);
    }
    forall id | id in w'.calls ensures CallOk(s, Seen(w'.calls), w'.calls[id]) {
      if id != step.id {
        MoreSeen(s, Seen(w.calls), Seen(w'.calls), w.calls[id]);
      } else if step.Start? {
        assert Elems(step.texts) <= Seen(w'.calls);
      } else {
        MovedCallOk(s, Seen(w.calls), w.lru, w.calls[id], step);
      }
    }
  }

  lemma {:induction false} RunsStayOk(s: Setup, steps: seq<Step>)
    requires s.cap > 0 && After(s, steps).Some?
    ensures WorldOk(s, After(s, steps).value)
  {
    if steps != [] {
      var before, step := After(s, steps[..|steps| - 1]).value, steps[|steps| - 1];
      RunsStayOk(s, steps[..|steps| - 1]);
      StepKeepsOk(s, before, step);
    }
  }

  // ----- What callers see -----

  /**
   In every interleaving, a call that returns has at every position exactly the provider's vector
   for that text, and asked the provider at most once, for distinct texts of its own batch.
   */
  lemma EveryCallAgrees(s: Setup, steps: seq<Step>, id: nat)
    requires s.cap > 0 && After(s, steps).Some? && id in After(s, steps).value.calls
    requires CollisionsHarmless(s.hash, s.vector, Seen(After(s, steps).value.calls))
    ensures var c := After(s, steps).value.calls[id];
      && (c.phase.Returned? ==> c.out == seq(|c.texts|, p requires 0 <= p < |c.texts| => Some(s.vector(c.texts[p]))))
      && |c.asked| <= 1
      && (forall asked :: asked in c.asked ==> Distinct(asked) && Elems(asked) <= Elems(c.texts))
  {
    RunsStayOk(s, steps);
    var w := After(s, steps).value;
    var c, seen := w.calls[id], Seen(w.calls);
    assert CallOk(s, seen, c);
    DistinctDigests(s.hash, c.plan.missText);
    if c.phase.Returned? {
      forall p | 0 <= p < |c.texts| ensures c.out[p] == Some(s.vector(c.texts[p])) {
        assert SomeonesVector(s, seen, c.texts[p], c.out[p].value);
        assert c.texts[p] in Elems(c.texts);
      }
    }
  }

  lemma DistinctDigests(hash: string -> Digest, texts: seq<string>)
    ensures Distinct(Digests(hash, texts)) ==> Distinct(texts)
  {
    assert forall i :: 0 <= i < |texts| ==> Digests(hash, texts)[i] == hash(texts[i]);
  }

  /** After every step of every interleaving the list is the `cap` most recently touched digests, none twice. */
  lemma ListIsAlwaysRecency(s: Setup, steps: seq<Step>)
    requires s.cap > 0 && After(s, steps).Some?
    ensures var w := After(s, steps).value;
      && Keys(w.lru) == Take(Recency(w.touched), s.cap)
      && Distinct(Keys(w.lru)) && |w.lru| <= s.cap
  {
    RunsStayOk(s, steps);
    RecencyMeaning(After(s, steps).value.touched);
  }

  /** No call is ever stuck: until it has returned or failed it has a step to take. */
  lemma NoCallIsStuck(s: Setup, steps: seq<Step>, id: nat)
    requires s.cap > 0 && After(s, steps).Some? && id in After(s, steps).value.calls
    ensures var w := After(s, steps).value;
      w.calls[id].phase.Returned? || w.calls[id].phase.Failed? || exists step: Step :: step.id == id && Enabled(w, step)
  {
    RunsStayOk(s, steps);
    var w := After(s, steps).value;
    var c := w.calls[id];
    assert CallOk(s, Seen(w.calls), c);
    match c.phase
    case Getting(i) => assert Enabled(w, if i < |c.texts| then DoGet(id) else EndGets(id));
    case Calling => assert Enabled(w, ProviderReturns(id, Answers));
    case Putting(j) => assert Enabled(w, if j < |c.plan.missKey| then DoPut(id) else EndPuts(id));
    case _ =>
  }
}
