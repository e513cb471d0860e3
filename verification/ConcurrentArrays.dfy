/**
 The interleavings of ConcurrentEmbed with the arrays behind the vectors: get
 hands out the array the cache keeps and the copy is made after the lock is
 released; what the provider gave is copied once for the cache and once for
 every waiting position; and callers may overwrite what they were given.
 */
module ConcurrentArrays {
  import opened Wrappers
  import opened Lru
  import opened EmbedCache
  import opened CachingEmbedder
  import Simple = ConcurrentEmbed

  type Setup = Simple.Setup

  /**
   What an array was made for: a slot of the cache, the provider's answer to a call, or an output position of a call.
   */
  datatype Owner = ForCache | Provided(call: nat) | Output(call: nat, p: nat)

  /** An array at its address in memory. A nil slice has an address too, and cannot be written. */
  datatype Cell = Cell(owner: Owner, vec: Vec)

  datatype Phase =
    | Getting(i: nat)
    | Holding(i: nat, a: nat)     // get has returned the array the cache keeps, and the lock is free again
    | Calling
    | Putting(j: nat)
    | Storing(j: nat, a: nat)     // the copy for the cache is made
    | Scattering(j: nat, n: nat)  // it is in the cache, and `n` waiting positions have their own copies
    | Returned
    | Failed

  /** `given` is what the outputs held when the call returned. */
  datatype Call = Call(texts: seq<string>, phase: Phase, out: seq<Option<nat>>, plan: Plan, vecs: seq<nat>,
                       asked: seq<seq<string>>, given: seq<Option<Vec>>)

  datatype World = World(mem: seq<Cell>, lru: seq<Slot<Digest, nat>>, touched: seq<Digest>, calls: map<nat, Call>)

  datatype Step =
    | Start(id: nat, texts: seq<string>)
    | DoGet(id: nat)
    | CopyHit(id: nat)
    | EndGets(id: nat)
    | ProviderReturns(id: nat, outcome: Outcome)
    | CopyForCache(id: nat)
    | DoPut(id: nat)
    | CopyOut(id: nat)
    | EndScatter(id: nat)
    | EndPuts(id: nat)
    | Scribble(id: nat, p: nat, elems: seq<real>)  // the caller writes to an array it was given

  predicate CanMove(mem: seq<Cell>, c: Call, step: Step)
  {
    match step
    case Start(_, _) => false
    case DoGet(_) => c.phase.Getting? && c.phase.i < |c.texts|
    case CopyHit(_) => c.phase.Holding? && c.phase.i < |c.out| && c.phase.a < |mem|
    case EndGets(_) => c.phase.Getting? && c.phase.i == |c.texts|
    case ProviderReturns(_, _) => c.phase.Calling?
    case CopyForCache(_) => c.phase.Putting? && c.phase.j < |c.plan.missKey| && c.phase.j < |c.vecs|
    case DoPut(_) => c.phase.Storing? && c.phase.j < |c.plan.missKey|
    case CopyOut(_) => c.phase.Scattering? && c.phase.j < |c.vecs| && c.phase.n < |Waiting(c, c.phase.j)|
    case EndScatter(_) => c.phase.Scattering? && c.phase.n == |Waiting(c, c.phase.j)|
    case EndPuts(_) => c.phase.Putting? && c.phase.j == |c.plan.missKey|
    case Scribble(_, p, elems) =>
      && c.phase.Returned? && p < |c.out| && c.out[p].Some? && c.out[p].value < |mem|
      && mem[c.out[p].value].vec.Floats? && |elems| == |mem[c.out[p].value].vec.elems|
  }

  predicate Enabled(w: World, step: Step)
  {
    if step.Start? then step.id !in w.calls else step.id in w.calls && CanMove(w.mem, w.calls[step.id], step)
  }

  /** The positions that wait for the miss of index `j`. */
  function Waiting(c: Call, j: nat): seq<int>
  {
    if j < |c.plan.missKey| && c.plan.missKey[j] in c.plan.missPos then c.plan.missPos[c.plan.missKey[j]] else []
  }

  function Read(mem: seq<Cell>, a: nat): Vec
  {
    if a < |mem| then mem[a].vec else Nil
  }

  function ReadAll(mem: seq<Cell>, vecs: seq<nat>): (vs: seq<Vec>)
    ensures |vs| == |vecs|
  {
    seq(|vecs|, j requires 0 <= j < |vecs| => Read(mem, vecs[j]))
  }

  function ReadOut(mem: seq<Cell>, out: seq<Option<nat>>): (vs: seq<Option<Vec>>)
    ensures |vs| == |out|
  {
    seq(|out|, p requires 0 <= p < |out| => if out[p].Some? then Some(Read(mem, out[p].value)) else None)
  }

  function ReadSlots(mem: seq<Cell>, lru: seq<Slot<Digest, nat>>): (slots: seq<Slot<Digest, Vec>>)
    ensures |slots| == |lru|
  {
    seq(|lru|, i requires 0 <= i < |lru| => Slot(lru[i].key, Read(mem, lru[i].value)))
  }

  /** The provider's answer to `texts`, in arrays of its own. */
  function Answer(s: Setup, id: nat, texts: seq<string>): (cells: seq<Cell>)
    ensures |cells| == |texts|
  {
    seq(|texts|, i requires 0 <= i < |texts| => Cell(Provided(id), s.vector(texts[i])))
  }

  function Addresses(first: nat, n: nat): (vecs: seq<nat>)
    ensures |vecs| == n
  {
    seq(n, i requires 0 <= i < n => first + i)
  }

  /** What a step does to the call that takes it. */
  function Moved(s: Setup, w: World, c: Call, step: Step): Call
    requires CanMove(w.mem, c, step)
  {
    match step
    case DoGet(_) =>
      var i := c.phase.i;
      var k := s.hash(c.texts[i]);
      if k in Keys(w.lru) then c.(phase := Holding(i, Lookup(w.lru, k)))
      else c.(phase := Getting(i + 1), plan := Note(c.plan, c.texts[i], k, i))
    case CopyHit(_) =>
      c.(phase := Getting(c.phase.i + 1), out := c.out[c.phase.i := Some(|w.mem|)])
    case EndGets(_) =>
      if c.plan.missText == [] then c.(phase := Returned, given := ReadOut(w.mem, c.out)) else c.(phase := Calling)
    case ProviderReturns(_, outcome) =>
      var asked := c.asked + [c.plan.missText];
      if Delivers(outcome, |c.plan.missText|) then
        c.(phase := Putting(0), vecs := Addresses(|w.mem|, |c.plan.missText|), asked := asked)
      else
        c.(phase := Failed, asked := asked)
    case CopyForCache(_) => c.(phase := Storing(c.phase.j, |w.mem|))
    case DoPut(_) => c.(phase := Scattering(c.phase.j, 0))
    case CopyOut(_) =>
      var p := Waiting(c, c.phase.j)[c.phase.n];
      c.(phase := Scattering(c.phase.j, c.phase.n + 1),
         out := if 0 <= p < |c.out| then c.out[p := Some(|w.mem|)] else c.out)
    case EndScatter(_) => c.(phase := Putting(c.phase.j + 1))
    case EndPuts(_) => c.(phase := Returned, given := ReadOut(w.mem, c.out))
    case Scribble(_, _, _) => c
  }

  /** What a step does to memory: copies are new arrays, and only callers write to old ones. */
  function MovedMem(s: Setup, w: World, id: nat, c: Call, step: Step): seq<Cell>
    requires CanMove(w.mem, c, step)
  {
    match step
    case CopyHit(_) => w.mem + [Cell(Output(id, c.phase.i), Read(w.mem, c.phase.a))]
    case ProviderReturns(_, outcome) =>
      if Delivers(outcome, |c.plan.missText|) then w.mem + Answer(s, id, c.plan.missText) else w.mem
    case CopyForCache(_) => w.mem + [Cell(ForCache, Read(w.mem, c.vecs[c.phase.j]))]
    case CopyOut(_) =>
      var p := Waiting(c, c.phase.j)[c.phase.n];
      w.mem + [Cell(Output(id, if p >= 0 then p else 0), Read(w.mem, c.vecs[c.phase.j]))]
    case Scribble(_, p, elems) =>
      w.mem[c.out[p].value := w.mem[c.out[p].value].(vec := Floats(elems))]
    case _ => w.mem
  }

  /** What a step does to the list: get and put, under the lock. */
  function MovedList(s: Setup, w: World, c: Call, step: Step): seq<Slot<Digest, nat>>
    requires CanMove(w.mem, c, step)
  {
    match step
    case DoGet(_) => Get(w.lru, s.hash(c.texts[c.phase.i]))
    case DoPut(_) => Put(w.lru, s.cap, c.plan.missKey[c.phase.j], c.phase.a)
    case _ => w.lru
  }

  function Touches(s: Setup, w: World, c: Call, step: Step): seq<Digest>
    requires CanMove(w.mem, c, step)
  {
    match step
    case DoGet(_) => if s.hash(c.texts[c.phase.i]) in Keys(w.lru) then [s.hash(c.texts[c.phase.i])] else []
    case DoPut(_) => [c.plan.missKey[c.phase.j]]
    case _ => []
  }

  function Next(s: Setup, w: World, step: Step): World
    requires Enabled(w, step)
  {
    if step.Start? then
      var c := Call(step.texts, Getting(0), seq(|step.texts|, _ => None), Plan([], [], map[]), [], [], []);
      w.(calls := w.calls[step.id := c])
    else
      var c := w.calls[step.id];
      World(MovedMem(s, w, step.id, c, step), MovedList(s, w, c, step), w.touched + Touches(s, w, c, step),
            w.calls[step.id := Moved(s, w, c, step)])
  }

  const EMPTY: World := World([], [], [], map[])

  /** The world after a sequence of steps from an empty cache; None when some step was not enabled in its turn. */
  function After(s: Setup, steps: seq<Step>): Option<World>
  {
    if steps == [] then Some(EMPTY)
    else
      var before, step := After(s, steps[..|steps| - 1]), steps[|steps| - 1];
      if before.Some? && Enabled(before.value, step) then Some(Next(s, before.value, step)) else None
  }

  // ----- Who owns which array -----

  ghost predicate OwnedBy(mem: seq<Cell>, a: nat, owner: Owner)
  {
    a < |mem| && mem[a].owner == owner
  }

  /** The first `n` positions that wait for miss `j` have copies of its vector. */
  ghost predicate Copied(mem: seq<Cell>, c: Call, j: nat, n: nat)
  {
    var copied := j < |c.vecs| && n <= |Waiting(c, j)| &&
                  forall m :: 0 <= m < n ==>
                    var p := Waiting(c, j)[m];
                    0 <= p < |c.out| ==> c.out[p].Some? && Read(mem, c.out[p].value) == Read(mem, c.vecs[j]);
    copied
  }

  ghost predicate OutOwned(mem: seq<Cell>, id: nat, c: Call)
  {
    var owned := |c.out| == |c.texts| &&
                 forall p :: 0 <= p < |c.out| && c.out[p].Some? ==> OwnedBy(mem, c.out[p].value, Output(id, p));
    owned
  }

  ghost predicate VecsOwned(mem: seq<Cell>, id: nat, c: Call)
  {
    var owned := forall j :: 0 <= j < |c.vecs| ==> OwnedBy(mem, c.vecs[j], Provided(id));
    owned
  }

  ghost predicate PhaseOwned(mem: seq<Cell>, c: Call)
  {
    match c.phase
    case Holding(i, a) => i < |c.texts| && OwnedBy(mem, a, ForCache)
    case Storing(j, a) => j < |c.plan.missKey| && j < |c.vecs| && OwnedBy(mem, a, ForCache) &&
        Read(mem, a) == Read(mem, c.vecs[j])
    case Scattering(j, n) => j < |c.plan.missKey| && Copied(mem, c, j, n)
    case _ => true
  }

  ghost predicate CallOwned(mem: seq<Cell>, id: nat, c: Call)
  {
    OutOwned(mem, id, c) && VecsOwned(mem, id, c) && PhaseOwned(mem, c)
  }

  ghost predicate SlotsOwned(mem: seq<Cell>, lru: seq<Slot<Digest, nat>>)
  {
    var owned := forall i :: 0 <= i < |lru| ==> OwnedBy(mem, lru[i].value, ForCache);
    owned
  }

  ghost predicate Owned(w: World)
  {
    SlotsOwned(w.mem, w.lru) && forall id :: id in w.calls ==> CallOwned(w.mem, id, w.calls[id])
  }

  /** Memory after a step of call `id`: arrays stay what they were made for, and only that call's outputs may change. */
  ghost predicate Kept(mem: seq<Cell>, id: nat, after: seq<Cell>)
  {
    var kept := |mem| <= |after| &&
                forall a :: 0 <= a < |mem| ==>
                  after[a].owner == mem[a].owner &&
                  (after[a] == mem[a] || (mem[a].owner.Output? && mem[a].owner.call == id));
    kept
  }

  /** No array was written to. */
  ghost predicate Grown(mem: seq<Cell>, after: seq<Cell>)
  {
    var grown := |mem| <= |after| && forall a :: 0 <= a < |mem| ==> after[a] == mem[a];
    grown
  }

  lemma StepKeeps(s: Setup, w: World, step: Step)
    requires Owned(w) && Enabled(w, step)
    ensures Kept(w.mem, step.id, Next(s, w, step).mem)
    ensures !step.Scribble? ==> Grown(w.mem, Next(s, w, step).mem)
  {
    if step.Scribble? {
      assert CallOwned(w.mem, step.id, w.calls[step.id]);
    }
  }

  /** A call is none the worse for what another does, nor, once it has returned, for what its own caller does. */
  lemma OthersOwned(mem: seq<Cell>, id: nat, after: seq<Cell>, j: nat, c: Call)
    requires CallOwned(mem, j, c) && Kept(mem, id, after) && (j != id || c.phase.Returned?)
    ensures CallOwned(after, j, c)
  {
  }

  lemma SlotsStay(mem: seq<Cell>, id: nat, after: seq<Cell>, lru: seq<Slot<Digest, nat>>)
    requires SlotsOwned(mem, lru) && Kept(mem, id, after)
    ensures SlotsOwned(after, lru) && ReadSlots(after, lru) == ReadSlots(mem, lru)
  {
  }

  lemma HeldOwned(mem: seq<Cell>, lru: seq<Slot<Digest, nat>>, k: Digest)
    requires SlotsOwned(mem, lru)
    ensures k in Keys(lru) ==> OwnedBy(mem, Lookup(lru, k), ForCache)
    ensures SlotsOwned(mem, Get(lru, k))
  {
  }

  lemma PutOwned(mem: seq<Cell>, lru: seq<Slot<Digest, nat>>, cap: nat, k: Digest, a: nat)
    requires SlotsOwned(mem, lru) && OwnedBy(mem, a, ForCache)
    ensures SlotsOwned(mem, Put(lru, cap, k, a))
  {
  }

  lemma CopyOutOwned(mem: seq<Cell>, id: nat, c: Call, p: int, cell: Cell)
    requires CallOwned(mem, id, c) && c.phase.Scattering? && c.phase.n < |Waiting(c, c.phase.j)|
    requires p == Waiting(c, c.phase.j)[c.phase.n]
    requires cell == Cell(Output(id, if p >= 0 then p else 0), Read(mem, c.vecs[c.phase.j]))
    ensures CallOwned(mem + [cell], id,
                      c.(phase := Scattering(c.phase.j, c.phase.n + 1),
                         out := if 0 <= p < |c.out| then c.out[p := Some(|mem|)] else c.out))
  {
    var j, n := c.phase.j, c.phase.n;
    var after := mem + [cell];
    var c' := c.(phase := Scattering(j, n + 1), out := if 0 <= p < |c.out| then c.out[p := Some(|mem|)] else c.out);
    assert OutOwned(after, id, c') && VecsOwned(after, id, c');
    forall m | 0 <= m < n + 1 && 0 <= Waiting(c', j)[m] < |c'.out|
      ensures c'.out[Waiting(c', j)[m]].Some? && Read(after, c'.out[Waiting(c', j)[m]].value) == Read(after, c'.vecs[j])
    {
      assert Waiting(c', j) == Waiting(c, j);
    }
  }

  lemma MovedOwned(s: Setup, w: World, id: nat, c: Call, step: Step)
    requires SlotsOwned(w.mem, w.lru) && CallOwned(w.mem, id, c) && CanMove(w.mem, c, step)
    ensures CallOwned(MovedMem(s, w, id, c, step), id, Moved(s, w, c, step))
  {
    match step
    case DoGet(_) => HeldOwned(w.mem, w.lru, s.hash(c.texts[c.phase.i]));
    case CopyOut(_) =>
      var p := Waiting(c, c.phase.j)[c.phase.n];
      CopyOutOwned(w.mem, id, c, p, Cell(Output(id, if p >= 0 then p else 0), Read(w.mem, c.vecs[c.phase.j])));
    case _ =>
  }

  lemma StepKeepsOwned(s: Setup, w: World, step: Step)
    requires Owned(w) && Enabled(w, step)
    ensures Owned(Next(s, w, step))
  {
    var w' := Next(s, w, step);
    StepKeeps(s, w, step);
    SlotsStay(w.mem, step.id, w'.mem, w.lru);
    if !step.Start? {
      assert CallOwned(w.mem, step.id, w.calls[step.id]);
      MovedOwned(s, w, step.id, w.calls[step.id], step);
      if step.DoGet? {
        HeldOwned(w.mem, w.lru, s.hash(w.calls[step.id].texts[w.calls[step.id].phase.i]));
      }
      if step.DoPut? {
        var c := w.calls[step.id];
        PutOwned(w.mem, w.lru, s.cap, c.plan.missKey[c.phase.j], c.phase.a);
      }
    }
    forall id | id in w'.calls && id != step.id ensures CallOwned(w'.mem, id, w'.calls[id]) {
      OthersOwned(w.mem, step.id, w'.mem, id, w.calls[id]);
    }
  }

  lemma {:induction false} RunsStayOwned(s: Setup, steps: seq<Step>)
    requires After(s, steps).Some?
    ensures Owned(After(s, steps).value)
  {
    if steps != [] {
      RunsStayOwned(s, steps[..|steps| - 1]);
      StepKeepsOwned(s, After(s, steps[..|steps| - 1]).value, steps[|steps| - 1]);
    }
  }

  // ----- Isolation -----

  /** The arrays callers have, or will be given. */
  ghost predicate HandedOut(w: World, id: nat, p: nat, a: nat)
  {
    id in w.calls && p < |w.calls[id].out| && w.calls[id].out[p] == Some(a)
  }

  /** The arrays the cache keeps, those a call read from it or is about to put there, and the provider's. */
  ghost predicate Inside(w: World, a: nat)
  {
    || (exists i :: 0 <= i < |w.lru| && w.lru[i].value == a)
    || (exists id :: id in w.calls && w.calls[id].phase.Holding? && w.calls[id].phase.a == a)
    || (exists id :: id in w.calls && w.calls[id].phase.Storing? && w.calls[id].phase.a == a)
    || (exists id :: id in w.calls && a in w.calls[id].vecs)
  }

  /**
   After any interleaving, no array is at two output positions, of one call or of two, and none is one the cache uses.
   */
  lemma OutputsAreIsolated(s: Setup, steps: seq<Step>, id: nat, p: nat, a: nat)
    requires After(s, steps).Some? && HandedOut(After(s, steps).value, id, p, a)
    ensures !Inside(After(s, steps).value, a)
    ensures forall id', p' :: HandedOut(After(s, steps).value, id', p', a) ==> id' == id && p' == p
  {
    RunsStayOwned(s, steps);
    var w := After(s, steps).value;
    assert CallOwned(w.mem, id, w.calls[id]);
    assert OwnedBy(w.mem, a, Output(id, p));
    forall id', p' | HandedOut(w, id', p', a) ensures id' == id && p' == p {
      assert CallOwned(w.mem, id', w.calls[id']);
      assert OwnedBy(w.mem, a, Output(id', p'));
    }
    forall id' | id' in w.calls
      ensures !(w.calls[id'].phase.Holding? && w.calls[id'].phase.a == a)
      ensures !(w.calls[id'].phase.Storing? && w.calls[id'].phase.a == a)
      ensures a !in w.calls[id'].vecs
    {
      assert CallOwned(w.mem, id', w.calls[id']);
    }
  }

  /**
   A caller that writes to what it was given changes no other output, of its own or another's, and nothing in use
   inside.
   */
  lemma ScribblesArePrivate(s: Setup, steps: seq<Step>, step: Step, a: nat)
    requires After(s, steps).Some? && step.Scribble? && Enabled(After(s, steps).value, step)
    requires Inside(After(s, steps).value, a) ||
             exists id, p :: HandedOut(After(s, steps).value, id, p, a) && (id != step.id || p != step.p)
    ensures Read(Next(s, After(s, steps).value, step).mem, a) == Read(After(s, steps).value.mem, a)
  {
    var w := After(s, steps).value;
    assert HandedOut(w, step.id, step.p, w.calls[step.id].out[step.p].value);
    OutputsAreIsolated(s, steps, step.id, step.p, w.calls[step.id].out[step.p].value);
  }

  // ----- The simple form -----

  function AbsPhase(p: Phase): Simple.Phase
  {
    match p
    case Getting(i) => Simple.Getting(i)
    case Holding(i, _) => Simple.Getting(i + 1)
    case Calling => Simple.Calling
    case Putting(j) => Simple.Putting(j)
    case Storing(j, _) => Simple.Putting(j)
    case Scattering(j, _) => Simple.Putting(j + 1)
    case Returned => Simple.Returned
    case Failed => Simple.Failed
  }

  /** The outputs, with the copies still to be made; of a call that returned, what they were then. */
  function AbsOut(mem: seq<Cell>, c: Call): seq<Option<Vec>>
  {
    match c.phase
    case Returned => c.given
    case Holding(i, a) => Simple.Fill(ReadOut(mem, c.out), [i], Read(mem, a))
    case Scattering(j, _) =>
      if j >= |c.vecs| then ReadOut(mem, c.out)
      else Simple.Fill(ReadOut(mem, c.out), Waiting(c, j), Read(mem, c.vecs[j]))
    case _ => ReadOut(mem, c.out)
  }

  function AbsCall(mem: seq<Cell>, c: Call): Simple.Call
  {
    Simple.Call(c.texts, AbsPhase(c.phase), AbsOut(mem, c), c.plan, ReadAll(mem, c.vecs), c.asked)
  }

  /** `e` is what `w` looks like when vectors are values. */
  ghost predicate LooksLike(w: World, e: Simple.World)
  {
    && e.lru == ReadSlots(w.mem, w.lru) && e.touched == w.touched && e.calls.Keys == w.calls.Keys
    && forall id :: id in w.calls ==> e.calls[id] == AbsCall(w.mem, w.calls[id])
  }

  /** Copying and scribbling do not show; every other step is one of the simple form. */
  predicate Silent(step: Step)
  {
    step.CopyHit? || step.CopyForCache? || step.CopyOut? || step.EndScatter? || step.Scribble?
  }

  function AbsStep(step: Step): Simple.Step
    requires !Silent(step)
  {
    match step
    case Start(id, texts) => Simple.Start(id, texts)
    case DoGet(id) => Simple.DoGet(id)
    case EndGets(id) => Simple.EndGets(id)
    case ProviderReturns(id, outcome) => Simple.ProviderReturns(id, outcome)
    case DoPut(id) => Simple.DoPut(id)
    case EndPuts(id) => Simple.EndPuts(id)
  }

  lemma ReadSlotsKeys(mem: seq<Cell>, lru: seq<Slot<Digest, nat>>)
    ensures Keys(ReadSlots(mem, lru)) == Keys(lru)
    ensures forall k :: k in Keys(lru) ==> Lookup(ReadSlots(mem, lru), k) == Read(mem, Lookup(lru, k))
  {
    assert Keys(ReadSlots(mem, lru)) == Keys(lru);
  }

  lemma ReadGet(mem: seq<Cell>, lru: seq<Slot<Digest, nat>>, k: Digest)
    ensures Get(ReadSlots(mem, lru), k) == ReadSlots(mem, Get(lru, k))
  {
    ReadSlotsKeys(mem, lru);
  }

  lemma ReadPut(mem: seq<Cell>, lru: seq<Slot<Digest, nat>>, cap: nat, k: Digest, a: nat)
    ensures Put(ReadSlots(mem, lru), cap, k, Read(mem, a)) == ReadSlots(mem, Put(lru, cap, k, a))
  {
    ReadSlotsKeys(mem, lru);
    var i, slots := IndexOf(Keys(lru), k), ReadSlots(mem, lru);
    if i < |lru| {
      assert ToFront(slots, i, Slot(k, Read(mem, a))) == ReadSlots(mem, ToFront(lru, i, Slot(k, a)));
    } else {
      var longer := [Slot(k, a)] + lru;
      assert [Slot(k, Read(mem, a))] + slots == ReadSlots(mem, longer);
      assert ReadSlots(mem, longer)[..|lru|] == ReadSlots(mem, longer[..|lru|]);
    }
  }

  lemma OthersLookAlike(mem: seq<Cell>, id: nat, after: seq<Cell>, j: nat, c: Call)
    requires CallOwned(mem, j, c) && Kept(mem, id, after) && (j != id || c.phase.Returned?)
    ensures AbsCall(after, c) == AbsCall(mem, c)
  {
    assert ReadAll(after, c.vecs) == ReadAll(mem, c.vecs);
    if !c.phase.Returned? {
      assert ReadOut(after, c.out) == ReadOut(mem, c.out);
    }
  }

  lemma GrownLooksAlike(mem: seq<Cell>, id: nat, after: seq<Cell>, c: Call)
    requires CallOwned(mem, id, c) && Grown(mem, after)
    ensures ReadOut(after, c.out) == ReadOut(mem, c.out) && ReadAll(after, c.vecs) == ReadAll(mem, c.vecs)
  {
  }

  /** A copy fills its position with what was copied. */
  lemma CopyFills(mem: seq<Cell>, id: nat, c: Call, p: nat, cell: Cell)
    requires OutOwned(mem, id, c) && p < |c.out|
    ensures ReadOut(mem + [cell], c.out[p := Some(|mem|)]) == Simple.Fill(ReadOut(mem, c.out), [p], cell.vec)
  {
  }

  /** A step that does not show leaves the call looking as it did. */
  lemma SilentLooksAlike(s: Setup, w: World, id: nat, c: Call, step: Step)
    requires CallOwned(w.mem, id, c) && CanMove(w.mem, c, step) && Silent(step)
    ensures AbsCall(MovedMem(s, w, id, c, step), Moved(s, w, c, step)) == AbsCall(w.mem, c)
  {
    var after, c' := MovedMem(s, w, id, c, step), Moved(s, w, c, step);
    match step
    case CopyHit(_) =>
      GrownLooksAlike(w.mem, id, after, c);
      CopyFills(w.mem, id, c, c.phase.i, Cell(Output(id, c.phase.i), Read(w.mem, c.phase.a)));
    case CopyForCache(_) =>
      GrownLooksAlike(w.mem, id, after, c);
    case CopyOut(_) =>
      GrownLooksAlike(w.mem, id, after, c);
      assert AbsOut(after, c') == AbsOut(w.mem, c);
    case EndScatter(_) =>
      assert AbsOut(after, c') == AbsOut(w.mem, c);
    case Scribble(_, _, _) =>
      assert ReadAll(after, c.vecs) == ReadAll(w.mem, c.vecs);
  }

  /** A step that shows moves the call as the simple form has it. */
  lemma MovedLooksAlike(s: Setup, w: World, id: nat, c: Call, step: Step)
    requires SlotsOwned(w.mem, w.lru) && CallOwned(w.mem, id, c) && CanMove(w.mem, c, step) && !Silent(step)
    ensures Simple.CanMove(AbsCall(w.mem, c), AbsStep(step))
    ensures AbsCall(MovedMem(s, w, id, c, step), Moved(s, w, c, step)) ==
            Simple.Moved(s, ReadSlots(w.mem, w.lru), AbsCall(w.mem, c), AbsStep(step))
  {
    ReadSlotsKeys(w.mem, w.lru);
    var after, c' := MovedMem(s, w, id, c, step), Moved(s, w, c, step);
    match step
    case ProviderReturns(_, outcome) =>
      GrownLooksAlike(w.mem, id, after, c);
      if Delivers(outcome, |c.plan.missText|) {
        assert ReadAll(after, c'.vecs) == Vectors(s.vector, c.plan.missText);
      }
    case DoPut(_) =>
      assert AbsCall(w.mem, c).vecs[c.phase.j] == Read(w.mem, c.vecs[c.phase.j]);
    case _ =>
  }

  lemma ListLooksAlike(s: Setup, w: World, id: nat, c: Call, step: Step)
    requires SlotsOwned(w.mem, w.lru) && CallOwned(w.mem, id, c) && CanMove(w.mem, c, step) && !Silent(step)
    requires Simple.CanMove(AbsCall(w.mem, c), AbsStep(step))
    ensures var e := AbsCall(w.mem, c);
      && ReadSlots(w.mem, MovedList(s, w, c, step)) == Simple.MovedList(s, ReadSlots(w.mem, w.lru), e, AbsStep(step))
      && Touches(s, w, c, step) == Simple.Touches(s, ReadSlots(w.mem, w.lru), e, AbsStep(step))
  {
    ReadSlotsKeys(w.mem, w.lru);
    match step
    case DoGet(_) => ReadGet(w.mem, w.lru, s.hash(c.texts[c.phase.i]));
    case DoPut(_) => ReadPut(w.mem, w.lru, s.cap, c.plan.missKey[c.phase.j], c.phase.a);
    case _ =>
  }

  /** Whoever takes the step, the other calls are where they were and look as they did. */
  ghost predicate OthersAlike(w: World, id: nat, w': World)
  {
    var alike := w'.calls.Keys == w.calls.Keys + {id} &&
                 forall j :: j in w.calls && j != id ==> AbsCall(w'.mem, w'.calls[j]) == AbsCall(w.mem, w.calls[j]);
    alike
  }

  lemma StepLeavesOthers(s: Setup, w: World, step: Step)
    requires Owned(w) && Enabled(w, step)
    ensures OthersAlike(w, step.id, Next(s, w, step))
  {
    var w' := Next(s, w, step);
    StepKeeps(s, w, step);
    forall j | j in w.calls && j != step.id ensures AbsCall(w'.mem, w'.calls[j]) == AbsCall(w.mem, w.calls[j]) {
      OthersLookAlike(w.mem, step.id, w'.mem, j, w.calls[j]);
    }
  }

  lemma LooksLikeStill(w: World, e: Simple.World, id: nat, w': World, e': Simple.World)
    requires LooksLike(w, e) && OthersAlike(w, id, w')
    requires e'.calls.Keys == e.calls.Keys + {id} && forall j :: j in e.calls && j != id ==> e'.calls[j] == e.calls[j]
    requires id in e'.calls && e'.calls[id] == AbsCall(w'.mem, w'.calls[id])
    requires e'.lru == ReadSlots(w'.mem, w'.lru) && e'.touched == w'.touched
    ensures LooksLike(w', e')
  {
  }

  lemma StartSimulates(s: Setup, w: World, e: Simple.World, step: Step)
    requires Owned(w) && LooksLike(w, e) && Enabled(w, step) && step.Start?
    ensures Simple.Enabled(e, AbsStep(step)) && LooksLike(Next(s, w, step), Simple.Next(s, e, AbsStep(step)))
  {
    var w', e' := Next(s, w, step), Simple.Next(s, e, AbsStep(step));
    StepLeavesOthers(s, w, step);
    assert ReadOut(w'.mem, w'.calls[step.id].out) == seq(|step.texts|, _ => None);
    assert ReadAll(w'.mem, w'.calls[step.id].vecs) == [];
    LooksLikeStill(w, e, step.id, w', e');
  }

  lemma SilentSimulates(s: Setup, w: World, e: Simple.World, step: Step)
    requires Owned(w) && LooksLike(w, e) && Enabled(w, step) && Silent(step)
    ensures LooksLike(Next(s, w, step), e)
  {
    var w', c := Next(s, w, step), w.calls[step.id];
    StepLeavesOthers(s, w, step);
    StepKeeps(s, w, step);
    SlotsStay(w.mem, step.id, w'.mem, w.lru);
    assert CallOwned(w.mem, step.id, c);
    SilentLooksAlike(s, w, step.id, c, step);
    LooksLikeStill(w, e, step.id, w', e);
  }

  lemma ShownSimulates(s: Setup, w: World, e: Simple.World, step: Step)
    requires Owned(w) && LooksLike(w, e) && Enabled(w, step) && !Silent(step) && !step.Start?
    ensures Simple.Enabled(e, AbsStep(step)) && LooksLike(Next(s, w, step), Simple.Next(s, e, AbsStep(step)))
  {
    hide Moved, MovedMem, MovedList, Touches, AbsCall, CanMove, CallOwned, OthersAlike, ReadSlots;
    hide Simple.Moved, Simple.MovedList, Simple.Touches, Simple.CanMove;
    var w', c := Next(s, w, step), w.calls[step.id];
    StepLeavesOthers(s, w, step);
    assert CallOwned(w.mem, step.id, c);
    MovedLooksAlike(s, w, step.id, c, step);
    ListLooksAlike(s, w, step.id, c, step);
    ShownListStays(s, w, step);
    var e' := Simple.Next(s, e, AbsStep(step));
    LooksLikeStill(w, e, step.id, w', e');
  }

  lemma ShownListStays(s: Setup, w: World, step: Step)
    requires Owned(w) && Enabled(w, step) && !Silent(step) && !step.Start?
    ensures ReadSlots(Next(s, w, step).mem, Next(s, w, step).lru) == ReadSlots(w.mem, Next(s, w, step).lru)
  {
    var w', c := Next(s, w, step), w.calls[step.id];
    assert CallOwned(w.mem, step.id, c);
    StepKeeps(s, w, step);
    match step
    case DoGet(_) =>
      HeldOwned(w.mem, w.lru, s.hash(c.texts[c.phase.i]));
      SlotsStay(w.mem, step.id, w'.mem, w'.lru);
    case DoPut(_) =>
      PutOwned(w.mem, w.lru, s.cap, c.plan.missKey[c.phase.j], c.phase.a);
      SlotsStay(w.mem, step.id, w'.mem, w'.lru);
    case _ =>
      SlotsStay(w.mem, step.id, w'.mem, w.lru);
  }

  /** Every step of the arrays' machine is a step of the simple form, or does not show. */
  lemma StepSimulates(s: Setup, w: World, e: Simple.World, step: Step)
    requires Owned(w) && LooksLike(w, e) && Enabled(w, step)
    ensures Silent(step) ==> LooksLike(Next(s, w, step), e)
    ensures !Silent(step) ==>
              Simple.Enabled(e, AbsStep(step)) && LooksLike(Next(s, w, step), Simple.Next(s, e, AbsStep(step)))
  {
    if step.Start? {
      StartSimulates(s, w, e, step);
    } else if Silent(step) {
      SilentSimulates(s, w, e, step);
    } else {
      ShownSimulates(s, w, e, step);
    }
  }

  /** The steps that show. */
  function Shown(steps: seq<Step>): seq<Simple.Step>
  {
    if steps == [] then []
    else
      var before, step := Shown(steps[..|steps| - 1]), steps[|steps| - 1];
      if Silent(step) then before else before + [AbsStep(step)]
  }

  /**
   Whatever the interleaving, with its copies outside the lock and its callers' writes, it looks like one of the simple
   form.
   */
  lemma {:induction false} RunsLookSimple(s: Setup, steps: seq<Step>)
    requires After(s, steps).Some?
    ensures Simple.After(s, Shown(steps)).Some? && LooksLike(After(s, steps).value, Simple.After(s, Shown(steps)).value)
  {
    if steps != [] {
      var before, step := steps[..|steps| - 1], steps[|steps| - 1];
      RunsLookSimple(s, before);
      RunsStayOwned(s, before);
      StepSimulates(s, After(s, before).value, Simple.After(s, Shown(before)).value, step);
      if !Silent(step) {
        assert Shown(steps)[..|Shown(steps)| - 1] == Shown(before);
      }
    }
  }

  /** So a call that returned was given, in arrays of its own, exactly the provider's vectors. */
  lemma EveryCallerGetsItsVectors(s: Setup, steps: seq<Step>, id: nat)
    requires s.cap > 0 && After(s, steps).Some? && id in After(s, steps).value.calls
    requires CollisionsHarmless(s.hash, s.vector, Texts(After(s, steps).value.calls))
    requires After(s, steps).value.calls[id].phase.Returned?
    ensures var c := After(s, steps).value.calls[id];
      c.given == seq(|c.texts|, p requires 0 <= p < |c.texts| => Some(s.vector(c.texts[p])))
  {
    RunsLookSimple(s, steps);
    var w, e := After(s, steps).value, Simple.After(s, Shown(steps)).value;
    assert Texts(w.calls) == Simple.Seen(e.calls) by {
      forall id | id in w.calls ensures e.calls[id].texts == w.calls[id].texts {
      }
    }
    Simple.EveryCallAgrees(s, Shown(steps), id);
  }

  ghost function Texts(calls: map<nat, Call>): set<string>
  {
    set id, t | id in calls && t in calls[id].texts :: t
  }
}
