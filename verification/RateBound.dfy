/**
 Any number of concurrent evaluations over one set of buckets, a rule at a time.
 Through any window of the run, a rate limit lets on at most its burst plus its
 rate times the length of the window.
 */
module RateBound {
  import opened Wrappers
  import opened TokenBucket
  import opened Rules

  datatype Call = Call(h: Hook, next: nat, decision: Option<Decision>)

  datatype World = World(buckets: Buckets, calls: map<nat, Call>)

  /** A request arrives, or a call moves past its next rule; `now` is the time it happens. */
  datatype Step = Arrive(id: nat, h: Hook, now: real) | Move(id: nat, now: real)

  const EMPTY: World := World(map[], map[])

  predicate Enabled(w: World, step: Step)
  {
    match step
    case Arrive(id, _, _) => id !in w.calls
    case Move(id, _) => id in w.calls && w.calls[id].decision.None?
  }

  function Next(spec: Spec, w: World, step: Step): World
    requires Enabled(w, step)
  {
    match step
    case Arrive(id, h, _) => w.(calls := w.calls[id := Call(h, 0, None)])
    case Move(id, now) =>
      var c := w.calls[id];
      if c.next >= |spec.rules| then w.(calls := w.calls[id := c.(decision := Some(ByDefault(spec.default_)))])
      else
        match Apply(w.buckets, spec.rules[c.next], c.h, now)
        case (after, None) => World(after, w.calls[id := c.(next := c.next + 1)])
        case (after, Some(d)) => World(after, w.calls[id := c.(decision := Some(d))])
  }

  function After(spec: Spec, steps: seq<Step>): Option<World>
  {
    if steps == [] then Some(EMPTY)
    else
      var before, step := After(spec, steps[..|steps| - 1]), steps[|steps| - 1];
      if before.Some? && Enabled(before.value, step) then Some(Next(spec, before.value, step)) else None
  }

  /** The clock does not go back. */
  ghost predicate Ordered(steps: seq<Step>)
  {
    forall i, j :: 0 <= i < j < |steps| ==> steps[i].now <= steps[j].now
  }

  /** The step takes a token from the bucket: the call moves past a matching rate limit that charges it. */
  predicate Takes(spec: Spec, w: World, step: Step, key: string)
    requires Enabled(w, step)
  {
    step.Move? &&
    var c := w.calls[step.id];
    c.next < |spec.rules| && Charges(spec.rules[c.next], c.h) && BucketKey(spec.rules[c.next], c.h) == key &&
    Apply(w.buckets, spec.rules[c.next], c.h, step.now).1.None?
  }

  /** How many tokens the steps from the a-th on take from the bucket. */
  function Taken(spec: Spec, steps: seq<Step>, a: nat, key: string): nat
    requires After(spec, steps).Some?
  {
    if |steps| <= a then 0
    else
      var before, step := steps[..|steps| - 1], steps[|steps| - 1];
      Taken(spec, before, a, key) + if Takes(spec, After(spec, before).value, step, key) then 1 else 0
  }

  /** Which calls take them. */
  function Payers(spec: Spec, steps: seq<Step>, a: nat, key: string): set<nat>
    requires After(spec, steps).Some?
  {
    if |steps| <= a then {}
    else
      var before, step := steps[..|steps| - 1], steps[|steps| - 1];
      Payers(spec, before, a, key) + if Takes(spec, After(spec, before).value, step, key) then {step.id} else {}
  }

  lemma {:induction false} PayersAreFew(spec: Spec, steps: seq<Step>, a: nat, key: string)
    requires After(spec, steps).Some?
    ensures |Payers(spec, steps, a, key)| <= Taken(spec, steps, a, key)
  {
    if |steps| > a {
      PayersAreFew(spec, steps[..|steps| - 1], a, key);
    }
  }

  // ----- Buckets -----

  /** Every bucket was made for the rule whose keys it has, and is no further ahead than the clock. */
  ghost predicate BucketsOk(rules: seq<Rule>, buckets: Buckets, now: real)
  {
    forall i, h :: 0 <= i < |rules| && rules[i].effect.RateLimit? && BucketKey(rules[i], h) in buckets ==>
      BucketOk(rules[i], buckets[BucketKey(rules[i], h)], now)
  }

  /** What a full bucket of the rule is worth. */
  function Full(r: Rule): real
    requires r.bucket.rate > 0.0
  {
    Capacity(r.bucket.rate, Burst(r))
  }

  ghost predicate BucketOk(r: Rule, l: Limiter, now: real)
  {
    Sane(l) && l.last <= now && r.bucket.rate > 0.0 && l.period == Period(r.bucket.rate) && l.capacity == Full(r)
  }

  lemma LimiterOk(rules: seq<Rule>, buckets: Buckets, i: nat, h: Hook, now: real)
    requires NamedApart(rules) && i < |rules| && rules[i].effect.RateLimit? && BucketsOk(rules, buckets, now)
    ensures BucketOk(rules[i], LimiterFor(buckets, rules[i], h, now), now)
  {
    NewIsFull(rules[i].bucket.rate, Burst(rules[i]), now, now);
  }

  lemma ChargedBucketOk(rules: seq<Rule>, buckets: Buckets, i: nat, h: Hook, j: nat, g: Hook, now: real)
    requires NamedApart(rules) && i < |rules| && BucketsOk(rules, buckets, now) && Charges(rules[i], h)
    requires j < |rules| && rules[j].effect.RateLimit? && BucketKey(rules[j], g) in Apply(buckets, rules[i], h, now).0
    ensures BucketOk(rules[j], Apply(buckets, rules[i], h, now).0[BucketKey(rules[j], g)], now)
  {
    hide BucketKey, Matches;
    LimiterOk(rules, buckets, i, h, now);
    AllowTakesOne(LimiterFor(buckets, rules[i], h, now), now);
    if j != i {
      RulesKeepApart(rules[i], h, rules[j], g);
    }
  }

  lemma ApplyKeepsBuckets(rules: seq<Rule>, buckets: Buckets, i: nat, h: Hook, now: real)
    requires NamedApart(rules) && i < |rules| && BucketsOk(rules, buckets, now)
    ensures BucketsOk(rules, Apply(buckets, rules[i], h, now).0, now)
  {
    if Charges(rules[i], h) {
      var after := Apply(buckets, rules[i], h, now).0;
      forall j, g | 0 <= j < |rules| && rules[j].effect.RateLimit? && BucketKey(rules[j], g) in after
        ensures BucketOk(rules[j], after[BucketKey(rules[j], g)], now)
      {
        ChargedBucketOk(rules, buckets, i, h, j, g, now);
      }
    }
  }

  lemma LaterBuckets(rules: seq<Rule>, buckets: Buckets, t: real, u: real)
    requires BucketsOk(rules, buckets, t) && t <= u
    ensures BucketsOk(rules, buckets, u)
  {
  }

  lemma {:induction false} RunsKeepBuckets(spec: Spec, steps: seq<Step>, now: real)
    requires NamedApart(spec.rules) && After(spec, steps).Some? && Ordered(steps)
    requires steps != [] ==> steps[|steps| - 1].now <= now
    ensures BucketsOk(spec.rules, After(spec, steps).value.buckets, now)
  {
    if steps != [] {
      var before, step := steps[..|steps| - 1], steps[|steps| - 1];
      RunsKeepBuckets(spec, before, step.now);
      var w := After(spec, before).value;
      if step.Move? && w.calls[step.id].next < |spec.rules| {
        ApplyKeepsBuckets(spec.rules, w.buckets, w.calls[step.id].next, w.calls[step.id].h, step.now);
      }
      LaterBuckets(spec.rules, After(spec, steps).value.buckets, step.now, now);
    }
  }

  // ----- The bound -----

  /** The content of a rule's bucket at a time; one not yet made counts as full. */
  function Level(r: Rule, buckets: Buckets, key: string, now: real): real
    requires r.bucket.rate > 0.0
  {
    if key in buckets then Available(buckets[key], now) else Full(r)
  }

  lemma LevelRises(rules: seq<Rule>, i: nat, h: Hook, buckets: Buckets, t: real, u: real)
    requires NamedApart(rules) && i < |rules| && rules[i].effect.RateLimit? && BucketsOk(rules, buckets, t) && t <= u
    ensures var r, key := rules[i], BucketKey(rules[i], h);
      0.0 <= Level(r, buckets, key, u) <= Full(r) && Level(r, buckets, key, u) <= Level(r, buckets, key, t) + (u - t)
  {
    var key := BucketKey(rules[i], h);
    if key in buckets {
      Refill(buckets[key], t, u);
    } else {
      NewIsFull(rules[i].bucket.rate, Burst(rules[i]), t, u);
    }
  }

  /** What one rule does to the level: a token less when it takes one, nothing otherwise. */
  lemma LevelAfterApply(rules: seq<Rule>, i: nat, h: Hook, buckets: Buckets, j: nat, g: Hook, now: real)
    requires NamedApart(rules) && i < |rules| && rules[i].effect.RateLimit? && j < |rules| &&
               BucketsOk(rules, buckets, now)
    ensures var key, r := BucketKey(rules[i], h), rules[i];
      var (after, d) := Apply(buckets, rules[j], g, now);
      Level(r, after, key, now) ==
        Level(r, buckets, key, now) -
          if Charges(rules[j], g) && BucketKey(rules[j], g) == key && d.None? then Period(r.bucket.rate) else 0.0
  {
    var key := BucketKey(rules[i], h);
    if Charges(rules[j], g) && BucketKey(rules[j], g) == key {
      if j != i {
        RulesKeepApart(rules[i], h, rules[j], g);
      }
      LimiterOk(rules, buckets, i, g, now);
      AllowTakesOne(LimiterFor(buckets, rules[i], g, now), now);
      NewIsFull(rules[i].bucket.rate, Burst(rules[i]), now, now);
    }
  }

  lemma LevelAfterStep(spec: Spec, w: World, step: Step, i: nat, h: Hook)
    requires NamedApart(spec.rules) && Enabled(w, step) && BucketsOk(spec.rules, w.buckets, step.now)
    requires i < |spec.rules| && spec.rules[i].effect.RateLimit?
    ensures var r, key := spec.rules[i], BucketKey(spec.rules[i], h);
      Level(r, Next(spec, w, step).buckets, key, step.now) ==
        Level(r, w.buckets, key, step.now) - if Takes(spec, w, step, key) then Period(r.bucket.rate) else 0.0
  {
    if step.Move? && w.calls[step.id].next < |spec.rules| {
      LevelAfterApply(spec.rules, i, h, w.buckets, w.calls[step.id].next, w.calls[step.id].h, step.now);
    }
  }

  /** Tokens taken since the a-th step, and those left, are worth no more than a full bucket and the time since. */
  lemma {:induction false} TakenAndLeft(spec: Spec, steps: seq<Step>, a: nat, i: nat, h: Hook)
    requires NamedApart(spec.rules) && After(spec, steps).Some? && Ordered(steps)
    requires i < |spec.rules| && spec.rules[i].effect.RateLimit? && a < |steps|
    ensures var r, key, last := spec.rules[i], BucketKey(spec.rules[i], h), steps[|steps| - 1].now;
      Worth(Taken(spec, steps, a, key), Period(r.bucket.rate)) +
        Level(r, After(spec, steps).value.buckets, key, last) <= Full(r) + (last - steps[a].now)
    decreases |steps|
  {
    hide BucketKey, NamedApart, BucketsOk, Takes, Enabled, Next, Period, Full, Level;
    var before, step := steps[..|steps| - 1], steps[|steps| - 1];
    var w := After(spec, before).value;
    RunsKeepBuckets(spec, before, step.now);
    LevelAfterStep(spec, w, step, i, h);
    if |before| > a {
      var t := before[|before| - 1].now;
      TakenAndLeft(spec, before, a, i, h);
      RunsKeepBuckets(spec, before, t);
      LevelRises(spec.rules, i, h, w.buckets, t, step.now);
    } else {
      LevelRises(spec.rules, i, h, w.buckets, step.now, step.now);
    }
  }

  lemma TakenIsWorth(spec: Spec, steps: seq<Step>, a: nat, i: nat, h: Hook)
    requires NamedApart(spec.rules) && After(spec, steps).Some? && Ordered(steps)
    requires i < |spec.rules| && spec.rules[i].effect.RateLimit? && a < |steps|
    ensures var r := spec.rules[i];
      Worth(Taken(spec, steps, a, BucketKey(r, h)), Period(r.bucket.rate)) <=
        Full(r) + (steps[|steps| - 1].now - steps[a].now)
  {
    var last := steps[|steps| - 1].now;
    TakenAndLeft(spec, steps, a, i, h);
    RunsKeepBuckets(spec, steps, last);
    LevelRises(spec.rules, i, h, After(spec, steps).value.buckets, last, last);
  }

  /** What a rule lets through in a time. */
  function RuleQuota(r: Rule, time: real): real
  {
    Quota(r.bucket.rate, Burst(r), time)
  }

  /** The bound on tokens: at most burst + rate * T leave a bucket in any window of length T. */
  lemma TokensAreBounded(spec: Spec, steps: seq<Step>, a: nat, i: nat, h: Hook)
    requires NamedApart(spec.rules) && After(spec, steps).Some? && Ordered(steps)
    requires i < |spec.rules| && spec.rules[i].effect.RateLimit? && a < |steps|
    ensures Taken(spec, steps, a, BucketKey(spec.rules[i], h)) as real <=
            RuleQuota(spec.rules[i], steps[|steps| - 1].now - steps[a].now)
  {
    var r, time := spec.rules[i], steps[|steps| - 1].now - steps[a].now;
    TakenIsWorth(spec, steps, a, i, h);
    WorthBounds(Taken(spec, steps, a, BucketKey(r, h)), r.bucket.rate, Burst(r), time);
  }

  // ----- Requests -----

  /** No rule before the i-th that matches the request allows it. */
  ghost predicate NotAllowedBefore(rules: seq<Rule>, h: Hook, i: nat)
    requires i <= |rules|
  {
    forall j :: 0 <= j < i ==> !(rules[j].effect.Allow? && Matches(rules[j], h))
  }

  /** A call that was allowed before the last rule was allowed by the rule it stands at. */
  ghost predicate CallOk(spec: Spec, c: Call)
  {
    var ok := c.next <= |spec.rules| &&
              (c.decision.Some? && c.decision.value.allow && c.next < |spec.rules| ==>
                 spec.rules[c.next].effect.Allow? && Matches(spec.rules[c.next], c.h));
    ok
  }

  lemma {:induction false} CallsOk(spec: Spec, steps: seq<Step>, id: nat)
    requires After(spec, steps).Some? && id in After(spec, steps).value.calls
    ensures CallOk(spec, After(spec, steps).value.calls[id])
  {
    var before, step := steps[..|steps| - 1], steps[|steps| - 1];
    if id in After(spec, before).value.calls {
      CallsOk(spec, before, id);
    }
  }

  /** The call arrived at the a-th step or later. */
  predicate ArrivedSince(spec: Spec, steps: seq<Step>, a: nat, id: nat)
    requires a <= |steps| && After(spec, steps).Some?
  {
    PrefixRuns(spec, steps, a);
    id !in After(spec, steps[..a]).value.calls
  }

  lemma {:induction false} PrefixRuns(spec: Spec, steps: seq<Step>, a: nat)
    requires a <= |steps| && After(spec, steps).Some?
    ensures After(spec, steps[..a]).Some?
    decreases |steps|
  {
    if a == |steps| {
      assert steps[..a] == steps;
    } else {
      assert steps[..|steps| - 1][..a] == steps[..a];
      PrefixRuns(spec, steps[..|steps| - 1], a);
    }
  }

  /** A call moves past a matching rate limit only by paying it. */
  lemma MovingPays(spec: Spec, w: World, step: Step, id: nat, i: nat)
    requires Enabled(w, step) && i < |spec.rules| && id in Next(spec, w, step).calls
    requires i < Next(spec, w, step).calls[id].next && Charges(spec.rules[i], Next(spec, w, step).calls[id].h)
    ensures (id in w.calls && w.calls[id].h == Next(spec, w, step).calls[id].h && i < w.calls[id].next) ||
            (step.id == id && Takes(spec, w, step, BucketKey(spec.rules[i], Next(spec, w, step).calls[id].h)))
  {
    hide BucketKey, Matches, LimiterFor, CapExceeded;
    if step.id == id && step.Move? && w.calls[id].next < |spec.rules| {
      match Apply(w.buckets, spec.rules[w.calls[id].next], w.calls[id].h, step.now).1
      case None =>
      case Some(_) =>
    }
  }

  /** A call that arrived in the window and has moved past a matching rate limit is among those that paid it. */
  lemma {:induction false} MovedPastPaid(spec: Spec, steps: seq<Step>, a: nat, id: nat, i: nat)
    requires a <= |steps| && After(spec, steps).Some? && ArrivedSince(spec, steps, a, id)
    requires id in After(spec, steps).value.calls && i < |spec.rules|
    requires var c := After(spec, steps).value.calls[id]; i < c.next && Charges(spec.rules[i], c.h)
    ensures id in Payers(spec, steps, a, BucketKey(spec.rules[i], After(spec, steps).value.calls[id].h))
    decreases |steps|
  {
    assert steps[..|steps|] == steps;
    if a < |steps| {
      var before, step := steps[..|steps| - 1], steps[|steps| - 1];
      assert before[..a] == steps[..a];
      var w := After(spec, before).value;
      MovingPays(spec, w, step, id, i);
      if id in w.calls && i < w.calls[id].next {
        MovedPastPaid(spec, before, a, id, i);
      }
    }
  }

  /** So has a call that is allowed, though no rule before the rate limit allows it. */
  lemma AllowedHasPaid(spec: Spec, steps: seq<Step>, a: nat, i: nat, id: nat)
    requires After(spec, steps).Some? && i < |spec.rules| && spec.rules[i].effect.RateLimit? && a < |steps|
    requires ArrivedSince(spec, steps, a, id) && id in After(spec, steps).value.calls
    requires var c := After(spec, steps).value.calls[id];
      c.decision.Some? && c.decision.value.allow && Matches(spec.rules[i], c.h) && NotAllowedBefore(spec.rules, c.h, i)
    ensures id in Payers(spec, steps, a, BucketKey(spec.rules[i], After(spec, steps).value.calls[id].h))
  {
    CallsOk(spec, steps, id);
    MovedPastPaid(spec, steps, a, id, i);
  }

  /**
   The bound on requests: those that arrive in a window, match a rate limit with the same bucket, are let through
   by no earlier allow and are allowed within the window number at most burst + rate * T.
   */
  lemma AllowedAreBounded(spec: Spec, steps: seq<Step>, a: nat, i: nat, h: Hook, ids: set<nat>)
    requires NamedApart(spec.rules) && After(spec, steps).Some? && Ordered(steps)
    requires i < |spec.rules| && spec.rules[i].effect.RateLimit? && a < |steps|
    requires forall id :: id in ids ==>
               && ArrivedSince(spec, steps, a, id) && id in After(spec, steps).value.calls
               && var c := After(spec, steps).value.calls[id];
                  && c.decision.Some? && c.decision.value.allow
                  && Matches(spec.rules[i], c.h) && BucketKey(spec.rules[i], c.h) == BucketKey(spec.rules[i], h)
                  && NotAllowedBefore(spec.rules, c.h, i)
    ensures |ids| as real <= RuleQuota(spec.rules[i], steps[|steps| - 1].now - steps[a].now)
  {
    var key := BucketKey(spec.rules[i], h);
    forall id | id in ids ensures id in Payers(spec, steps, a, key) {
      AllowedHasPaid(spec, steps, a, i, id);
    }
    SubsetSize(ids, Payers(spec, steps, a, key));
    PayersAreFew(spec, steps, a, key);
    TokensAreBounded(spec, steps, a, i, h);
  }

  lemma {:induction false} SubsetSize(small: set<nat>, big: set<nat>)
    requires small <= big
    ensures |small| <= |big|
  {
    if small != {} {
      var x :| x in small;
      SubsetSize(small - {x}, big - {x});
    }
  }
}
