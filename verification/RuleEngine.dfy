/**
 The rule engine as functions: which requests a rule matches, what it decides,
 which token bucket it charges, and how a whole list of rules is evaluated.
 */
module Rules {
  import opened Wrappers
  import opened Strings
  import opened Patterns
  import opened TokenBucket

  datatype Effect = Allow | Deny | RateLimit | CapEffect | UnknownEffect(name: string)

  datatype Default = DefaultAllow | DefaultDeny | Unset | UnknownDefault(name: string)

  /** An empty list matches anything. */
  datatype Match = Match(tenants: seq<string>, agents: seq<string>, blocks: seq<string>, namespaces: seq<string>,
                         ops: seq<string>)

  datatype Bucket = Bucket(perTenant: bool, perAgent: bool, perNamespace: bool, perOp: bool, rate: real, burst: int)

  /** Bounds on, or sizes of, a request; a zero bound bounds nothing. */
  datatype Magnitude = Magnitude(topK: nat, limit: nat, depth: nat, fanOut: nat, rerankK: nat)

  datatype Rule = Rule(name: string, effect: Effect, reason: string, match_: Match, bucket: Bucket, max: Magnitude)

  datatype Spec = Spec(default_: Default, rules: seq<Rule>)

  datatype Scope = Scope(tenant: string, agent: string)

  datatype Hook = Hook(capability: Option<Scope>, block: string, namespace: string, op: string, size: Magnitude)

  datatype Dimension = TopK | Limit | Depth | FanOut | RerankK

  datatype Reason =
    | Custom(text: string)
    | AllowedBy(rule: string)
    | DeniedBy(rule: string)
    | LimitedBy(rule: string)
    | Exceeds(dimension: Dimension, size: nat, bound: nat, rule: string)
    | DeniedByDefault
    | NoReason

  datatype Decision = Decision(allow: bool, reason: Reason, exhausted: bool)

  type Buckets = map<string, Limiter>

  const BAR: char := '|'

  function Tenant(h: Hook): string { if h.capability.Some? then h.capability.value.tenant else "" }
  function Agent(h: Hook): string { if h.capability.Some? then h.capability.value.agent else "" }

  predicate AnyOrEmpty(allowed: seq<string>, value: string)
  {
    allowed == [] || value in allowed
  }

  /** A single trailing "*" matches any rest. */
  predicate GlobMatch(pattern: string, value: string)
  {
    pattern == "*" || pattern == value || (EndsWith(pattern, "*") && pattern[..|pattern| - 1] <= value)
  }

  predicate AnyGlobOrEmpty(patterns: seq<string>, value: string)
  {
    patterns == [] || exists p :: p in patterns && GlobMatch(p, value)
  }

  /** The part of an operation after its first dot, or all of it. */
  function Verb(op: string): string
  {
    var parts := Split(op, '.');
    if |parts| == 1 then op else Join(parts[1..], '.')
  }

  predicate MatchOp(allowed: seq<string>, op: string)
  {
    op in allowed || Verb(op) in allowed
  }

  predicate Matches(r: Rule, h: Hook)
  {
    && AnyOrEmpty(r.match_.tenants, Tenant(h))
    && AnyOrEmpty(r.match_.agents, Agent(h))
    && AnyOrEmpty(r.match_.blocks, h.block)
    && AnyGlobOrEmpty(r.match_.namespaces, h.namespace)
    && (r.match_.ops == [] || MatchOp(r.match_.ops, h.op))
  }

  predicate Breaches(size: nat, bound: nat)
  {
    bound > 0 && size > bound
  }

  /** The first bound the request exceeds. */
  function CapExceeded(r: Rule, h: Hook): Option<Reason>
  {
    if Breaches(h.size.topK, r.max.topK) then Some(Exceeds(TopK, h.size.topK, r.max.topK, r.name))
    else if Breaches(h.size.limit, r.max.limit) then Some(Exceeds(Limit, h.size.limit, r.max.limit, r.name))
    else if Breaches(h.size.depth, r.max.depth) then Some(Exceeds(Depth, h.size.depth, r.max.depth, r.name))
    else if Breaches(h.size.fanOut, r.max.fanOut) then Some(Exceeds(FanOut, h.size.fanOut, r.max.fanOut, r.name))
    else if Breaches(h.size.rerankK, r.max.rerankK) then Some(Exceeds(RerankK, h.size.rerankK, r.max.rerankK, r.name))
    else None
  }

  function ReasonOr(r: Rule, fallback: Reason): Reason
  {
    if r.reason != "" then Custom(r.reason) else fallback
  }

  function Part(on: bool, part: string): seq<string>
  {
    if on then [part] else []
  }

  function KeyParts(r: Rule, h: Hook): (parts: seq<string>)
    ensures parts != [] && parts[0] == r.name
  {
    [r.name] +
    (Part(r.bucket.perTenant, "t=" + Tenant(h)) +
     (Part(r.bucket.perAgent, "a=" + Agent(h)) +
      (Part(r.bucket.perNamespace, "n=" + h.block + "/" + h.namespace) +
       Part(r.bucket.perOp, "o=" + h.op))))
  }

  function BucketKey(r: Rule, h: Hook): string
  {
    Join(KeyParts(r, h), BAR)
  }

  function Burst(r: Rule): (burst: nat)
    ensures burst >= 1
  {
    if r.bucket.burst <= 0 then 1 else r.bucket.burst
  }

  /** The limiter a request is charged to, made on first use. */
  function LimiterFor(buckets: Buckets, r: Rule, h: Hook, now: real): Limiter
  {
    var key := BucketKey(r, h);
    if key in buckets then buckets[key] else NewLimiter(r.bucket.rate, Burst(r), now)
  }

  /** What one rule does: the buckets after it, and the decision if it ends the evaluation. */
  function Apply(buckets: Buckets, r: Rule, h: Hook, now: real): (Buckets, Option<Decision>)
  {
    if !Matches(r, h) then (buckets, None)
    else
      match r.effect
      case Allow => (buckets, Some(Decision(true, ReasonOr(r, AllowedBy(r.name)), false)))
      case Deny => (buckets, Some(Decision(false, ReasonOr(r, DeniedBy(r.name)), false)))
      case RateLimit =>
        var (limiter, ok) := TokenBucket.Allow(LimiterFor(buckets, r, h, now), now);
        (buckets[BucketKey(r, h) := limiter],
         if ok then None else Some(Decision(false, ReasonOr(r, LimitedBy(r.name)), true)))
      case CapEffect =>
        (buckets,
         match CapExceeded(r, h)
         case Some(breach) => Some(Decision(false, ReasonOr(r, breach), true))
         case None => None)
      case UnknownEffect(_) => (buckets, None)
  }

  function ByDefault(d: Default): Decision
  {
    if d.DefaultDeny? then Decision(false, DeniedByDefault, false) else Decision(true, NoReason, false)
  }

  /** Evaluate the rules from the i-th on; `clock` gives the time at which each is reached. */
  function Evaluated(spec: Spec, buckets: Buckets, h: Hook, clock: nat -> real, i: nat): (Buckets, Decision)
    requires i <= |spec.rules|
    decreases |spec.rules| - i
  {
    if i == |spec.rules| then (buckets, ByDefault(spec.default_))
    else
      match Apply(buckets, spec.rules[i], h, clock(i))
      case (after, Some(d)) => (after, d)
      case (after, None) => Evaluated(spec, after, h, clock, i + 1)
  }

  // ----- Validation -----

  datatype SpecError =
    | BadDefault(name: string)
    | NameRequired(i: nat)
    | DuplicateName(name: string)
    | RateRequired(name: string)
    | BoundRequired(name: string)
    | BadEffect(name: string, effect: string)

  /** What is wrong with rule i, given the ones before it. */
  function Fault(rules: seq<Rule>, i: nat): Option<SpecError>
    requires i < |rules|
  {
    var r := rules[i];
    if r.name == "" then Some(NameRequired(i))
    else if exists j :: 0 <= j < i && rules[j].name == r.name then Some(DuplicateName(r.name))
    else
      match r.effect
      case Allow => None
      case Deny => None
      case RateLimit => if r.bucket.rate <= 0.0 then Some(RateRequired(r.name)) else None
      case CapEffect => if r.max == Magnitude(0, 0, 0, 0, 0) then Some(BoundRequired(r.name)) else None
      case UnknownEffect(e) => Some(BadEffect(r.name, e))
  }

  function FirstFault(rules: seq<Rule>, i: nat): Option<SpecError>
    requires i <= |rules|
    decreases |rules| - i
  {
    if i == |rules| then None
    else if Fault(rules, i).Some? then Fault(rules, i)
    else FirstFault(rules, i + 1)
  }

  ghost predicate WellFormed(rules: seq<Rule>)
  {
    && (forall i, j :: 0 <= i < j < |rules| ==> rules[i].name != rules[j].name)
    && (forall i :: 0 <= i < |rules| ==>
          rules[i].name != "" && !rules[i].effect.UnknownEffect? &&
              (rules[i].effect.RateLimit? ==> rules[i].bucket.rate > 0.0))
  }

  lemma {:induction false} FaultlessFrom(rules: seq<Rule>, i: nat, k: nat)
    requires i <= k < |rules| && FirstFault(rules, i).None?
    ensures Fault(rules, k).None?
    decreases k - i
  {
    if i < k {
      FaultlessFrom(rules, i + 1, k);
    }
  }

  lemma FaultlessIsWellFormed(rules: seq<Rule>)
    requires FirstFault(rules, 0).None?
    ensures WellFormed(rules)
  {
    forall k | 0 <= k < |rules|
      ensures rules[k].name != "" && !rules[k].effect.UnknownEffect? &&
                (rules[k].effect.RateLimit? ==> rules[k].bucket.rate > 0.0)
      ensures forall j :: 0 <= j < k ==> rules[j].name != rules[k].name
    {
      FaultlessFrom(rules, 0, k);
    }
  }

  method Validate(spec: Spec) returns (e: Option<SpecError>)
    ensures e == if spec.default_.UnknownDefault? then Some(BadDefault(spec.default_.name))
                 else FirstFault(spec.rules, 0)
    ensures e.None? ==> WellFormed(spec.rules)
  {
    if spec.default_.UnknownDefault? {
      return Some(BadDefault(spec.default_.name));
    }
    var seen: set<string> := {};
    for i := 0 to |spec.rules|
      invariant FirstFault(spec.rules, 0) == FirstFault(spec.rules, i)
      invariant forall name :: name in seen <==> exists j :: 0 <= j < i && spec.rules[j].name == name
    {
      var r := spec.rules[i];
      if r.name == "" {
        return Some(NameRequired(i));
      }
      if r.name in seen {
        return Some(DuplicateName(r.name));
      }
      seen := seen + {r.name};
      match r.effect {
        case Allow =>
        case Deny =>
        case RateLimit =>
          if r.bucket.rate <= 0.0 {
            return Some(RateRequired(r.name));
          }
        case CapEffect =>
          if r.max == Magnitude(0, 0, 0, 0, 0) {
            return Some(BoundRequired(r.name));
          }
        case UnknownEffect(effect) =>
          return Some(BadEffect(r.name, effect));
      }
    }
    FaultlessIsWellFormed(spec.rules);
    return None;
  }

  // ----- Who shares a bucket -----

  lemma KeyNamesRule(r: Rule, h: Hook)
    requires BAR !in r.name
    ensures Split(BucketKey(r, h), BAR)[0] == r.name
  {
    FirstOfJoin(KeyParts(r, h), BAR);
  }

  /** Rules with different names, free of "|", never share a bucket, whatever the requests. */
  lemma RulesKeepApart(r1: Rule, h1: Hook, r2: Rule, h2: Hook)
    requires BAR !in r1.name && BAR !in r2.name && r1.name != r2.name
    ensures BucketKey(r1, h1) != BucketKey(r2, h2)
  {
    KeyNamesRule(r1, h1);
    KeyNamesRule(r2, h2);
  }

  /** The requests agree on every dimension the rule's bucket is kept by. */
  predicate SameDimensions(b: Bucket, h1: Hook, h2: Hook)
  {
    && (b.perTenant ==> Tenant(h1) == Tenant(h2))
    && (b.perAgent ==> Agent(h1) == Agent(h2))
    && (b.perNamespace ==> h1.block == h2.block && h1.namespace == h2.namespace)
    && (b.perOp ==> h1.op == h2.op)
  }

  function Tagged(on: bool, tag: string, value: string): string
  {
    if on then tag + value else ""
  }

  function OpTail(b: Bucket, h: Hook): string
  {
    Tagged(b.perOp, "|o=", h.op)
  }

  function NamespaceTail(b: Bucket, h: Hook): string
  {
    Tagged(b.perNamespace, "|n=", h.block + "/" + h.namespace) + OpTail(b, h)
  }

  function AgentTail(b: Bucket, h: Hook): string
  {
    Tagged(b.perAgent, "|a=", Agent(h)) + NamespaceTail(b, h)
  }

  function TenantTail(b: Bucket, h: Hook): string
  {
    Tagged(b.perTenant, "|t=", Tenant(h)) + AgentTail(b, h)
  }

  /** The parts, each behind a "|". */
  function Barred(parts: seq<string>): string
  {
    if parts == [] then "" else [BAR] + parts[0] + Barred(parts[1..])
  }

  lemma {:induction false} JoinIsBarred(first: string, rest: seq<string>)
    ensures Join([first] + rest, BAR) == first + Barred(rest)
    decreases rest
  {
    if rest == [] {
      assert [first] + rest == [first];
    } else {
      JoinIsBarred(rest[0], rest[1..]);
      assert [rest[0]] + rest[1..] == rest;
      assert ([first] + rest)[1..] == rest;
      assert first + [BAR] + (rest[0] + Barred(rest[1..])) == first + ([BAR] + rest[0] + Barred(rest[1..]));
    }
  }

  lemma BarredPart(on: bool, letter: string, tag: string, value: string, rest: seq<string>)
    requires tag == [BAR] + letter
    ensures Barred(Part(on, letter + value) + rest) == Tagged(on, tag, value) + Barred(rest)
  {
    if on {
      assert (Part(on, letter + value) + rest)[1..] == rest;
      assert [BAR] + (letter + value) == tag + value;
    } else {
      assert Part(on, letter + value) + rest == rest;
    }
  }

  lemma KeyText(r: Rule, h: Hook)
    ensures BucketKey(r, h) == r.name + TenantTail(r.bucket, h)
  {
    var b := r.bucket;
    var o := Part(b.perOp, "o=" + h.op);
    var n := Part(b.perNamespace, "n=" + (h.block + "/" + h.namespace)) + o;
    var a := Part(b.perAgent, "a=" + Agent(h)) + n;
    var t := Part(b.perTenant, "t=" + Tenant(h)) + a;
    assert "n=" + h.block + "/" + h.namespace == "n=" + (h.block + "/" + h.namespace);
    assert KeyParts(r, h) == [r.name] + t;
    JoinIsBarred(r.name, t);
    BarredPart(b.perTenant, "t=", "|t=", Tenant(h), a);
    BarredPart(b.perAgent, "a=", "|a=", Agent(h), n);
    BarredPart(b.perNamespace, "n=", "|n=", h.block + "/" + h.namespace, o);
    BarredPart(b.perOp, "o=", "|o=", h.op, []);
    assert o + [] == o && OpTail(b, h) + "" == OpTail(b, h);
  }

  lemma SameKeyText(r: Rule, h1: Hook, h2: Hook)
    ensures BucketKey(r, h1) == BucketKey(r, h2) <==> TenantTail(r.bucket, h1) == TenantTail(r.bucket, h2)
  {
    KeyText(r, h1);
    KeyText(r, h2);
    PrefixCancels(r.name, TenantTail(r.bucket, h1), TenantTail(r.bucket, h2));
  }

  lemma PrefixCancels(prefix: string, a: string, b: string)
    ensures prefix + a == prefix + b <==> a == b
  {
    assert (prefix + a)[|prefix|..] == a && (prefix + b)[|prefix|..] == b;
  }

  /** A tag as the key writes it: a bar, and nothing after it that is one. */
  predicate IsTag(tag: string)
  {
    |tag| > 0 && tag[0] == BAR && BAR !in tag[1..]
  }

  lemma TagsAreTags()
    ensures IsTag("|t=") && IsTag("|a=") && IsTag("|n=") && IsTag("|o=")
  {
  }

  lemma TaggedAlike(on: bool, tag: string, v1: string, v2: string)
    ensures Tagged(on, tag, v1) == Tagged(on, tag, v2) <==> (on ==> v1 == v2)
  {
    PrefixCancels(tag, v1, v2);
  }

  /** From the end: a value free of "|" is bound, and so is all before it. */
  lemma LastTagged(x1: string, x2: string, on: bool, tag: string, v1: string, v2: string)
    requires IsTag(tag) && (on ==> BAR !in v1 && BAR !in v2)
    ensures x1 + Tagged(on, tag, v1) == x2 + Tagged(on, tag, v2) <==> x1 == x2 && (on ==> v1 == v2)
  {
    if on {
      var w1, w2 := tag[1..] + v1, tag[1..] + v2;
      assert tag == [BAR] + tag[1..];
      assert x1 + (tag + v1) == x1 + [BAR] + w1 && x2 + (tag + v2) == x2 + [BAR] + w2;
      LastPartIsBound(x1, w1, x2, w2, BAR);
      PrefixCancels(tag[1..], v1, v2);
    } else {
      assert x1 + "" == x1 && x2 + "" == x2;
    }
  }

  predicate Continues(s: string)
  {
    s == "" || s[0] == BAR
  }

  lemma FirstOf(v: string, rest: string)
    requires BAR !in v && Continues(rest)
    ensures Split(v + rest, BAR)[0] == v
  {
    if rest == "" {
      SplitWhole(v, BAR);
      assert v + rest == v;
    } else {
      SplitFirst(v, rest[1..], BAR);
      assert v + rest == v + [BAR] + rest[1..];
    }
  }

  /** From the front: a value free of "|" is bound, and so is all after it. */
  lemma FirstTagged(on: bool, tag: string, v1: string, v2: string, rest1: string, rest2: string)
    requires on ==> BAR !in v1 && BAR !in v2
    requires Continues(rest1) && Continues(rest2)
    ensures Tagged(on, tag, v1) + rest1 == Tagged(on, tag, v2) + rest2 <==> (on ==> v1 == v2) && rest1 == rest2
  {
    if on {
      FirstOf(v1, rest1);
      FirstOf(v2, rest2);
      assert tag + v1 + rest1 == tag + (v1 + rest1) && tag + v2 + rest2 == tag + (v2 + rest2);
      PrefixCancels(tag, v1 + rest1, v2 + rest2);
      PrefixCancels(v1, rest1, rest2);
    } else {
      assert "" + rest1 == rest1 && "" + rest2 == rest2;
    }
  }

  /** Block and operation come from the server's method table: neither holds a "|", nor the block a "/". */
  predicate Mapped(h: Hook)
  {
    BAR !in h.op && BAR !in h.block && '/' !in h.block
  }

  /** Of the enabled dimensions that callers name, at most one holds a "|". */
  predicate OneLoose(b: Bucket, h1: Hook, h2: Hook)
  {
    var tenant := b.perTenant ==> BAR !in Tenant(h1) && BAR !in Tenant(h2);
    var agent := b.perAgent ==> BAR !in Agent(h1) && BAR !in Agent(h2);
    var namespace_ := b.perNamespace ==> BAR !in h1.namespace && BAR !in h2.namespace;
    (tenant && agent) || (tenant && namespace_) || (agent && namespace_)
  }

  function NamespaceText(h: Hook): string
  {
    h.block + "/" + h.namespace
  }

  lemma NamespaceIsBound(h1: Hook, h2: Hook)
    requires Mapped(h1) && Mapped(h2)
    ensures NamespaceText(h1) == NamespaceText(h2) <==> h1.block == h2.block && h1.namespace == h2.namespace
    ensures BAR in NamespaceText(h1) <==> BAR in h1.namespace
  {
    assert NamespaceText(h1) == h1.block + ['/'] + h1.namespace && NamespaceText(h2) == h2.block + ['/'] + h2.namespace;
    FirstPartIsBound(h1.block, h1.namespace, h2.block, h2.namespace, '/');
  }

  /** The key without the rule's name and the operation. */
  function Body(b: Bucket, h: Hook): string
  {
    Tagged(b.perTenant, "|t=", Tenant(h)) + Tagged(b.perAgent, "|a=", Agent(h)) +
    Tagged(b.perNamespace, "|n=", NamespaceText(h))
  }

  lemma TailIsBody(b: Bucket, h: Hook)
    ensures TenantTail(b, h) == Body(b, h) + OpTail(b, h)
  {
    Regroup(Tagged(b.perTenant, "|t=", Tenant(h)), Tagged(b.perAgent, "|a=", Agent(h)),
            Tagged(b.perNamespace, "|n=", NamespaceText(h)), OpTail(b, h));
  }

  lemma Regroup(t: string, a: string, n: string, o: string)
    ensures t + (a + (n + o)) == t + a + n + o
  {
  }

  /** The operation is always bound: two requests share a bucket exactly when body and enabled operation agree. */
  lemma SharedByBody(r: Rule, h1: Hook, h2: Hook)
    requires BAR !in h1.op && BAR !in h2.op
    ensures BucketKey(r, h1) == BucketKey(r, h2) <==>
              Body(r.bucket, h1) == Body(r.bucket, h2) && (r.bucket.perOp ==> h1.op == h2.op)
  {
    SameKeyText(r, h1, h2);
    TailIsBody(r.bucket, h1);
    TailIsBody(r.bucket, h2);
    TagsAreTags();
    LastTagged(Body(r.bucket, h1), Body(r.bucket, h2), r.bucket.perOp, "|o=", h1.op, h2.op);
  }

  lemma BodyByParts(b: Bucket, h: Hook)
    ensures Body(b, h) == Tagged(b.perTenant, "|t=", Tenant(h)) +
                          (Tagged(b.perAgent, "|a=", Agent(h)) + Tagged(b.perNamespace, "|n=", NamespaceText(h)))
  {
  }

  lemma BodyFromTheFront(b: Bucket, h1: Hook, h2: Hook)
    requires Mapped(h1) && Mapped(h2)
    requires b.perTenant ==> BAR !in Tenant(h1) && BAR !in Tenant(h2)
    requires b.perAgent ==> BAR !in Agent(h1) && BAR !in Agent(h2)
    ensures Body(b, h1) == Body(b, h2) <==> SameDimensions(b.(perOp := false), h1, h2)
  {
    var n1, n2 := Tagged(b.perNamespace, "|n=", NamespaceText(h1)), Tagged(b.perNamespace, "|n=", NamespaceText(h2));
    var a1, a2 := Tagged(b.perAgent, "|a=", Agent(h1)) + n1, Tagged(b.perAgent, "|a=", Agent(h2)) + n2;
    BodyByParts(b, h1);
    BodyByParts(b, h2);
    assert Continues(a1) && Continues(a2) && Continues(n1) && Continues(n2);
    hide Body, Tagged;
    FirstTagged(b.perTenant, "|t=", Tenant(h1), Tenant(h2), a1, a2);
    FirstTagged(b.perAgent, "|a=", Agent(h1), Agent(h2), n1, n2);
    TaggedAlike(b.perNamespace, "|n=", NamespaceText(h1), NamespaceText(h2));
    NamespaceIsBound(h1, h2);
  }

  lemma BodyFromTheEnd(b: Bucket, h1: Hook, h2: Hook)
    requires Mapped(h1) && Mapped(h2)
    requires b.perNamespace ==> BAR !in h1.namespace && BAR !in h2.namespace
    requires (b.perTenant ==> BAR !in Tenant(h1) && BAR !in Tenant(h2)) ||
               (b.perAgent ==> BAR !in Agent(h1) && BAR !in Agent(h2))
    ensures Body(b, h1) == Body(b, h2) <==> SameDimensions(b.(perOp := false), h1, h2)
  {
    var t1, t2 := Tagged(b.perTenant, "|t=", Tenant(h1)), Tagged(b.perTenant, "|t=", Tenant(h2));
    var a1, a2 := Tagged(b.perAgent, "|a=", Agent(h1)), Tagged(b.perAgent, "|a=", Agent(h2));
    NamespaceIsBound(h1, h2);
    NamespaceIsBound(h2, h1);
    TagsAreTags();
    LastTagged(t1 + a1, t2 + a2, b.perNamespace, "|n=", NamespaceText(h1), NamespaceText(h2));
    TaggedAlike(b.perTenant, "|t=", Tenant(h1), Tenant(h2));
    TaggedAlike(b.perAgent, "|a=", Agent(h1), Agent(h2));
    if b.perTenant ==> BAR !in Tenant(h1) && BAR !in Tenant(h2) {
      FirstTagged(b.perTenant, "|t=", Tenant(h1), Tenant(h2), a1, a2);
    } else {
      LastTagged(t1, t2, b.perAgent, "|a=", Agent(h1), Agent(h2));
    }
  }

  /**
   Two requests share a rule's bucket exactly when they agree on every enabled dimension, as long as at most one
   dimension that callers name holds a "|": for a bucket kept by tenant alone, whatever the tenants.
   */
  lemma SharedExactly(r: Rule, h1: Hook, h2: Hook)
    requires Mapped(h1) && Mapped(h2) && OneLoose(r.bucket, h1, h2)
    ensures BucketKey(r, h1) == BucketKey(r, h2) <==> SameDimensions(r.bucket, h1, h2)
  {
    SharedByBody(r, h1, h2);
    if r.bucket.perNamespace ==> BAR !in h1.namespace && BAR !in h2.namespace {
      BodyFromTheEnd(r.bucket, h1, h2);
    } else {
      BodyFromTheFront(r.bucket, h1, h2);
    }
  }

  // ----- Which callers can share a bucket -----

  function Request(tenant: string, agent: string, block: string, namespace_: string, op: string): Hook
  {
    Hook(Some(Scope(tenant, agent)), block, namespace_, op, Magnitude(0, 0, 0, 0, 0))
  }

  /** What a key holds of the tenant, up to where the next value a caller names begins. */
  function TenantStem(b: Bucket, tenant: string, block: string): string
  {
    if b.perAgent then tenant + "|a=" else if b.perNamespace then tenant + "|n=" + block + "/" else tenant
  }

  function TenantRest(b: Bucket, agent: string, block: string, namespace_: string): string
  {
    if b.perAgent then agent + Tagged(b.perNamespace, "|n=", block + "/" + namespace_)
    else if b.perNamespace then namespace_
    else ""
  }

  lemma TenantBody(b: Bucket, tenant: string, agent: string, block: string, namespace_: string, op: string)
    requires b.perTenant
    ensures Body(b, Request(tenant, agent, block, namespace_, op)) ==
            "|t=" + (TenantStem(b, tenant, block) + TenantRest(b, agent, block, namespace_))
  {
    var n := Tagged(b.perNamespace, "|n=", block + "/" + namespace_);
    if b.perAgent {
      Reassociate("|t=", tenant, "|a=", agent, n);
    } else if b.perNamespace {
      Lengthen("|t=" + tenant, "|n=", block, namespace_);
      Reassociate("|t=", tenant, "|n=" + (block + "/"), namespace_, "");
      assert n == "|n=" + (block + "/" + namespace_) && "|n=" + (block + "/") == "|n=" + block + "/";
    }
  }

  lemma Reassociate(a: string, b: string, c: string, d: string, e: string)
    ensures a + b + (c + d) + e == a + (b + c + (d + e))
    ensures a + b + "" + (c + d) == a + (b + c + d)
  {
  }

  /** Whether two tenants, calling these blocks, can come to one bucket. */
  predicate TenantsOverlap(b: Bucket, t1: string, block1: string, t2: string, block2: string)
  {
    if b.perAgent || b.perNamespace then Overlap(TenantStem(b, t1, block1), TenantStem(b, t2, block2)) else t1 == t2
  }

  /** When one stem begins the other, agents and namespaces can make up the difference. */
  lemma RestsMakeUp(b: Bucket, t1: string, block1: string, t2: string, block2: string)
    returns (a1: string, n1: string, a2: string, n2: string)
    requires b.perAgent || b.perNamespace
    requires TenantStem(b, t1, block1) <= TenantStem(b, t2, block2)
    ensures TenantStem(b, t1, block1) + TenantRest(b, a1, block1, n1) ==
              TenantStem(b, t2, block2) + TenantRest(b, a2, block2, n2)
  {
    var stem1, stem2 := TenantStem(b, t1, block1), TenantStem(b, t2, block2);
    var x := stem2[|stem1|..];
    if b.perAgent && b.perNamespace {
      a1, n1, a2, n2 := x + "|n=" + block2 + "/", "", "", "|n=" + block1 + "/";
      assert TenantRest(b, a1, block1, n1) == x + TenantRest(b, a2, block2, n2);
    } else {
      a1, n1, a2, n2 := x, x, "", "";
      assert x + "" == x;
    }
    assert stem2 == stem1 + x;
  }

  ghost predicate TenantsCanShare(r: Rule, t1: string, block1: string, op1: string, t2: string, block2: string,
                                  op2: string)
  {
    exists a1, n1, a2, n2 ::
      BucketKey(r, Request(t1, a1, block1, n1, op1)) == BucketKey(r, Request(t2, a2, block2, n2, op2))
  }

  /**
   Two tenants can share a bucket that is kept by tenant exactly when the operations agree, if it is kept by those,
   and one tenant, followed by the tag of the next dimension callers name, begins the other.
   */
  lemma TenantsShareExactly(r: Rule, t1: string, block1: string, op1: string, t2: string, block2: string, op2: string)
    requires r.bucket.perTenant && BAR !in op1 && BAR !in op2
    ensures TenantsCanShare(r, t1, block1, op1, t2, block2, op2) <==>
            (r.bucket.perOp ==> op1 == op2) && TenantsOverlap(r.bucket, t1, block1, t2, block2)
  {
    forall a1, n1, a2, n2 |
        BucketKey(r, Request(t1, a1, block1, n1, op1)) == BucketKey(r, Request(t2, a2, block2, n2, op2))
      ensures (r.bucket.perOp ==> op1 == op2) && TenantsOverlap(r.bucket, t1, block1, t2, block2)
    {
      SharingTenantsOverlap(r, Request(t1, a1, block1, n1, op1), Request(t2, a2, block2, n2, op2));
    }
    if (r.bucket.perOp ==> op1 == op2) && TenantsOverlap(r.bucket, t1, block1, t2, block2) {
      var a1, n1, a2, n2 := OverlappingTenantsShare(r, t1, block1, op1, t2, block2, op2);
      assert BucketKey(r, Request(t1, a1, block1, n1, op1)) == BucketKey(r, Request(t2, a2, block2, n2, op2));
    }
  }

  lemma SharingTenantsOverlap(r: Rule, h1: Hook, h2: Hook)
    requires r.bucket.perTenant && BAR !in h1.op && BAR !in h2.op && h1.capability.Some? && h2.capability.Some?
    requires BucketKey(r, h1) == BucketKey(r, h2)
    ensures (r.bucket.perOp ==> h1.op == h2.op) && TenantsOverlap(r.bucket, Tenant(h1), h1.block, Tenant(h2), h2.block)
  {
    var b := r.bucket;
    SharedByRests(r, h1, h2);
    var stem1, stem2 := TenantStem(b, Tenant(h1), h1.block), TenantStem(b, Tenant(h2), h2.block);
    ContinueAlike(stem1, stem2);
    if !b.perAgent && !b.perNamespace {
      assert stem1 + "" == stem1 && stem2 + "" == stem2;
    }
  }

  lemma OverlappingTenantsShare(r: Rule, t1: string, block1: string, op1: string, t2: string, block2: string,
                                op2: string)
    returns (a1: string, n1: string, a2: string, n2: string)
    requires r.bucket.perTenant && BAR !in op1 && BAR !in op2
    requires (r.bucket.perOp ==> op1 == op2) && TenantsOverlap(r.bucket, t1, block1, t2, block2)
    ensures BucketKey(r, Request(t1, a1, block1, n1, op1)) == BucketKey(r, Request(t2, a2, block2, n2, op2))
  {
    if !r.bucket.perAgent && !r.bucket.perNamespace {
      a1, n1, a2, n2 := "", "", "", "";
    } else if TenantStem(r.bucket, t1, block1) <= TenantStem(r.bucket, t2, block2) {
      a1, n1, a2, n2 := RestsMakeUp(r.bucket, t1, block1, t2, block2);
    } else {
      a2, n2, a1, n1 := RestsMakeUp(r.bucket, t2, block2, t1, block1);
    }
    SharedByRests(r, Request(t1, a1, block1, n1, op1), Request(t2, a2, block2, n2, op2));
  }

  lemma SharedByRests(r: Rule, h1: Hook, h2: Hook)
    requires r.bucket.perTenant && BAR !in h1.op && BAR !in h2.op && h1.capability.Some? && h2.capability.Some?
    ensures var b := r.bucket;
      BucketKey(r, h1) == BucketKey(r, h2) <==>
        (b.perOp ==> h1.op == h2.op) &&
        TenantStem(b, Tenant(h1), h1.block) + TenantRest(b, Agent(h1), h1.block, h1.namespace) ==
        TenantStem(b, Tenant(h2), h2.block) + TenantRest(b, Agent(h2), h2.block, h2.namespace)
  {
    var b := r.bucket;
    SharedByBody(r, h1, h2);
    TenantBody(b, Tenant(h1), Agent(h1), h1.block, h1.namespace, h1.op);
    TenantBody(b, Tenant(h2), Agent(h2), h2.block, h2.namespace, h2.op);
    PrefixCancels("|t=", TenantStem(b, Tenant(h1), h1.block) + TenantRest(b, Agent(h1), h1.block, h1.namespace),
                  TenantStem(b, Tenant(h2), h2.block) + TenantRest(b, Agent(h2), h2.block, h2.namespace));
  }

  /** What a key holds of tenant, agent and block, up to where the namespace begins. */
  function CallerStem(b: Bucket, tenant: string, agent: string, block: string): string
  {
    Tagged(b.perTenant, "|t=", tenant) + Tagged(b.perAgent, "|a=", agent) + Tagged(b.perNamespace, "|n=", block + "/")
  }

  ghost predicate CallersCanShare(r: Rule, t1: string, a1: string, block1: string, op1: string,
                                  t2: string, a2: string, block2: string, op2: string)
  {
    exists n1, n2 :: BucketKey(r, Request(t1, a1, block1, n1, op1)) == BucketKey(r, Request(t2, a2, block2, n2, op2))
  }

  predicate CallersOverlap(b: Bucket, t1: string, a1: string, block1: string, t2: string, a2: string, block2: string)
  {
    var stem1, stem2 := CallerStem(b, t1, a1, block1), CallerStem(b, t2, a2, block2);
    if b.perNamespace then Overlap(stem1, stem2) else stem1 == stem2
  }

  /**
   Two callers, of given tenants and agents, can share a bucket exactly when the operations agree, if it is kept by
   those, and what precedes the namespace of one begins what precedes that of the other; without namespaces, is it.
   */
  lemma CallersShareExactly(r: Rule, t1: string, a1: string, block1: string, op1: string,
                            t2: string, a2: string, block2: string, op2: string)
    requires BAR !in op1 && BAR !in op2
    ensures CallersCanShare(r, t1, a1, block1, op1, t2, a2, block2, op2) <==>
            (r.bucket.perOp ==> op1 == op2) && CallersOverlap(r.bucket, t1, a1, block1, t2, a2, block2)
  {
    forall n1, n2 | BucketKey(r, Request(t1, a1, block1, n1, op1)) == BucketKey(r, Request(t2, a2, block2, n2, op2))
      ensures (r.bucket.perOp ==> op1 == op2) && CallersOverlap(r.bucket, t1, a1, block1, t2, a2, block2)
    {
      SharedByTexts(r, t1, a1, block1, n1, op1, t2, a2, block2, n2, op2);
      TextsMeet(r.bucket, CallerStem(r.bucket, t1, a1, block1), CallerStem(r.bucket, t2, a2, block2));
    }
    if (r.bucket.perOp ==> op1 == op2) && CallersOverlap(r.bucket, t1, a1, block1, t2, a2, block2) {
      var n1, n2 := OverlappingCallersShare(r, t1, a1, block1, op1, t2, a2, block2, op2);
      assert BucketKey(r, Request(t1, a1, block1, n1, op1)) == BucketKey(r, Request(t2, a2, block2, n2, op2));
    }
  }

  lemma OverlappingCallersShare(r: Rule, t1: string, a1: string, block1: string, op1: string,
                                t2: string, a2: string, block2: string, op2: string) returns (n1: string, n2: string)
    requires BAR !in op1 && BAR !in op2
    requires (r.bucket.perOp ==> op1 == op2) && CallersOverlap(r.bucket, t1, a1, block1, t2, a2, block2)
    ensures BucketKey(r, Request(t1, a1, block1, n1, op1)) == BucketKey(r, Request(t2, a2, block2, n2, op2))
  {
    var stem1, stem2 := CallerStem(r.bucket, t1, a1, block1), CallerStem(r.bucket, t2, a2, block2);
    TextsMeet(r.bucket, stem1, stem2);
    n1, n2 :| CallerText(r.bucket, stem1, n1) == CallerText(r.bucket, stem2, n2);
    SharedByTexts(r, t1, a1, block1, n1, op1, t2, a2, block2, n2, op2);
  }

  lemma SharedByTexts(r: Rule, t1: string, a1: string, block1: string, n1: string, op1: string,
                      t2: string, a2: string, block2: string, n2: string, op2: string)
    requires BAR !in op1 && BAR !in op2
    ensures BucketKey(r, Request(t1, a1, block1, n1, op1)) == BucketKey(r, Request(t2, a2, block2, n2, op2)) <==>
            (r.bucket.perOp ==> op1 == op2) &&
            CallerText(r.bucket, CallerStem(r.bucket, t1, a1, block1), n1) ==
            CallerText(r.bucket, CallerStem(r.bucket, t2, a2, block2), n2)
  {
    SharedByBody(r, Request(t1, a1, block1, n1, op1), Request(t2, a2, block2, n2, op2));
    CallerBody(r.bucket, t1, a1, block1, n1, op1);
    CallerBody(r.bucket, t2, a2, block2, n2, op2);
  }

  function CallerText(b: Bucket, stem: string, namespace_: string): string
  {
    if b.perNamespace then stem + namespace_ else stem
  }

  lemma TextsMeet(b: Bucket, stem1: string, stem2: string)
    ensures (exists n1, n2 :: CallerText(b, stem1, n1) == CallerText(b, stem2, n2)) <==>
            if b.perNamespace then Overlap(stem1, stem2) else stem1 == stem2
  {
    ContinueAlike(stem1, stem2);
    if b.perNamespace {
      forall x, y | stem1 + x == stem2 + y ensures CallerText(b, stem1, x) == CallerText(b, stem2, y) {
      }
      forall n1, n2 | CallerText(b, stem1, n1) == CallerText(b, stem2, n2) ensures stem1 + n1 == stem2 + n2 {
      }
    } else {
      assert CallerText(b, stem1, "") == stem1 && CallerText(b, stem2, "") == stem2;
    }
  }

  lemma CallerBody(b: Bucket, tenant: string, agent: string, block: string, namespace_: string, op: string)
    ensures Body(b, Request(tenant, agent, block, namespace_, op)) ==
            CallerText(b, CallerStem(b, tenant, agent, block), namespace_)
  {
    Lengthen(Tagged(b.perTenant, "|t=", tenant) + Tagged(b.perAgent, "|a=", agent), "|n=", block, namespace_);
  }

  lemma Lengthen(before: string, tag: string, block: string, namespace_: string)
    ensures before + (tag + (block + "/" + namespace_)) == before + (tag + (block + "/")) + namespace_
  {
  }

  /** So tenants can come to share a bucket: one kept by tenant and agent, for instance. */
  lemma BarInTenantCollides(r: Rule, block: string, op: string)
    requires r.bucket.perTenant && r.bucket.perAgent && BAR !in op
    ensures TenantsCanShare(r, "x|a=y", block, op, "x", block, op)
  {
    TenantsShareExactly(r, "x|a=y", block, op, "x", block, op);
    assert "x" + "|a=" == "x|a=" && "x|a=y" + "|a=" == "x|a=y|a=";
    assert "x|a=" == "x|a=y|a="[..4];
  }

  // ----- Which rules can share a bucket -----

  /** Pieces with a tag and an open value before them. */
  function Behind(on: bool, tag: string, pieces: seq<string>): (longer: seq<string>)
    ensures |longer| == |pieces| + if on then 1 else 0
  {
    if on then [tag] + pieces else pieces
  }

  function Given(on: bool, value: string, values: seq<string>): seq<string>
  {
    if on then [value] + values else values
  }

  /** What a rule's keys for one block and operation have in common: all but tenant, agent and namespace. */
  function Pieces(r: Rule, block: string, op: string): (pieces: seq<string>)
    ensures pieces != []
  {
    var b := r.bucket;
    var tails := Behind(b.perTenant, "|t=", Behind(b.perAgent, "|a=",
                        Behind(b.perNamespace, "|n=" + block + "/", [Tagged(b.perOp, "|o=", op)])));
    [r.name + tails[0]] + tails[1..]
  }

  function Values(b: Bucket, tenant: string, agent: string, namespace_: string): seq<string>
  {
    Given(b.perTenant, tenant, Given(b.perAgent, agent, Given(b.perNamespace, namespace_, [])))
  }

  lemma FillBehind(on: bool, tag: string, pieces: seq<string>, value: string, values: seq<string>)
    requires |pieces| == |values| + 1
    ensures Fill(Behind(on, tag, pieces), Given(on, value, values)) == Tagged(on, tag, value) + Fill(pieces, values)
  {
    if on {
      assert ([tag] + pieces)[1..] == pieces && ([value] + values)[1..] == values;
    } else {
      assert "" + Fill(pieces, values) == Fill(pieces, values);
    }
  }

  lemma FillFirst(name: string, pieces: seq<string>, values: seq<string>)
    requires |pieces| == |values| + 1
    ensures Fill([name + pieces[0]] + pieces[1..], values) == name + Fill(pieces, values)
  {
    var longer := [name + pieces[0]] + pieces[1..];
    assert longer[1..] == pieces[1..];
    if values != [] {
      assert (name + pieces[0]) + values[0] + Fill(pieces[1..], values[1..]) ==
             name + (pieces[0] + values[0] + Fill(pieces[1..], values[1..]));
    }
  }

  lemma KeyIsFilled(r: Rule, tenant: string, agent: string, block: string, namespace_: string, op: string)
    ensures |Pieces(r, block, op)| == |Values(r.bucket, tenant, agent, namespace_)| + 1
    ensures BucketKey(r, Request(tenant, agent, block, namespace_, op)) ==
            Fill(Pieces(r, block, op), Values(r.bucket, tenant, agent, namespace_))
  {
    var b := r.bucket;
    var o := Tagged(b.perOp, "|o=", op);
    var n, ns := Behind(b.perNamespace, "|n=" + block + "/", [o]), Given(b.perNamespace, namespace_, []);
    var a, as_ := Behind(b.perAgent, "|a=", n), Given(b.perAgent, agent, ns);
    var t, ts := Behind(b.perTenant, "|t=", a), Given(b.perTenant, tenant, as_);
    KeyText(r, Request(tenant, agent, block, namespace_, op));
    FillBehind(b.perNamespace, "|n=" + block + "/", [o], namespace_, []);
    FillBehind(b.perAgent, "|a=", n, agent, ns);
    FillBehind(b.perTenant, "|t=", a, tenant, as_);
    FillFirst(r.name, t, ts);
    assert "|n=" + block + "/" + namespace_ == "|n=" + (block + "/" + namespace_);
  }

  lemma ValuesAreGiven(r: Rule, block: string, op: string, values: seq<string>)
    returns (tenant: string, agent: string, namespace_: string)
    requires |Pieces(r, block, op)| == |values| + 1
    ensures Values(r.bucket, tenant, agent, namespace_) == values
  {
    var b := r.bucket;
    var rest := values;
    tenant, agent, namespace_ := "", "", "";
    if b.perTenant {
      tenant, rest := rest[0], rest[1..];
    }
    if b.perAgent {
      agent, rest := rest[0], rest[1..];
    }
    if b.perNamespace {
      namespace_, rest := rest[0], rest[1..];
    }
  }

  ghost predicate RulesCanShare(r1: Rule, block1: string, op1: string, r2: Rule, block2: string, op2: string)
  {
    exists t1, a1, n1, t2, a2, n2 ::
      BucketKey(r1, Request(t1, a1, block1, n1, op1)) == BucketKey(r2, Request(t2, a2, block2, n2, op2))
  }

  /**
   The exact condition, for any two rules, whatever their names and their buckets are kept by: some requests of these
   blocks and operations share a bucket exactly when the constant pieces of the keys can meet. When both buckets are
   kept by something callers name, these are the pieces before the first such value and after the last.
   */
  lemma RulesShareExactly(r1: Rule, block1: string, op1: string, r2: Rule, block2: string, op2: string)
    ensures RulesCanShare(r1, block1, op1, r2, block2, op2) <==>
              CanMeet(Pieces(r1, block1, op1), Pieces(r2, block2, op2))
  {
    var p, q := Pieces(r1, block1, op1), Pieces(r2, block2, op2);
    CanMeetExactly(p, q);
    forall t1, a1, n1, t2, a2, n2 |
        BucketKey(r1, Request(t1, a1, block1, n1, op1)) == BucketKey(r2, Request(t2, a2, block2, n2, op2))
      ensures CanMeet(p, q)
    {
      KeyIsFilled(r1, t1, a1, block1, n1, op1);
      KeyIsFilled(r2, t2, a2, block2, n2, op2);
      assert Fill(p, Values(r1.bucket, t1, a1, n1)) == Fill(q, Values(r2.bucket, t2, a2, n2));
    }
    if CanMeet(p, q) {
      var v, w :| |p| == |v| + 1 && |q| == |w| + 1 && Fill(p, v) == Fill(q, w);
      var t1, a1, n1 := ValuesAreGiven(r1, block1, op1, v);
      var t2, a2, n2 := ValuesAreGiven(r2, block2, op2, w);
      KeyIsFilled(r1, t1, a1, block1, n1, op1);
      KeyIsFilled(r2, t2, a2, block2, n2, op2);
    }
  }

  /** Where both buckets are kept by tenant or agent, and the operations agree, the names decide. */
  lemma CallersRulesShareExactly(r1: Rule, block1: string, op1: string, r2: Rule, block2: string, op2: string)
    requires (r1.bucket.perTenant || r1.bucket.perAgent) && (r2.bucket.perTenant || r2.bucket.perAgent)
    requires BAR !in op1 && BAR !in op2
    ensures RulesCanShare(r1, block1, op1, r2, block2, op2) <==>
              Overlap(r1.name + FirstTag(r1.bucket), r2.name + FirstTag(r2.bucket)) &&
              (r1.bucket.perOp && r2.bucket.perOp ==> op1 == op2)
  {
    RulesShareExactly(r1, block1, op1, r2, block2, op2);
    OpsEndAlike(r1.bucket.perOp, op1, r2.bucket.perOp, op2);
    LastPiece(r1, block1, op1);
    LastPiece(r2, block2, op2);
  }

  function FirstTag(b: Bucket): string
  {
    if b.perTenant then "|t=" else "|a="
  }

  lemma LastPiece(r: Rule, block: string, op: string)
    requires r.bucket.perTenant || r.bucket.perAgent
    ensures var pieces := Pieces(r, block, op);
      |pieces| >= 2 && pieces[0] == r.name + FirstTag(r.bucket) && Last(pieces) == Tagged(r.bucket.perOp, "|o=", op)
  {
  }

  lemma OpsEndAlike(on1: bool, op1: string, on2: bool, op2: string)
    requires BAR !in op1 && BAR !in op2
    ensures EndAlike(Tagged(on1, "|o=", op1), Tagged(on2, "|o=", op2)) <==> (on1 && on2 ==> op1 == op2)
  {
    var a, b := Tagged(on1, "|o=", op1), Tagged(on2, "|o=", op2);
    if on1 && on2 {
      OpEnds(op1, op2);
      OpEnds(op2, op1);
    } else {
      assert a[|a|..] == "" && b[|b|..] == "";
    }
  }

  lemma OpEnds(op1: string, op2: string)
    requires BAR !in op1 && BAR !in op2
    ensures EndsWith("|o=" + op1, "|o=" + op2) <==> op1 == op2
  {
    var a, b := "|o=" + op1, "|o=" + op2;
    if EndsWith(a, b) {
      var before := a[..|a| - |b|];
      assert a == "" + [BAR] + ("o=" + op1) && a == before + [BAR] + ("o=" + op2);
      LastPartIsBound("", "o=" + op1, before, "o=" + op2, BAR);
      PrefixCancels("o=", op1, op2);
    } else {
      assert a[|a| - |a|..] == a;
    }
  }

  /** A bucket kept by tenant alone is that of the rule named after it and the tenant, with a bucket for all. */
  lemma BarInRuleNameCollides(r1: Rule, r2: Rule, h1: Hook, h2: Hook)
    requires r1.bucket.perTenant && !r1.bucket.perAgent && !r1.bucket.perNamespace && !r1.bucket.perOp
    requires !r2.bucket.perTenant && !r2.bucket.perAgent && !r2.bucket.perNamespace && !r2.bucket.perOp
    ensures BucketKey(r1, h1) == BucketKey(r2, h2) <==> r2.name == r1.name + "|t=" + Tenant(h1)
  {
    KeyText(r1, h1);
    KeyText(r2, h2);
    assert TenantTail(r1.bucket, h1) == "|t=" + Tenant(h1) && TenantTail(r2.bucket, h2) == "";
    assert r1.name + ("|t=" + Tenant(h1)) == r1.name + "|t=" + Tenant(h1) && r2.name + "" == r2.name;
  }

  // ----- Exact accounting of one evaluation -----

  /** Rule names as a validated specification has them, and free of "|". */
  ghost predicate NamedApart(rules: seq<Rule>)
  {
    WellFormed(rules) && forall i :: 0 <= i < |rules| ==> BAR !in rules[i].name
  }

  /**
   The first rule, from the i-th on, that would decide the request by itself over these buckets; the length if none
   would.
   */
  function Deciding(rules: seq<Rule>, buckets: Buckets, h: Hook, clock: nat -> real, i: nat): (k: nat)
    requires i <= |rules|
    ensures i <= k <= |rules|
    ensures k < |rules| ==> Apply(buckets, rules[k], h, clock(k)).1.Some?
    ensures forall j :: i <= j < k ==> Apply(buckets, rules[j], h, clock(j)).1.None?
    decreases |rules| - i
  {
    if i == |rules| || Apply(buckets, rules[i], h, clock(i)).1.Some? then i
    else Deciding(rules, buckets, h, clock, i + 1)
  }

  /** The request is charged by rule j. */
  predicate Charges(r: Rule, h: Hook)
  {
    r.effect.RateLimit? && Matches(r, h)
  }

  ghost predicate SameBucket(one: Buckets, two: Buckets, key: string)
  {
    (key in one <==> key in two) && (key in one ==> one[key] == two[key])
  }

  /** Rule k's decision, and its charge, depend only on its own bucket. */
  lemma ApplyIsLocal(one: Buckets, two: Buckets, r: Rule, h: Hook, now: real)
    requires SameBucket(one, two, BucketKey(r, h))
    ensures Apply(one, r, h, now).1 == Apply(two, r, h, now).1
    ensures SameBucket(Apply(one, r, h, now).0, Apply(two, r, h, now).0, BucketKey(r, h))
    ensures forall key :: key != BucketKey(r, h) ==> SameBucket(Apply(one, r, h, now).0, one, key)
  {
  }

  /** The buckets that the rules before the i-th charge for a request. */
  function KeysBefore(rules: seq<Rule>, h: Hook, i: nat): set<string>
    requires i <= |rules|
  {
    set j | 0 <= j < i && Charges(rules[j], h) :: BucketKey(rules[j], h)
  }

  ghost predicate Charged(rules: seq<Rule>, first: Buckets, now_: Buckets, h: Hook, clock: nat -> real, i: nat)
    requires i <= |rules|
  {
    forall j :: 0 <= j < i && Charges(rules[j], h) ==>
      SameBucket(now_, Apply(first, rules[j], h, clock(j)).0, BucketKey(rules[j], h))
  }

  ghost predicate Untouched(rules: seq<Rule>, first: Buckets, now_: Buckets, h: Hook, i: nat)
    requires i <= |rules|
  {
    forall key :: key !in KeysBefore(rules, h, i) ==> SameBucket(now_, first, key)
  }

  /**
   The buckets are the first ones, but that each rate limit before the i-th has done to its own what it would have done
   first.
   */
  ghost predicate ChargedBefore(rules: seq<Rule>, first: Buckets, now_: Buckets, h: Hook, clock: nat -> real, i: nat)
    requires i <= |rules|
  {
    Charged(rules, first, now_, h, clock, i) && Untouched(rules, first, now_, h, i)
  }

  lemma OwnBucketUntouched(rules: seq<Rule>, first: Buckets, now_: Buckets, h: Hook, clock: nat -> real, i: nat)
    requires i < |rules| && NamedApart(rules) && ChargedBefore(rules, first, now_, h, clock, i)
    ensures SameBucket(now_, first, BucketKey(rules[i], h))
  {
    forall j | 0 <= j < i && Charges(rules[j], h) ensures BucketKey(rules[i], h) != BucketKey(rules[j], h) {
      RulesKeepApart(rules[i], h, rules[j], h);
    }
    assert BucketKey(rules[i], h) !in KeysBefore(rules, h, i);
  }

  lemma KeysGrow(rules: seq<Rule>, h: Hook, i: nat)
    requires i < |rules|
    ensures KeysBefore(rules, h, i + 1) ==
            KeysBefore(rules, h, i) + if Charges(rules[i], h) then {BucketKey(rules[i], h)} else {}
  {
  }

  lemma ChargeStays(rules: seq<Rule>, first: Buckets, now_: Buckets, h: Hook, clock: nat -> real, i: nat, j: nat)
    requires j <= i < |rules| && NamedApart(rules) && ChargedBefore(rules, first, now_, h, clock, i)
    requires Charges(rules[j], h)
    ensures SameBucket(Apply(now_, rules[i], h, clock(i)).0, Apply(first, rules[j], h, clock(j)).0,
                       BucketKey(rules[j], h))
  {
    if j < i {
      RulesKeepApart(rules[i], h, rules[j], h);
      ElsewhereNothing(now_, rules[i], h, clock(i), BucketKey(rules[j], h));
    } else {
      OwnBucketUntouched(rules, first, now_, h, clock, i);
      ApplyIsLocal(now_, first, rules[i], h, clock(i));
    }
  }

  lemma ElsewhereNothing(buckets: Buckets, r: Rule, h: Hook, now: real, key: string)
    requires key != BucketKey(r, h)
    ensures SameBucket(Apply(buckets, r, h, now).0, buckets, key)
  {
  }

  lemma ChargesStay(rules: seq<Rule>, first: Buckets, now_: Buckets, h: Hook, clock: nat -> real, i: nat)
    requires i < |rules| && NamedApart(rules) && ChargedBefore(rules, first, now_, h, clock, i)
    ensures Charged(rules, first, Apply(now_, rules[i], h, clock(i)).0, h, clock, i + 1)
  {
    forall j | 0 <= j < i + 1 && Charges(rules[j], h)
      ensures SameBucket(Apply(now_, rules[i], h, clock(i)).0, Apply(first, rules[j], h, clock(j)).0,
                         BucketKey(rules[j], h))
    {
      ChargeStays(rules, first, now_, h, clock, i, j);
    }
  }

  lemma OthersStay(rules: seq<Rule>, first: Buckets, now_: Buckets, h: Hook, clock: nat -> real, i: nat)
    requires i < |rules| && Untouched(rules, first, now_, h, i)
    ensures Untouched(rules, first, Apply(now_, rules[i], h, clock(i)).0, h, i + 1)
  {
    KeysGrow(rules, h, i);
  }

  lemma ChargeNext(rules: seq<Rule>, first: Buckets, now_: Buckets, h: Hook, clock: nat -> real, i: nat)
    requires i < |rules| && NamedApart(rules) && ChargedBefore(rules, first, now_, h, clock, i)
    ensures ChargedBefore(rules, first, Apply(now_, rules[i], h, clock(i)).0, h, clock, i + 1)
  {
    ChargesStay(rules, first, now_, h, clock, i);
    OthersStay(rules, first, now_, h, clock, i);
  }

  /** How many rules are applied when the k-th decides. */
  function Applied(rules: seq<Rule>, k: nat): nat
    requires k <= |rules|
    ensures k <= Applied(rules, k) <= |rules|
  {
    if k < |rules| then k + 1 else k
  }

  function DecisionAt(spec: Spec, buckets: Buckets, h: Hook, clock: nat -> real, k: nat): Decision
    requires k < |spec.rules| ==> Apply(buckets, spec.rules[k], h, clock(k)).1.Some?
  {
    if k < |spec.rules| then Apply(buckets, spec.rules[k], h, clock(k)).1.value else ByDefault(spec.default_)
  }

  /**
   The loop equals its declarative reading: the first rule that would decide by itself decides, the default if
   there is none; and the rate limits up to that rule have each been charged once, on top of the first buckets.
   */
  lemma {:induction false} LoopIsFirstDeciding(spec: Spec, first: Buckets, now_: Buckets, h: Hook, clock: nat -> real,
                                               i: nat)
    requires i <= |spec.rules| && NamedApart(spec.rules) && ChargedBefore(spec.rules, first, now_, h, clock, i)
    ensures var k := Deciding(spec.rules, first, h, clock, i);
      Evaluated(spec, now_, h, clock, i).1 == DecisionAt(spec, first, h, clock, k)
    ensures var k := Deciding(spec.rules, first, h, clock, i);
      ChargedBefore(spec.rules, first, Evaluated(spec, now_, h, clock, i).0, h, clock, Applied(spec.rules, k))
    decreases |spec.rules| - i
  {
    hide Apply, ChargedBefore;
    if i < |spec.rules| {
      OwnBucketUntouched(spec.rules, first, now_, h, clock, i);
      ApplyIsLocal(now_, first, spec.rules[i], h, clock(i));
      ChargeNext(spec.rules, first, now_, h, clock, i);
      var (after, d) := Apply(now_, spec.rules[i], h, clock(i));
      if d.None? {
        LoopIsFirstDeciding(spec, first, after, h, clock, i + 1);
      }
    }
  }

  lemma NothingCharged(rules: seq<Rule>, first: Buckets, h: Hook, clock: nat -> real)
    ensures ChargedBefore(rules, first, first, h, clock, 0)
  {
  }

  ghost predicate SaneBuckets(buckets: Buckets, now: real)
  {
    forall key :: key in buckets ==> Sane(buckets[key]) && buckets[key].last <= now
  }

  /** What a rate limit does to its bucket: one token less if it lets the request on, nothing if it is exhausted. */
  lemma ChargeTakesOne(buckets: Buckets, r: Rule, h: Hook, now: real)
    requires Charges(r, h) && r.bucket.rate > 0.0 && SaneBuckets(buckets, now)
    ensures var (after, d) := Apply(buckets, r, h, now);
      var key := BucketKey(r, h);
      var limiter := LimiterFor(buckets, r, h, now);
      if d.None?
      then key in after && Available(after[key], now) == Available(limiter, now) - limiter.period
      else after == buckets && key in buckets && Available(buckets[key], now) < limiter.period
  {
    NewIsFull(r.bucket.rate, Burst(r), now, now);
    AllowTakesOne(LimiterFor(buckets, r, h, now), now);
  }

  /** The decision is that of the first rule that decides by itself over the buckets as they were, else the default. */
  lemma DecisionIsFirstDeciding(spec: Spec, buckets: Buckets, h: Hook, clock: nat -> real)
    requires NamedApart(spec.rules)
    ensures Evaluated(spec, buckets, h, clock, 0).1 ==
            DecisionAt(spec, buckets, h, clock, Deciding(spec.rules, buckets, h, clock, 0))
  {
    NothingCharged(spec.rules, buckets, h, clock);
    LoopIsFirstDeciding(spec, buckets, buckets, h, clock, 0);
  }

  /** Exact accounting, one half: each matching rate limit strictly before the deciding rule has lost one token. */
  lemma ChargedBuckets(spec: Spec, buckets: Buckets, h: Hook, clock: nat -> real, j: nat)
    requires NamedApart(spec.rules)
    requires j < Deciding(spec.rules, buckets, h, clock, 0) && Charges(spec.rules[j], h) &&
               SaneBuckets(buckets, clock(j))
    ensures var after, key := Evaluated(spec, buckets, h, clock, 0).0, BucketKey(spec.rules[j], h);
      var limiter := LimiterFor(buckets, spec.rules[j], h, clock(j));
      key in after && Available(after[key], clock(j)) == Available(limiter, clock(j)) - limiter.period
  {
    NothingCharged(spec.rules, buckets, h, clock);
    LoopIsFirstDeciding(spec, buckets, buckets, h, clock, 0);
    ChargeTakesOne(buckets, spec.rules[j], h, clock(j));
    var after := Evaluated(spec, buckets, h, clock, 0).0;
    assert SameBucket(after, Apply(buckets, spec.rules[j], h, clock(j)).0, BucketKey(spec.rules[j], h));
  }

  /** The other half: every other bucket is as it was, that of an exhausted deciding rule included. */
  lemma OtherBuckets(spec: Spec, buckets: Buckets, h: Hook, clock: nat -> real, key: string)
    requires NamedApart(spec.rules)
    requires var k := Deciding(spec.rules, buckets, h, clock, 0);
      key !in KeysBefore(spec.rules, h, k) && (k < |spec.rules| ==> SaneBuckets(buckets, clock(k)))
    ensures SameBucket(Evaluated(spec, buckets, h, clock, 0).0, buckets, key)
  {
    NothingCharged(spec.rules, buckets, h, clock);
    LoopIsFirstDeciding(spec, buckets, buckets, h, clock, 0);
    var k := Deciding(spec.rules, buckets, h, clock, 0);
    var after := Evaluated(spec, buckets, h, clock, 0).0;
    if k < |spec.rules| && Charges(spec.rules[k], h) && key == BucketKey(spec.rules[k], h) {
      ChargeTakesOne(buckets, spec.rules[k], h, clock(k));
      assert SameBucket(after, Apply(buckets, spec.rules[k], h, clock(k)).0, key);
    } else {
      assert key !in KeysBefore(spec.rules, h, Applied(spec.rules, k));
    }
  }
}
