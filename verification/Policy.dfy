/** The rule engine with its buckets. */
module Engine {
  import opened Wrappers
  import opened TokenBucket
  import opened Rules

  class RuleEngine {
    const spec: Spec
    var buckets: Buckets

    /** An unset default allows. */
    constructor (spec: Spec)
      ensures this.spec == (if spec.default_.Unset? then spec.(default_ := DefaultAllow) else spec) && buckets == map[]
    {
      this.spec := if spec.default_.Unset? then spec.(default_ := DefaultAllow) else spec;
      buckets := map[];
    }

    /** Scan the rules in order; `clock` gives the time at which each is reached. */
    method Evaluate(h: Hook, clock: nat -> real) returns (d: Decision)
      modifies this
      ensures (buckets, d) == Evaluated(spec, old(buckets), h, clock, 0)
    {
      for i := 0 to |spec.rules|
        invariant Evaluated(spec, old(buckets), h, clock, 0) == Evaluated(spec, buckets, h, clock, i)
      {
        var r := spec.rules[i];
        if Matches(r, h) {
          match r.effect {
            case Allow =>
              return Decision(true, ReasonOr(r, AllowedBy(r.name)), false);
            case Deny =>
              return Decision(false, ReasonOr(r, DeniedBy(r.name)), false);
            case RateLimit =>
              var ok := TakeToken(r, h, clock(i));
              if !ok {
                return Decision(false, ReasonOr(r, LimitedBy(r.name)), true);
              }
            case CapEffect =>
              var breach := CapExceeded(r, h);
              if breach.Some? {
                return Decision(false, ReasonOr(r, breach.value), true);
              }
            case UnknownEffect(_) =>
          }
        }
      }
      return ByDefault(spec.default_);
    }

    /** Charge the request's bucket, making it on first use. */
    method TakeToken(r: Rule, h: Hook, now: real) returns (ok: bool)
      modifies this
      ensures var (limiter, allowed) := TokenBucket.Allow(LimiterFor(old(buckets), r, h, now), now);
              ok == allowed && buckets == old(buckets)[BucketKey(r, h) := limiter]
    {
      var key := BucketKey(r, h);
      if key !in buckets {
        buckets := buckets[key := NewLimiter(r.bucket.rate, Burst(r), now)];
      }
      var (limiter, allowed) := TokenBucket.Allow(buckets[key], now);
      buckets := buckets[key := limiter];
      ok := allowed;
    }
  }

  method NewRuleEngine(spec: Spec) returns (r: Result<RuleEngine, SpecError>)
    ensures r.Err? <==> (spec.default_.UnknownDefault? || FirstFault(spec.rules, 0).Some?)
    ensures r.Ok? ==> fresh(r.value) && WellFormed(r.value.spec.rules)
    ensures r.Ok? ==> r.value.spec.rules == spec.rules && r.value.buckets == map[]
  {
    var fault := Validate(spec);
    if fault.Some? {
      return Err(fault.value);
    }
    var e := new RuleEngine(spec);
    return Ok(e);
  }
}

/**
 The gRPC interceptors: a unary call is checked against its request; a stream is
 checked once, at its first message, whatever its handler does.
 */
module PolicyInterceptor {
  import opened Wrappers
  import opened Rules
  import opened Engine

  datatype Mapping = Mapping(op: string, block: string)

  /** A request message with the getters it has. */
  datatype Message = Message(namespace: Option<string>, topK: Option<nat>, limit: Option<nat>, depth: Option<nat>,
                             fanOut: Option<nat>, rerankK: Option<nat>)

  function Or<T>(o: Option<T>, fallback: T): T
  {
    if o.Some? then o.value else fallback
  }

  /** The policy hook of a request; what a message does not carry is empty or zero. */
  function HookOf(scope: Option<Scope>, mapping: Mapping, m: Message): Hook
  {
    Hook(scope, mapping.block, Or(m.namespace, ""), mapping.op,
         Magnitude(Or(m.topK, 0), Or(m.limit, 0), Or(m.depth, 0), Or(m.fanOut, 0), Or(m.rerankK, 0)))
  }

  datatype Code = ResourceExhausted | PermissionDenied | InternalCode | HandlerCode(n: nat)

  datatype Outcome = Success | Failed(code: Code)

  function PolicyCode(d: Decision): Code
  {
    if d.exhausted then ResourceExhausted else PermissionDenied
  }

  method PolicyUnary(eng: RuleEngine, mapping: Option<Mapping>, scope: Option<Scope>, m: Message,
                     handler: Message -> Outcome, clock: nat -> real) returns (r: Outcome, handled: bool)
    modifies eng
    ensures mapping.None? ==> handled && r == handler(m) && eng.buckets == old(eng.buckets)
    ensures mapping.Some? ==>
              var (after, d) := Evaluated(eng.spec, old(eng.buckets), HookOf(scope, mapping.value, m), clock, 0);
              && eng.buckets == after && handled == d.allow
              && r == if d.allow then handler(m) else Failed(PolicyCode(d))
  {
    if mapping.None? {
      return handler(m), true;
    }
    var d := eng.Evaluate(HookOf(scope, mapping.value, m), clock);
    if !d.allow {
      return Failed(PolicyCode(d)), false;
    }
    return handler(m), true;
  }

  // ----- Streams -----

  /** What the transport delivers on a receive. */
  datatype Incoming = Arrived(m: Message) | Broken(status: nat)

  /** What the handler sees of it. */
  datatype Received = Got(m: Message) | Refused(code: Code) | RecvFailed(status: nat)

  /** Having seen some results, a handler receives again or returns. */
  datatype HandlerMove = Receive | Return(outcome: Outcome)

  type Handler = seq<Received> -> HandlerMove

  /** The stream without policy. */
  function Raw(incoming: nat -> Incoming, n: nat): (seen: seq<Received>)
    ensures |seen| == n
  {
    seq(n, i requires 0 <= i < n =>
      match incoming(i)
      case Arrived(m) => Got(m)
      case Broken(status) => RecvFailed(status))
  }

  function RawBy(incoming: nat -> Incoming): nat -> seq<Received>
  {
    (n: nat) => Raw(incoming, n)
  }

  /** The first message among the first n receives; n if there is none. */
  function FirstMessage(incoming: nat -> Incoming, n: nat): (k: nat)
    ensures k <= n && (k < n ==> incoming(k).Arrived?) && forall j :: 0 <= j < k ==> incoming(j).Broken?
  {
    if n == 0 then 0
    else
      var k := FirstMessage(incoming, n - 1);
      if k < n - 1 then k else if incoming(n - 1).Arrived? then n - 1 else n
  }

  /** Everything a checked stream depends on. */
  datatype Setup = Setup(spec: Spec, buckets: Buckets, mapping: Mapping, scope: Option<Scope>,
                         incoming: nat -> Incoming, clock: nat -> real)

  /** The one evaluation of a stream: that of its first message. */
  function Verdict(s: Setup, m: Message): (Buckets, Decision)
  {
    Evaluated(s.spec, s.buckets, HookOf(s.scope, s.mapping, m), s.clock, 0)
  }

  /** What a checked stream's handler sees: the stream, but for the first message when it is refused. */
  function Seen(s: Setup, n: nat): (seen: seq<Received>)
    ensures |seen| == n
  {
    var k := FirstMessage(s.incoming, n);
    if k < n && !Verdict(s, s.incoming(k).m).1.allow
    then Raw(s.incoming, n)[k := Refused(PolicyCode(Verdict(s, s.incoming(k).m).1))]
    else Raw(s.incoming, n)
  }

  function SeenBy(s: Setup): nat -> seq<Received>
  {
    (n: nat) => Seen(s, n)
  }

  /** The buckets after n receives: charged once, when there was a message among them. */
  function ChargedOnce(s: Setup, n: nat): Buckets
  {
    var k := FirstMessage(s.incoming, n);
    if k < n then Verdict(s, s.incoming(k).m).0 else s.buckets
  }

  class PolicyStream {
    const eng: RuleEngine
    const mapping: Mapping
    const scope: Option<Scope>
    const incoming: nat -> Incoming
    const clock: nat -> real
    var received: nat
    var checked: bool
    var consulted: nat

    constructor (eng: RuleEngine, mapping: Mapping, scope: Option<Scope>, incoming: nat -> Incoming, clock: nat -> real)
      ensures this.eng == eng && this.mapping == mapping && this.scope == scope && this.incoming == incoming &&
                this.clock == clock
      ensures received == 0 && !checked && consulted == 0
    {
      this.eng, this.mapping, this.scope, this.incoming, this.clock := eng, mapping, scope, incoming, clock;
      received, checked, consulted := 0, false, 0;
    }

    ghost function SetupOver(buckets: Buckets): Setup
    {
      Setup(eng.spec, buckets, mapping, scope, incoming, clock)
    }

    /** Where the stream stands after its receives, had the engine these buckets before the first. */
    ghost predicate At(buckets: Buckets)
      reads this, eng
    {
      && eng.buckets == ChargedOnce(SetupOver(buckets), received)
      && checked == (FirstMessage(incoming, received) < received)
      && consulted == if checked then 1 else 0
    }

    method RecvMsg(ghost buckets: Buckets) returns (r: Received)
      requires At(buckets)
      modifies this, eng
      ensures received == old(received) + 1 && At(buckets)
      ensures Seen(SetupOver(buckets), received) == Seen(SetupOver(buckets), old(received)) + [r]
    {
      ghost var s := SetupOver(buckets);
      var next := incoming(received);
      ghost var n := received;
      received := received + 1;
      RawGrows(incoming, n);
      match next {
        case Broken(status) =>
          r := RecvFailed(status);
        case Arrived(m) =>
          r := Got(m);
          if !checked {
            checked := true;
            consulted := consulted + 1;
            var d := eng.Evaluate(HookOf(scope, mapping, m), clock);
            if !d.allow {
              r := Refused(PolicyCode(d));
            }
          }
      }
      SeenGrows(s, n, r);
    }
  }

  lemma RawGrows(incoming: nat -> Incoming, n: nat)
    ensures Raw(incoming, n + 1) ==
            Raw(incoming, n) + [match incoming(n) case Arrived(m) => Got(m) case Broken(status) => RecvFailed(status)]
  {
  }

  lemma SeenGrows(s: Setup, n: nat, r: Received)
    requires match s.incoming(n)
             case Broken(status) => r == RecvFailed(status)
             case Arrived(m) =>
               r == if FirstMessage(s.incoming, n) == n && !Verdict(s, m).1.allow
                    then Refused(PolicyCode(Verdict(s, m).1)) else Got(m)
    ensures Seen(s, n + 1) == Seen(s, n) + [r]
  {
    RawGrows(s.incoming, n);
  }

  /** How often a handler receives before it returns, given what it sees after each number of receives. */
  function Receives(see: nat -> seq<Received>, handler: Handler, n: nat, limit: nat): (k: nat)
    requires n <= limit
    ensures n <= k <= limit
    ensures forall j :: n <= j < k ==> handler(see(j)).Receive?
    ensures k < limit ==> handler(see(k)).Return?
    decreases limit - n
  {
    if n == limit || handler(see(n)).Return? then n else Receives(see, handler, n + 1, limit)
  }

  /** This run returns by its limit-th receive: on what the handler has seen by then, it returns. */
  predicate ReturnsBy(see: nat -> seq<Received>, handler: Handler, limit: nat)
  {
    handler(see(limit)).Return?
  }

  /** The outcome of a mapped stream: its handler's, unless that is success without a message ever received. */
  function StreamOutcome(s: Setup, handler: Handler, limit: nat): (r: Outcome)
  {
    var n := Receives(SeenBy(s), handler, 0, limit);
    match handler(Seen(s, n))
    case Receive => Failed(InternalCode)
    case Return(outcome) =>
      if outcome.Success? && FirstMessage(s.incoming, n) == n then Failed(InternalCode) else outcome
  }

  method InterceptStream(eng: RuleEngine, mapping: Option<Mapping>, scope: Option<Scope>, incoming: nat -> Incoming,
                         handler: Handler, clock: nat -> real, limit: nat) returns (r: Outcome, consulted: nat)
    requires mapping.None? ==> ReturnsBy(RawBy(incoming), handler, limit)
    requires mapping.Some? ==>
               ReturnsBy(SeenBy(Setup(eng.spec, eng.buckets, mapping.value, scope, incoming, clock)), handler, limit)
    modifies eng
    ensures mapping.None? ==> consulted == 0 && eng.buckets == old(eng.buckets) &&
                              Return(r) == handler(Raw(incoming, Receives(RawBy(incoming), handler, 0, limit)))
    ensures mapping.Some? ==>
              var s := Setup(eng.spec, old(eng.buckets), mapping.value, scope, incoming, clock);
              var n := Receives(SeenBy(s), handler, 0, limit);
              && r == StreamOutcome(s, handler, limit)
              && consulted == (if FirstMessage(incoming, n) < n then 1 else 0)
              && eng.buckets == ChargedOnce(s, n)
  {
    if mapping.None? {
      r := RunRaw(incoming, handler, limit);
      consulted := 0;
    } else {
      r, consulted := RunChecked(eng, mapping.value, scope, incoming, handler, clock, limit);
    }
  }

  method RunRaw(incoming: nat -> Incoming, handler: Handler, limit: nat) returns (r: Outcome)
    requires ReturnsBy(RawBy(incoming), handler, limit)
    ensures Return(r) == handler(Raw(incoming, Receives(RawBy(incoming), handler, 0, limit)))
  {
    var seen, n := [], 0;
    while handler(seen).Receive?
      invariant n <= limit && seen == Raw(incoming, n)
      invariant Receives(RawBy(incoming), handler, 0, limit) == Receives(RawBy(incoming), handler, n, limit)
      decreases limit - n
    {
      RawGrows(incoming, n);
      seen := seen + [match incoming(n) case Arrived(m) => Got(m) case Broken(status) => RecvFailed(status)];
      n := n + 1;
    }
    r := handler(seen).outcome;
  }

  method RunChecked(eng: RuleEngine, mapping: Mapping, scope: Option<Scope>, incoming: nat -> Incoming,
                    handler: Handler, clock: nat -> real, limit: nat) returns (r: Outcome, consulted: nat)
    requires ReturnsBy(SeenBy(Setup(eng.spec, eng.buckets, mapping, scope, incoming, clock)), handler, limit)
    modifies eng
    ensures var s := Setup(eng.spec, old(eng.buckets), mapping, scope, incoming, clock);
            var n := Receives(SeenBy(s), handler, 0, limit);
            && r == StreamOutcome(s, handler, limit)
            && consulted == (if FirstMessage(incoming, n) < n then 1 else 0)
            && eng.buckets == ChargedOnce(s, n)
  {
    var ps := new PolicyStream(eng, mapping, scope, incoming, clock);
    ghost var first := eng.buckets;
    ghost var s := ps.SetupOver(first);
    var seen := [];
    while handler(seen).Receive?
      invariant ps.received <= limit && seen == Seen(s, ps.received) && ps.At(first)
      invariant Receives(SeenBy(s), handler, 0, limit) == Receives(SeenBy(s), handler, ps.received, limit)
      decreases limit - ps.received
    {
      var got := ps.RecvMsg(first);
      seen := seen + [got];
    }
    r, consulted := handler(seen).outcome, ps.consulted;
    if r.Success? && !ps.checked {
      r := Failed(InternalCode);
    }
  }

  // ----- What that guarantees -----

  /** A handler that fails as soon as it is refused. */
  ghost predicate HeedsRefusal(handler: Handler)
  {
    forall seen: seq<Received> :: |seen| > 0 && seen[|seen| - 1].Refused? ==>
      handler(seen).Return? && handler(seen).outcome.Failed?
  }

  // ----- Exactly which handlers are safe -----

  /** Under every specification the engine accepts, on every stream, success means the first message was allowed. */
  ghost predicate SafeHandler(handler: Handler)
  {
    forall s: Setup, limit ::
      Faultless(s.spec) && ReturnsBy(SeenBy(s), handler, limit) && StreamOutcome(s, handler, limit).Success? ==>
        FirstAllowed(s, Receives(SeenBy(s), handler, 0, limit))
  }

  predicate Faultless(spec: Spec)
  {
    !spec.default_.UnknownDefault? && FirstFault(spec.rules, 0).None?
  }

  predicate FirstAllowed(s: Setup, n: nat)
  {
    var k := FirstMessage(s.incoming, n);
    k < n && Verdict(s, s.incoming(k).m).1.allow
  }

  /** A view of a refused stream: failed receives, the refusal, and then anything but another. */
  predicate RefusedAt(seen: seq<Received>, k: nat)
  {
    && k < |seen| && seen[k].Refused? && (seen[k].code.ResourceExhausted? || seen[k].code.PermissionDenied?)
    && (forall j :: 0 <= j < k ==> seen[j].RecvFailed?)
    && forall j :: k < j < |seen| ==> !seen[j].Refused?
  }

  /** The handler asks for each of the results in turn. */
  ghost predicate ComesTo(handler: Handler, seen: seq<Received>)
  {
    forall j :: 0 <= j < |seen| ==> handler(seen[..j]).Receive?
  }

  ghost predicate NeverIgnoresRefusal(handler: Handler)
  {
    forall seen, k :: RefusedAt(seen, k) && ComesTo(handler, seen) ==> handler(seen) != Return(Success)
  }

  const CAP: Rule := Rule("cap", CapEffect, "", Match([], [], [], [], []), Bucket(false, false, false, false, 0.0, 0),
                          Magnitude(1, 0, 0, 0, 0))

  /** A stream that shows the handler this view: refused by default, or by a cap on a size its first message exceeds. */
  function Showing(seen: seq<Received>, k: nat): Setup
    requires RefusedAt(seen, k)
  {
    var spec := if seen[k].code.PermissionDenied? then Spec(DefaultDeny, []) else Spec(DefaultAllow, [CAP]);
    Setup(spec, map[], Mapping("op", "block"), None, (n: nat) => Delivered(seen, n), (n: nat) => 0.0)
  }

  function Delivered(seen: seq<Received>, n: nat): Incoming
  {
    if n >= |seen| then Broken(0)
    else
      match seen[n]
      case Got(m) => Arrived(m)
      case Refused(_) => Arrived(Message(None, Some(2), None, None, None, None))
      case RecvFailed(status) => Broken(status)
  }

  lemma ShowingShows(seen: seq<Received>, k: nat)
    requires RefusedAt(seen, k)
    ensures var s := Showing(seen, k); Faultless(s.spec) && Seen(s, |seen|) == seen && !FirstAllowed(s, |seen|)
    ensures forall j :: 0 <= j <= |seen| ==> Seen(Showing(seen, k), j) == seen[..j]
  {
    var s := Showing(seen, k);
    CapIsFaultless();
    var m := s.incoming(k).m;
    CapRefuses(s, m);
    assert Raw(s.incoming, |seen|)[k := seen[k]] == seen;
    FirstIsAt(s.incoming, k, |seen|);
    forall j | 0 <= j <= |seen| ensures Seen(s, j) == seen[..j] {
      if k < j {
        FirstIsAt(s.incoming, k, j);
        assert Raw(s.incoming, j)[k := seen[k]] == seen[..j];
      } else {
        assert FirstMessage(s.incoming, j) == j;
        assert Raw(s.incoming, j) == seen[..j];
      }
    }
    assert seen[..|seen|] == seen;
  }

  lemma CapIsFaultless()
    ensures Faultless(Spec(DefaultDeny, [])) && Faultless(Spec(DefaultAllow, [CAP]))
  {
    assert Fault([CAP], 0).None?;
  }

  lemma CapRefuses(s: Setup, m: Message)
    requires s.spec == Spec(DefaultDeny, []) || (s.spec == Spec(DefaultAllow, [CAP]) && m.topK == Some(2))
    ensures !Verdict(s, m).1.allow
    ensures PolicyCode(Verdict(s, m).1) == if s.spec.rules == [] then PermissionDenied else ResourceExhausted
  {
    if s.spec.rules != [] {
      var h := HookOf(s.scope, s.mapping, m);
      assert Matches(CAP, h) && CapExceeded(CAP, h).Some?;
      assert Apply(s.buckets, CAP, h, s.clock(0)).1.Some?;
    }
  }

  lemma {:induction false} FirstIsAt(incoming: nat -> Incoming, k: nat, n: nat)
    requires k < n && incoming(k).Arrived? && forall j :: 0 <= j < k ==> incoming(j).Broken?
    ensures FirstMessage(incoming, n) == k
  {
    if k + 1 < n {
      FirstIsAt(incoming, k, n - 1);
    }
  }

  lemma SeenIsPrefix(s: Setup, j: nat, n: nat)
    requires j <= n
    ensures Seen(s, n)[..j] == Seen(s, j)
  {
    var k := FirstMessage(s.incoming, n);
    if k < j {
      FirstIsAt(s.incoming, k, j);
    } else {
      assert FirstMessage(s.incoming, j) == j;
    }
  }

  /** What a stream shows once its first message is refused. */
  lemma RefusedView(s: Setup, n: nat)
    requires FirstMessage(s.incoming, n) < n && !FirstAllowed(s, n)
    ensures RefusedAt(Seen(s, n), FirstMessage(s.incoming, n))
  {
  }

  /**
   The exact condition: success means the policy allowed the first message, on every stream and under every policy,
   exactly when the handler never returns success on a view that holds a refusal.
   */
  lemma SafeExactly(handler: Handler)
    ensures SafeHandler(handler) <==> NeverIgnoresRefusal(handler)
  {
    if SafeHandler(handler) {
      forall seen, k | RefusedAt(seen, k) && ComesTo(handler, seen) ensures handler(seen) != Return(Success) {
        if handler(seen) == Return(Success) {
          SuccessOnRefusal(handler, seen, k);
        }
      }
    }
    if NeverIgnoresRefusal(handler) {
      forall s: Setup, limit | Faultless(s.spec) && ReturnsBy(SeenBy(s), handler, limit) &&
                               StreamOutcome(s, handler, limit).Success?
        ensures FirstAllowed(s, Receives(SeenBy(s), handler, 0, limit))
      {
        HeedfulIsSafe(s, handler, limit);
      }
    }
  }

  lemma SuccessOnRefusal(handler: Handler, seen: seq<Received>, k: nat)
    requires RefusedAt(seen, k) && ComesTo(handler, seen) && handler(seen) == Return(Success)
    ensures !SafeHandler(handler)
  {
    var s, n := Showing(seen, k), |seen|;
    ShowingShows(seen, k);
    assert SeenBy(s)(n) == seen && ReturnsBy(SeenBy(s), handler, n);
    forall j | 0 <= j < n ensures handler(SeenBy(s)(j)).Receive? {
      assert SeenBy(s)(j) == seen[..j];
    }
    assert Receives(SeenBy(s), handler, 0, n) == n;
    FirstIsAt(s.incoming, k, n);
    assert StreamOutcome(s, handler, n).Success?;
  }

  lemma HeedfulIsSafe(s: Setup, handler: Handler, limit: nat)
    requires NeverIgnoresRefusal(handler) && ReturnsBy(SeenBy(s), handler, limit) &&
               StreamOutcome(s, handler, limit).Success?
    ensures FirstAllowed(s, Receives(SeenBy(s), handler, 0, limit))
  {
    var n := Receives(SeenBy(s), handler, 0, limit);
    var k := FirstMessage(s.incoming, n);
    assert k < n;
    if !FirstAllowed(s, n) {
      RefusedView(s, n);
      forall j | 0 <= j < n ensures handler(Seen(s, n)[..j]).Receive? {
        SeenIsPrefix(s, j, n);
        assert SeenBy(s)(j) == Seen(s, j);
      }
      assert ComesTo(handler, Seen(s, n));
    }
  }

  lemma HeedingNeverIgnores(handler: Handler)
    requires HeedsRefusal(handler)
    ensures NeverIgnoresRefusal(handler)
  {
    forall seen: seq<Received>, k: nat | RefusedAt(seen, k) && ComesTo(handler, seen)
      ensures handler(seen) != Return(Success)
    {
      assert seen[..k + 1][k].Refused?;
      assert seen[..|seen|] == seen;
    }
  }

  /** So a handler that fails as soon as it is refused succeeds only if the policy allowed the first message. */
  lemma SuccessWasAllowed(s: Setup, handler: Handler, limit: nat)
    requires ReturnsBy(SeenBy(s), handler, limit) && HeedsRefusal(handler) && StreamOutcome(s, handler, limit).Success?
    ensures var n := Receives(SeenBy(s), handler, 0, limit);
            var k := FirstMessage(s.incoming, n);
            k < n && Verdict(s, s.incoming(k).m).1.allow
  {
    HeedingNeverIgnores(handler);
    HeedfulIsSafe(s, handler, limit);
  }

  // ----- The handler of an upload -----

  /** The handler of a client-streaming call: receive until a receive fails, and report what it failed with. */
  function UntilItFails(eof: nat): Handler
  {
    (seen: seq<Received>) =>
      if |seen| == 0 then Receive
      else
        match seen[|seen| - 1]
        case Got(_) => Receive
        case Refused(code) => Return(Failed(code))
        case RecvFailed(status) => Return(if status == eof then Success else Failed(HandlerCode(status)))
  }

  /** On a stream that breaks at once it receives once, and fails whatever the transport said. */
  lemma EmptyStreamFails(s: Setup, eof: nat, end: nat)
    requires s.incoming(0).Broken?
    ensures StreamOutcome(s, UntilItFails(eof), end + 1).Failed?
  {
    var see, handler := SeenBy(s), UntilItFails(eof);
    assert see(0) == [] && see(1) == [RecvFailed(s.incoming(0).status)];
    assert handler(see(0)).Receive? && handler(see(1)).Return?;
    assert Receives(see, handler, 0, end + 1) == 1;
  }

  lemma ReturnsAtTheEnd(s: Setup, eof: nat, end: nat)
    requires s.incoming(end).Broken?
    ensures ReturnsBy(SeenBy(s), UntilItFails(eof), end + 1)
  {
    var seen := SeenBy(s)(end + 1);
    assert seen == Seen(s, end + 1) && seen[end] == RecvFailed(s.incoming(end).status);
  }

  /** On every stream that ends, at whatever receive, it succeeds only if the policy allowed the first message. */
  lemma UploadsAreChecked(s: Setup, eof: nat, end: nat)
    requires s.incoming(end).Broken? && StreamOutcome(s, UntilItFails(eof), end + 1).Success?
    ensures s.incoming(0).Arrived? && Verdict(s, s.incoming(0).m).1.allow
  {
    var handler := UntilItFails(eof);
    ReturnsAtTheEnd(s, eof, end);
    SuccessWasAllowed(s, handler, end + 1);
    if s.incoming(0).Broken? {
      EmptyStreamFails(s, eof, end);
    }
  }

  /**
   The premise is needed: past its first message a refused stream flows on, and a handler that receives again can
   succeed.
   */
  lemma RefusalCanBeIgnored(s: Setup)
    requires s.incoming(0).Arrived? && !Verdict(s, s.incoming(0).m).1.allow && s.incoming(1).Arrived?
    ensures exists handler: Handler, limit ::
              ReturnsBy(SeenBy(s), handler, limit) && StreamOutcome(s, handler, limit).Success?
    ensures Seen(s, 2)[1] == Got(s.incoming(1).m)
  {
    var handler: Handler := seen => if |seen| == 1 then Return(Success) else Receive;
    assert SeenBy(s)(1) == Seen(s, 1);
    assert ReturnsBy(SeenBy(s), handler, 1);
    assert FirstMessage(s.incoming, 1) == 0;
    assert Receives(SeenBy(s), handler, 0, 1) == 1;
    assert StreamOutcome(s, handler, 1).Success?;
    assert FirstMessage(s.incoming, 2) == 0;
  }
}
