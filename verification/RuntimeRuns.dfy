/** Whole runs of the runtime: every operation, in any order, over one store and one replay cache. */
module RuntimeRuns {
  import opened Wrappers
  import opened Clock
  import opened Models
  import opened Validator
  import opened Derivation
  import opened Gates
  import opened ReplayCache
  import opened AttestationChecks
  import opened ReplayRuns
  import opened StateStore
  import opened Runtime

  datatype Op =
    | WriteOp(gco: Gco, key: StoreKey, value: Bytes, mode: string, verifyNow: Instant, now: Instant)
    | ReadOp(gco: Gco, key: StoreKey, verifyNow: Instant, now: Instant)
    | AccessOp(gco: Gco, namespace: string, mode: string, verifyNow: Instant, now: Instant)
    | ToolOp(gco: Gco, uri: string, requested: Option<string>, verifyNow: Instant, now: Instant)
    | SubcallOp(parent: Gco, child: Gco, parentNow: Instant, childNow: Instant, now: Instant)
    | DeriveOp(parent: Gco, request: DelegationRequest, minting: Option<Minting>)

  function Apply(v: Verifier, s: RuntimeState, op: Op): RuntimeState {
    match op
    case WriteOp(g, k, value, mode, verifyNow, now) => WriteStep(v, s, g, k, value, mode, verifyNow, now).1
    case ReadOp(g, k, verifyNow, now) => ReadStep(v, s, g, k, verifyNow, now).1
    case AccessOp(g, namespace, mode, verifyNow, now) =>
      s.(cache := AccessStep(v, s.cache, g, namespace, mode, verifyNow, now).1)
    case ToolOp(g, uri, requested, verifyNow, now) =>
      s.(cache := ToolCallStep(v, s.cache, g, uri, requested, verifyNow, now).1)
    case SubcallOp(parent, child, parentNow, childNow, now) =>
      s.(cache := SubcallStep(v, s.cache, parent, child, parentNow, childNow, now).1)
    case DeriveOp(parent, request, minting) =>
      s.(cache := DeriveStep(v, s.cache, parent, request, minting).1)
  }

  /** The operation is allowed in this state. */
  predicate Permitted(v: Verifier, s: RuntimeState, op: Op) {
    match op
    case WriteOp(g, k, value, mode, verifyNow, now) => WriteStep(v, s, g, k, value, mode, verifyNow, now).0.Allowed?
    case ReadOp(g, k, verifyNow, now) => ReadStep(v, s, g, k, verifyNow, now).0.Allowed?
    case AccessOp(g, namespace, mode, verifyNow, now) =>
      AccessStep(v, s.cache, g, namespace, mode, verifyNow, now).0.Allowed?
    case ToolOp(g, uri, requested, verifyNow, now) =>
      ToolCallStep(v, s.cache, g, uri, requested, verifyNow, now).0.Allowed?
    case SubcallOp(parent, child, parentNow, childNow, now) =>
      SubcallStep(v, s.cache, parent, child, parentNow, childNow, now).0.Allowed?
    case DeriveOp(parent, request, minting) => DeriveStep(v, s.cache, parent, request, minting).0.Allowed?
  }

  /** The state after a run; the store is empty at the start. */
  function Run(v: Verifier, cache: Option<CacheState>, ops: seq<Op>): RuntimeState {
    if ops == [] then RuntimeState(cache, EMPTY_STORE)
    else Apply(v, Run(v, cache, ops[..|ops| - 1]), ops[|ops| - 1])
  }

  // ----- The verifications behind an operation -----

  /** The verifications an operation makes: a second one only if it gets that far. */
  function Calls(v: Verifier, cache: Option<CacheState>, op: Op): seq<Call> {
    match op
    case SubcallOp(parent, child, parentNow, childNow, _) =>
      [Call(parent, parentNow)]
      + if VerifyStep(v, cache, parent, parentNow).0.Pass? then [Call(child, childNow)] else []
    case DeriveOp(parent, request, None) => []
    case DeriveOp(parent, request, Some(m)) =>
      var derived := Derive(v.hash, parent, request, m.spanId, m.firstNow, m.issued, m.secondNow);
      [Call(parent, m.parentNow)]
      + if VerifyStep(v, cache, parent, m.parentNow).0.Pass? && derived.Ok? then [Call(derived.value, m.childNow)]
        else []
    case _ => [Call(op.gco, op.verifyNow)]
  }

  /** Every one of these calls, made one after the other, passes. */
  ghost predicate AllPass(v: Verifier, s: CacheState, calls: seq<Call>) {
    forall k | 0 <= k < |calls| :: Passes(v, s, calls, k)
  }

  predicate Passes(v: Verifier, s: CacheState, calls: seq<Call>, k: nat)
    requires k < |calls|
  {
    VerifyStep(v, Some(Continued(v, s, calls[..k])), calls[k].gco, calls[k].now).0.Pass?
  }

  lemma OneCall(v: Verifier, s: CacheState, c: Call)
    ensures Some(Continued(v, s, [c])) == VerifyStep(v, Some(s), c.gco, c.now).1
    ensures VerifyStep(v, Some(s), c.gco, c.now).0.Pass? ==> AllPass(v, s, [c])
  {
    hide VerifyStep;
    assert [c][..0] == [];
    assert Continued(v, s, []) == s;
  }

  lemma TwoCalls(v: Verifier, s: CacheState, c: Call, d: Call)
    ensures var t := VerifyStep(v, Some(s), c.gco, c.now);
      && Some(Continued(v, s, [c] + [d])) == VerifyStep(v, t.1, d.gco, d.now).1
      && (t.0.Pass? && VerifyStep(v, t.1, d.gco, d.now).0.Pass? ==> AllPass(v, s, [c] + [d]))
  {
    hide VerifyStep;
    OneCall(v, s, c);
    assert ([c] + [d])[..0] == [] && ([c] + [d])[..1] == [c];
    assert Continued(v, s, []) == s;
  }

  /** An operation changes the cache by its verifications and nothing else, and is allowed only if
      all of them pass. */
  lemma OpCalls(v: Verifier, s: RuntimeState, op: Op)
    requires s.cache.Some?
    ensures var calls := Calls(v, s.cache, op);
      && Apply(v, s, op).cache == Some(Continued(v, s.cache.value, calls))
      && (Permitted(v, s, op) ==> calls != [] && AllPass(v, s.cache.value, calls))
  {
    hide VerifyStep, Derive, Validate, StateGate, StoreWrite, StoreRead, SearchTools, Continued, AllPass, Less;
    var c := s.cache.value;
    match op
    case SubcallOp(parent, child, parentNow, childNow, _) =>
      OneCall(v, c, Call(parent, parentNow));
      TwoCalls(v, c, Call(parent, parentNow), Call(child, childNow));
      assert [Call(parent, parentNow)] + [] == [Call(parent, parentNow)];
    case DeriveOp(parent, request, None) =>
      assert Continued(v, c, []) == c by { NoCall(v, c); }
    case DeriveOp(parent, request, Some(m)) =>
      OneCall(v, c, Call(parent, m.parentNow));
      assert [Call(parent, m.parentNow)] + [] == [Call(parent, m.parentNow)];
      var derived := Derive(v.hash, parent, request, m.spanId, m.firstNow, m.issued, m.secondNow);
      if derived.Ok? {
        TwoCalls(v, c, Call(parent, m.parentNow), Call(derived.value, m.childNow));
      }
    case _ => OneCall(v, c, Call(op.gco, op.verifyNow));
  }

  lemma NoCall(v: Verifier, s: CacheState)
    ensures Continued(v, s, []) == s
  {
  }

  // ----- A run is a run of its verifications -----

  /** All verifications of a run, oldest first. */
  function Trace(v: Verifier, cache: Option<CacheState>, ops: seq<Op>): seq<Call> {
    if ops == [] then []
    else
      var front, op := ops[..|ops| - 1], ops[|ops| - 1];
      Trace(v, cache, front) + Calls(v, Run(v, cache, front).cache, op)
  }

  function EmptyCache(max: nat): Option<CacheState> { Some(CacheState(map[], max)) }

  /** Whatever operations ran, the cache is the one their verifications leave: so the laws about runs
      of the verifier hold for runs of the runtime. */
  lemma {:induction false} TraceCache(v: Verifier, max: nat, ops: seq<Op>)
    ensures Run(v, EmptyCache(max), ops).cache == Some(After(v, max, Trace(v, EmptyCache(max), ops)))
    decreases |ops|
  {
    hide Apply, Calls, Continued, Permitted;
    if ops == [] {
      NoCall(v, CacheState(map[], max));
    } else {
      var front, op := ops[..|ops| - 1], ops[|ops| - 1];
      TraceCache(v, max, front);
      var s := Run(v, EmptyCache(max), front);
      OpCalls(v, s, op);
      ContinuedAppend(v, CacheState(map[], max), Trace(v, EmptyCache(max), front), Calls(v, s.cache, op));
    }
  }

  lemma {:induction false} TracePrefix(v: Verifier, cache: Option<CacheState>, ops: seq<Op>, k: nat)
    requires k <= |ops|
    ensures Trace(v, cache, ops[..k]) <= Trace(v, cache, ops)
    decreases |ops|
  {
    hide Run, Calls;
    if k < |ops| {
      var front := ops[..|ops| - 1];
      TracePrefix(v, cache, front, k);
      assert front[..k] == ops[..k];
    } else {
      assert ops[..k] == ops;
    }
  }

  /** Where the `k`-th verification of the `i`-th operation stands in the trace, and that it was accepted
      there if the operation was allowed. */
  lemma AllowedCall(v: Verifier, max: nat, ops: seq<Op>, i: nat, k: nat)
    requires i < |ops| && Permitted(v, Run(v, EmptyCache(max), ops[..i]), ops[i])
    requires k < |Calls(v, Run(v, EmptyCache(max), ops[..i]).cache, ops[i])|
    ensures var calls := Calls(v, Run(v, EmptyCache(max), ops[..i]).cache, ops[i]);
      var trace, n := Trace(v, EmptyCache(max), ops), |Trace(v, EmptyCache(max), ops[..i])| + k;
      && n < |Trace(v, EmptyCache(max), ops[..i + 1])| <= |trace|
      && trace[n] == calls[k] && Accepts(v, max, trace[..n], trace[n])
  {
    hide Permitted, Calls, Apply, Continued, VerifyStep;
    var s := Run(v, EmptyCache(max), ops[..i]);
    var before, calls := Trace(v, EmptyCache(max), ops[..i]), Calls(v, s.cache, ops[i]);
    var trace, n := Trace(v, EmptyCache(max), ops), |before| + k;
    assert ops[..i + 1][..i] == ops[..i];
    TracePrefix(v, EmptyCache(max), ops, i + 1);
    assert before + calls <= trace;
    assert trace[..n] == before + calls[..k];
    TraceCache(v, max, ops[..i]);
    OpCalls(v, s, ops[i]);
    assert Passes(v, s.cache.value, calls, k);
    ContinuedAppend(v, CacheState(map[], max), before, calls[..k]);
  }

  /** On a clock that never goes back, one token serves at most one verification of one allowed
      operation: two verifications behind allowed operations of a run, of whatever kinds, never rest on
      the same token. */
  lemma AllowedShareNoToken(v: Verifier, max: nat, ops: seq<Op>, i: nat, k: nat, j: nat, l: nat)
    requires Monotone(Trace(v, EmptyCache(max), ops))
    requires i <= j < |ops| && (i == j ==> k < l)
    requires Permitted(v, Run(v, EmptyCache(max), ops[..i]), ops[i])
    requires Permitted(v, Run(v, EmptyCache(max), ops[..j]), ops[j])
    requires k < |Calls(v, Run(v, EmptyCache(max), ops[..i]).cache, ops[i])|
    requires l < |Calls(v, Run(v, EmptyCache(max), ops[..j]).cache, ops[j])|
    ensures var a := Calls(v, Run(v, EmptyCache(max), ops[..i]).cache, ops[i])[k].gco.attestation;
      var b := Calls(v, Run(v, EmptyCache(max), ops[..j]).cache, ops[j])[l].gco.attestation;
      a.Some? && b.Some? && a.value.value != b.value.value
  {
    hide Permitted, Calls, Run, Accepts, Trace, Monotone, After;
    AllowedCall(v, max, ops, i, k);
    AllowedCall(v, max, ops, j, l);
    if i < j {
      assert ops[..j][..i + 1] == ops[..i + 1];
      TracePrefix(v, EmptyCache(max), ops[..j], i + 1);
    }
    TokenServesOnce(v, max, Trace(v, EmptyCache(max), ops),
                    |Trace(v, EmptyCache(max), ops[..i])| + k, |Trace(v, EmptyCache(max), ops[..j])| + l);
  }

  /** Whose authority the operation exercises. */
  function Subject(op: Op): Gco {
    match op
    case SubcallOp(parent, _, _, _, _) => parent
    case DeriveOp(parent, _, _) => parent
    case _ => op.gco
  }

  lemma SubjectCalled(v: Verifier, s: RuntimeState, op: Op)
    requires s.cache.Some? && Permitted(v, s, op)
    ensures |Calls(v, s.cache, op)| > 0 && Calls(v, s.cache, op)[0].gco == Subject(op)
  {
    hide VerifyStep, Derive, Validate;
  }

  /** So with a replay cache an attestation is good for one operation: of two operations whose subject
      is the same GCO, or shows the same token, at most one is allowed in any run. */
  lemma OneOperationPerToken(v: Verifier, max: nat, ops: seq<Op>, i: nat, j: nat)
    requires Monotone(Trace(v, EmptyCache(max), ops)) && i < j < |ops|
    requires Subject(ops[i]).attestation.Some? && Subject(ops[j]).attestation.Some?
    requires Subject(ops[i]).attestation.value.value == Subject(ops[j]).attestation.value.value
    ensures !(&& Permitted(v, Run(v, EmptyCache(max), ops[..i]), ops[i])
              && Permitted(v, Run(v, EmptyCache(max), ops[..j]), ops[j]))
  {
    hide Permitted, Calls, Run, Trace, Subject;
    var s, t := Run(v, EmptyCache(max), ops[..i]), Run(v, EmptyCache(max), ops[..j]);
    if Permitted(v, s, ops[i]) && Permitted(v, t, ops[j]) {
      TraceCache(v, max, ops[..i]);
      TraceCache(v, max, ops[..j]);
      SubjectCalled(v, s, ops[i]);
      SubjectCalled(v, t, ops[j]);
      AllowedShareNoToken(v, max, ops, i, 0, j, 0);
    }
  }
}
