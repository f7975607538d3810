/** Deriving a child through the runtime and then presenting it. */
module RuntimeLaws {
  import opened Wrappers
  import opened Clock
  import opened Models
  import opened Validator
  import opened Derivation
  import opened Gates
  import opened Chains
  import opened ReplayCache
  import opened AttestationChecks
  import opened ReplayRuns
  import opened Runtime

  /** What an allowed derivation went through. */
  lemma AllowedDerivation(v: Verifier, cache: Option<CacheState>, parent: Gco, request: DelegationRequest,
                          m: Minting, child: Gco)
    requires DeriveStep(v, cache, parent, request, Some(m)).0 == Allowed(child)
    ensures var cache1 := VerifyStep(v, cache, parent, m.parentNow).1;
      && VerifyStep(v, cache, parent, m.parentNow).0.Pass?
      && Derive(v.hash, parent, request, m.spanId, m.firstNow, m.issued, m.secondNow) == Ok(child)
      && VerifyStep(v, cache1, child, m.childNow).0.Pass?
      && DeriveStep(v, cache, parent, request, Some(m)).1 == VerifyStep(v, cache1, child, m.childNow).1
      && Validate(v.hash, parent, child, m.now).Pass?
  {
    hide VerifyStep, Derive, Validate;
  }

  /** Without a replay cache, verification has no memory. */
  lemma VerifyIsStateless(v: Verifier, g: Gco, now: Instant)
    ensures VerifyStep(v, None, g, now).1 == None
  {
  }

  /** A narrowing stays one at any reading of the clock before the child's expiry. */
  lemma ValidateAnytime(hash: HashFn, parent: Gco, child: Gco, now: Instant, later: Instant)
    requires Validate(hash, parent, child, now).Pass?
    ensures Validate(hash, parent, child, later).Pass? <==> Less(later, child.expiresAt)
  {
    hide Validate, CanonicalHash, Unambiguous, Major, AllToolsWithin, AllPermissionsWithin, UtcTime.Key;
    ValidateMeans(hash, parent, child, now);
    ValidateMeans(hash, parent, child, later);
  }

  /** With no replay cache, a derived child is authorised under its parent at every later moment
      exactly while both attestations still verify and the child has not expired. */
  lemma DerivedIsAuthorized(v: Verifier, parent: Gco, request: DelegationRequest, m: Minting, child: Gco,
                            parentNow: Instant, childNow: Instant, now: Instant)
    requires DeriveStep(v, None, parent, request, Some(m)).0 == Allowed(child)
    ensures SubcallStep(v, None, parent, child, parentNow, childNow, now).0.Allowed? <==>
      && VerifyStep(v, None, parent, parentNow).0.Pass?
      && VerifyStep(v, None, child, childNow).0.Pass?
      && Less(now, child.expiresAt)
    ensures SubcallStep(v, None, parent, child, m.parentNow, m.childNow, m.now).0.Allowed?
  {
    hide VerifyStep, Validate, Derive, DeriveStep, Less;
    AllowedDerivation(v, None, parent, request, m, child);
    VerifyIsStateless(v, parent, parentNow);
    VerifyIsStateless(v, parent, m.parentNow);
    ValidateAnytime(v.hash, parent, child, m.now, now);
  }

  // ----- With a replay cache -----

  /** The token a GCO carries is recorded and live. */
  predicate Recorded(v: Verifier, s: CacheState, g: Gco, now: Instant) {
    && AcceptedClaims(v, g, now).Ok?
    && var claims := AcceptedClaims(v, g, now).value;
    && claims.exp.At? && claims.jti.Some?
    && claims.jti.value in s.entries
    && s.entries[claims.jti.value] == claims.exp.time
  }

  /** The claims a token carries do not depend on when they are read. */
  lemma ClaimsAreFixed(v: Verifier, g: Gco, now: Instant, later: Instant)
    requires AcceptedClaims(v, g, now).Ok? && AcceptedClaims(v, g, later).Ok?
    ensures AcceptedClaims(v, g, now) == AcceptedClaims(v, g, later)
  {
  }

  /** A verification that passes records its token. */
  lemma PassRecords(v: Verifier, s: CacheState, g: Gco, now: Instant)
    requires VerifyStep(v, Some(s), g, now).0.Pass?
    ensures Recorded(v, VerifyStep(v, Some(s), g, now).1.value, g, now)
  {
    hide AcceptedClaims, CheckBindings;
    var claims := AcceptedClaims(v, g, now).value;
    BindingsNeedExp(v, claims, g, now);
    assert Admit(s, claims.jti.value, claims.exp.time, now).0;
  }

  /** A recorded token survives any other verification, or has expired by then. */
  lemma RecordKept(v: Verifier, s: CacheState, g: Gco, since: Instant, other: Gco, now: Instant)
    requires Recorded(v, s, g, since)
    ensures var s' := VerifyStep(v, Some(s), other, now).1.value;
      Recorded(v, s', g, since) || Leq(AcceptedClaims(v, g, since).value.exp.time, now)
  {
    hide AcceptedClaims, CheckBindings, UtcTime.Key;
  }

  /** A recorded token does not verify again: it is a replay, or it has expired. */
  lemma RecordedFails(v: Verifier, s: CacheState, g: Gco, since: Instant, now: Instant)
    requires Recorded(v, s, g, since)
    ensures VerifyStep(v, Some(s), g, now).0.Fail?
  {
    hide AcceptedClaims, UtcTime.Key, CanonicalHash;
    if AcceptedClaims(v, g, now).Ok? {
      ClaimsAreFixed(v, g, since, now);
    }
  }

  lemma ExpiredFails(v: Verifier, cache: Option<CacheState>, g: Gco, since: Instant, now: Instant)
    requires AcceptedClaims(v, g, since).Ok? && AcceptedClaims(v, g, since).value.exp.At?
    requires Leq(AcceptedClaims(v, g, since).value.exp.time, now)
    ensures VerifyStep(v, cache, g, now).0.Fail?
  {
    hide AcceptedClaims, UtcTime.Key, CanonicalHash, CheckReplay;
    if AcceptedClaims(v, g, now).Ok? {
      ClaimsAreFixed(v, g, since, now);
    }
  }

  /** A recorded token survives them all, or has expired by the latest of them. */
  lemma {:induction false} RecordKeptThrough(v: Verifier, s: CacheState, g: Gco, since: Instant,
                                             calls: seq<Call>, now: Instant)
    requires Recorded(v, s, g, since)
    requires forall i | 0 <= i < |calls| :: Leq(calls[i].now, now)
    ensures AcceptedClaims(v, g, since).Ok? && AcceptedClaims(v, g, since).value.exp.At?
    ensures Recorded(v, Continued(v, s, calls), g, since) || Leq(AcceptedClaims(v, g, since).value.exp.time, now)
    decreases |calls|
  {
    hide AcceptedClaims, VerifyStep, UtcTime.Key, Recorded;
    RecordedMeans(v, s, g, since);
    if calls != [] {
      var n := |calls| - 1;
      RecordKeptThrough(v, s, g, since, calls[..n], now);
      if Recorded(v, Continued(v, s, calls[..n]), g, since) {
        RecordKept(v, Continued(v, s, calls[..n]), g, since, calls[n].gco, calls[n].now);
      }
    }
  }

  /** With a replay cache, deriving spends both attestations: the parent no longer verifies, so the
      pair that was just derived is refused at every later moment, whatever was verified in between on
      a clock that does not go back. */
  lemma ReplayCacheSpendsDerivation(v: Verifier, s: CacheState, parent: Gco, request: DelegationRequest,
                                    m: Minting, child: Gco, between: seq<Call>,
                                    parentNow: Instant, childNow: Instant, now: Instant)
    requires DeriveStep(v, Some(s), parent, request, Some(m)).0 == Allowed(child)
    requires Leq(m.childNow, parentNow) && forall i | 0 <= i < |between| :: Leq(between[i].now, parentNow)
    ensures DeriveStep(v, Some(s), parent, request, Some(m)).1.Some?
    ensures var after := DeriveStep(v, Some(s), parent, request, Some(m)).1.value;
      SubcallStep(v, Some(Continued(v, after, between)), parent, child, parentNow, childNow, now).0.Denied?
  {
    hide VerifyStep, Validate, Derive, DeriveStep, UtcTime.Key, Recorded, AcceptedClaims, Continued;
    AllowedDerivation(v, Some(s), parent, request, m, child);
    var s1 := VerifyStep(v, Some(s), parent, m.parentNow).1.value;
    PassRecords(v, s, parent, m.parentNow);
    RecordKept(v, s1, parent, m.parentNow, child, m.childNow);
    RecordedMeans(v, s1, parent, m.parentNow);
    var s2 := VerifyStep(v, Some(s1), child, m.childNow).1.value;
    if Recorded(v, s2, parent, m.parentNow) {
      RecordKeptThrough(v, s2, parent, m.parentNow, between, parentNow);
    }
    var s3 := Continued(v, s2, between);
    if Recorded(v, s3, parent, m.parentNow) {
      RecordedFails(v, s3, parent, m.parentNow, parentNow);
    } else {
      ExpiredFails(v, Some(s3), parent, m.parentNow, parentNow);
    }
  }

  lemma RecordedMeans(v: Verifier, s: CacheState, g: Gco, now: Instant)
    requires Recorded(v, s, g, now)
    ensures AcceptedClaims(v, g, now).Ok? && AcceptedClaims(v, g, now).value.exp.At?
  {
  }

  // ----- Delegation through the runtime -----

  /** The runtime allowed the sub-call at some moment, in whatever state its replay cache was. */
  ghost predicate Authorized(v: Verifier, parent: Gco, child: Gco, now: Instant) {
    exists cache, parentNow, childNow ::
      SubcallStep(v, cache, parent, child, parentNow, childNow, now).0.Allowed?
  }

  /** Every hop of a delegation path was allowed by the runtime, starting from a valid root. */
  ghost predicate AuthorizedPath(v: Verifier, path: seq<Gco>, clock: seq<Instant>) {
    && |path| > 0 && |clock| == |path|
    && ValidateRoot(path[0], clock[0]).Pass?
    && forall i | 1 <= i < |path| :: Hop(v, path, clock, i)
  }

  ghost predicate Hop(v: Verifier, path: seq<Gco>, clock: seq<Instant>, i: nat)
    requires 1 <= i < |path| == |clock|
  {
    Authorized(v, path[i - 1], path[i], clock[i])
  }

  lemma AuthorizedIsValid(v: Verifier, parent: Gco, child: Gco, now: Instant)
    requires Authorized(v, parent, child, now)
    ensures Validate(v.hash, parent, child, now).Pass?
  {
    hide VerifyStep, Validate;
  }

  /** A path of allowed sub-calls is a validated chain. */
  lemma AuthorizedPathIsRooted(v: Verifier, path: seq<Gco>, clock: seq<Instant>)
    requires AuthorizedPath(v, path, clock)
    ensures Rooted(v.hash, path, clock)
  {
    hide Authorized, Validate, ValidateRoot;
    forall i | 1 <= i < |path| ensures Link(v.hash, path, clock, i) {
      assert Hop(v, path, clock, i);
      AuthorizedIsValid(v, path[i - 1], path[i], clock[i]);
    }
  }

  /** End to end: however long the path of allowed sub-calls, a tool call naming an operation that the
      runtime allows to its end would pass the root's own gate at the same moment. */
  lemma RuntimeToolCallsNarrow(v: Verifier, path: seq<Gco>, clock: seq<Instant>, cache: Option<CacheState>,
                               uri: string, requested: string, verifyNow: Instant, now: Instant)
    requires AuthorizedPath(v, path, clock)
    requires ToolCallStep(v, cache, Last(path), uri, Some(requested), verifyNow, now).0.Allowed?
    requires ScopeTokens(requested) != {}
    ensures ToolGate(path[0], uri, Some(requested), now)
  {
    hide VerifyStep, ScopeTokens, Rooted, Authorized, ValidateRoot, Less, SearchTools;
    AuthorizedPathIsRooted(v, path, clock);
    ToolCallsNarrow(v.hash, path, clock, uri, requested, now);
  }
}
