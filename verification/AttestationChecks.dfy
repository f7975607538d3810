/** Verifying an attestation. Signatures, keys and certificate chains are an oracle; what the claims
    must say, and the replay check behind them, is modelled. */
module AttestationChecks {
  import opened Wrappers
  import opened Clock
  import opened Models
  import opened ReplayCache

  datatype AttestationError =
    | UnverifiedSignature
    | UntrustedKey
    | SpiffeIdMismatch
    | GcoDigestMismatch
    | ExpiredAttestation
    | AudienceMismatch
    | JtiMissing
    | ReplayDetected
    | UnsupportedFormat
    | MalformedAttestation

  datatype Audience = NoAudience | OneAudience(name: string) | ManyAudiences(names: seq<string>)

  /** A date claim after conversion: absent, not a number, a number no instant corresponds to, or an
      instant. */
  datatype DateClaim = Absent | NotANumber | OutOfRange | At(time: Instant)

  /** `None` for a claim that is missing or not a string. */
  datatype Claims = Claims(
    sub: Option<string>,
    gcoHash: Option<string>,
    aud: Audience,
    exp: DateClaim,
    nbf: DateClaim,
    iat: DateClaim,
    jti: Option<string>)

  /** The trust anchors, as far as this model sees them: what a token's own body says, whether a
      trusted key or a certificate's key signed it, and the identity of a certificate chain that leads
      to a trusted root. */
  datatype TrustOracle = TrustOracle(
    body: string -> Claims,
    keySigned: string -> Outcome<AttestationError>,
    leafIdentity: (string, Instant) -> Result<string, AttestationError>,
    leafSigned: string -> Outcome<AttestationError>)

  datatype Verifier = Verifier(hash: HashFn, trust: TrustOracle, expectedAudience: Option<seq<string>>)

  /** The claims of a GCO's attestation, once its signature is accepted. */
  function AcceptedClaims(v: Verifier, g: Gco, now: Instant): Result<Claims, AttestationError> {
    if g.attestation.None? || g.attestation.value.value == "" then Err(MalformedAttestation)
    else
      var token := g.attestation.value.value;
      match g.attestation.value.format
      case JwtSvid => Guarded(v.trust.keySigned(token), Ok(v.trust.body(token)))
      case X509Svid =>
        var leaf :- v.trust.leafIdentity(token, now);
        if leaf != g.modelIdentity then Err(SpiffeIdMismatch)
        else Guarded(v.trust.leafSigned(token), Ok(v.trust.body(token)))
      case _ => Err(UnsupportedFormat)
  }

  function CheckAudience(aud: Audience, expected: seq<string>): Outcome<AttestationError> {
    match aud
    case NoAudience => Fail(AudienceMismatch)
    case OneAudience(name) => Check(name in expected, AudienceMismatch)
    case ManyAudiences(names) => Check(exists n | n in names :: n in expected, AudienceMismatch)
  }

  function CheckExp(exp: DateClaim, now: Instant): Outcome<AttestationError> {
    match exp
    case At(t) => Check(!Leq(t, now), ExpiredAttestation)
    case _ => Fail(MalformedAttestation)
  }

  /** `nbf` and `iat` may be left out, but must not lie ahead. */
  function CheckNotAhead(claim: DateClaim, now: Instant): Outcome<AttestationError> {
    match claim
    case Absent => Pass
    case At(t) => Check(!Less(now, t), MalformedAttestation)
    case _ => Fail(MalformedAttestation)
  }

  /** Every check on the claims that comes before the replay check. */
  function CheckBindings(v: Verifier, claims: Claims, g: Gco, now: Instant): Outcome<AttestationError> {
    Check(claims.sub == Some(g.modelIdentity), SpiffeIdMismatch)
      .Then(Check(claims.gcoHash == Some(CanonicalHash(v.hash, g)), GcoDigestMismatch))
      .Then(if v.expectedAudience.None? then Pass else CheckAudience(claims.aud, v.expectedAudience.value))
      .Then(CheckExp(claims.exp, now))
      .Then(CheckNotAhead(claims.nbf, now))
      .Then(CheckNotAhead(claims.iat, now))
  }

  /** The replay check: an accepted token's identifier is recorded until the token expires. */
  function CheckReplay(cache: CacheState, claims: Claims, now: Instant)
    : (Outcome<AttestationError>, CacheState)
    requires claims.exp.At?
  {
    if claims.jti.None? || claims.jti.value == "" then (Fail(JtiMissing), cache)
    else
      var (isNew, cache') := Admit(cache, claims.jti.value, claims.exp.time, now);
      (Check(isNew, ReplayDetected), cache')
  }

  /** `verify`: the outcome, and the replay cache afterwards. */
  function VerifyStep(v: Verifier, cache: Option<CacheState>, g: Gco, now: Instant)
    : (r: (Outcome<AttestationError>, Option<CacheState>))
    ensures r.1.Some? <==> cache.Some?
  {
    match AcceptedClaims(v, g, now)
    case Err(e) => (Fail(e), cache)
    case Ok(claims) =>
      var bindings := CheckBindings(v, claims, g, now);
      if bindings.Fail? || cache.None? then (bindings, cache)
      else
        BindingsNeedExp(v, claims, g, now);
        var (outcome, cache') := CheckReplay(cache.value, claims, now);
        (outcome, Some(cache'))
  }

  class AttestationVerifier {
    const config: Verifier
    const replayCache: InMemoryReplayCache?

    constructor (config: Verifier, replayCache: InMemoryReplayCache?)
      ensures this.config == config && this.replayCache == replayCache
    {
      this.config := config;
      this.replayCache := replayCache;
    }

    ghost function Cache(): Option<CacheState>
      reads replayCache
    {
      if replayCache == null then None else Some(replayCache.State())
    }

    method Verify(g: Gco, now: Instant) returns (r: Outcome<AttestationError>)
      modifies replayCache
      ensures (r, Cache()) == VerifyStep(config, old(Cache()), g, now)
    {
      hide AcceptedClaims, CheckBindings, Admit;
      var claims := AcceptedClaims(config, g, now);
      if claims.Err? { return Fail(claims.error); }
      r := CheckBindings(config, claims.value, g, now);
      if r.Pass? && replayCache != null {
        BindingsNeedExp(config, claims.value, g, now);
        var jti := claims.value.jti;
        if jti.None? || jti.value == "" { return Fail(JtiMissing); }
        var isNew := replayCache.CheckAndRecord(jti.value, claims.value.exp.time, now);
        r := Check(isNew, ReplayDetected);
      }
    }
  }

  /** Claims that pass are for a live token. */
  lemma BindingsNeedExp(v: Verifier, claims: Claims, g: Gco, now: Instant)
    requires CheckBindings(v, claims, g, now).Pass?
    ensures claims.exp.At? && Less(now, claims.exp.time)
  {
  }

  /** A date claim that may be left out, but must not lie ahead. */
  predicate NotAhead(claim: DateClaim, now: Instant) {
    claim.Absent? || (claim.At? && Leq(claim.time, now))
  }

  predicate Meets(aud: Audience, expected: seq<string>) {
    exists name | name in expected ::
      aud == OneAudience(name) || (aud.ManyAudiences? && name in aud.names)
  }

  /** Claims pass exactly when they name the GCO's identity and digest, meet the expected audience if
      there is one, and are current. */
  lemma BindingsMean(v: Verifier, claims: Claims, g: Gco, now: Instant)
    ensures CheckBindings(v, claims, g, now).Pass? <==>
      && claims.sub == Some(g.modelIdentity)
      && claims.gcoHash == Some(CanonicalHash(v.hash, g))
      && (v.expectedAudience.Some? ==> Meets(claims.aud, v.expectedAudience.value))
      && claims.exp.At? && Less(now, claims.exp.time)
      && NotAhead(claims.nbf, now) && NotAhead(claims.iat, now)
  {
    hide CanonicalHash, UtcTime.Key;
  }

  /** A verification that passes rests on a signed body that names this GCO, and with an X.509
      attestation on a leaf with the GCO's own identity. */
  lemma VerifiedMeans(v: Verifier, cache: Option<CacheState>, g: Gco, now: Instant)
    requires VerifyStep(v, cache, g, now).0.Pass?
    ensures g.attestation.Some?
    ensures var token, claims := g.attestation.value.value, v.trust.body(g.attestation.value.value);
      && claims.sub == Some(g.modelIdentity) && claims.gcoHash == Some(CanonicalHash(v.hash, g))
      && claims.exp.At? && Less(now, claims.exp.time)
      && match g.attestation.value.format
         case JwtSvid => v.trust.keySigned(token).Pass?
         case X509Svid => v.trust.leafIdentity(token, now) == Ok(g.modelIdentity) && v.trust.leafSigned(token).Pass?
         case _ => false
  {
    hide CheckBindings, CanonicalHash, CheckReplay, UtcTime.Key;
    BindingsMean(v, AcceptedClaims(v, g, now).value, g, now);
  }

  /** An attestation pins its GCO: two GCOs that verify with the same token, at any times and in any
      cache states, are the same apart from the attestation, or their digest texts collide under the
      hash. */
  lemma AttestationPinsGco(v: Verifier, cacheA: Option<CacheState>, a: Gco, nowA: Instant,
                           cacheB: Option<CacheState>, b: Gco, nowB: Instant)
    requires VerifyStep(v, cacheA, a, nowA).0.Pass? && VerifyStep(v, cacheB, b, nowB).0.Pass?
    requires a.attestation.Some? && b.attestation.Some?
    requires a.attestation.value.value == b.attestation.value.value
    ensures a.(attestation := None) == b.(attestation := None)
      || Collision(v.hash, CanonicalText(a), CanonicalText(b))
  {
    hide CanonicalText, UtcTime.Key, VerifyStep;
    VerifiedMeans(v, cacheA, a, nowA);
    VerifiedMeans(v, cacheB, b, nowB);
    if CanonicalText(a) == CanonicalText(b) {
      CanonicalTextInjective(a, b);
    }
  }

  // ----- Exactly when a verification passes -----

  /** A trusted key signed the token, or a trusted certificate of the GCO's own identity did. */
  predicate SignedFor(v: Verifier, g: Gco, now: Instant) {
    && g.attestation.Some? && g.attestation.value.value != ""
    && var token := g.attestation.value.value;
    || (g.attestation.value.format == JwtSvid && v.trust.keySigned(token).Pass?)
    || (g.attestation.value.format == X509Svid
        && v.trust.leafIdentity(token, now) == Ok(g.modelIdentity) && v.trust.leafSigned(token).Pass?)
  }

  /** The claims name the GCO's identity and digest, meet the expected audience if there is one, and are
      current. */
  predicate ClaimsFit(v: Verifier, claims: Claims, g: Gco, now: Instant) {
    && claims.sub == Some(g.modelIdentity)
    && claims.gcoHash == Some(CanonicalHash(v.hash, g))
    && (v.expectedAudience.Some? ==> Meets(claims.aud, v.expectedAudience.value))
    && claims.exp.At? && Less(now, claims.exp.time)
    && NotAhead(claims.nbf, now) && NotAhead(claims.iat, now)
  }

  /** The GCO shows a signed token whose own body fits it. */
  predicate Trusted(v: Verifier, g: Gco, now: Instant) {
    SignedFor(v, g, now) && ClaimsFit(v, v.trust.body(g.attestation.value.value), g, now)
  }

  lemma AcceptedMeans(v: Verifier, g: Gco, now: Instant)
    ensures AcceptedClaims(v, g, now).Ok? <==> SignedFor(v, g, now)
    ensures SignedFor(v, g, now) ==>
      g.attestation.Some? && AcceptedClaims(v, g, now) == Ok(v.trust.body(g.attestation.value.value))
  {
  }

  /** The identifier a token is remembered by, if it has one. */
  function IdOf(v: Verifier, g: Gco): Option<string>
    requires g.attestation.Some?
  {
    v.trust.body(g.attestation.value.value).jti
  }

  /** Without a replay cache a verification passes exactly on trusted GCOs. With one the token must also
      carry an identifier that no unexpired entry has, and there must be room; it is then remembered until
      the token expires, and the expired entries are gone. A GCO that is not trusted leaves the cache alone. */
  lemma VerifyMeans(v: Verifier, cache: Option<CacheState>, g: Gco, now: Instant)
    ensures var (r, after) := VerifyStep(v, cache, g, now);
      && (cache.None? ==> after.None? && (r.Pass? <==> Trusted(v, g, now)))
      && (!Trusted(v, g, now) ==> r.Fail? && after == cache)
      && (cache.Some? && Trusted(v, g, now) ==>
            var live, id := Unexpired(cache.value.entries, now), IdOf(v, g);
            && (r.Pass? <==> id.Some? && id.value !in {""} + live.Keys && |live| < cache.value.maxEntries)
            && (r.Pass? ==>
                  after == Some(cache.value.(
                    entries := live[id.value := v.trust.body(g.attestation.value.value).exp.time])))
            && (id.Some? && id.value != "" && r.Fail? ==> after == Some(cache.value.(entries := live))))
  {
    hide AcceptedClaims, CheckBindings, CanonicalHash, UtcTime.Key, SignedFor, Unexpired;
    AcceptedMeans(v, g, now);
    if SignedFor(v, g, now) {
      BindingsMean(v, v.trust.body(g.attestation.value.value), g, now);
    }
  }

  // ----- Which error is reported -----

  /** The error of the first condition that does not hold. */
  function FirstError(checks: seq<(bool, AttestationError)>): Outcome<AttestationError> {
    if checks == [] then Pass
    else if !checks[0].0 then Fail(checks[0].1)
    else FirstError(checks[1..])
  }

  /** What the claims must meet, in the order it is asked. */
  function ClaimChecks(v: Verifier, claims: Claims, g: Gco, now: Instant): seq<(bool, AttestationError)> {
    [(claims.sub == Some(g.modelIdentity), SpiffeIdMismatch),
     (claims.gcoHash == Some(CanonicalHash(v.hash, g)), GcoDigestMismatch),
     (v.expectedAudience.Some? ==> Meets(claims.aud, v.expectedAudience.value), AudienceMismatch),
     (claims.exp.At?, MalformedAttestation),
     (claims.exp.At? && Less(now, claims.exp.time), ExpiredAttestation),
     (NotAhead(claims.nbf, now) && NotAhead(claims.iat, now), MalformedAttestation)]
  }

  lemma BindingsOrder(v: Verifier, claims: Claims, g: Gco, now: Instant)
    ensures CheckBindings(v, claims, g, now) == FirstError(ClaimChecks(v, claims, g, now))
  {
    hide CanonicalHash, UtcTime.Key, Meets;
    var c := ClaimChecks(v, claims, g, now);
    if v.expectedAudience.Some? { AudienceMeans(v, claims); }
    assert c[1..][1..] == c[2..] && c[2..][1..] == c[3..] && c[3..][1..] == c[4..] && c[4..][1..] == c[5..];
    assert FirstError(c[5..]) == Check(c[5].0, c[5].1) by { assert c[5..][1..] == []; }
    assert FirstError(c[4..]) == Check(c[4].0, c[4].1).Then(FirstError(c[5..]));
    assert FirstError(c[3..]) == Check(c[3].0, c[3].1).Then(FirstError(c[4..]));
    assert FirstError(c[2..]) == Check(c[2].0, c[2].1).Then(FirstError(c[3..]));
    assert FirstError(c[1..]) == Check(c[1].0, c[1].1).Then(FirstError(c[2..]));
  }

  lemma AudienceMeans(v: Verifier, claims: Claims)
    requires v.expectedAudience.Some?
    ensures CheckAudience(claims.aud, v.expectedAudience.value) ==
      Check(Meets(claims.aud, v.expectedAudience.value), AudienceMismatch)
  {
  }

  /** What is reported for an attestation that nobody signed as it should be. */
  predicate SignatureError(v: Verifier, g: Gco, now: Instant, e: AttestationError) {
    if g.attestation.None? || g.attestation.value.value == "" then e == MalformedAttestation
    else
      var token := g.attestation.value.value;
      match g.attestation.value.format
      case RawJws => e == UnsupportedFormat
      case TpmQuote => e == UnsupportedFormat
      case JwtSvid => v.trust.keySigned(token) == Fail(e)
      case X509Svid =>
        var leaf := v.trust.leafIdentity(token, now);
        if leaf.Err? then e == leaf.error
        else if leaf.value != g.modelIdentity then e == SpiffeIdMismatch
        else v.trust.leafSigned(token) == Fail(e)
  }

  /** Which error a failing verification reports: the signature's, then the claims' in order, then a
      missing identifier, then a replay, which a full cache reports too. */
  lemma VerifyErrors(v: Verifier, cache: Option<CacheState>, g: Gco, now: Instant)
    ensures var r := VerifyStep(v, cache, g, now).0;
      && (!SignedFor(v, g, now) ==> r.Fail? && SignatureError(v, g, now, r.error))
      && (SignedFor(v, g, now) ==>
            var claims := v.trust.body(g.attestation.value.value);
            var fits := FirstError(ClaimChecks(v, claims, g, now));
            && (fits.Fail? ==> r == fits)
            && (fits.Pass? && r.Fail? ==>
                  r.error == if claims.jti.None? || claims.jti.value == "" then JtiMissing else ReplayDetected))
  {
    hide CheckBindings, CanonicalHash, UtcTime.Key, ClaimChecks, FirstError, Admit;
    AcceptedMeans(v, g, now);
    if SignedFor(v, g, now) {
      BindingsOrder(v, v.trust.body(g.attestation.value.value), g, now);
    }
  }
}
