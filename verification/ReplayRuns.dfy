/** Whole runs of the verifier over a clock that never goes back: the bounded, evicting cache
    answers like the full history of accepted tokens. */
module ReplayRuns {
  import opened Wrappers
  import opened Clock
  import opened Models
  import opened ReplayCache
  import opened AttestationChecks

  datatype Call = Call(gco: Gco, now: Instant)

  /** An accepted token: its identifier and expiry, and when it was accepted. */
  datatype Token = Token(jti: string, exp: Instant, at: Instant)

  /** The verification gets as far as the replay cache. */
  predicate Consults(v: Verifier, c: Call) {
    && AcceptedClaims(v, c.gco, c.now).Ok?
    && var claims := AcceptedClaims(v, c.gco, c.now).value;
    && CheckBindings(v, claims, c.gco, c.now).Pass?
    && claims.jti.Some? && claims.jti.value != ""
  }

  function TokenOf(v: Verifier, c: Call): (t: Token)
    requires Consults(v, c)
    ensures t.at == c.now && Less(c.now, t.exp)
  {
    var claims := AcceptedClaims(v, c.gco, c.now).value;
    BindingsNeedExp(v, claims, c.gco, c.now);
    Token(claims.jti.value, claims.exp.time, c.now)
  }

  /** The cache after further calls. */
  function Continued(v: Verifier, s: CacheState, calls: seq<Call>): CacheState {
    if calls == [] then s
    else
      var c := calls[|calls| - 1];
      VerifyStep(v, Some(Continued(v, s, calls[..|calls| - 1])), c.gco, c.now).1.value
  }

  lemma {:induction false} ContinuedAppend(v: Verifier, s: CacheState, calls: seq<Call>, more: seq<Call>)
    ensures Continued(v, s, calls + more) == Continued(v, Continued(v, s, calls), more)
    decreases |more|
  {
    hide VerifyStep;
    if more == [] {
      assert calls + more == calls;
    } else {
      var n := |more| - 1;
      assert (calls + more)[..|calls| + n] == calls + more[..n];
      ContinuedAppend(v, s, calls, more[..n]);
    }
  }

  /** The cache after a run of calls from empty. */
  function After(v: Verifier, max: nat, calls: seq<Call>): CacheState {
    Continued(v, CacheState(map[], max), calls)
  }

  /** The verifier's answer to one more call. */
  predicate Accepts(v: Verifier, max: nat, calls: seq<Call>, c: Call) {
    VerifyStep(v, Some(After(v, max, calls)), c.gco, c.now).0.Pass?
  }

  lemma AcceptsConsults(v: Verifier, max: nat, calls: seq<Call>, c: Call)
    requires Accepts(v, max, calls, c)
    ensures Consults(v, c)
  {
    hide AcceptedClaims, CheckBindings;
  }

  /** All tokens accepted in a run, oldest first. */
  function Accepted(v: Verifier, max: nat, calls: seq<Call>): seq<Token> {
    if calls == [] then []
    else
      var front, c := calls[..|calls| - 1], calls[|calls| - 1];
      var tokens := Accepted(v, max, front);
      if Accepts(v, max, front, c) then
        AcceptsConsults(v, max, front, c);
        tokens + [TokenOf(v, c)]
      else tokens
  }

  /** When the cache was last consulted. */
  function LastConsulted(v: Verifier, calls: seq<Call>): Option<Instant> {
    if calls == [] then None
    else if Consults(v, calls[|calls| - 1]) then Some(calls[|calls| - 1].now)
    else LastConsulted(v, calls[..|calls| - 1])
  }

  predicate Monotone(calls: seq<Call>) {
    forall i, j | 0 <= i < j < |calls| :: Leq(calls[i].now, calls[j].now)
  }

  // ----- The invariant -----

  /** The entries are exactly the tokens still unexpired at `when`. */
  ghost predicate HoldsLive(entries: map<string, Instant>, tokens: seq<Token>, when: Instant) {
    && (forall jti | jti in entries ::
          exists t :: t in tokens && t.jti == jti && t.exp == entries[jti] && Less(when, t.exp))
    && (forall t | t in tokens && Less(when, t.exp) :: t.jti in entries && entries[t.jti] == t.exp)
  }

  /** Accepting an identifier again means the earlier token had expired by then. */
  ghost predicate NeverReplayed(tokens: seq<Token>) {
    forall i, j | 0 <= i < j < |tokens| && tokens[i].jti == tokens[j].jti :: Leq(tokens[i].exp, tokens[j].at)
  }

  ghost predicate Sound(s: CacheState, max: nat, tokens: seq<Token>, last: Option<Instant>) {
    && s.maxEntries == max && |s.entries| <= max
    && NeverReplayed(tokens)
    && (last.None? ==> tokens == [] && s.entries == map[])
    && (last.Some? ==> HoldsLive(s.entries, tokens, last.value))
  }

  lemma EvictionKeepsLive(entries: map<string, Instant>, tokens: seq<Token>, when: Instant, now: Instant)
    requires HoldsLive(entries, tokens, when) && Leq(when, now)
    ensures HoldsLive(Unexpired(entries, now), tokens, now)
    ensures |Unexpired(entries, now)| <= |entries|
  {
    hide UtcTime.Key;
    var live := Unexpired(entries, now);
    forall jti | jti in live
      ensures exists t :: t in tokens && t.jti == jti && t.exp == live[jti] && Less(now, t.exp)
    {
      var t :| t in tokens && t.jti == jti && t.exp == entries[jti] && Less(when, t.exp);
    }
    SmallerDomain(live.Keys, entries.Keys);
  }

  lemma SmallerDomain<T>(a: set<T>, b: set<T>)
    requires a <= b
    ensures |a| <= |b|
  {
    assert b == a + (b - a);
  }

  /** What eviction leaves of a sound cache is exactly the live tokens. */
  lemma SoundLive(s: CacheState, max: nat, tokens: seq<Token>, last: Option<Instant>, now: Instant)
    requires Sound(s, max, tokens, last) && (last.Some? ==> Leq(last.value, now))
    ensures HoldsLive(Unexpired(s.entries, now), tokens, now)
    ensures |Unexpired(s.entries, now)| <= |s.entries|
  {
    hide UtcTime.Key;
    if last.Some? {
      EvictionKeepsLive(s.entries, tokens, last.value, now);
    } else {
      assert Unexpired(s.entries, now) == map[];
    }
  }

  lemma AbsentExpired(live: map<string, Instant>, tokens: seq<Token>, t: Token, now: Instant)
    requires HoldsLive(live, tokens, now) && t in tokens && t.jti !in live
    ensures Leq(t.exp, now)
  {
    hide UtcTime.Key;
  }

  lemma AdmitKeepsSound(s: CacheState, max: nat, tokens: seq<Token>, last: Option<Instant>, t: Token)
    requires Sound(s, max, tokens, last)
    requires last.Some? ==> Leq(last.value, t.at)
    requires Less(t.at, t.exp)
    ensures var (isNew, s') := Admit(s, t.jti, t.exp, t.at);
      Sound(s', max, if isNew then tokens + [t] else tokens, Some(t.at))
  {
    hide UtcTime.Key, HoldsLive;
    var live := Unexpired(s.entries, t.at);
    SoundLive(s, max, tokens, last, t.at);
    var (isNew, s') := Admit(s, t.jti, t.exp, t.at);
    if isNew {
      forall i | 0 <= i < |tokens| && tokens[i].jti == t.jti ensures Leq(tokens[i].exp, t.at) {
        AbsentExpired(live, tokens, tokens[i], t.at);
      }
      RecordKeepsLive(live, tokens, t);
    }
  }

  lemma RecordKeepsLive(live: map<string, Instant>, tokens: seq<Token>, t: Token)
    requires HoldsLive(live, tokens, t.at) && t.jti !in live && Less(t.at, t.exp)
    ensures HoldsLive(live[t.jti := t.exp], tokens + [t], t.at)
  {
    hide UtcTime.Key;
    var entries := live[t.jti := t.exp];
    forall jti | jti in entries
      ensures exists u :: u in tokens + [t] && u.jti == jti && u.exp == entries[jti] && Less(t.at, u.exp)
    {
      if jti == t.jti {
        assert t in tokens + [t];
      } else {
        var u :| u in tokens && u.jti == jti && u.exp == live[jti] && Less(t.at, u.exp);
        assert u in tokens + [t];
      }
    }
  }

  /** What one call does to the cache: nothing unless it is consulted, one atomic admission if it is. */
  lemma CallMeans(v: Verifier, s: CacheState, c: Call)
    ensures var (outcome, s') := VerifyStep(v, Some(s), c.gco, c.now);
      && (!Consults(v, c) ==> outcome.Fail? && s' == Some(s))
      && (Consults(v, c) ==>
            var (isNew, t') := Admit(s, TokenOf(v, c).jti, TokenOf(v, c).exp, c.now);
            outcome.Pass? == isNew && s' == Some(t'))
  {
    hide AcceptedClaims, CheckBindings, Admit;
  }

  lemma LastConsultedBounded(v: Verifier, calls: seq<Call>, now: Instant)
    requires forall i | 0 <= i < |calls| :: Leq(calls[i].now, now)
    ensures LastConsulted(v, calls).Some? ==> Leq(LastConsulted(v, calls).value, now)
  {
    hide Consults;
    if calls != [] { LastConsultedBounded(v, calls[..|calls| - 1], now); }
  }

  /** In every run with a clock that never goes back, the cache stays within its bound and holds
      exactly the accepted tokens that were unexpired when it was last consulted; and no token was
      accepted while an accepted token with the same identifier was live. */
  lemma {:induction false} RunSound(v: Verifier, max: nat, calls: seq<Call>)
    requires Monotone(calls)
    ensures Sound(After(v, max, calls), max, Accepted(v, max, calls), LastConsulted(v, calls))
    decreases |calls|
  {
    hide Consults, VerifyStep, Admit, Sound, Leq, Less;
    if calls == [] {
      assert Sound(CacheState(map[], max), max, [], None) by { EmptySound(max); }
    } else {
      var n := |calls| - 1;
      var front, c := calls[..n], calls[n];
      RunSound(v, max, front);
      CallMeans(v, After(v, max, front), c);
      LastConsultedBounded(v, front, c.now);
      if Consults(v, c) {
        AdmitKeepsSound(After(v, max, front), max, Accepted(v, max, front), LastConsulted(v, front), TokenOf(v, c));
      }
    }
  }

  lemma EmptySound(max: nat)
    ensures Sound(CacheState(map[], max), max, [], None)
  {
  }

  // ----- At most once -----

  lemma {:induction false} AcceptedGrows(v: Verifier, max: nat, calls: seq<Call>, k: nat)
    requires k <= |calls|
    ensures Accepted(v, max, calls[..k]) <= Accepted(v, max, calls)
    decreases |calls|
  {
    hide Consults, Accepts;
    var n := |calls|;
    if k < n {
      AcceptedGrows(v, max, calls[..n - 1], k);
      assert calls[..n - 1][..k] == calls[..k];
    } else {
      assert calls[..k] == calls;
    }
  }

  lemma AcceptedCall(v: Verifier, max: nat, calls: seq<Call>, i: nat)
    requires i < |calls| && Accepts(v, max, calls[..i], calls[i]) && Consults(v, calls[i])
    ensures Accepted(v, max, calls[..i]) + [TokenOf(v, calls[i])] <= Accepted(v, max, calls)
  {
    hide Consults, Accepts;
    assert calls[..i + 1][..i] == calls[..i];
    AcceptedGrows(v, max, calls, i + 1);
  }

  /** If two calls of a run are both accepted and their tokens carry the same identifier, the first
      token had expired when the second was accepted, so the second expires strictly later: one
      token, with one identifier and one expiry, is accepted at most once. */
  lemma AcceptedAtMostOnce(v: Verifier, max: nat, calls: seq<Call>, i: nat, j: nat)
    requires Monotone(calls) && i < j < |calls|
    requires Accepts(v, max, calls[..i], calls[i]) && Accepts(v, max, calls[..j], calls[j])
    requires Consults(v, calls[i]) && Consults(v, calls[j])
    requires TokenOf(v, calls[i]).jti == TokenOf(v, calls[j]).jti
    ensures Leq(TokenOf(v, calls[i]).exp, calls[j].now)
    ensures Less(TokenOf(v, calls[i]).exp, TokenOf(v, calls[j]).exp)
  {
    hide Consults, Accepts, After, Accepted, HoldsLive;
    RunSound(v, max, calls);
    var tokens := Accepted(v, max, calls);
    AcceptedCall(v, max, calls, i);
    AcceptedCall(v, max, calls, j);
    assert calls[..j][..i] == calls[..i];
    AcceptedCall(v, max, calls[..j], i);
    var a, b := |Accepted(v, max, calls[..i])|, |Accepted(v, max, calls[..j])|;
    assert a < b;
    assert tokens[a] == TokenOf(v, calls[i]) && tokens[b] == TokenOf(v, calls[j]);
  }

  lemma ClaimsAreBody(v: Verifier, c: Call)
    requires Consults(v, c)
    ensures c.gco.attestation.Some?
    ensures var claims := v.trust.body(c.gco.attestation.value.value);
      && claims.jti.Some? && claims.exp.At?
      && TokenOf(v, c).jti == claims.jti.value && TokenOf(v, c).exp == claims.exp.time
  {
    hide CheckBindings, UtcTime.Key;
    BindingsNeedExp(v, AcceptedClaims(v, c.gco, c.now).value, c.gco, c.now);
  }

  /** A token as a text passes at most once in a run, whatever GCO shows it. */
  lemma TokenServesOnce(v: Verifier, max: nat, calls: seq<Call>, i: nat, j: nat)
    requires Monotone(calls) && i < j < |calls|
    requires Accepts(v, max, calls[..i], calls[i]) && Accepts(v, max, calls[..j], calls[j])
    ensures calls[i].gco.attestation.Some? && calls[j].gco.attestation.Some?
    ensures calls[i].gco.attestation.value.value != calls[j].gco.attestation.value.value
  {
    hide Consults, Accepts, TokenOf, Monotone, UtcTime.Key;
    AcceptsConsults(v, max, calls[..i], calls[i]);
    AcceptsConsults(v, max, calls[..j], calls[j]);
    ClaimsAreBody(v, calls[i]);
    ClaimsAreBody(v, calls[j]);
    if calls[i].gco.attestation.value.value == calls[j].gco.attestation.value.value {
      AcceptedAtMostOnce(v, max, calls, i, j);
    }
  }

  // ----- The history decides -----

  /** Identifiers of accepted tokens that are live at an instant. */
  function LiveIds(tokens: seq<Token>, now: Instant): set<string> {
    set t | t in tokens && Less(now, t.exp) :: t.jti
  }

  /** The verifier accepts a call exactly when the call passes every other check, the full history
      of accepted tokens holds no live one with its identifier, and fewer than the maximum are live. */
  lemma AnswersLikeHistory(v: Verifier, max: nat, calls: seq<Call>, c: Call)
    requires Monotone(calls) && forall i | 0 <= i < |calls| :: Leq(calls[i].now, c.now)
    ensures var live := LiveIds(Accepted(v, max, calls), c.now);
      Accepts(v, max, calls, c) <==> Consults(v, c) && TokenOf(v, c).jti !in live && |live| < max
  {
    hide Consults, After, Accepted, VerifyStep, Leq, Less;
    var s, tokens := After(v, max, calls), Accepted(v, max, calls);
    RunSound(v, max, calls);
    CallMeans(v, s, c);
    LastConsultedBounded(v, calls, c.now);
    LiveIdsAreKeys(s, max, tokens, LastConsulted(v, calls), c.now);
  }

  lemma ConsultsMeans(v: Verifier, c: Call)
    ensures Consults(v, c) <==>
      Trusted(v, c.gco, c.now) && IdOf(v, c.gco).Some? && IdOf(v, c.gco).value != ""
    ensures Consults(v, c) ==>
      && TokenOf(v, c).jti == IdOf(v, c.gco).value
      && v.trust.body(c.gco.attestation.value.value).exp == At(TokenOf(v, c).exp)
  {
    hide AcceptedClaims, CheckBindings, CanonicalHash, UtcTime.Key, SignedFor;
    AcceptedMeans(v, c.gco, c.now);
    if SignedFor(v, c.gco, c.now) {
      BindingsMean(v, v.trust.body(c.gco.attestation.value.value), c.gco, c.now);
    }
  }

  /** The same in terms of the GCO and its token: a call is accepted exactly when the GCO is trusted, its
      token carries an identifier that no live accepted token has, and fewer than the maximum are live. */
  lemma AcceptsExactly(v: Verifier, max: nat, calls: seq<Call>, c: Call)
    requires Monotone(calls) && forall i | 0 <= i < |calls| :: Leq(calls[i].now, c.now)
    ensures var live := LiveIds(Accepted(v, max, calls), c.now);
      Accepts(v, max, calls, c) <==>
        && Trusted(v, c.gco, c.now)
        && IdOf(v, c.gco).Some? && IdOf(v, c.gco).value != ""
        && IdOf(v, c.gco).value !in live && |live| < max
  {
    hide Accepts, Accepted, Trusted, Monotone, Leq, Consults, LiveIds;
    AnswersLikeHistory(v, max, calls, c);
    ConsultsMeans(v, c);
  }

  lemma LiveIdsAreKeys(s: CacheState, max: nat, tokens: seq<Token>, last: Option<Instant>, now: Instant)
    requires Sound(s, max, tokens, last) && (last.Some? ==> Leq(last.value, now))
    ensures Unexpired(s.entries, now).Keys == LiveIds(tokens, now)
    ensures |Unexpired(s.entries, now)| == |LiveIds(tokens, now)|
  {
    hide UtcTime.Key;
    var live := Unexpired(s.entries, now);
    SoundLive(s, max, tokens, last, now);
    forall jti ensures jti in live.Keys <==> jti in LiveIds(tokens, now) {
    }
    assert |live| == |live.Keys|;
  }
}
