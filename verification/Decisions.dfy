/** When the runtime allows an operation, and with which code it refuses one: for every replay cache, and
    for none. */
module Decisions {
  import opened Wrappers
  import opened Clock
  import opened Models
  import opened Validator
  import opened Derivation
  import opened Gates
  import opened ReplayCache
  import opened AttestationChecks
  import opened ReplayRuns
  import opened StateStore
  import opened Runtime
  import opened RuntimeRuns

  /** A tool call is allowed exactly when the GCO verifies, has not expired, and its first usable grant for
      the tool serves the request. */
  lemma ToolCallMeans(v: Verifier, cache: Option<CacheState>, g: Gco, uri: string, requested: Option<string>,
                      verifyNow: Instant, now: Instant)
    ensures var (d, after) := ToolCallStep(v, cache, g, uri, requested, verifyNow, now);
      var verified := VerifyStep(v, cache, g, verifyNow);
      var served := exists i :: FirstUsable(g.toolAuthority, uri, i) && Serves(g.toolAuthority[i], requested);
      && after == verified.1
      && (d.Allowed? <==> verified.0.Pass? && Less(now, g.expiresAt) && served)
      && (verified.0.Fail? ==> d == Denied(ByAttestation(verified.0.error)))
      && (verified.0.Pass? && !Less(now, g.expiresAt) ==> d == Denied(ByDerivation(Expired)))
      && (verified.0.Pass? && Less(now, g.expiresAt) && !served ==>
            d == Denied(ByDerivation(ToolAuthorityExpanded)))
  {
    hide VerifyStep, Less, SearchTools, FirstUsable, Serves;
    SearchMeans(g.toolAuthority, uri, requested);
  }

  /** Some first permission for the namespace is for the mode or for WRITE. */
  ghost predicate Granted(g: Gco, namespace: string, mode: AccessMode) {
    exists i :: GrantAt(g.stateAccessPermissions, namespace, i)
                && g.stateAccessPermissions[i].accessMode in {mode, Write}
  }

  /** State access is authorised exactly when the GCO verifies, has not expired, and holds the named mode,
      which is none of NONE and unknown names. */
  lemma StateAccessMeans(v: Verifier, cache: Option<CacheState>, g: Gco, namespace: string, mode: string,
                         verifyNow: Instant, now: Instant)
    ensures var (d, after) := AccessStep(v, cache, g, namespace, mode, verifyNow, now);
      var verified := VerifyStep(v, cache, g, verifyNow);
      var granted := exists m :: m != NoAccess && mode == AccessText(m) && Granted(g, namespace, m);
      && after == verified.1
      && (d.Allowed? <==> verified.0.Pass? && Less(now, g.expiresAt) && granted)
      && (verified.0.Fail? ==> d == Denied(ByAttestation(verified.0.error)))
      && (verified.0.Pass? && !Less(now, g.expiresAt) ==> d == Denied(ByDerivation(Expired)))
      && (verified.0.Pass? && Less(now, g.expiresAt) && !granted ==> d == Denied(ByNamespace))
  {
    hide VerifyStep, Less, StateGate, Granted, AccessText, ParseMode;
    StateGateMeans(g.stateAccessPermissions, namespace, ParseMode(mode));
    ModeNamed(mode);
    if ParseMode(mode).Some? {
      var m := ParseMode(mode).value;
      assert Granted(g, namespace, m) <==>
        exists i :: GrantAt(g.stateAccessPermissions, namespace, i)
                    && g.stateAccessPermissions[i].accessMode in {m, Write} by { GrantedMeans(g, namespace, m); }
    }
  }

  lemma GrantedMeans(g: Gco, namespace: string, mode: AccessMode)
    ensures Granted(g, namespace, mode) <==>
      exists i :: GrantAt(g.stateAccessPermissions, namespace, i)
                  && g.stateAccessPermissions[i].accessMode in {mode, Write}
  {
  }

  lemma ModeNamed(mode: string)
    ensures forall m :: ParseMode(mode) == Some(m) <==> mode == AccessText(m)
  {
    hide ParseMode, AccessText;
    forall m ensures ParseMode(mode) == Some(m) <==> mode == AccessText(m) { ParseModeMeans(mode, m); }
  }

  /** The mode a write asks for, by its name. */
  ghost predicate WriteGranted(g: Gco, namespace: string, mode: string, isNew: bool) {
    (mode == "write" && Granted(g, namespace, Write)) || (mode == "append" && Granted(g, namespace, Append) && isNew)
  }

  lemma WriteModes(mode: string)
    ensures CoerceWriteMode(mode) == Some(Write) <==> mode == "write"
    ensures CoerceWriteMode(mode) == Some(Append) <==> mode == "append"
    ensures CoerceWriteMode(mode).Some? ==> CoerceWriteMode(mode).value in {Write, Append}
  {
    hide ParseMode;
    ParseModeMeans(mode, Write);
    ParseModeMeans(mode, Append);
  }

  /** A write is accepted exactly when the GCO verifies, has not expired, and either asks to write under
      WRITE, or asks to append under WRITE or APPEND to a key that is not there yet. An accepted write stores
      the value and a refused one changes nothing but the cache. */
  lemma WriteMeans(v: Verifier, s: RuntimeState, g: Gco, k: StoreKey, value: Bytes, mode: string,
                   verifyNow: Instant, now: Instant)
    ensures var (d, t) := WriteStep(v, s, g, k, value, mode, verifyNow, now);
      var verified := VerifyStep(v, s.cache, g, verifyNow);
      var granted := WriteGranted(g, k.0, mode, k !in s.store.values);
      && t.cache == verified.1
      && (d.Allowed? <==> verified.0.Pass? && Less(now, g.expiresAt) && granted)
      && (d.Allowed? ==> t.store.values == s.store.values[k := value])
      && (d.Denied? ==> t.store == s.store)
      && (verified.0.Fail? ==> d == Denied(ByAttestation(verified.0.error)))
      && (verified.0.Pass? && !Less(now, g.expiresAt) ==> d == Denied(ByDerivation(Expired)))
      && (verified.0.Pass? && Less(now, g.expiresAt) && !granted ==> d == Denied(ByNamespace))
  {
    hide VerifyStep, Less, StateGate, Granted, CoerceWriteMode, FindFirst, HigherTaint;
    WriteModes(mode);
    var requested := CoerceWriteMode(mode);
    if requested.Some? {
      StateGateMeans(g.stateAccessPermissions, k.0, requested);
      GrantedMeans(g, k.0, requested.value);
      GateAgreesWithStore(s.store, k, value, g.stateAccessPermissions);
    }
  }

  /** The reader's label lets it see the stored one. */
  predicate Visible(stored: TaintLabel, mine: TaintLabel) {
    !mine.Unranked? && (stored == Clean || (stored == Sanitized && mine != Clean))
  }

  /** A read gives a value exactly when the GCO verifies, has not expired, may read the namespace, and the key
      holds that value under a label it may see; only a label in the way is reported as such. */
  lemma ReadExactly(v: Verifier, s: RuntimeState, g: Gco, k: StoreKey, verifyNow: Instant, now: Instant)
    ensures var (d, t) := ReadStep(v, s, g, k, verifyNow, now);
      var verified := VerifyStep(v, s.cache, g, verifyNow);
      var granted := Granted(g, k.0, AccessMode.Read);
      var there := k in s.store.values && k in s.store.taints;
      && t == s.(cache := verified.1)
      && (verified.0.Fail? ==> d == Denied(ByAttestation(verified.0.error)))
      && (verified.0.Pass? && !Less(now, g.expiresAt) ==> d == Denied(ByDerivation(Expired)))
      && (verified.0.Pass? && Less(now, g.expiresAt) && !(granted && there) ==> d == Denied(ByNamespace))
      && (verified.0.Pass? && Less(now, g.expiresAt) && granted && there ==>
            forall i | GrantAt(g.stateAccessPermissions, k.0, i) ::
              d == if Visible(s.store.taints[k], g.stateAccessPermissions[i].taintPolicy)
                   then Allowed(s.store.values[k]) else Denied(ByTaint))
  {
    hide VerifyStep, Less, StateGate, Granted, FindFirst, StoreRead;
    StateGateMeans(g.stateAccessPermissions, k.0, Some(AccessMode.Read));
    GrantedMeans(g, k.0, AccessMode.Read);
    StoreReadExactly(s.store, k, g.stateAccessPermissions);
  }

  /** A sub-call is allowed exactly when the parent verifies, then the child, and the child narrows the
      parent. */
  lemma SubcallMeans(v: Verifier, cache: Option<CacheState>, parent: Gco, child: Gco,
                     parentNow: Instant, childNow: Instant, now: Instant)
    ensures var (d, after) := SubcallStep(v, cache, parent, child, parentNow, childNow, now);
      var first := VerifyStep(v, cache, parent, parentNow);
      var second := VerifyStep(v, first.1, child, childNow);
      && after == (if first.0.Pass? then second.1 else first.1)
      && (d.Allowed? <==> first.0.Pass? && second.0.Pass? && Narrows(v.hash, parent, child, now))
      && (first.0.Fail? ==> d == Denied(ByAttestation(first.0.error)))
      && (first.0.Pass? && second.0.Fail? ==> d == Denied(ByAttestation(second.0.error)))
      && (first.0.Pass? && second.0.Pass? && !Narrows(v.hash, parent, child, now) ==>
            d == Denied(ByDerivation(Validate(v.hash, parent, child, now).error)))
  {
    hide VerifyStep, Validate, Narrows;
    ValidateMeans(v.hash, parent, child, now);
  }

  /** A derivation is allowed exactly when there is an authority, the parent verifies, `derive` succeeds, the
      child then verifies, and has not expired by the last reading of the clock. */
  lemma DerivationMeans(v: Verifier, cache: Option<CacheState>, parent: Gco, request: DelegationRequest, m: Minting)
    ensures DeriveStep(v, cache, parent, request, None) == (Denied(ByAttestation(MalformedAttestation)), cache)
    ensures var (d, after) := DeriveStep(v, cache, parent, request, Some(m));
      var first := VerifyStep(v, cache, parent, m.parentNow);
      var derived := Derive(v.hash, parent, request, m.spanId, m.firstNow, m.issued, m.secondNow);
      && (first.0.Fail? ==> d == Denied(ByAttestation(first.0.error)) && after == first.1)
      && (first.0.Pass? && derived.Err? ==> d == Denied(ByDerivation(derived.error)) && after == first.1)
      && (first.0.Pass? && derived.Ok? ==>
            var second := VerifyStep(v, first.1, derived.value, m.childNow);
            && after == second.1
            && d == if second.0.Fail? then Denied(ByAttestation(second.0.error))
                    else if Less(m.now, derived.value.expiresAt) then Allowed(derived.value)
                    else Denied(ByDerivation(Expired)))
  {
    hide VerifyStep, Validate, Derive, Less;
    var derived := Derive(v.hash, parent, request, m.spanId, m.firstNow, m.issued, m.secondNow);
    if derived.Ok? {
      DerivedOnlyExpires(v.hash, parent, request, m, derived.value);
    }
  }

  lemma DerivedOnlyExpires(hash: HashFn, parent: Gco, request: DelegationRequest, m: Minting, child: Gco)
    requires Derive(hash, parent, request, m.spanId, m.firstNow, m.issued, m.secondNow) == Ok(child)
    ensures Validate(hash, parent, child, m.now) == if Less(m.now, child.expiresAt) then Pass else Fail(Expired)
  {
    hide Draft, Validate, CanonicalHash, UtcTime.Key, Min, Unambiguous, Requestable, RequestUnambiguous;
    DeriveSucceedsIff(hash, parent, request, m.spanId, m.firstNow, m.issued, m.secondNow);
    DraftCanOnlyExpire(hash, parent, request, m.spanId, m.issued, m.now);
  }

  // ----- Nothing is allowed to an untrusted GCO -----

  /** Every GCO an allowed operation presents shows a signed token that fits it, with a replay cache or
      without; the first of them is the one whose authority it exercises. */
  lemma PermittedIsTrusted(v: Verifier, s: RuntimeState, op: Op)
    requires Permitted(v, s, op)
    ensures var calls := Calls(v, s.cache, op);
      && calls != [] && calls[0].gco == Subject(op)
      && forall k | 0 <= k < |calls| :: Trusted(v, calls[k].gco, calls[k].now)
  {
    hide VerifyStep, Derive, Validate, StateGate, StoreWrite, StoreRead, SearchTools, Less, Trusted;
    match op
    case SubcallOp(parent, child, parentNow, childNow, _) =>
      PassIsTrusted(v, s.cache, parent, parentNow);
      PassIsTrusted(v, VerifyStep(v, s.cache, parent, parentNow).1, child, childNow);
    case DeriveOp(parent, request, None) =>
    case DeriveOp(parent, request, Some(m)) =>
      PassIsTrusted(v, s.cache, parent, m.parentNow);
      var derived := Derive(v.hash, parent, request, m.spanId, m.firstNow, m.issued, m.secondNow);
      if derived.Ok? {
        PassIsTrusted(v, VerifyStep(v, s.cache, parent, m.parentNow).1, derived.value, m.childNow);
      }
    case _ => PassIsTrusted(v, s.cache, op.gco, op.verifyNow);
  }

  lemma PassIsTrusted(v: Verifier, cache: Option<CacheState>, g: Gco, now: Instant)
    ensures VerifyStep(v, cache, g, now).0.Pass? ==> Trusted(v, g, now)
  {
    hide VerifyStep, Trusted, Unexpired;
    VerifyMeans(v, cache, g, now);
  }

  /** Without a replay cache an operation makes the same verifications, each on its own, and is allowed only
      if all of them pass. */
  lemma OpCallsWithoutCache(v: Verifier, s: RuntimeState, op: Op)
    requires s.cache.None?
    ensures Apply(v, s, op).cache.None?
    ensures var calls := Calls(v, None, op);
      Permitted(v, s, op) ==>
        calls != [] && forall k | 0 <= k < |calls| :: VerifyStep(v, None, calls[k].gco, calls[k].now).0.Pass?
  {
    hide VerifyStep, Derive, Validate, StateGate, StoreWrite, StoreRead, SearchTools, Less;
  }
}
