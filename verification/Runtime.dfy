/** The runtime seam: every decision verifies the attestation first, then the expiry, then the
    authority. Each reading of the clock is an argument. */
module Runtime {
  import opened Wrappers
  import opened Clock
  import opened Models
  import opened Validator
  import opened Derivation
  import opened Gates
  import opened ReplayCache
  import opened AttestationChecks
  import opened StateStore

  datatype DenialCode =
    | ByAttestation(attestation: AttestationError)
    | ByDerivation(derivation: DerivationError)
    | ByNamespace
    | ByTaint

  datatype Decision<+T> = Allowed(value: T) | Denied(code: DenialCode)

  /** What a runtime may change: the verifier's replay cache, if it has one, and the store. */
  datatype RuntimeState = RuntimeState(cache: Option<CacheState>, store: StoreState)

  // ----- Decisions as functions of the state -----

  function ToolCallStep(v: Verifier, cache: Option<CacheState>, g: Gco, uri: string, requested: Option<string>,
                    verifyNow: Instant, now: Instant): (Decision<()>, Option<CacheState>)
  {
    var (outcome, cache') := VerifyStep(v, cache, g, verifyNow);
    (if outcome.Fail? then Denied(ByAttestation(outcome.error))
     else if !Live(g, now) then Denied(ByDerivation(Expired))
     else if SearchTools(g.toolAuthority, uri, requested) then Allowed(())
     else Denied(ByDerivation(ToolAuthorityExpanded)),
     cache')
  }

  /** `authorize_state_access`: the gate alone, for any mode that has a name. */
  function AccessStep(v: Verifier, cache: Option<CacheState>, g: Gco, namespace: string, mode: string,
                      verifyNow: Instant, now: Instant): (Decision<()>, Option<CacheState>)
  {
    var (outcome, cache') := VerifyStep(v, cache, g, verifyNow);
    (if outcome.Fail? then Denied(ByAttestation(outcome.error))
     else if !Live(g, now) then Denied(ByDerivation(Expired))
     else if StateGate(g.stateAccessPermissions, namespace, ParseMode(mode)) then Allowed(())
     else Denied(ByNamespace),
     cache')
  }

  function CoerceWriteMode(mode: string): Option<AccessMode> {
    var requested := ParseMode(mode);
    if requested == Some(Write) || requested == Some(Append) then requested else None
  }

  function WriteStep(v: Verifier, s: RuntimeState, g: Gco, k: StoreKey, value: Bytes, mode: string,
                      verifyNow: Instant, now: Instant): (Decision<()>, RuntimeState)
  {
    var (outcome, cache') := VerifyStep(v, s.cache, g, verifyNow);
    var s' := s.(cache := cache');
    var requested := CoerceWriteMode(mode);
    if outcome.Fail? then (Denied(ByAttestation(outcome.error)), s')
    else if !Live(g, now) then (Denied(ByDerivation(Expired)), s')
    else if requested.None? then (Denied(ByNamespace), s')
    else if !StateGate(g.stateAccessPermissions, k.0, requested) then (Denied(ByNamespace), s')
    else
      match StoreWrite(s.store, k, value, PermissionsForMode(g.stateAccessPermissions, k.0, requested.value))
      case Err(_) => (Denied(ByNamespace), s')
      case Ok(store') => (Allowed(()), s'.(store := store'))
  }

  function ReadStep(v: Verifier, s: RuntimeState, g: Gco, k: StoreKey,
                     verifyNow: Instant, now: Instant): (Decision<Bytes>, RuntimeState)
  {
    var (outcome, cache') := VerifyStep(v, s.cache, g, verifyNow);
    var s' := s.(cache := cache');
    if outcome.Fail? then (Denied(ByAttestation(outcome.error)), s')
    else if !Live(g, now) then (Denied(ByDerivation(Expired)), s')
    else if !StateGate(g.stateAccessPermissions, k.0, Some(AccessMode.Read)) then (Denied(ByNamespace), s')
    else
      match StoreRead(s.store, k, g.stateAccessPermissions)
      case Err(TaintedStateRead) => (Denied(ByTaint), s')
      case Err(_) => (Denied(ByNamespace), s')
      case Ok(value) => (Allowed(value), s')
  }

  function SubcallStep(v: Verifier, cache: Option<CacheState>, parent: Gco, child: Gco,
                            parentNow: Instant, childNow: Instant, now: Instant)
    : (Decision<()>, Option<CacheState>)
  {
    var (first, cache1) := VerifyStep(v, cache, parent, parentNow);
    if first.Fail? then (Denied(ByAttestation(first.error)), cache1)
    else
      var (second, cache2) := VerifyStep(v, cache1, child, childNow);
      if second.Fail? then (Denied(ByAttestation(second.error)), cache2)
      else
        match Validate(v.hash, parent, child, now)
        case Fail(e) => (Denied(ByDerivation(e)), cache2)
        case Pass => (Allowed(()), cache2)
  }

  /** What the outside decides while a child is minted: its fresh identifier, the attestation issued
      for it, and the five clock readings. */
  datatype Minting = Minting(
    spanId: string,
    issued: Attestation,
    parentNow: Instant,
    firstNow: Instant,
    secondNow: Instant,
    childNow: Instant,
    now: Instant)

  /** `derive_for_subcall`; `minting` is absent when no attestation authority is configured. */
  function DeriveStep(v: Verifier, cache: Option<CacheState>, parent: Gco, request: DelegationRequest,
                            minting: Option<Minting>): (Decision<Gco>, Option<CacheState>)
  {
    if minting.None? then (Denied(ByAttestation(MalformedAttestation)), cache)
    else
      var m := minting.value;
      var (first, cache1) := VerifyStep(v, cache, parent, m.parentNow);
      if first.Fail? then (Denied(ByAttestation(first.error)), cache1)
      else
        match Derive(v.hash, parent, request, m.spanId, m.firstNow, m.issued, m.secondNow)
        case Err(e) => (Denied(ByDerivation(e)), cache1)
        case Ok(child) =>
          var (second, cache2) := VerifyStep(v, cache1, child, m.childNow);
          if second.Fail? then (Denied(ByAttestation(second.error)), cache2)
          else
            match Validate(v.hash, parent, child, m.now)
            case Fail(e) => (Denied(ByDerivation(e)), cache2)
            case Pass => (Allowed(child), cache2)
  }

  // ----- The runtime object -----

  class GovernanceRuntime {
    const verifier: AttestationVerifier
    const stateStore: GovernedStateStore

    constructor (verifier: AttestationVerifier, stateStore: GovernedStateStore)
      ensures this.verifier == verifier && this.stateStore == stateStore
    {
      this.verifier := verifier;
      this.stateStore := stateStore;
    }

    ghost function State(): RuntimeState
      reads verifier.replayCache, stateStore
    {
      RuntimeState(verifier.Cache(), stateStore.State())
    }

    method AuthorizeToolCall(g: Gco, uri: string, requested: Option<string>, verifyNow: Instant, now: Instant)
      returns (d: Decision<()>)
      modifies verifier.replayCache
      ensures (d, verifier.Cache()) ==
        ToolCallStep(verifier.config, old(verifier.Cache()), g, uri, requested, verifyNow, now)
      ensures stateStore.State() == old(stateStore.State())
    {
      hide VerifyStep, Less;
      var verified := verifier.Verify(g, verifyNow);
      if verified.Fail? { return Denied(ByAttestation(verified.error)); }
      if !Live(g, now) { return Denied(ByDerivation(Expired)); }
      if SearchTools(g.toolAuthority, uri, requested) { return Allowed(()); }
      return Denied(ByDerivation(ToolAuthorityExpanded));
    }

    method AuthorizeStateAccess(g: Gco, namespace: string, mode: string, verifyNow: Instant, now: Instant)
      returns (d: Decision<()>)
      modifies verifier.replayCache
      ensures (d, verifier.Cache()) ==
        AccessStep(verifier.config, old(verifier.Cache()), g, namespace, mode, verifyNow, now)
      ensures stateStore.State() == old(stateStore.State())
    {
      hide VerifyStep, Less, StateGate, ParseMode;
      var verified := verifier.Verify(g, verifyNow);
      if verified.Fail? { return Denied(ByAttestation(verified.error)); }
      if !Live(g, now) { return Denied(ByDerivation(Expired)); }
      if !StateGate(g.stateAccessPermissions, namespace, ParseMode(mode)) { return Denied(ByNamespace); }
      return Allowed(());
    }

    method WriteState(g: Gco, namespace: string, key: string, value: Bytes, mode: string,
                      verifyNow: Instant, now: Instant) returns (d: Decision<()>)
      modifies verifier.replayCache, stateStore
      ensures (d, State()) ==
        WriteStep(verifier.config, old(State()), g, (namespace, key), value, mode, verifyNow, now)
    {
      hide VerifyStep, StateGate, StoreWrite, PermissionsForMode, Less, CoerceWriteMode;
      var verified := verifier.Verify(g, verifyNow);
      if verified.Fail? { return Denied(ByAttestation(verified.error)); }
      if !Live(g, now) { return Denied(ByDerivation(Expired)); }
      var requested := CoerceWriteMode(mode);
      if requested.None? { return Denied(ByNamespace); }
      if !StateGate(g.stateAccessPermissions, namespace, requested) { return Denied(ByNamespace); }
      var permissions := PermissionsForMode(g.stateAccessPermissions, namespace, requested.value);
      var written := stateStore.Write(namespace, key, value, permissions);
      if written.Fail? { return Denied(ByNamespace); }
      return Allowed(());
    }

    method ReadState(g: Gco, namespace: string, key: string, verifyNow: Instant, now: Instant)
      returns (d: Decision<Bytes>)
      modifies verifier.replayCache
      ensures stateStore.State() == old(stateStore.State())
      ensures (d, State()) ==
        ReadStep(verifier.config, old(State()), g, (namespace, key), verifyNow, now)
    {
      hide VerifyStep, StateGate, StoreRead, Less;
      var verified := verifier.Verify(g, verifyNow);
      if verified.Fail? { return Denied(ByAttestation(verified.error)); }
      if !Live(g, now) { return Denied(ByDerivation(Expired)); }
      if !StateGate(g.stateAccessPermissions, namespace, Some(AccessMode.Read)) { return Denied(ByNamespace); }
      var read := stateStore.Read(namespace, key, g.stateAccessPermissions);
      match read
      case Err(TaintedStateRead) => return Denied(ByTaint);
      case Err(_) => return Denied(ByNamespace);
      case Ok(value) => return Allowed(value);
    }

    method AuthorizeSubcall(parent: Gco, child: Gco, parentNow: Instant, childNow: Instant, now: Instant)
      returns (d: Decision<()>)
      modifies verifier.replayCache
      ensures (d, verifier.Cache()) ==
        SubcallStep(verifier.config, old(verifier.Cache()), parent, child, parentNow, childNow, now)
    {
      hide VerifyStep, Validate;
      var first := verifier.Verify(parent, parentNow);
      if first.Fail? { return Denied(ByAttestation(first.error)); }
      var second := verifier.Verify(child, childNow);
      if second.Fail? { return Denied(ByAttestation(second.error)); }
      var valid := Validate(verifier.config.hash, parent, child, now);
      if valid.Fail? { return Denied(ByDerivation(valid.error)); }
      return Allowed(());
    }

    method DeriveForSubcall(parent: Gco, request: DelegationRequest, minting: Option<Minting>)
      returns (d: Decision<Gco>)
      modifies verifier.replayCache
      ensures (d, verifier.Cache()) ==
        DeriveStep(verifier.config, old(verifier.Cache()), parent, request, minting)
    {
      hide VerifyStep, Validate, Derive;
      if minting.None? { return Denied(ByAttestation(MalformedAttestation)); }
      var m := minting.value;
      var first := verifier.Verify(parent, m.parentNow);
      if first.Fail? { return Denied(ByAttestation(first.error)); }
      var derived := DeriveChild(verifier.config.hash, parent, request, m.spanId, m.firstNow, m.issued, m.secondNow);
      if derived.Err? { return Denied(ByDerivation(derived.error)); }
      var child := derived.value;
      var second := verifier.Verify(child, m.childNow);
      if second.Fail? { return Denied(ByAttestation(second.error)); }
      var valid := Validate(verifier.config.hash, parent, child, m.now);
      if valid.Fail? { return Denied(ByDerivation(valid.error)); }
      return Allowed(child);
    }
  }
}
