/** Minting a child GCO from a delegation request. */
module Derivation {
  import opened Wrappers
  import opened Text
  import opened Clock
  import opened Models
  import opened Validator
  import opened Gates

  datatype DelegationRequest = DelegationRequest(
    toolAuthority: seq<ToolAuthority>,
    stateAccessPermissions: seq<StatePermission>,
    requestedExpiry: Instant)

  type Derived<T> = Result<T, DerivationError>

  // ----- Tools -----

  /** The requested scope, at the requested depth capped to what the parent has left. */
  function DeriveTool(parentTools: seq<ToolAuthority>, requested: ToolAuthority): Derived<ToolAuthority> {
    match FindLast(parentTools, UriOf, requested.toolUri)
    case None => Err(ToolAuthorityExpanded)
    case Some(held) =>
      if held.maxDepth == 0 then Err(MaxDepthIncreased)
      else if !ScopeIsSubset(requested.scope, held.scope) then Err(ToolAuthorityExpanded)
      else Ok(ToolAuthority(held.toolUri, requested.scope, MinNat(requested.maxDepth, held.maxDepth - 1)))
  }

  function MinNat(a: nat, b: nat): nat { if a <= b then a else b }

  function DeriveTools(parentTools: seq<ToolAuthority>, requested: seq<ToolAuthority>)
    : Derived<seq<ToolAuthority>>
  {
    if requested == [] then Ok([])
    else
      var front :- DeriveTools(parentTools, requested[..|requested| - 1]);
      var last :- DeriveTool(parentTools, requested[|requested| - 1]);
      Ok(front + [last])
  }

  method BuildTools(parentTools: seq<ToolAuthority>, requested: seq<ToolAuthority>)
    returns (r: Derived<seq<ToolAuthority>>)
    ensures r == DeriveTools(parentTools, requested)
  {
    hide DeriveTool;
    var childTools := [];
    for i := 0 to |requested|
      invariant DeriveTools(parentTools, requested[..i]) == Ok(childTools)
    {
      assert requested[..i + 1][..i] == requested[..i];
      var tool := DeriveTool(parentTools, requested[i]);
      if tool.Err? {
        DeriveToolsFailure(parentTools, requested, i + 1, tool.error);
        return Err(tool.error);
      }
      childTools := childTools + [tool.value];
    }
    assert requested[..|requested|] == requested;
    return Ok(childTools);
  }

  /** A failure on a prefix is the failure of the whole. */
  lemma {:induction false} DeriveToolsFailure(parentTools: seq<ToolAuthority>, requested: seq<ToolAuthority>,
                                              k: nat, e: DerivationError)
    requires k <= |requested| && DeriveTools(parentTools, requested[..k]) == Err(e)
    ensures DeriveTools(parentTools, requested) == Err(e)
    decreases |requested|
  {
    var n := |requested|;
    if k < n {
      assert requested[..n - 1][..k] == requested[..k];
      DeriveToolsFailure(parentTools, requested[..n - 1], k, e);
    } else {
      assert requested[..k] == requested;
    }
  }

  // ----- State permissions -----

  /** The requested permission itself, when the parent covers it. */
  function DerivePermission(parentPermissions: seq<StatePermission>, requested: StatePermission)
    : Derived<StatePermission>
  {
    match FindLast(parentPermissions, NamespaceOf, requested.namespace)
    case None => Err(StatePermissionExpanded)
    case Some(held) =>
      if !AccessAllows(held.accessMode, requested.accessMode) then Err(StatePermissionExpanded)
      else if !RankAtLeast(requested.taintPolicy, held.taintPolicy) then Err(TaintDowngraded)
      else Ok(requested)
  }

  function DerivePermissions(parentPermissions: seq<StatePermission>, requested: seq<StatePermission>)
    : Derived<seq<StatePermission>>
  {
    if requested == [] then Ok([])
    else
      var front :- DerivePermissions(parentPermissions, requested[..|requested| - 1]);
      var last :- DerivePermission(parentPermissions, requested[|requested| - 1]);
      Ok(front + [last])
  }

  method BuildPermissions(parentPermissions: seq<StatePermission>, requested: seq<StatePermission>)
    returns (r: Derived<seq<StatePermission>>)
    ensures r == DerivePermissions(parentPermissions, requested)
  {
    hide DerivePermission;
    var childPermissions := [];
    for i := 0 to |requested|
      invariant DerivePermissions(parentPermissions, requested[..i]) == Ok(childPermissions)
    {
      assert requested[..i + 1][..i] == requested[..i];
      var permission := DerivePermission(parentPermissions, requested[i]);
      if permission.Err? {
        DerivePermissionsFailure(parentPermissions, requested, i + 1, permission.error);
        return Err(permission.error);
      }
      childPermissions := childPermissions + [permission.value];
    }
    assert requested[..|requested|] == requested;
    return Ok(childPermissions);
  }

  lemma {:induction false} DerivePermissionsFailure(parentPermissions: seq<StatePermission>,
                                                    requested: seq<StatePermission>,
                                                    k: nat, e: DerivationError)
    requires k <= |requested| && DerivePermissions(parentPermissions, requested[..k]) == Err(e)
    ensures DerivePermissions(parentPermissions, requested) == Err(e)
    decreases |requested|
  {
    var n := |requested|;
    if k < n {
      assert requested[..n - 1][..k] == requested[..k];
      DerivePermissionsFailure(parentPermissions, requested[..n - 1], k, e);
    } else {
      assert requested[..k] == requested;
    }
  }

  // ----- The child -----

  function CheckRequest(parent: Gco, request: DelegationRequest): Outcome<DerivationError> {
    Check(|parent.lineage| + 1 <= LINEAGE_LIMIT, LineageFlooded)
      .Then(CheckNamespaces(parent.stateAccessPermissions))
      .Then(CheckNamespaces(request.stateAccessPermissions))
      .Then(CheckUris(parent.toolAuthority))
      .Then(CheckUris(request.toolAuthority))
  }

  function ChildOf(hash: HashFn, parent: Gco, spanId: string, tools: seq<ToolAuthority>,
                   permissions: seq<StatePermission>, expiry: Instant): Gco
  {
    Gco(parent.gcoVersion, parent.traceId, spanId, Some(parent.spanId), parent.policyId,
        parent.modelIdentity, parent.interventionVersion, tools, permissions, expiry,
        parent.lineage + [CanonicalHash(hash, parent)], None)
  }

  /** The child before attestation: the request's own checks, then the capped grants. `spanId` is
      the fresh identifier drawn for it. */
  function Draft(hash: HashFn, parent: Gco, request: DelegationRequest, spanId: string): Derived<Gco> {
    Guarded(CheckRequest(parent, request), DraftGrants(hash, parent, request, spanId))
  }

  function DraftGrants(hash: HashFn, parent: Gco, request: DelegationRequest, spanId: string): Derived<Gco> {
    var tools :- DeriveTools(parent.toolAuthority, request.toolAuthority);
    var permissions :- DerivePermissions(parent.stateAccessPermissions, request.stateAccessPermissions);
    Ok(ChildOf(hash, parent, spanId, tools, permissions, Min(request.requestedExpiry, parent.expiresAt)))
  }

  const PLACEHOLDER := Attestation(JwtSvid, "validation-placeholder", None)

  /** `derive`: draft, validate with a placeholder, have the authority issue an attestation,
      validate again. The clock is read once per validation. */
  function Derive(hash: HashFn, parent: Gco, request: DelegationRequest, spanId: string,
                  firstNow: Instant, issued: Attestation, secondNow: Instant): Derived<Gco>
  {
    var draft :- Draft(hash, parent, request, spanId);
    var child := draft.(attestation := Some(issued));
    Guarded(Validate(hash, parent, draft.(attestation := Some(PLACEHOLDER)), firstNow),
            Guarded(Validate(hash, parent, child, secondNow), Ok(child)))
  }

  method DeriveChild(hash: HashFn, parent: Gco, request: DelegationRequest, spanId: string,
                     firstNow: Instant, issued: Attestation, secondNow: Instant) returns (r: Derived<Gco>)
    ensures r == Derive(hash, parent, request, spanId, firstNow, issued, secondNow)
  {
    hide DeriveTools, DerivePermissions, Validate, ChildOf, CheckRequest;
    var check := CheckRequest(parent, request);
    if check.Fail? { return Err(check.error); }
    var tools := BuildTools(parent.toolAuthority, request.toolAuthority);
    if tools.Err? { return Err(tools.error); }
    var permissions := BuildPermissions(parent.stateAccessPermissions, request.stateAccessPermissions);
    if permissions.Err? { return Err(permissions.error); }
    var draft := ChildOf(hash, parent, spanId, tools.value, permissions.value,
                         Min(request.requestedExpiry, parent.expiresAt));
    var first := Validate(hash, parent, draft.(attestation := Some(PLACEHOLDER)), firstNow);
    if first.Fail? { return Err(first.error); }
    var child := draft.(attestation := Some(issued));
    var second := Validate(hash, parent, child, secondNow);
    if second.Fail? { return Err(second.error); }
    return Ok(child);
  }

  // ----- When deriving succeeds -----

  /** The parent holds the tool with depth to pass on, and covers the scope. */
  ghost predicate ToolRequestable(parent: Gco, t: ToolAuthority) {
    exists h :: h in parent.toolAuthority && h.toolUri == t.toolUri
      && h.maxDepth >= 1 && ScopeIsSubset(t.scope, h.scope)
  }

  ghost predicate Requestable(parent: Gco, request: DelegationRequest) {
    && (forall t | t in request.toolAuthority :: ToolRequestable(parent, t))
    && (forall p | p in request.stateAccessPermissions :: PermissionWithin(parent, p))
  }

  predicate RequestUnambiguous(request: DelegationRequest) {
    Distinct(request.stateAccessPermissions, NamespaceOf) && Distinct(request.toolAuthority, UriOf)
  }

  /** How a derived tool relates to the request it answers and the grant it comes from. */
  ghost predicate Capped(parent: Gco, requested: ToolAuthority, t: ToolAuthority) {
    && t.toolUri == requested.toolUri && t.scope == requested.scope
    && ToolWithin(parent, t)
    && forall h | h in parent.toolAuthority && h.toolUri == t.toolUri ::
         t.maxDepth == MinNat(requested.maxDepth, if h.maxDepth == 0 then 0 else h.maxDepth - 1)
  }

  ghost predicate AllCapped(parent: Gco, requested: seq<ToolAuthority>, tools: seq<ToolAuthority>) {
    |tools| == |requested| && forall i | 0 <= i < |requested| :: Capped(parent, requested[i], tools[i])
  }

  lemma DeriveToolMeans(parent: Gco, requested: ToolAuthority)
    requires Unambiguous(parent)
    ensures var r := DeriveTool(parent.toolAuthority, requested);
      && (r.Ok? <==> ToolRequestable(parent, requested))
      && (r.Ok? ==> Capped(parent, requested, r.value))
  {
    hide ScopeTokens;
    var r := DeriveTool(parent.toolAuthority, requested);
    var found := FindLast(parent.toolAuthority, UriOf, requested.toolUri);
    if found.Some? {
      forall h | h in parent.toolAuthority && h.toolUri == requested.toolUri ensures h == found.value {
        FindDistinct(parent.toolAuthority, UriOf, h);
      }
    }
    if r.Ok? {
      assert found.value in parent.toolAuthority;
      assert ToolWithin(parent, r.value);
    }
  }

  lemma {:induction false} DeriveToolsMeans(parent: Gco, requested: seq<ToolAuthority>)
    requires Unambiguous(parent)
    ensures var r := DeriveTools(parent.toolAuthority, requested);
      && (r.Ok? <==> forall t | t in requested :: ToolRequestable(parent, t))
      && (r.Ok? ==> AllCapped(parent, requested, r.value))
    decreases |requested|
  {
    hide DeriveTool, ToolRequestable, Capped;
    if requested != [] {
      var n := |requested| - 1;
      DeriveToolsMeans(parent, requested[..n]);
      DeriveToolMeans(parent, requested[n]);
      assert forall t :: t in requested <==> t == requested[n] || t in requested[..n];
    }
  }

  lemma DerivePermissionMeans(parent: Gco, requested: StatePermission)
    requires Unambiguous(parent)
    ensures var r := DerivePermission(parent.stateAccessPermissions, requested);
      && (r.Ok? <==> PermissionWithin(parent, requested))
      && (r.Ok? ==> r.value == requested)
  {
    var found := FindLast(parent.stateAccessPermissions, NamespaceOf, requested.namespace);
    if found.Some? {
      forall h | h in parent.stateAccessPermissions && h.namespace == requested.namespace
        ensures h == found.value
      {
        FindDistinct(parent.stateAccessPermissions, NamespaceOf, h);
      }
    }
  }

  lemma {:induction false} DerivePermissionsMeans(parent: Gco, requested: seq<StatePermission>)
    requires Unambiguous(parent)
    ensures var r := DerivePermissions(parent.stateAccessPermissions, requested);
      && (r.Ok? <==> forall p | p in requested :: PermissionWithin(parent, p))
      && (r.Ok? ==> r.value == requested)
    decreases |requested|
  {
    hide DerivePermission, PermissionWithin;
    if requested != [] {
      var n := |requested| - 1;
      DerivePermissionsMeans(parent, requested[..n]);
      DerivePermissionMeans(parent, requested[n]);
      assert forall p :: p in requested <==> p == requested[n] || p in requested[..n];
      assert requested[..n] + [requested[n]] == requested;
    }
  }

  lemma CheckRequestMeans(parent: Gco, request: DelegationRequest)
    ensures CheckRequest(parent, request).Pass? <==>
      |parent.lineage| < 128 && Unambiguous(parent) && RequestUnambiguous(request)
  {
    UnambiguousMeans(parent);
    DuplicatesIff(request.stateAccessPermissions, NamespaceOf);
    DuplicatesIff(request.toolAuthority, UriOf);
  }

  /** What a draft holds: the request's permissions, its tools capped, the earlier expiry. */
  ghost predicate DraftHolds(hash: HashFn, parent: Gco, request: DelegationRequest, spanId: string, draft: Gco) {
    && AllCapped(parent, request.toolAuthority, draft.toolAuthority)
    && (forall p | p in request.stateAccessPermissions :: PermissionWithin(parent, p))
    && draft == ChildOf(hash, parent, spanId, draft.toolAuthority, request.stateAccessPermissions,
                        Min(request.requestedExpiry, parent.expiresAt))
  }

  lemma DraftMeans(hash: HashFn, parent: Gco, request: DelegationRequest, spanId: string)
    ensures Draft(hash, parent, request, spanId).Ok? <==>
      |parent.lineage| < 128 && Unambiguous(parent) && RequestUnambiguous(request)
      && Requestable(parent, request)
    ensures Draft(hash, parent, request, spanId).Ok? ==>
      DraftHolds(hash, parent, request, spanId, Draft(hash, parent, request, spanId).value)
  {
    hide CheckRequest, DeriveTools, DerivePermissions, Unambiguous, CanonicalHash, Min,
         ToolRequestable, PermissionWithin, Capped;
    CheckRequestMeans(parent, request);
    if Unambiguous(parent) {
      DeriveToolsMeans(parent, request.toolAuthority);
      DerivePermissionsMeans(parent, request.stateAccessPermissions);
    }
  }

  lemma DraftUnambiguous(hash: HashFn, parent: Gco, request: DelegationRequest, spanId: string, draft: Gco)
    requires RequestUnambiguous(request) && DraftHolds(hash, parent, request, spanId, draft)
    ensures Unambiguous(draft)
  {
    hide CanonicalHash, ToolWithin, PermissionWithin, Min;
    forall i, j | 0 <= i < j < |draft.toolAuthority|
      ensures UriOf(draft.toolAuthority[i]) != UriOf(draft.toolAuthority[j])
    {
      assert Capped(parent, request.toolAuthority[i], draft.toolAuthority[i]);
      assert Capped(parent, request.toolAuthority[j], draft.toolAuthority[j]);
      assert UriOf(request.toolAuthority[i]) != UriOf(request.toolAuthority[j]);
    }
  }

  /** Generator and checker agree: once the request's own checks pass, validating the draft under
      any non-empty attestation can fail in one way only, by the clock having reached its expiry. */
  lemma DraftCanOnlyExpire(hash: HashFn, parent: Gco, request: DelegationRequest, spanId: string,
                           att: Attestation, now: Instant)
    requires Draft(hash, parent, request, spanId).Ok? && att.value != ""
    ensures var child := Draft(hash, parent, request, spanId).value.(attestation := Some(att));
      Validate(hash, parent, child, now) == if Leq(child.expiresAt, now) then Fail(Expired) else Pass
  {
    hide Draft, Requestable, CanonicalHash, CheckTools, CheckPermissions, CheckLineage, CheckUnambiguous, Major;
    var draft := Draft(hash, parent, request, spanId).value;
    var child := draft.(attestation := Some(att));
    DraftMeans(hash, parent, request, spanId);
    DraftUnambiguous(hash, parent, request, spanId, draft);
    assert Unambiguous(child);
    BothUnambiguousMeans(parent, child);
    LineageCheckMeans(hash, parent, child);
    ToolsCheckMeans(parent, child.toolAuthority);
    PermissionsCheckMeans(parent, child.stateAccessPermissions);
    assert CheckIdentity(parent, child).Pass?;
    assert AllToolsWithin(parent, child.toolAuthority) by { DraftToolsWithin(hash, parent, request, spanId, draft); }
  }

  lemma DraftToolsWithin(hash: HashFn, parent: Gco, request: DelegationRequest, spanId: string, draft: Gco)
    requires DraftHolds(hash, parent, request, spanId, draft)
    ensures AllToolsWithin(parent, draft.toolAuthority)
  {
    hide CanonicalHash, ToolWithin, Min;
    forall t | t in draft.toolAuthority ensures ToolWithin(parent, t) {
      var i :| 0 <= i < |draft.toolAuthority| && draft.toolAuthority[i] == t;
      assert Capped(parent, request.toolAuthority[i], t);
    }
  }

  /** `derive` succeeds exactly when the lineage has room, nothing is listed twice, the parent covers
      every request item, the clamped expiry is still ahead at both clock readings, and the authority
      issued a non-empty attestation. */
  lemma DeriveSucceedsIff(hash: HashFn, parent: Gco, request: DelegationRequest, spanId: string,
                          firstNow: Instant, issued: Attestation, secondNow: Instant)
    ensures Derive(hash, parent, request, spanId, firstNow, issued, secondNow).Ok? <==>
      && |parent.lineage| < 128
      && Unambiguous(parent) && RequestUnambiguous(request)
      && Requestable(parent, request)
      && Less(firstNow, Min(request.requestedExpiry, parent.expiresAt))
      && Less(secondNow, Min(request.requestedExpiry, parent.expiresAt))
      && issued.value != ""
  {
    hide Draft, Requestable, CanonicalHash, Validate, Unambiguous, RequestUnambiguous, Narrows;
    DraftMeans(hash, parent, request, spanId);
    var r := Draft(hash, parent, request, spanId);
    if r.Ok? {
      DraftCanOnlyExpire(hash, parent, request, spanId, PLACEHOLDER, firstNow);
      if issued.value != "" {
        DraftCanOnlyExpire(hash, parent, request, spanId, issued, secondNow);
      } else {
        UnattestedFails(hash, parent, r.value.(attestation := Some(issued)), secondNow);
      }
    }
  }

  lemma UnattestedFails(hash: HashFn, parent: Gco, child: Gco, now: Instant)
    requires !Attested(child)
    ensures Validate(hash, parent, child, now).Fail?
  {
    ValidateMeans(hash, parent, child, now);
  }

  /** A derived child is a narrowing of its parent at the second reading of the clock. */
  lemma DerivedNarrows(hash: HashFn, parent: Gco, request: DelegationRequest, spanId: string,
                       firstNow: Instant, issued: Attestation, secondNow: Instant)
    requires Derive(hash, parent, request, spanId, firstNow, issued, secondNow).Ok?
    ensures Narrows(hash, parent, Derive(hash, parent, request, spanId, firstNow, issued, secondNow).value, secondNow)
  {
    hide Draft, Validate, Narrows;
    var child := Derive(hash, parent, request, spanId, firstNow, issued, secondNow).value;
    ValidateMeans(hash, parent, child, secondNow);
  }

  /** Everything about a derived child: its own span and the issued attestation, the parent's version and
      identity, the parent as its origin, the request's permissions, the request's tools at the capped
      depth, and the earlier expiry. */
  lemma DerivedFields(hash: HashFn, parent: Gco, request: DelegationRequest, spanId: string,
                      firstNow: Instant, issued: Attestation, secondNow: Instant, child: Gco)
    requires Derive(hash, parent, request, spanId, firstNow, issued, secondNow) == Ok(child)
    ensures child.attestation == Some(issued) && child.spanId == spanId
    ensures child.gcoVersion == parent.gcoVersion && child.traceId == parent.traceId
    ensures child.policyId == parent.policyId && child.modelIdentity == parent.modelIdentity
    ensures child.interventionVersion == parent.interventionVersion
    ensures child.parentSpanId == Some(parent.spanId)
    ensures child.lineage == parent.lineage + [CanonicalHash(hash, parent)]
    ensures child.stateAccessPermissions == request.stateAccessPermissions
    ensures |child.toolAuthority| == |request.toolAuthority|
    ensures forall i | 0 <= i < |child.toolAuthority| ::
      CappedFrom(parent, request.toolAuthority[i], child.toolAuthority[i])
    ensures child.expiresAt in {request.requestedExpiry, parent.expiresAt}
    ensures Leq(child.expiresAt, request.requestedExpiry) && Leq(child.expiresAt, parent.expiresAt)
  {
    hide CanonicalHash, Validate, Unambiguous, RequestUnambiguous, Requestable, Min, ToolWithin, UtcTime.Key, Draft;
    DraftMeans(hash, parent, request, spanId);
    MinIsEarlier(request.requestedExpiry, parent.expiresAt);
    forall i | 0 <= i < |child.toolAuthority|
      ensures CappedFrom(parent, request.toolAuthority[i], child.toolAuthority[i])
    {
      assert Capped(parent, request.toolAuthority[i], child.toolAuthority[i]);
      CappedMeans(parent, request.toolAuthority[i], child.toolAuthority[i]);
    }
  }

  /** The requested tool and scope, one level below what the parent holds, or as deep as requested. */
  ghost predicate CappedFrom(parent: Gco, requested: ToolAuthority, t: ToolAuthority) {
    && t.toolUri == requested.toolUri && t.scope == requested.scope
    && exists h :: h in parent.toolAuthority && h.toolUri == t.toolUri
         && t.maxDepth <= requested.maxDepth && t.maxDepth + 1 <= h.maxDepth
         && (t.maxDepth == requested.maxDepth || t.maxDepth + 1 == h.maxDepth)
  }

  lemma CappedMeans(parent: Gco, requested: ToolAuthority, t: ToolAuthority)
    requires Capped(parent, requested, t)
    ensures CappedFrom(parent, requested, t)
  {
    hide ScopeTokens;
    var h :| h in parent.toolAuthority && h.toolUri == t.toolUri
      && t.maxDepth + 1 <= h.maxDepth && ScopeIsSubset(t.scope, h.scope);
  }

  // ----- Which fault is reported -----

  ghost predicate FirstUnrequestable(parent: Gco, tools: seq<ToolAuthority>, i: int) {
    && 0 <= i < |tools| && !ToolRequestable(parent, tools[i])
    && forall j | 0 <= j < i :: ToolRequestable(parent, tools[j])
  }

  /** No depth left to pass on, or else no grant or too wide a scope. */
  ghost function RequestError(parent: Gco, t: ToolAuthority): DerivationError {
    if exists h :: h in parent.toolAuthority && h.toolUri == t.toolUri && h.maxDepth == 0
    then MaxDepthIncreased
    else ToolAuthorityExpanded
  }

  lemma RequestErrorMeans(parent: Gco, t: ToolAuthority)
    requires Unambiguous(parent) && !ToolRequestable(parent, t)
    ensures DeriveTool(parent.toolAuthority, t) == Err(RequestError(parent, t))
  {
    hide ScopeTokens;
    DeriveToolMeans(parent, t);
    forall h | h in parent.toolAuthority && h.toolUri == t.toolUri
      ensures FindLast(parent.toolAuthority, UriOf, t.toolUri) == Some(h)
    {
      FindDistinct(parent.toolAuthority, UriOf, h);
    }
  }

  lemma {:induction false} DeriveToolsFirstFault(parent: Gco, tools: seq<ToolAuthority>) returns (i: nat)
    requires Unambiguous(parent) && exists t :: t in tools && !ToolRequestable(parent, t)
    ensures FirstUnrequestable(parent, tools, i)
    ensures DeriveTools(parent.toolAuthority, tools) == Err(RequestError(parent, tools[i]))
    decreases |tools|
  {
    hide DeriveTool, ToolRequestable, RequestError, Capped, Unambiguous;
    var n := |tools| - 1;
    assert forall t :: t in tools <==> t == tools[n] || t in tools[..n];
    DeriveToolsMeans(parent, tools[..n]);
    if t :| t in tools[..n] && !ToolRequestable(parent, t) {
      i := DeriveToolsFirstFault(parent, tools[..n]);
    } else {
      i := n;
      assert forall j | 0 <= j < n :: tools[j] in tools[..n];
      RequestErrorMeans(parent, tools[n]);
    }
  }

  lemma DerivePermissionErrorMeans(parent: Gco, p: StatePermission)
    requires Unambiguous(parent) && !PermissionWithin(parent, p)
    ensures DerivePermission(parent.stateAccessPermissions, p) == Err(PermissionError(parent, p))
  {
    DerivePermissionMeans(parent, p);
    forall h | h in parent.stateAccessPermissions && h.namespace == p.namespace
      ensures FindLast(parent.stateAccessPermissions, NamespaceOf, p.namespace) == Some(h)
    {
      FindDistinct(parent.stateAccessPermissions, NamespaceOf, h);
    }
  }

  lemma {:induction false} DerivePermissionsFirstFault(parent: Gco, permissions: seq<StatePermission>)
    returns (i: nat)
    requires Unambiguous(parent) && exists p :: p in permissions && !PermissionWithin(parent, p)
    ensures FirstPermissionOutside(parent, permissions, i)
    ensures DerivePermissions(parent.stateAccessPermissions, permissions)
         == Err(PermissionError(parent, permissions[i]))
    decreases |permissions|
  {
    hide DerivePermission, PermissionWithin, PermissionError;
    var n := |permissions| - 1;
    assert forall p :: p in permissions <==> p == permissions[n] || p in permissions[..n];
    DerivePermissionsMeans(parent, permissions[..n]);
    if p :| p in permissions[..n] && !PermissionWithin(parent, p) {
      i := DerivePermissionsFirstFault(parent, permissions[..n]);
    } else {
      i := n;
      assert forall j | 0 <= j < n :: permissions[j] in permissions[..n];
      DerivePermissionErrorMeans(parent, permissions[n]);
    }
  }

  /** What must hold before any grant is derived, in the order it is asked. */
  function BeforeDeriving(parent: Gco, request: DelegationRequest): seq<(bool, DerivationError)> {
    [(|parent.lineage| < 128, LineageFlooded),
     (Distinct(parent.stateAccessPermissions, NamespaceOf), StatePermissionExpanded),
     (Distinct(request.stateAccessPermissions, NamespaceOf), StatePermissionExpanded),
     (Distinct(parent.toolAuthority, UriOf), ToolAuthorityExpanded),
     (Distinct(request.toolAuthority, UriOf), ToolAuthorityExpanded)]
  }

  lemma BeforeDerivingMeans(parent: Gco, request: DelegationRequest)
    ensures First(BeforeDeriving(parent, request)) == CheckRequest(parent, request)
    ensures First(BeforeDeriving(parent, request)).Pass? ==> Unambiguous(parent)
  {
    hide Distinct, HasDuplicates;
    DuplicatesIff(parent.stateAccessPermissions, NamespaceOf);
    DuplicatesIff(request.stateAccessPermissions, NamespaceOf);
    DuplicatesIff(parent.toolAuthority, UriOf);
    DuplicatesIff(request.toolAuthority, UriOf);
    var c := BeforeDeriving(parent, request);
    FirstFour(c[1..]);
  }

  /** Which fault `derive` reports when there are several: its own checks in order, the first tool and then
      the first permission it cannot grant, an expiry reached at either reading of the clock, an empty
      attestation. */
  lemma DeriveOrder(hash: HashFn, parent: Gco, request: DelegationRequest, spanId: string,
                    firstNow: Instant, issued: Attestation, secondNow: Instant)
    ensures var r := Derive(hash, parent, request, spanId, firstNow, issued, secondNow);
      var before := First(BeforeDeriving(parent, request));
      var expiry := Min(request.requestedExpiry, parent.expiresAt);
      var toolsOk := forall t | t in request.toolAuthority :: ToolRequestable(parent, t);
      var permissionsOk := forall p | p in request.stateAccessPermissions :: PermissionWithin(parent, p);
      && (before.Fail? ==> r == Err(before.error))
      && (before.Pass? && !toolsOk ==>
            exists i :: FirstUnrequestable(parent, request.toolAuthority, i)
                        && r == Err(RequestError(parent, request.toolAuthority[i])))
      && (before.Pass? && toolsOk && !permissionsOk ==>
            exists i :: FirstPermissionOutside(parent, request.stateAccessPermissions, i)
                        && r == Err(PermissionError(parent, request.stateAccessPermissions[i])))
      && (before.Pass? && toolsOk && permissionsOk ==>
            if Leq(expiry, firstNow) || Leq(expiry, secondNow) then r == Err(Expired)
            else if issued.value == "" then r == Err(AttestationMissing)
            else r.Ok?)
  {
    hide BeforeDeriving, First, CheckRequest, Derive, DeriveTools, DerivePermissions, ToolRequestable, PermissionWithin,
         RequestError, PermissionError, UtcTime.Key, Unambiguous, FirstUnrequestable, FirstPermissionOutside, Min;
    BeforeDerivingMeans(parent, request);
    DraftMeans(hash, parent, request, spanId);
    DraftErrors(hash, parent, request, spanId, firstNow, issued, secondNow);
    if First(BeforeDeriving(parent, request)).Pass? {
      DeriveToolsMeans(parent, request.toolAuthority);
      DerivePermissionsMeans(parent, request.stateAccessPermissions);
      if t :| t in request.toolAuthority && !ToolRequestable(parent, t) {
        var i := DeriveToolsFirstFault(parent, request.toolAuthority);
      } else if p :| p in request.stateAccessPermissions && !PermissionWithin(parent, p) {
        var i := DerivePermissionsFirstFault(parent, request.stateAccessPermissions);
      } else {
        DraftClock(hash, parent, request, spanId, firstNow, issued, secondNow);
      }
    }
  }

  lemma DraftErrors(hash: HashFn, parent: Gco, request: DelegationRequest, spanId: string,
                    firstNow: Instant, issued: Attestation, secondNow: Instant)
    ensures Draft(hash, parent, request, spanId).Err? ==>
      Derive(hash, parent, request, spanId, firstNow, issued, secondNow)
        == Err(Draft(hash, parent, request, spanId).error)
  {
    hide Draft, Validate;
  }

  lemma DraftClock(hash: HashFn, parent: Gco, request: DelegationRequest, spanId: string,
                   firstNow: Instant, issued: Attestation, secondNow: Instant)
    requires Draft(hash, parent, request, spanId).Ok?
    ensures var r := Derive(hash, parent, request, spanId, firstNow, issued, secondNow);
      var expiry := Min(request.requestedExpiry, parent.expiresAt);
      if Leq(expiry, firstNow) || Leq(expiry, secondNow) then r == Err(Expired)
      else if issued.value == "" then r == Err(AttestationMissing)
      else r.Ok?
  {
    hide Draft, Requestable, CanonicalHash, Validate, Unambiguous, RequestUnambiguous, AllCapped, Min, UtcTime.Key;
    DraftMeans(hash, parent, request, spanId);
    DraftCanOnlyExpire(hash, parent, request, spanId, PLACEHOLDER, firstNow);
    if Less(firstNow, Min(request.requestedExpiry, parent.expiresAt)) {
      if issued.value != "" {
        DraftCanOnlyExpire(hash, parent, request, spanId, issued, secondNow);
      } else {
        UnissuedFault(hash, parent, request, spanId, issued, secondNow);
      }
    }
  }

  /** With an empty attestation only the expiry is reported before it. */
  lemma UnissuedFault(hash: HashFn, parent: Gco, request: DelegationRequest, spanId: string,
                      issued: Attestation, now: Instant)
    requires Draft(hash, parent, request, spanId).Ok? && issued.value == ""
    ensures var child := Draft(hash, parent, request, spanId).value.(attestation := Some(issued));
      Validate(hash, parent, child, now) == Fail(if Leq(child.expiresAt, now) then Expired else AttestationMissing)
  {
    hide Draft, CanonicalHash, CheckTools, CheckPermissions, CheckLineage, CheckUnambiguous, CheckIdentity, UtcTime.Key;
    var draft := Draft(hash, parent, request, spanId).value;
    DraftCanOnlyExpire(hash, parent, request, spanId, PLACEHOLDER, now);
    SameButAttested(hash, parent, draft.(attestation := Some(PLACEHOLDER)), draft.(attestation := Some(issued)));
  }

  lemma SameButAttested(hash: HashFn, parent: Gco, g: Gco, h: Gco)
    requires g.(attestation := None) == h.(attestation := None)
    ensures CheckUnambiguous(parent, g) == CheckUnambiguous(parent, h)
    ensures CheckIdentity(parent, g) == CheckIdentity(parent, h)
    ensures CheckLineage(hash, parent, g) == CheckLineage(hash, parent, h)
    ensures g.toolAuthority == h.toolAuthority && g.stateAccessPermissions == h.stateAccessPermissions
    ensures g.expiresAt == h.expiresAt
  {
    hide CanonicalHash, HasDuplicates, Major;
    assert g.gcoVersion == g.(attestation := None).gcoVersion == h.gcoVersion;
    assert g.traceId == g.(attestation := None).traceId == h.traceId;
    assert g.policyId == g.(attestation := None).policyId == h.policyId;
    assert g.modelIdentity == g.(attestation := None).modelIdentity == h.modelIdentity;
    assert g.interventionVersion == g.(attestation := None).interventionVersion == h.interventionVersion;
    assert g.parentSpanId == g.(attestation := None).parentSpanId == h.parentSpanId;
    assert g.toolAuthority == g.(attestation := None).toolAuthority == h.toolAuthority;
    assert g.stateAccessPermissions == g.(attestation := None).stateAccessPermissions == h.stateAccessPermissions;
    assert g.expiresAt == g.(attestation := None).expiresAt == h.expiresAt;
    assert g.lineage == g.(attestation := None).lineage == h.lineage;
  }

  // ----- What deriving grants -----

  predicate PermissionAtMost(p: StatePermission, q: StatePermission) {
    p.namespace == q.namespace && AccessAllows(q.accessMode, p.accessMode)
      && RankAtLeast(p.taintPolicy, q.taintPolicy)
  }

  /** Every grant of the one list is covered by a grant of the other, and the expiry is no later. */
  ghost predicate AtMost(tools: seq<ToolAuthority>, permissions: seq<StatePermission>, expiry: Instant,
                         tools': seq<ToolAuthority>, permissions': seq<StatePermission>, expiry': Instant)
  {
    && (forall t | t in tools :: exists u :: u in tools' && ToolAtMost(t, u))
    && (forall p | p in permissions :: exists q :: q in permissions' && PermissionAtMost(p, q))
    && Leq(expiry, expiry')
  }

  ghost predicate StaysWithin(g: Gco, request: DelegationRequest) {
    AtMost(g.toolAuthority, g.stateAccessPermissions, g.expiresAt,
           request.toolAuthority, request.stateAccessPermissions, request.requestedExpiry)
  }

  ghost predicate NoGreater(g: Gco, h: Gco) {
    AtMost(g.toolAuthority, g.stateAccessPermissions, g.expiresAt,
           h.toolAuthority, h.stateAccessPermissions, h.expiresAt)
  }

  lemma CappedIsGreatest(parent: Gco, requested: ToolAuthority, t: ToolAuthority, c: ToolAuthority)
    requires Capped(parent, requested, t)
    requires ToolWithin(parent, c) && ToolAtMost(c, requested)
    ensures ToolAtMost(c, t)
  {
    hide ScopeTokens;
    var h :| h in parent.toolAuthority && h.toolUri == c.toolUri
      && c.maxDepth + 1 <= h.maxDepth && ScopeIsSubset(c.scope, h.scope);
  }

  /** Deriving is maximal: no child that validates against the parent and stays within the request
      holds anything the derived child does not. */
  lemma DeriveIsMaximal(hash: HashFn, parent: Gco, request: DelegationRequest, spanId: string,
                        firstNow: Instant, issued: Attestation, secondNow: Instant, other: Gco, now: Instant)
    requires Derive(hash, parent, request, spanId, firstNow, issued, secondNow).Ok?
    requires Validate(hash, parent, other, now).Pass? && StaysWithin(other, request)
    ensures NoGreater(other, Derive(hash, parent, request, spanId, firstNow, issued, secondNow).value)
  {
    hide Draft, Requestable, CanonicalHash, Validate, Unambiguous, RequestUnambiguous, Major,
         Capped, ToolAtMost, PermissionAtMost, ToolWithin, PermissionWithin;
    var child := Derive(hash, parent, request, spanId, firstNow, issued, secondNow).value;
    var draft := Draft(hash, parent, request, spanId).value;
    DraftMeans(hash, parent, request, spanId);
    ValidateMeans(hash, parent, other, now);
    forall c | c in other.toolAuthority ensures exists u :: u in child.toolAuthority && ToolAtMost(c, u) {
      var q :| q in request.toolAuthority && ToolAtMost(c, q);
      var i :| 0 <= i < |request.toolAuthority| && request.toolAuthority[i] == q;
      CappedIsGreatest(parent, q, draft.toolAuthority[i], c);
      assert child.toolAuthority[i] in child.toolAuthority;
    }
  }

  /** So whatever the gates allow such a child they allow the derived one: every state access, and
      every tool call unless the derived scope for the tool is blank, which no call naming an operation
      gets past. */
  lemma DerivedServesMost(hash: HashFn, parent: Gco, request: DelegationRequest, spanId: string,
                          firstNow: Instant, issued: Attestation, secondNow: Instant, other: Gco, now: Instant,
                          uri: string, requested: Option<string>, when: Instant,
                          namespace: string, mode: Option<AccessMode>)
    requires Derive(hash, parent, request, spanId, firstNow, issued, secondNow).Ok?
    requires Validate(hash, parent, other, now).Pass? && StaysWithin(other, request)
    ensures var child := Derive(hash, parent, request, spanId, firstNow, issued, secondNow).value;
      && (StateGate(other.stateAccessPermissions, namespace, mode) ==>
            StateGate(child.stateAccessPermissions, namespace, mode))
      && (ToolGate(other, uri, requested, when) ==>
            (ToolGate(child, uri, requested, when) <==> !IsBlank(HeldScope(child, uri))))
      && (ToolGate(other, uri, requested, when) && requested.Some? && ScopeTokens(requested.value) != {} ==>
            ToolGate(child, uri, requested, when))
  {
    hide Derive, CanonicalHash, Validate, Major, ToolAtMost, ScopeTokens, ToolGate, StateGate, AllToolsWithin,
         AllPermissionsWithin, IsBlank, StaysWithin, UtcTime.Key;
    var child := Derive(hash, parent, request, spanId, firstNow, issued, secondNow).value;
    DeriveIsMaximal(hash, parent, request, spanId, firstNow, issued, secondNow, other, now);
    DerivedNarrows(hash, parent, request, spanId, firstNow, issued, secondNow);
    ValidateMeans(hash, parent, other, now);
    if StateGate(other.stateAccessPermissions, namespace, mode) {
      CoveredAccess(other, child, namespace, mode);
    }
    if ToolGate(other, uri, requested, when) {
      CoveredCalls(other, child, uri, requested, when);
      if requested.Some? && ScopeTokens(requested.value) != {} {
        TokensMeanNotBlank(HeldScope(child, uri));
      }
    }
  }

  lemma CoveredAccess(g: Gco, h: Gco, namespace: string, mode: Option<AccessMode>)
    requires Distinct(h.stateAccessPermissions, NamespaceOf)
    requires forall p | p in g.stateAccessPermissions ::
      exists q :: q in h.stateAccessPermissions && PermissionAtMost(p, q)
    requires StateGate(g.stateAccessPermissions, namespace, mode)
    ensures StateGate(h.stateAccessPermissions, namespace, mode)
  {
    var p := GrantFor(g.stateAccessPermissions, namespace).value;
    var q :| q in h.stateAccessPermissions && PermissionAtMost(p, q);
    FindDistinct(h.stateAccessPermissions, NamespaceOf, q);
  }

  /** ... and the derived child itself stays within the request: it is the greatest such child. */
  lemma DerivedStaysWithin(hash: HashFn, parent: Gco, request: DelegationRequest, spanId: string,
                           firstNow: Instant, issued: Attestation, secondNow: Instant)
    requires Derive(hash, parent, request, spanId, firstNow, issued, secondNow).Ok?
    ensures StaysWithin(Derive(hash, parent, request, spanId, firstNow, issued, secondNow).value, request)
  {
    hide Draft, Requestable, CanonicalHash, Validate, Unambiguous, RequestUnambiguous, Major, ScopeTokens;
    var child := Derive(hash, parent, request, spanId, firstNow, issued, secondNow).value;
    DraftMeans(hash, parent, request, spanId);
    forall c | c in child.toolAuthority
      ensures exists u :: u in request.toolAuthority && ToolAtMost(c, u)
    {
      var i :| 0 <= i < |child.toolAuthority| && child.toolAuthority[i] == c;
      CappedIsWithinRequest(parent, request.toolAuthority[i], c);
      assert request.toolAuthority[i] in request.toolAuthority;
    }
    forall p | p in child.stateAccessPermissions
      ensures exists q :: q in request.stateAccessPermissions && PermissionAtMost(p, q)
    {
      assert PermissionWithin(parent, p);
      assert PermissionAtMost(p, p);
    }
  }

  lemma CappedIsWithinRequest(parent: Gco, requested: ToolAuthority, t: ToolAuthority)
    requires Capped(parent, requested, t)
    ensures ToolAtMost(t, requested)
  {
    hide ScopeTokens;
    assert ToolWithin(parent, t);
  }
}
