/** One delegation step: when a child GCO is a legitimate narrowing of its parent. */
module Validator {
  import opened Wrappers
  import opened Text
  import opened Clock
  import opened Models

  datatype DerivationError =
    | VersionMismatch
    | TraceIdChanged
    | PolicyIdChanged
    | ModelIdentityChanged
    | InterventionChanged
    | ParentLinkageInvalid
    | LineageAppendFailed
    | LineageFlooded
    | MaxDepthIncreased
    | ToolAuthorityExpanded
    | StatePermissionExpanded
    | TaintDowngraded
    | ExpiryExtended
    | Expired
    | AttestationMissing
    | CanonicalHashMismatch

  const LINEAGE_LIMIT := 128

  // ----- Scopes -----

  function CommasToSpaces(scope: string): (s: string)
    ensures |s| == |scope|
  {
    seq(|scope|, i requires 0 <= i < |scope| => if scope[i] == ',' then ' ' else scope[i])
  }

  function ScopeTokens(scope: string): set<string> {
    set w | w in Words(CommasToSpaces(scope))
  }

  predicate ScopeIsSubset(child: string, parent: string) {
    ScopeTokens(child) <= ScopeTokens(parent)
  }

  predicate IsSeparator(c: char) { c == ',' || IsSpace(c) }

  /** `scope[i..j]` is a maximal run of characters that are neither white space nor commas. */
  predicate IsToken(scope: string, i: int, j: int) {
    && 0 <= i < j <= |scope|
    && (forall k | i <= k < j :: !IsSeparator(scope[k]))
    && (i == 0 || IsSeparator(scope[i - 1]))
    && (j == |scope| || IsSeparator(scope[j]))
  }

  lemma TokenIsRun(scope: string, i: int, j: int)
    ensures IsToken(scope, i, j) <==> IsRun(CommasToSpaces(scope), i, j)
    ensures IsToken(scope, i, j) ==> CommasToSpaces(scope)[i..j] == scope[i..j]
  {
    var s := CommasToSpaces(scope);
    assert forall k | 0 <= k < |s| :: IsSpace(s[k]) <==> IsSeparator(scope[k]);
    assert forall k | 0 <= k < |s| :: !IsSeparator(scope[k]) ==> s[k] == scope[k];
  }

  /** The tokens of a scope are exactly those runs. */
  lemma ScopeTokensAreRuns(scope: string, w: string)
    ensures w in ScopeTokens(scope) <==> exists i, j :: IsToken(scope, i, j) && w == scope[i..j]
  {
    var s := CommasToSpaces(scope);
    if w in Words(s) {
      var i, j := WordsAreRuns(s, w);
      TokenIsRun(scope, i, j);
    }
    if i, j :| IsToken(scope, i, j) && w == scope[i..j] {
      TokenIsRun(scope, i, j);
      RunsAreWords(s, i, j);
    }
  }

  /** A scope with a token is not blank. */
  lemma TokensMeanNotBlank(scope: string)
    requires ScopeTokens(scope) != {}
    ensures !IsBlank(scope)
  {
    var w :| w in ScopeTokens(scope);
    ScopeTokensAreRuns(scope, w);
    var i, j :| IsToken(scope, i, j) && w == scope[i..j];
    assert !IsSeparator(scope[i]);
  }

  // ----- Ranks -----

  /** READ and APPEND are incomparable; WRITE allows everything. */
  predicate AccessAllows(granted: AccessMode, requested: AccessMode) {
    match granted
    case NoAccess => requested in {NoAccess}
    case Read => requested in {NoAccess, AccessMode.Read}
    case Append => requested in {NoAccess, Append}
    case Write => requested in {NoAccess, AccessMode.Read, Append, Write}
  }

  function TaintRank(t: TaintLabel): Option<nat> {
    match t
    case Clean => Some(0)
    case Sanitized => Some(1)
    case Tainted => Some(2)
    case Isolated => Some(3)
    case Unranked(_) => None
  }

  // ----- The checks, in the order they are made -----

  function Major(version: string): string {
    if version == "" || version[0] == '.' then "" else [version[0]] + Major(version[1..])
  }

  function CheckNamespaces(permissions: seq<StatePermission>): Outcome<DerivationError> {
    Check(!HasDuplicates(permissions, NamespaceOf), StatePermissionExpanded)
  }

  function CheckUris(tools: seq<ToolAuthority>): Outcome<DerivationError> {
    Check(!HasDuplicates(tools, UriOf), ToolAuthorityExpanded)
  }

  function CheckImmutables(parent: Gco, child: Gco): Outcome<DerivationError> {
    Check(child.traceId == parent.traceId, TraceIdChanged)
      .Then(Check(child.policyId == parent.policyId, PolicyIdChanged))
      .Then(Check(child.modelIdentity == parent.modelIdentity, ModelIdentityChanged))
      .Then(Check(child.interventionVersion == parent.interventionVersion, InterventionChanged))
  }

  function CheckLineage(hash: HashFn, parent: Gco, child: Gco): Outcome<DerivationError> {
    var n := |child.lineage|;
    Check(n <= LINEAGE_LIMIT, LineageFlooded)
      .Then(Check(n == |parent.lineage| + 1 && child.lineage[..n - 1] == parent.lineage, LineageAppendFailed))
      .Then(Check(n > 0 && child.lineage[n - 1] == CanonicalHash(hash, parent), CanonicalHashMismatch))
  }

  function CheckTool(parentTools: seq<ToolAuthority>, tool: ToolAuthority): Outcome<DerivationError> {
    match FindLast(parentTools, UriOf, tool.toolUri)
    case None => Fail(ToolAuthorityExpanded)
    case Some(held) =>
      Check(held.maxDepth != 0 && tool.maxDepth <= held.maxDepth - 1, MaxDepthIncreased)
        .Then(Check(ScopeIsSubset(tool.scope, held.scope), ToolAuthorityExpanded))
  }

  function CheckTools(parentTools: seq<ToolAuthority>, tools: seq<ToolAuthority>): Outcome<DerivationError> {
    if tools == [] then Pass
    else
      CheckTool(parentTools, tools[0])
        .Then(CheckTools(parentTools, tools[1..]))
  }

  function CheckPermission(parentPermissions: seq<StatePermission>, permission: StatePermission)
    : Outcome<DerivationError>
  {
    match FindLast(parentPermissions, NamespaceOf, permission.namespace)
    case None => Fail(StatePermissionExpanded)
    case Some(held) =>
      var mine, theirs := TaintRank(permission.taintPolicy), TaintRank(held.taintPolicy);
      Check(AccessAllows(held.accessMode, permission.accessMode), StatePermissionExpanded)
        .Then(Check(mine.Some? && theirs.Some? && mine.value >= theirs.value, TaintDowngraded))
  }

  function CheckPermissions(parentPermissions: seq<StatePermission>, permissions: seq<StatePermission>)
    : Outcome<DerivationError>
  {
    if permissions == [] then Pass
    else
      CheckPermission(parentPermissions, permissions[0])
        .Then(CheckPermissions(parentPermissions, permissions[1..]))
  }

  function CheckExpiry(parent: Gco, child: Gco, now: Instant): Outcome<DerivationError> {
    Check(!Less(parent.expiresAt, child.expiresAt), ExpiryExtended)
      .Then(Check(!Leq(child.expiresAt, now), Expired))
  }

  function CheckAttestation(child: Gco): Outcome<DerivationError> {
    Check(child.attestation.Some? && child.attestation.value.value != "", AttestationMissing)
  }

  function CheckUnambiguous(parent: Gco, child: Gco): Outcome<DerivationError> {
    CheckNamespaces(parent.stateAccessPermissions)
      .Then(CheckNamespaces(child.stateAccessPermissions))
      .Then(CheckUris(parent.toolAuthority))
      .Then(CheckUris(child.toolAuthority))
  }

  function CheckIdentity(parent: Gco, child: Gco): Outcome<DerivationError> {
    Check(Major(child.gcoVersion) == Major(parent.gcoVersion), VersionMismatch)
      .Then(CheckImmutables(parent, child))
      .Then(Check(child.parentSpanId == Some(parent.spanId), ParentLinkageInvalid))
  }

  /** `now` is the clock reading that the expiry check takes. */
  function Validate(hash: HashFn, parent: Gco, child: Gco, now: Instant): Outcome<DerivationError> {
    CheckUnambiguous(parent, child)
      .Then(CheckIdentity(parent, child))
      .Then(CheckLineage(hash, parent, child))
      .Then(CheckTools(parent.toolAuthority, child.toolAuthority))
      .Then(CheckPermissions(parent.stateAccessPermissions, child.stateAccessPermissions))
      .Then(CheckExpiry(parent, child, now))
      .Then(CheckAttestation(child))
  }

  function ValidateRoot(root: Gco, now: Instant): Outcome<DerivationError> {
    Check(root.parentSpanId.None?, ParentLinkageInvalid)
      .Then(Check(root.lineage == [], LineageAppendFailed))
      .Then(CheckNamespaces(root.stateAccessPermissions))
      .Then(CheckUris(root.toolAuthority))
      .Then(CheckExpiry(root, root, now))
      .Then(CheckAttestation(root))
  }

  // ----- What a passing validation means -----

  ghost predicate ToolWithin(parent: Gco, t: ToolAuthority) {
    exists h :: h in parent.toolAuthority && h.toolUri == t.toolUri
      && t.maxDepth + 1 <= h.maxDepth && ScopeIsSubset(t.scope, h.scope)
  }

  predicate RankAtLeast(t: TaintLabel, bound: TaintLabel) {
    TaintRank(t).Some? && TaintRank(bound).Some? && TaintRank(t).value >= TaintRank(bound).value
  }

  ghost predicate PermissionWithin(parent: Gco, p: StatePermission) {
    exists h :: h in parent.stateAccessPermissions && h.namespace == p.namespace
      && AccessAllows(h.accessMode, p.accessMode) && RankAtLeast(p.taintPolicy, h.taintPolicy)
  }

  ghost predicate AllToolsWithin(parent: Gco, tools: seq<ToolAuthority>) {
    forall t | t in tools :: ToolWithin(parent, t)
  }

  ghost predicate AllPermissionsWithin(parent: Gco, permissions: seq<StatePermission>) {
    forall p | p in permissions :: PermissionWithin(parent, p)
  }

  predicate Unambiguous(g: Gco) {
    Distinct(g.stateAccessPermissions, NamespaceOf) && Distinct(g.toolAuthority, UriOf)
  }

  predicate SameIdentity(parent: Gco, child: Gco) {
    && child.traceId == parent.traceId
    && child.policyId == parent.policyId
    && child.modelIdentity == parent.modelIdentity
    && child.interventionVersion == parent.interventionVersion
  }

  predicate Attested(g: Gco) { g.attestation.Some? && g.attestation.value.value != "" }

  /** Everything `validate` promises, without the order of its checks. */
  ghost predicate Narrows(hash: HashFn, parent: Gco, child: Gco, now: Instant) {
    && Unambiguous(parent) && Unambiguous(child)
    && Major(child.gcoVersion) == Major(parent.gcoVersion)
    && SameIdentity(parent, child)
    && child.parentSpanId == Some(parent.spanId)
    && child.lineage == parent.lineage + [CanonicalHash(hash, parent)]
    && |child.lineage| <= 128
    && AllToolsWithin(parent, child.toolAuthority)
    && AllPermissionsWithin(parent, child.stateAccessPermissions)
    && Leq(child.expiresAt, parent.expiresAt)
    && Less(now, child.expiresAt)
    && Attested(child)
  }

  lemma ToolCheckMeans(parent: Gco, t: ToolAuthority)
    requires Unambiguous(parent)
    ensures CheckTool(parent.toolAuthority, t).Pass? <==> ToolWithin(parent, t)
  {
    if ToolWithin(parent, t) {
      var h :| h in parent.toolAuthority && h.toolUri == t.toolUri
        && t.maxDepth + 1 <= h.maxDepth && ScopeIsSubset(t.scope, h.scope);
      FindDistinct(parent.toolAuthority, UriOf, h);
    }
  }

  lemma PermissionCheckMeans(parent: Gco, p: StatePermission)
    requires Unambiguous(parent)
    ensures CheckPermission(parent.stateAccessPermissions, p).Pass? <==> PermissionWithin(parent, p)
  {
    if PermissionWithin(parent, p) {
      var h :| h in parent.stateAccessPermissions && h.namespace == p.namespace
        && AccessAllows(h.accessMode, p.accessMode) && RankAtLeast(p.taintPolicy, h.taintPolicy);
      FindDistinct(parent.stateAccessPermissions, NamespaceOf, h);
    }
  }

  lemma {:induction false} ToolsCheckMeans(parent: Gco, tools: seq<ToolAuthority>)
    requires Unambiguous(parent)
    ensures CheckTools(parent.toolAuthority, tools).Pass? <==> AllToolsWithin(parent, tools)
  {
    if tools != [] {
      ToolCheckMeans(parent, tools[0]);
      ToolsCheckMeans(parent, tools[1..]);
      assert forall t :: t in tools <==> t == tools[0] || t in tools[1..];
    }
  }

  lemma {:induction false} PermissionsCheckMeans(parent: Gco, permissions: seq<StatePermission>)
    requires Unambiguous(parent)
    ensures CheckPermissions(parent.stateAccessPermissions, permissions).Pass?
       <==> AllPermissionsWithin(parent, permissions)
  {
    if permissions != [] {
      PermissionCheckMeans(parent, permissions[0]);
      PermissionsCheckMeans(parent, permissions[1..]);
      assert forall p :: p in permissions <==> p == permissions[0] || p in permissions[1..];
    }
  }

  lemma SnocMeans(all: seq<string>, front: seq<string>, last: string)
    ensures all == front + [last] <==>
      |all| == |front| + 1 && all[..|all| - 1] == front && all[|all| - 1] == last
  {
    if |all| == |front| + 1 {
      assert all == all[..|front|] + [all[|front|]];
    }
  }

  lemma LineageCheckMeans(hash: HashFn, parent: Gco, child: Gco)
    ensures CheckLineage(hash, parent, child).Pass? <==>
      child.lineage == parent.lineage + [CanonicalHash(hash, parent)] && |child.lineage| <= 128
  {
    SnocMeans(child.lineage, parent.lineage, CanonicalHash(hash, parent));
  }

  lemma UnambiguousMeans(g: Gco)
    ensures CheckNamespaces(g.stateAccessPermissions).Pass? && CheckUris(g.toolAuthority).Pass?
       <==> Unambiguous(g)
  {
    DuplicatesIff(g.stateAccessPermissions, NamespaceOf);
    DuplicatesIff(g.toolAuthority, UriOf);
  }

  lemma IdentityMeans(parent: Gco, child: Gco)
    ensures CheckIdentity(parent, child).Pass? <==>
      Major(child.gcoVersion) == Major(parent.gcoVersion) && SameIdentity(parent, child)
      && child.parentSpanId == Some(parent.spanId)
  {
  }

  lemma BothUnambiguousMeans(parent: Gco, child: Gco)
    ensures CheckUnambiguous(parent, child).Pass? <==> Unambiguous(parent) && Unambiguous(child)
  {
    UnambiguousMeans(parent);
    UnambiguousMeans(child);
  }

  lemma ExpiryMeans(parent: Gco, child: Gco, now: Instant)
    ensures CheckExpiry(parent, child, now).Pass? <==>
      Leq(child.expiresAt, parent.expiresAt) && Less(now, child.expiresAt)
  {
  }

  /** `validate` passes exactly on the narrowings. */
  lemma ValidateMeans(hash: HashFn, parent: Gco, child: Gco, now: Instant)
    ensures Validate(hash, parent, child, now).Pass? <==> Narrows(hash, parent, child, now)
  {
    hide CanonicalHash, HasDuplicates, CheckTools, CheckPermissions, CheckLineage, CheckExpiry, CheckIdentity,
         CheckUnambiguous, Unambiguous, AllToolsWithin, AllPermissionsWithin, Major, UtcTime.Key;
    BothUnambiguousMeans(parent, child);
    ExpiryMeans(parent, child, now);
    IdentityMeans(parent, child);
    LineageCheckMeans(hash, parent, child);
    if Unambiguous(parent) {
      ToolsCheckMeans(parent, child.toolAuthority);
      PermissionsCheckMeans(parent, child.stateAccessPermissions);
    }
  }

  // ----- What ranks, modes, versions and scopes mean -----

  /** The four declared labels, lowest first. */
  const LABELS: seq<TaintLabel> := [Clean, Sanitized, Tainted, Isolated]

  lemma RankIsPosition(t: TaintLabel, i: nat)
    requires i < 4
    ensures LABELS[i] == t <==> TaintRank(t) == Some(i)
  {
  }

  /** One label ranks at least as high as another exactly when both are declared and it does not come
      before it in that order. */
  lemma RankAtLeastMeans(t: TaintLabel, bound: TaintLabel)
    ensures RankAtLeast(t, bound) <==> exists i, j :: 0 <= j <= i < 4 && LABELS[i] == t && LABELS[j] == bound
  {
    hide TaintRank;
    if RankAtLeast(t, bound) {
      RankedIsDeclared(t);
      RankedIsDeclared(bound);
      var i, j := TaintRank(t).value, TaintRank(bound).value;
      RankIsPosition(t, i);
      RankIsPosition(bound, j);
    }
    if i, j :| 0 <= j <= i < 4 && LABELS[i] == t && LABELS[j] == bound {
      RankIsPosition(t, i);
      RankIsPosition(bound, j);
    }
  }

  lemma RankedIsDeclared(t: TaintLabel)
    ensures TaintRank(t).Some? ==> TaintRank(t).value < 4
  {
  }

  /** A mode grants itself and NONE; WRITE grants every mode; READ and APPEND do not grant each other. */
  lemma AccessAllowsMeans(granted: AccessMode, requested: AccessMode)
    ensures AccessAllows(granted, requested) <==> requested in {NoAccess, granted} || granted == Write
  {
  }

  /** The major version is the text before the first dot, or all of it. */
  lemma {:induction false} MajorMeans(version: string)
    ensures '.' !in Major(version)
    ensures Major(version) == version || Major(version) + "." <= version
  {
    if version != "" && version[0] != '.' {
      MajorMeans(version[1..]);
      assert version == [version[0]] + version[1..];
    }
  }

  /** One scope is within another exactly when each of its tokens is a token there. */
  lemma ScopeIsSubsetMeans(child: string, parent: string)
    ensures ScopeIsSubset(child, parent) <==>
      forall i, j | IsToken(child, i, j) :: TokenOf(parent, child[i..j])
  {
    hide ScopeTokens, IsSeparator;
    if ScopeIsSubset(child, parent) {
      forall i, j | IsToken(child, i, j) ensures TokenOf(parent, child[i..j]) {
        ScopeTokensAreRuns(child, child[i..j]);
        ScopeTokensAreRuns(parent, child[i..j]);
      }
    }
    if forall i, j | IsToken(child, i, j) :: TokenOf(parent, child[i..j]) {
      forall w | w in ScopeTokens(child) ensures w in ScopeTokens(parent) {
        ScopeTokensAreRuns(child, w);
        ScopeTokensAreRuns(parent, w);
      }
    }
  }

  ghost predicate TokenOf(scope: string, w: string) {
    exists i, j :: IsToken(scope, i, j) && w == scope[i..j]
  }

  // ----- Which fault is reported -----

  /** The error of the first condition that does not hold. */
  function First(checks: seq<(bool, DerivationError)>): Outcome<DerivationError> {
    if checks == [] then Pass
    else if !checks[0].0 then Fail(checks[0].1)
    else First(checks[1..])
  }

  ghost predicate FirstToolOutside(parent: Gco, tools: seq<ToolAuthority>, i: int) {
    0 <= i < |tools| && !ToolWithin(parent, tools[i]) && forall j | 0 <= j < i :: ToolWithin(parent, tools[j])
  }

  ghost predicate FirstPermissionOutside(parent: Gco, permissions: seq<StatePermission>, i: int) {
    && 0 <= i < |permissions| && !PermissionWithin(parent, permissions[i])
    && forall j | 0 <= j < i :: PermissionWithin(parent, permissions[j])
  }

  /** What is wrong with a tool that is not within the parent: too deep for the grant there is, or else no
      grant or too wide a scope. */
  ghost function ToolError(parent: Gco, t: ToolAuthority): DerivationError {
    if exists h :: h in parent.toolAuthority && h.toolUri == t.toolUri && t.maxDepth >= h.maxDepth
    then MaxDepthIncreased
    else ToolAuthorityExpanded
  }

  /** ... and with a permission: too low a label under a mode that is granted, or else the mode. */
  ghost function PermissionError(parent: Gco, p: StatePermission): DerivationError {
    if exists h :: h in parent.stateAccessPermissions && h.namespace == p.namespace
                   && AccessAllows(h.accessMode, p.accessMode)
    then TaintDowngraded
    else StatePermissionExpanded
  }

  lemma ToolErrorMeans(parent: Gco, t: ToolAuthority)
    requires Unambiguous(parent) && !ToolWithin(parent, t)
    ensures CheckTool(parent.toolAuthority, t) == Fail(ToolError(parent, t))
  {
    hide ScopeTokens;
    ToolCheckMeans(parent, t);
    forall h | h in parent.toolAuthority && h.toolUri == t.toolUri
      ensures FindLast(parent.toolAuthority, UriOf, t.toolUri) == Some(h)
    {
      FindDistinct(parent.toolAuthority, UriOf, h);
    }
  }

  lemma PermissionErrorMeans(parent: Gco, p: StatePermission)
    requires Unambiguous(parent) && !PermissionWithin(parent, p)
    ensures CheckPermission(parent.stateAccessPermissions, p) == Fail(PermissionError(parent, p))
  {
    PermissionCheckMeans(parent, p);
    forall h | h in parent.stateAccessPermissions && h.namespace == p.namespace
      ensures FindLast(parent.stateAccessPermissions, NamespaceOf, p.namespace) == Some(h)
    {
      FindDistinct(parent.stateAccessPermissions, NamespaceOf, h);
    }
  }

  lemma {:induction false} ToolsFirstFault(parent: Gco, tools: seq<ToolAuthority>) returns (i: nat)
    requires Unambiguous(parent) && !AllToolsWithin(parent, tools)
    ensures FirstToolOutside(parent, tools, i)
    ensures CheckTools(parent.toolAuthority, tools) == Fail(ToolError(parent, tools[i]))
  {
    hide ToolWithin, CheckTool, ToolError;
    ToolCheckMeans(parent, tools[0]);
    if !ToolWithin(parent, tools[0]) {
      i := 0;
      ToolErrorMeans(parent, tools[0]);
    } else {
      assert forall t :: t in tools <==> t == tools[0] || t in tools[1..];
      i := ToolsFirstFault(parent, tools[1..]);
      assert forall j | 0 < j < i + 1 :: tools[j] == tools[1..][j - 1];
      i := i + 1;
    }
  }

  lemma {:induction false} PermissionsFirstFault(parent: Gco, permissions: seq<StatePermission>) returns (i: nat)
    requires Unambiguous(parent) && !AllPermissionsWithin(parent, permissions)
    ensures FirstPermissionOutside(parent, permissions, i)
    ensures CheckPermissions(parent.stateAccessPermissions, permissions)
         == Fail(PermissionError(parent, permissions[i]))
  {
    hide PermissionWithin, CheckPermission, PermissionError;
    PermissionCheckMeans(parent, permissions[0]);
    if !PermissionWithin(parent, permissions[0]) {
      i := 0;
      PermissionErrorMeans(parent, permissions[0]);
    } else {
      assert forall p :: p in permissions <==> p == permissions[0] || p in permissions[1..];
      i := PermissionsFirstFault(parent, permissions[1..]);
      assert forall j | 0 < j < i + 1 :: permissions[j] == permissions[1..][j - 1];
      i := i + 1;
    }
  }

  /** What must hold before any grant is looked at, in the order it is asked. */
  ghost function BeforeGrants(hash: HashFn, parent: Gco, child: Gco): seq<(bool, DerivationError)> {
    [(Distinct(parent.stateAccessPermissions, NamespaceOf), StatePermissionExpanded),
     (Distinct(child.stateAccessPermissions, NamespaceOf), StatePermissionExpanded),
     (Distinct(parent.toolAuthority, UriOf), ToolAuthorityExpanded),
     (Distinct(child.toolAuthority, UriOf), ToolAuthorityExpanded),
     (Major(child.gcoVersion) == Major(parent.gcoVersion), VersionMismatch),
     (child.traceId == parent.traceId, TraceIdChanged),
     (child.policyId == parent.policyId, PolicyIdChanged),
     (child.modelIdentity == parent.modelIdentity, ModelIdentityChanged),
     (child.interventionVersion == parent.interventionVersion, InterventionChanged),
     (child.parentSpanId == Some(parent.spanId), ParentLinkageInvalid),
     (|child.lineage| <= 128, LineageFlooded),
     (|child.lineage| == |parent.lineage| + 1 && parent.lineage < child.lineage, LineageAppendFailed),
     (child.lineage == parent.lineage + [CanonicalHash(hash, parent)], CanonicalHashMismatch)]
  }

  function AfterGrants(parent: Gco, child: Gco, now: Instant): seq<(bool, DerivationError)> {
    [(Leq(child.expiresAt, parent.expiresAt), ExpiryExtended),
     (Less(now, child.expiresAt), Expired),
     (Attested(child), AttestationMissing)]
  }

  lemma FirstSplit(checks: seq<(bool, DerivationError)>, more: seq<(bool, DerivationError)>)
    ensures First(checks + more) == First(checks).Then(First(more))
  {
    if checks == [] {
      assert checks + more == more;
    } else {
      assert (checks + more)[1..] == checks[1..] + more;
      FirstSplit(checks[1..], more);
    }
  }

  lemma BeforeGrantsMeans(hash: HashFn, parent: Gco, child: Gco)
    ensures First(BeforeGrants(hash, parent, child)) ==
      CheckUnambiguous(parent, child).Then(CheckIdentity(parent, child)).Then(CheckLineage(hash, parent, child))
  {
    hide CanonicalHash, Major, Distinct, HasDuplicates;
    DuplicatesIff(parent.stateAccessPermissions, NamespaceOf);
    DuplicatesIff(child.stateAccessPermissions, NamespaceOf);
    DuplicatesIff(parent.toolAuthority, UriOf);
    DuplicatesIff(child.toolAuthority, UriOf);
    var checks := BeforeGrants(hash, parent, child);
    FirstSplit(checks[..4], checks[4..10]);
    FirstSplit(checks[..10], checks[10..]);
    assert checks == checks[..10] + checks[10..] && checks[..10] == checks[..4] + checks[4..10];
    FirstFour(checks[..4]);
    FirstSix(checks[4..10]);
    FirstThree(checks[10..]);
    LineageEdited(hash, parent, child);
  }

  lemma FirstThree(c: seq<(bool, DerivationError)>)
    requires |c| == 3
    ensures First(c) == Check(c[0].0, c[0].1).Then(Check(c[1].0, c[1].1)).Then(Check(c[2].0, c[2].1))
  {
    assert c[1..][1..] == c[2..] && c[2..][1..] == [];
    assert First(c[2..]) == Check(c[2].0, c[2].1);
    assert First(c[1..]) == Check(c[1].0, c[1].1).Then(Check(c[2].0, c[2].1));
  }

  lemma FirstFour(c: seq<(bool, DerivationError)>)
    requires |c| == 4
    ensures First(c) == Check(c[0].0, c[0].1).Then(Check(c[1].0, c[1].1)).Then(Check(c[2].0, c[2].1))
                          .Then(Check(c[3].0, c[3].1))
  {
    FirstThree(c[1..]);
  }

  lemma FirstSix(c: seq<(bool, DerivationError)>)
    requires |c| == 6
    ensures First(c) == Check(c[0].0, c[0].1).Then(Check(c[1].0, c[1].1)).Then(Check(c[2].0, c[2].1))
                          .Then(Check(c[3].0, c[3].1)).Then(Check(c[4].0, c[4].1)).Then(Check(c[5].0, c[5].1))
  {
    FirstFour(c[2..]);
    assert c[1..][1..] == c[2..];
  }

  /** Which fault `validate` reports when there are several: the first in the order lists, version,
      identity, linkage, lineage, tools in list order, permissions in list order, expiry, attestation. */
  lemma ValidateOrder(hash: HashFn, parent: Gco, child: Gco, now: Instant)
    ensures var r, before := Validate(hash, parent, child, now), First(BeforeGrants(hash, parent, child));
      && (before.Fail? ==> r == before)
      && (before.Pass? && !AllToolsWithin(parent, child.toolAuthority) ==>
            exists i :: FirstToolOutside(parent, child.toolAuthority, i)
                        && r == Fail(ToolError(parent, child.toolAuthority[i])))
      && (before.Pass? && AllToolsWithin(parent, child.toolAuthority)
          && !AllPermissionsWithin(parent, child.stateAccessPermissions) ==>
            exists i :: FirstPermissionOutside(parent, child.stateAccessPermissions, i)
                        && r == Fail(PermissionError(parent, child.stateAccessPermissions[i])))
      && (before.Pass? && AllToolsWithin(parent, child.toolAuthority)
          && AllPermissionsWithin(parent, child.stateAccessPermissions) ==>
            r == First(AfterGrants(parent, child, now)))
  {
    hide BeforeGrants, First, CanonicalHash, CheckTools, CheckPermissions, CheckIdentity, CheckLineage, ToolError,
         PermissionError, AllToolsWithin, AllPermissionsWithin, UtcTime.Key, Unambiguous, CheckUnambiguous,
         FirstToolOutside, FirstPermissionOutside;
    BeforeGrantsMeans(hash, parent, child);
    FirstThree(AfterGrants(parent, child, now));
    if First(BeforeGrants(hash, parent, child)).Pass? {
      BothUnambiguousMeans(parent, child);
      ToolsCheckMeans(parent, child.toolAuthority);
      PermissionsCheckMeans(parent, child.stateAccessPermissions);
      if !AllToolsWithin(parent, child.toolAuthority) {
        var i := ToolsFirstFault(parent, child.toolAuthority);
      } else if !AllPermissionsWithin(parent, child.stateAccessPermissions) {
        var i := PermissionsFirstFault(parent, child.stateAccessPermissions);
      }
    }
  }

  /** ... and `validate_root`. */
  lemma ValidateRootOrder(root: Gco, now: Instant)
    ensures ValidateRoot(root, now) == First([
      (root.parentSpanId.None?, ParentLinkageInvalid),
      (root.lineage == [], LineageAppendFailed),
      (Distinct(root.stateAccessPermissions, NamespaceOf), StatePermissionExpanded),
      (Distinct(root.toolAuthority, UriOf), ToolAuthorityExpanded),
      (Less(now, root.expiresAt), Expired),
      (Attested(root), AttestationMissing)])
  {
    hide Distinct, HasDuplicates, UtcTime.Key;
    DuplicatesIff(root.stateAccessPermissions, NamespaceOf);
    DuplicatesIff(root.toolAuthority, UriOf);
    FirstSix([
      (root.parentSpanId.None?, ParentLinkageInvalid),
      (root.lineage == [], LineageAppendFailed),
      (Distinct(root.stateAccessPermissions, NamespaceOf), StatePermissionExpanded),
      (Distinct(root.toolAuthority, UriOf), ToolAuthorityExpanded),
      (Less(now, root.expiresAt), Expired),
      (Attested(root), AttestationMissing)]);
  }

  lemma ValidateRootMeans(root: Gco, now: Instant)
    ensures ValidateRoot(root, now).Pass? <==>
      root.parentSpanId.None? && root.lineage == [] && Unambiguous(root)
      && Less(now, root.expiresAt) && Attested(root)
  {
    UnambiguousMeans(root);
  }

  // ----- One fault, its own error -----

  /** One field of a GCO replaced. */
  datatype Edit =
    | TraceIdTo(text: string)
    | SpanIdTo(text: string)
    | ParentSpanTo(span: Option<string>)
    | PolicyIdTo(text: string)
    | ModelIdentityTo(text: string)
    | InterventionTo(text: string)
    | VersionTo(text: string)
    | LineageTo(lineage: seq<string>)
    | ExpiryTo(time: Instant)
    | AttestationTo(attestation: Option<Attestation>)

  function Edited(g: Gco, e: Edit): Gco {
    match e
    case TraceIdTo(text) => g.(traceId := text)
    case SpanIdTo(text) => g.(spanId := text)
    case ParentSpanTo(span) => g.(parentSpanId := span)
    case PolicyIdTo(text) => g.(policyId := text)
    case ModelIdentityTo(text) => g.(modelIdentity := text)
    case InterventionTo(text) => g.(interventionVersion := text)
    case VersionTo(text) => g.(gcoVersion := text)
    case LineageTo(lineage) => g.(lineage := lineage)
    case ExpiryTo(time) => g.(expiresAt := time)
    case AttestationTo(attestation) => g.(attestation := attestation)
  }

  /** What is wrong with a child of `parent` that is right but for the edited field. */
  function Fault(hash: HashFn, parent: Gco, now: Instant, e: Edit): Outcome<DerivationError> {
    match e
    case TraceIdTo(text) => Check(text == parent.traceId, TraceIdChanged)
    case SpanIdTo(_) => Pass
    case ParentSpanTo(span) => Check(span == Some(parent.spanId), ParentLinkageInvalid)
    case PolicyIdTo(text) => Check(text == parent.policyId, PolicyIdChanged)
    case ModelIdentityTo(text) => Check(text == parent.modelIdentity, ModelIdentityChanged)
    case InterventionTo(text) => Check(text == parent.interventionVersion, InterventionChanged)
    case VersionTo(text) => Check(Major(text) == Major(parent.gcoVersion), VersionMismatch)
    case LineageTo(lineage) =>
      if |lineage| > 128 then Fail(LineageFlooded)
      else if !(parent.lineage < lineage && |lineage| == |parent.lineage| + 1) then Fail(LineageAppendFailed)
      else Check(lineage == parent.lineage + [CanonicalHash(hash, parent)], CanonicalHashMismatch)
    case ExpiryTo(time) =>
      if Less(parent.expiresAt, time) then Fail(ExpiryExtended) else Check(Less(now, time), Expired)
    case AttestationTo(attestation) =>
      Check(attestation.Some? && attestation.value.value != "", AttestationMissing)
  }

  /** A valid child with one field replaced is refused with that field's own error, or is still valid;
      only its own span identifier may be anything. */
  lemma OneFieldEdited(hash: HashFn, parent: Gco, child: Gco, now: Instant, e: Edit)
    requires Validate(hash, parent, child, now).Pass?
    ensures Validate(hash, parent, Edited(child, e), now) == Fault(hash, parent, now, e)
  {
    hide CanonicalHash, HasDuplicates, CheckTools, CheckPermissions, Major, UtcTime.Key;
    if e.LineageTo? {
      LineageEdited(hash, parent, Edited(child, e));
    }
  }

  lemma LineageEdited(hash: HashFn, parent: Gco, child: Gco)
    ensures CheckLineage(hash, parent, child) ==
      if |child.lineage| > 128 then Fail(LineageFlooded)
      else if !(parent.lineage < child.lineage && |child.lineage| == |parent.lineage| + 1) then
        Fail(LineageAppendFailed)
      else Check(child.lineage == parent.lineage + [CanonicalHash(hash, parent)], CanonicalHashMismatch)
  {
    hide CanonicalHash;
    SnocMeans(child.lineage, parent.lineage, CanonicalHash(hash, parent));
  }

  lemma {:induction false} CheckToolsSnoc(held: seq<ToolAuthority>, tools: seq<ToolAuthority>, t: ToolAuthority)
    ensures CheckTools(held, tools + [t]) == CheckTools(held, tools).Then(CheckTool(held, t))
  {
    hide CheckTool;
    if tools == [] {
      assert tools + [t] == [t];
    } else {
      assert (tools + [t])[1..] == tools[1..] + [t];
      CheckToolsSnoc(held, tools[1..], t);
    }
  }

  lemma {:induction false} CheckPermissionsSnoc(held: seq<StatePermission>, permissions: seq<StatePermission>,
                                                p: StatePermission)
    ensures CheckPermissions(held, permissions + [p])
         == CheckPermissions(held, permissions).Then(CheckPermission(held, p))
  {
    hide CheckPermission;
    if permissions == [] {
      assert permissions + [p] == [p];
    } else {
      assert (permissions + [p])[1..] == permissions[1..] + [p];
      CheckPermissionsSnoc(held, permissions[1..], p);
    }
  }

  /** One more grant, for a tool or namespace not listed yet, is refused for what is wrong with it: a
      tool the parent lacks or a wider scope, a depth the parent cannot pass on. */
  lemma ToolFault(hash: HashFn, parent: Gco, child: Gco, now: Instant, t: ToolAuthority)
    requires Validate(hash, parent, child, now).Pass?
    requires forall u | u in child.toolAuthority :: u.toolUri != t.toolUri
    ensures var r := Validate(hash, parent, child.(toolAuthority := child.toolAuthority + [t]), now);
      && (r.Pass? <==> ToolWithin(parent, t))
      && (forall h | h in parent.toolAuthority && h.toolUri == t.toolUri && t.maxDepth >= h.maxDepth ::
            r == Fail(MaxDepthIncreased))
      && (forall h | h in parent.toolAuthority && h.toolUri == t.toolUri && t.maxDepth < h.maxDepth
                     && !ScopeIsSubset(t.scope, h.scope) :: r == Fail(ToolAuthorityExpanded))
      && ((forall h | h in parent.toolAuthority :: h.toolUri != t.toolUri) ==> r == Fail(ToolAuthorityExpanded))
  {
    hide CanonicalHash, CheckTools, CheckPermissions, Major, ScopeTokens, HasDuplicates, UtcTime.Key;
    var extended := child.(toolAuthority := child.toolAuthority + [t]);
    BothUnambiguousMeans(parent, child);
    assert Unambiguous(extended);
    BothUnambiguousMeans(parent, extended);
    CheckToolsSnoc(parent.toolAuthority, child.toolAuthority, t);
    ToolCheckMeans(parent, t);
    forall h | h in parent.toolAuthority && h.toolUri == t.toolUri
      ensures FindLast(parent.toolAuthority, UriOf, t.toolUri) == Some(h)
    {
      FindDistinct(parent.toolAuthority, UriOf, h);
    }
  }

  lemma PermissionFault(hash: HashFn, parent: Gco, child: Gco, now: Instant, p: StatePermission)
    requires Validate(hash, parent, child, now).Pass?
    requires forall q | q in child.stateAccessPermissions :: q.namespace != p.namespace
    ensures var r := Validate(hash, parent,
                              child.(stateAccessPermissions := child.stateAccessPermissions + [p]), now);
      && (r.Pass? <==> PermissionWithin(parent, p))
      && (forall h | h in parent.stateAccessPermissions && h.namespace == p.namespace ::
            if !AccessAllows(h.accessMode, p.accessMode) then r == Fail(StatePermissionExpanded)
            else if !RankAtLeast(p.taintPolicy, h.taintPolicy) then r == Fail(TaintDowngraded)
            else r == Pass)
      && ((forall h | h in parent.stateAccessPermissions :: h.namespace != p.namespace) ==>
            r == Fail(StatePermissionExpanded))
  {
    hide CanonicalHash, CheckTools, CheckPermissions, Major, HasDuplicates, UtcTime.Key;
    var extended := child.(stateAccessPermissions := child.stateAccessPermissions + [p]);
    BothUnambiguousMeans(parent, child);
    assert Unambiguous(extended);
    BothUnambiguousMeans(parent, extended);
    CheckPermissionsSnoc(parent.stateAccessPermissions, child.stateAccessPermissions, p);
    PermissionCheckMeans(parent, p);
    forall h | h in parent.stateAccessPermissions && h.namespace == p.namespace
      ensures FindLast(parent.stateAccessPermissions, NamespaceOf, p.namespace) == Some(h)
    {
      FindDistinct(parent.stateAccessPermissions, NamespaceOf, h);
    }
  }
}
