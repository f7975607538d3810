/** Delegation chains of any length: root, child, grandchild, ... each validated against the one
    before it. */
module Chains {
  import opened Wrappers
  import opened Text
  import opened Clock
  import opened Models
  import opened Validator
  import opened Gates

  predicate Link(hash: HashFn, chain: seq<Gco>, clock: seq<Instant>, i: nat)
    requires 1 <= i < |chain| == |clock|
  {
    Validate(hash, chain[i - 1], chain[i], clock[i]).Pass?
  }

  /** Every link validates, each at its own reading of the clock. */
  ghost predicate Linked(hash: HashFn, chain: seq<Gco>, clock: seq<Instant>) {
    && |chain| > 0 && |clock| == |chain|
    && forall i | 1 <= i < |chain| :: Link(hash, chain, clock, i)
  }

  /** A chain without its last link is a chain; the link itself narrows. */
  lemma Unlink(hash: HashFn, chain: seq<Gco>, clock: seq<Instant>)
    requires Linked(hash, chain, clock) && |chain| > 1
    ensures var n := |chain| - 1;
      && Linked(hash, chain[..n], clock[..n])
      && Narrows(hash, chain[n - 1], chain[n], clock[n])
  {
    hide Validate, CanonicalHash, ScopeTokens;
    var n := |chain| - 1;
    assert Link(hash, chain, clock, n);
    ValidateMeans(hash, chain[n - 1], chain[n], clock[n]);
    forall i | 1 <= i < n ensures Link(hash, chain[..n], clock[..n], i) {
      assert Link(hash, chain, clock, i);
    }
  }

  /** ... and the first GCO is a valid root. */
  ghost predicate Rooted(hash: HashFn, chain: seq<Gco>, clock: seq<Instant>) {
    Linked(hash, chain, clock) && ValidateRoot(chain[0], clock[0]).Pass?
  }

  function Last<T>(xs: seq<T>): T
    requires xs != []
  {
    xs[|xs| - 1]
  }

  // ----- What n steps of delegation keep -----

  ghost predicate ToolInherited(root: Gco, t: ToolAuthority, steps: nat) {
    exists r :: r in root.toolAuthority && r.toolUri == t.toolUri
      && r.maxDepth >= t.maxDepth + steps && ScopeIsSubset(t.scope, r.scope)
  }

  ghost predicate PermissionInherited(root: Gco, p: StatePermission) {
    exists r :: r in root.stateAccessPermissions && r.namespace == p.namespace
      && AccessAllows(r.accessMode, p.accessMode)
      && (r.taintPolicy == p.taintPolicy || RankAtLeast(p.taintPolicy, r.taintPolicy))
  }

  /** `g` holds nothing that `root` does not hold: tools with `steps` less depth, narrower scopes,
      access modes the root's mode allows, labels ranked no lower, an earlier expiry. */
  ghost predicate Within(root: Gco, g: Gco, steps: nat) {
    && (forall t | t in g.toolAuthority :: ToolInherited(root, t, steps))
    && (forall p | p in g.stateAccessPermissions :: PermissionInherited(root, p))
    && Leq(g.expiresAt, root.expiresAt)
    && SameIdentity(root, g)
  }

  lemma ToolStep(root: Gco, parent: Gco, t: ToolAuthority, steps: nat)
    requires forall h | h in parent.toolAuthority :: ToolInherited(root, h, steps)
    requires ToolWithin(parent, t)
    ensures ToolInherited(root, t, steps + 1)
  {
    hide ScopeTokens;
    var h :| h in parent.toolAuthority && h.toolUri == t.toolUri
      && t.maxDepth + 1 <= h.maxDepth && ScopeIsSubset(t.scope, h.scope);
    assert ToolInherited(root, h, steps);
  }

  lemma PermissionStep(root: Gco, parent: Gco, p: StatePermission)
    requires forall h | h in parent.stateAccessPermissions :: PermissionInherited(root, h)
    requires PermissionWithin(parent, p)
    ensures PermissionInherited(root, p)
  {
    var h :| h in parent.stateAccessPermissions && h.namespace == p.namespace
      && AccessAllows(h.accessMode, p.accessMode) && RankAtLeast(p.taintPolicy, h.taintPolicy);
    assert PermissionInherited(root, h);
  }

  lemma WithinStep(root: Gco, parent: Gco, child: Gco, steps: nat)
    requires Within(root, parent, steps)
    requires AllToolsWithin(parent, child.toolAuthority)
    requires AllPermissionsWithin(parent, child.stateAccessPermissions)
    requires Leq(child.expiresAt, parent.expiresAt) && SameIdentity(parent, child)
    ensures Within(root, child, steps + 1)
  {
    forall t | t in child.toolAuthority ensures ToolInherited(root, t, steps + 1) {
      ToolStep(root, parent, t, steps);
    }
    forall p | p in child.stateAccessPermissions ensures PermissionInherited(root, p) {
      PermissionStep(root, parent, p);
    }
  }

  lemma WithinSelf(g: Gco)
    ensures Within(g, g, 0)
  {
    assert forall t | t in g.toolAuthority :: ToolInherited(g, t, 0);
    assert forall p | p in g.stateAccessPermissions :: PermissionInherited(g, p);
  }

  /** Authority only shrinks: the last GCO of a chain of n links is within the first, with every
      tool's depth at least n lower. */
  lemma {:induction false} ChainNarrows(hash: HashFn, chain: seq<Gco>, clock: seq<Instant>)
    requires Linked(hash, chain, clock)
    ensures Within(chain[0], Last(chain), |chain| - 1)
    decreases |chain|
  {
    hide Validate, CanonicalHash, Within, AllToolsWithin, AllPermissionsWithin, Unambiguous, Major, Leq, Less;
    var n := |chain| - 1;
    if n > 0 {
      Unlink(hash, chain, clock);
      ChainNarrows(hash, chain[..n], clock[..n]);
      WithinStep(chain[0], chain[n - 1], chain[n], n - 1);
    } else {
      WithinSelf(chain[0]);
    }
  }

  lemma RootedUnambiguous(hash: HashFn, chain: seq<Gco>, clock: seq<Instant>)
    requires Rooted(hash, chain, clock)
    ensures forall i | 0 <= i < |chain| :: Unambiguous(chain[i])
  {
    ValidateRootMeans(chain[0], clock[0]);
    forall i | 0 <= i < |chain| ensures Unambiguous(chain[i]) {
      if i > 0 {
        assert Link(hash, chain, clock, i);
        ValidateMeans(hash, chain[i - 1], chain[i], clock[i]);
      }
    }
  }

  // ----- Tool calls -----

  /** If the gate lets the end of a chain call a tool, it lets the root make the same call exactly
      when the scope the root holds for the tool is not blank. */
  lemma ToolCallsReachRoot(hash: HashFn, chain: seq<Gco>, clock: seq<Instant>,
                           uri: string, requested: Option<string>, now: Instant)
    requires Rooted(hash, chain, clock)
    requires ToolGate(Last(chain), uri, requested, now)
    ensures ToolGate(chain[0], uri, requested, now) <==> !IsBlank(HeldScope(chain[0], uri))
    ensures requested.Some? ==> ScopeTokens(requested.value) <= ScopeTokens(HeldScope(chain[0], uri))
  {
    hide ScopeTokens, Validate, Unambiguous;
    var root, g := chain[0], Last(chain);
    ChainNarrows(hash, chain, clock);
    RootedDistinctTools(hash, chain, clock);
    forall t | t in g.toolAuthority ensures exists u :: u in root.toolAuthority && ToolAtMost(t, u) {
      assert ToolInherited(root, t, |chain| - 1);
      var r :| r in root.toolAuthority && r.toolUri == t.toolUri
        && r.maxDepth >= t.maxDepth + (|chain| - 1) && ScopeIsSubset(t.scope, r.scope);
      assert ToolAtMost(t, r);
    }
    CoveredCalls(g, root, uri, requested, now);
  }

  lemma RootedDistinctTools(hash: HashFn, chain: seq<Gco>, clock: seq<Instant>)
    requires Rooted(hash, chain, clock)
    ensures forall i | 0 <= i < |chain| :: Distinct(chain[i].toolAuthority, UriOf)
  {
    hide Validate, ValidateRoot;
    RootedUnambiguous(hash, chain, clock);
  }

  /** A call that names at least one operation is never possible for a descendant and impossible
      for the root. */
  lemma ToolCallsNarrow(hash: HashFn, chain: seq<Gco>, clock: seq<Instant>,
                        uri: string, requested: string, now: Instant)
    requires Rooted(hash, chain, clock)
    requires ToolGate(Last(chain), uri, Some(requested), now)
    requires ScopeTokens(requested) != {}
    ensures ToolGate(chain[0], uri, Some(requested), now)
  {
    ToolCallsReachRoot(hash, chain, clock, uri, Some(requested), now);
    TokensMeanNotBlank(HeldScope(chain[0], uri));
  }

  const EPOCH: Instant := UtcTime(2026, 1, 1, 0, 0, 0, 0)
  const LATER: Instant := UtcTime(2027, 1, 1, 0, 0, 0, 0)

  const TRACE_ID := "00000000-0000-4000-8000-000000000000"
  const ROOT_SPAN := "00000000-0000-4000-8000-000000000001"
  const CHILD_SPAN := "00000000-0000-4000-8000-000000000002"

  function Sample(span: string, parentSpan: Option<string>, scope: string, depth: nat, lineage: seq<string>): Gco {
    Gco("1.0", TRACE_ID, span, parentSpan, "policy", "spiffe://a/b", "v1",
        [ToolAuthority("urn:t", scope, depth)], [], LATER, lineage,
        Some(Attestation(JwtSvid, "token", None)))
  }

  lemma CommaHasNoTokens()
    ensures ScopeTokens(",") == {} && ScopeTokens("") == {} && !IsBlank(",")
  {
    assert CommasToSpaces(",") == " ";
    assert Words(" ") == Words("") == [];
    assert !IsSpace(","[0]);
  }

  lemma SampleChildNarrows(hash: HashFn, root: Gco, child: Gco)
    requires root == Sample(ROOT_SPAN, None, "", 2, [])
    requires child == Sample(CHILD_SPAN, Some(ROOT_SPAN), ",", 1, [CanonicalHash(hash, root)])
    ensures Narrows(hash, root, child, EPOCH)
  {
    CommaHasNoTokens();
    assert root.toolAuthority[0] in root.toolAuthority;
    assert ToolWithin(root, child.toolAuthority[0]);
    assert child.lineage == root.lineage + [CanonicalHash(hash, root)];
  }

  /** Without an operation named the law fails: the scope "," has no tokens, so it is within the
      empty scope, yet it is not blank, so the gate calls the tool available to the child only. */
  lemma AvailabilityCanGrow(hash: HashFn) returns (chain: seq<Gco>, clock: seq<Instant>)
    ensures Rooted(hash, chain, clock)
    ensures ToolGate(Last(chain), "urn:t", None, EPOCH)
    ensures !ToolGate(chain[0], "urn:t", None, EPOCH)
  {
    hide Validate, CanonicalHash, Narrows;
    var root := Sample(ROOT_SPAN, None, "", 2, []);
    var child := Sample(CHILD_SPAN, Some(ROOT_SPAN), ",", 1, [CanonicalHash(hash, root)]);
    chain, clock := [root, child], [EPOCH, EPOCH];
    CommaHasNoTokens();
    ValidateRootMeans(root, EPOCH);
    SampleChildNarrows(hash, root, child);
    ValidateMeans(hash, root, child, EPOCH);
  }

  // ----- State access -----

  /** Any mode the gate grants to the end of a chain it grants to the root, in the same namespace;
      and the label the descendant writes with ranks no lower than the root's. */
  lemma StateAccessNarrows(hash: HashFn, chain: seq<Gco>, clock: seq<Instant>,
                           namespace: string, mode: Option<AccessMode>)
    requires Rooted(hash, chain, clock)
    requires StateGate(Last(chain).stateAccessPermissions, namespace, mode)
    ensures StateGate(chain[0].stateAccessPermissions, namespace, mode)
    ensures
      var mine := GrantFor(Last(chain).stateAccessPermissions, namespace).value.taintPolicy;
      var roots := GrantFor(chain[0].stateAccessPermissions, namespace).value.taintPolicy;
      mine == roots || RankAtLeast(mine, roots)
  {
    var root := chain[0];
    var p := GrantFor(Last(chain).stateAccessPermissions, namespace).value;
    ChainNarrows(hash, chain, clock);
    RootedUnambiguous(hash, chain, clock);
    assert PermissionInherited(root, p);
    var r :| r in root.stateAccessPermissions && r.namespace == p.namespace
      && AccessAllows(r.accessMode, p.accessMode)
      && (r.taintPolicy == p.taintPolicy || RankAtLeast(p.taintPolicy, r.taintPolicy));
    FindDistinct(root.stateAccessPermissions, NamespaceOf, r);
  }

  // ----- Ancestry -----

  function Hashes(hash: HashFn, gcos: seq<Gco>): (hs: seq<string>)
    ensures |hs| == |gcos| && forall i | 0 <= i < |gcos| :: hs[i] == CanonicalHash(hash, gcos[i])
  {
    seq(|gcos|, i requires 0 <= i < |gcos| => CanonicalHash(hash, gcos[i]))
  }

  lemma HashesSnoc(hash: HashFn, gcos: seq<Gco>, g: Gco)
    ensures Hashes(hash, gcos + [g]) == Hashes(hash, gcos) + [CanonicalHash(hash, g)]
  {
    hide CanonicalHash;
  }

  /** The lineage of the end of a rooted chain lists the digests of all its ancestors, in order. */
  lemma {:induction false} LineageIsAncestry(hash: HashFn, chain: seq<Gco>, clock: seq<Instant>)
    requires Rooted(hash, chain, clock)
    ensures Last(chain).lineage == Hashes(hash, chain[..|chain| - 1])
    decreases |chain|
  {
    hide Validate, CanonicalHash;
    var n := |chain| - 1;
    if n > 0 {
      Unlink(hash, chain, clock);
      LineageIsAncestry(hash, chain[..n], clock[..n]);
      assert chain[..n][..n - 1] == chain[..n - 1];
      assert chain[..n] == chain[..n - 1] + [chain[n - 1]];
      HashesSnoc(hash, chain[..n - 1], chain[n - 1]);
    } else {
      ValidateRootMeans(chain[0], clock[0]);
    }
  }

  /** No chain is longer than the lineage limit allows, nor than any tool it still holds. */
  lemma ChainLengthBounded(hash: HashFn, chain: seq<Gco>, clock: seq<Instant>)
    requires Rooted(hash, chain, clock)
    ensures |chain| <= 129
    ensures forall t | t in Last(chain).toolAuthority ::
      exists r :: r in chain[0].toolAuthority && r.toolUri == t.toolUri && |chain| - 1 <= r.maxDepth
  {
    hide Validate, CanonicalHash;
    LineageIsAncestry(hash, chain, clock);
    ChainNarrows(hash, chain, clock);
    var n := |chain| - 1;
    if n > 0 { Unlink(hash, chain, clock); }
    forall t | t in Last(chain).toolAuthority
      ensures exists r :: r in chain[0].toolAuthority && r.toolUri == t.toolUri && n <= r.maxDepth
    {
      assert ToolInherited(chain[0], t, n);
    }
  }

  predicate SameButAttestation(g: Gco, h: Gco) {
    g.(attestation := None) == h.(attestation := None)
  }

  /** A lineage pins its history: two chains that end with equal lineages are equally long and pass
      through the same ancestors, or two of those ancestors collide under the hash. */
  lemma LineagePinsAncestry(hash: HashFn, a: seq<Gco>, clockA: seq<Instant>, b: seq<Gco>, clockB: seq<Instant>)
    requires Rooted(hash, a, clockA) && Rooted(hash, b, clockB)
    requires Last(a).lineage == Last(b).lineage
    ensures |a| == |b|
    ensures forall i | 0 <= i < |a| - 1 ::
      SameButAttestation(a[i], b[i]) || Collision(hash, CanonicalText(a[i]), CanonicalText(b[i]))
  {
    hide Validate;
    LineageIsAncestry(hash, a, clockA);
    LineageIsAncestry(hash, b, clockB);
    var n := |a| - 1;
    assert |Hashes(hash, a[..n])| == |Hashes(hash, b[..|b| - 1])|;
    forall i | 0 <= i < n
      ensures SameButAttestation(a[i], b[i]) || Collision(hash, CanonicalText(a[i]), CanonicalText(b[i]))
    {
      assert Hashes(hash, a[..n])[i] == Hashes(hash, b[..n])[i];
      assert a[..n][i] == a[i] && b[..n][i] == b[i];
      if CanonicalText(a[i]) == CanonicalText(b[i]) {
        CanonicalTextInjective(a[i], b[i]);
      }
    }
  }
}
