/** The runtime's authorisation gates, once the attestation has been verified. */
module Gates {
  import opened Wrappers
  import opened Text
  import opened Clock
  import opened Models
  import opened Validator

  predicate Live(g: Gco, now: Instant) { Less(now, g.expiresAt) }

  /** Can a grant serve the request? A blank scope serves nothing; no request asks only whether the
      tool is there. */
  predicate Serves(t: ToolAuthority, requested: Option<string>) {
    && t.maxDepth > 0
    && !IsBlank(t.scope)
    && (requested.Some? ==> ScopeIsSubset(requested.value, t.scope))
  }

  /** The search loop: the first grant for the tool with depth left and a non-blank scope decides. */
  predicate SearchTools(tools: seq<ToolAuthority>, uri: string, requested: Option<string>) {
    if tools == [] then false
    else if tools[0].toolUri == uri && tools[0].maxDepth > 0 && !IsBlank(tools[0].scope) then
      requested.None? || ScopeIsSubset(requested.value, tools[0].scope)
    else SearchTools(tools[1..], uri, requested)
  }

  predicate ToolGate(g: Gco, uri: string, requested: Option<string>, now: Instant) {
    Live(g, now) && SearchTools(g.toolAuthority, uri, requested)
  }

  /** The grant is for the tool, with depth left and a scope that is not blank. */
  predicate Usable(t: ToolAuthority, uri: string) {
    t.toolUri == uri && t.maxDepth > 0 && !IsBlank(t.scope)
  }

  /** `tools[i]` is the first usable grant for the tool. */
  predicate FirstUsable(tools: seq<ToolAuthority>, uri: string, i: int) {
    && 0 <= i < |tools| && Usable(tools[i], uri)
    && forall j | 0 <= j < i :: !Usable(tools[j], uri)
  }

  /** The search finds whether the first usable grant serves the request: a later one with a wider
      scope does not help. */
  lemma {:induction false} SearchMeans(tools: seq<ToolAuthority>, uri: string, requested: Option<string>)
    ensures SearchTools(tools, uri, requested) <==>
      exists i :: FirstUsable(tools, uri, i) && Serves(tools[i], requested)
  {
    hide IsBlank, ScopeIsSubset;
    if tools != [] {
      var rest := tools[1..];
      SearchMeans(rest, uri, requested);
      if Usable(tools[0], uri) {
        assert FirstUsable(tools, uri, 0);
      } else {
        forall i ensures FirstUsable(tools, uri, i + 1) <==> FirstUsable(rest, uri, i) {
          assert 0 <= i < |rest| ==> tools[i + 1] == rest[i];
          assert forall j | 0 <= j < |rest| :: rest[j] == tools[j + 1];
          if FirstUsable(rest, uri, i) {
            forall j | 0 <= j < i + 1 ensures !Usable(tools[j], uri) {
              if j > 0 { assert tools[j] == rest[j - 1]; }
            }
          }
        }
        if SearchTools(tools, uri, requested) {
          var i :| FirstUsable(rest, uri, i) && Serves(rest[i], requested);
          assert FirstUsable(tools, uri, i + 1);
        }
        if i :| FirstUsable(tools, uri, i) && Serves(tools[i], requested) {
          assert FirstUsable(tools, uri, i - 1 + 1);
          assert rest[i - 1] == tools[i];
        }
      }
    }
  }

  /** With one grant per tool, the search finds whether some grant serves the request. */
  lemma SearchDistinct(tools: seq<ToolAuthority>, uri: string, requested: Option<string>)
    requires Distinct(tools, UriOf)
    ensures SearchTools(tools, uri, requested) <==>
      exists t :: t in tools && t.toolUri == uri && Serves(t, requested)
  {
    hide IsBlank, ScopeIsSubset, SearchTools;
    SearchMeans(tools, uri, requested);
    if t :| t in tools && t.toolUri == uri && Serves(t, requested) {
      var i :| 0 <= i < |tools| && tools[i] == t;
      forall j | 0 <= j < i ensures !Usable(tools[j], uri) {
        assert UriOf(tools[j]) != UriOf(tools[i]);
      }
      assert FirstUsable(tools, uri, i);
    }
  }

  // ----- One GCO's grants covered by another's -----

  predicate ToolAtMost(t: ToolAuthority, u: ToolAuthority) {
    t.toolUri == u.toolUri && ScopeIsSubset(t.scope, u.scope) && t.maxDepth <= u.maxDepth
  }

  /** The scope a GCO holds for a tool; none is like blank. */
  function HeldScope(g: Gco, uri: string): string {
    match FindFirst(g.toolAuthority, UriOf, uri)
    case None => ""
    case Some(t) => t.scope
  }

  /** If every tool grant of `g` is covered by one of `h`, and `h` lives as long, then a call the gate
      allows to `g` it allows to `h` exactly when the scope `h` holds for the tool is not blank. */
  lemma CoveredCalls(g: Gco, h: Gco, uri: string, requested: Option<string>, now: Instant)
    requires Distinct(g.toolAuthority, UriOf) && Distinct(h.toolAuthority, UriOf)
    requires forall t | t in g.toolAuthority :: exists u :: u in h.toolAuthority && ToolAtMost(t, u)
    requires Leq(g.expiresAt, h.expiresAt)
    requires ToolGate(g, uri, requested, now)
    ensures ToolGate(h, uri, requested, now) <==> !IsBlank(HeldScope(h, uri))
    ensures requested.Some? ==> ScopeTokens(requested.value) <= ScopeTokens(HeldScope(h, uri))
  {
    hide ScopeTokens, UtcTime.Key;
    SearchDistinct(g.toolAuthority, uri, requested);
    var t :| t in g.toolAuthority && t.toolUri == uri && Serves(t, requested);
    var u :| u in h.toolAuthority && ToolAtMost(t, u);
    FindDistinct(h.toolAuthority, UriOf, u);
    SearchDistinct(h.toolAuthority, uri, requested);
    if ToolGate(h, uri, requested, now) {
      var s :| s in h.toolAuthority && s.toolUri == uri && Serves(s, requested);
      FindDistinct(h.toolAuthority, UriOf, s);
    } else {
      assert !Serves(u, requested);
    }
  }

  /** `AccessMode(str(mode))`: an unknown name is no mode. */
  function ParseMode(name: string): Option<AccessMode> {
    if name == "none" then Some(NoAccess)
    else if name == "read" then Some(AccessMode.Read)
    else if name == "append" then Some(Append)
    else if name == "write" then Some(Write)
    else None
  }

  function GrantFor(permissions: seq<StatePermission>, namespace: string): Option<StatePermission> {
    FindFirst(permissions, NamespaceOf, namespace)
  }

  predicate StateGate(permissions: seq<StatePermission>, namespace: string, mode: Option<AccessMode>) {
    match GrantFor(permissions, namespace)
    case None => false
    case Some(p) => mode.Some? && mode.value != NoAccess && AccessAllows(p.accessMode, mode.value)
  }

  /** The four mode names are the texts of the modes, and nothing else is one. */
  lemma ParseModeMeans(name: string, mode: AccessMode)
    ensures ParseMode(name) == Some(mode) <==> name == AccessText(mode)
  {
    var names := ["none", "read", "append", "write"];
    assert names[0][0] == 'n' && names[1][0] == 'r' && names[2][0] == 'a' && names[3][0] == 'w';
  }

  /** The permission for a namespace is the first one listed. */
  predicate GrantAt(permissions: seq<StatePermission>, namespace: string, i: int) {
    0 <= i < |permissions| && permissions[i].namespace == namespace
      && forall j | 0 <= j < i :: permissions[j].namespace != namespace
  }

  lemma GrantForMeans(permissions: seq<StatePermission>, namespace: string, p: StatePermission)
    ensures GrantFor(permissions, namespace) == Some(p) <==>
      exists i :: GrantAt(permissions, namespace, i) && permissions[i] == p
  {
    hide FindFirst;
    FindFirstMeans(permissions, NamespaceOf, namespace, p);
    if i :| FirstAt(permissions, NamespaceOf, namespace, i) && permissions[i] == p {
      GrantIsFirst(permissions, namespace, i);
    }
    if i :| GrantAt(permissions, namespace, i) && permissions[i] == p {
      GrantIsFirst(permissions, namespace, i);
    }
  }

  lemma GrantIsFirst(permissions: seq<StatePermission>, namespace: string, i: int)
    ensures GrantAt(permissions, namespace, i) <==> FirstAt(permissions, NamespaceOf, namespace, i)
  {
    assert forall j | 0 <= j < |permissions| :: NamespaceOf(permissions[j]) == permissions[j].namespace;
  }

  /** The gate grants a mode exactly when it is a mode other than NONE and the first permission for the
      namespace is for that mode or for WRITE. */
  lemma StateGateMeans(permissions: seq<StatePermission>, namespace: string, mode: Option<AccessMode>)
    ensures StateGate(permissions, namespace, mode) <==>
      && mode.Some? && mode.value != NoAccess
      && exists i :: GrantAt(permissions, namespace, i) && permissions[i].accessMode in {mode.value, Write}
  {
    hide FindFirst;
    var grant := GrantFor(permissions, namespace);
    if grant.Some? {
      GrantForMeans(permissions, namespace, grant.value);
      var k :| GrantAt(permissions, namespace, k) && permissions[k] == grant.value;
      forall i | GrantAt(permissions, namespace, i) ensures i == k { }
      if mode.Some? { AccessAllowsMeans(grant.value.accessMode, mode.value); }
    } else {
      forall i | GrantAt(permissions, namespace, i) ensures false {
        GrantForMeans(permissions, namespace, permissions[i]);
      }
    }
  }
}
