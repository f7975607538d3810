/** Governance Context Objects and the text their digest is taken of. */
module Models {
  import opened Wrappers
  import opened Text
  import opened Json
  import opened Clock

  /** SHA-256 in hexadecimal. */
  type Digest = s: string | IsDigest(s) witness seq(64, _ => '0')

  predicate IsDigest(s: string) {
    |s| == 64 && forall i | 0 <= i < 64 :: '0' <= s[i] <= '9' || 'a' <= s[i] <= 'f'
  }

  /** SHA-256 of the UTF-8 bytes of a text: any function from texts to digests. */
  type HashFn = string -> Digest

  datatype AccessMode = NoAccess | Read | Append | Write

  /** The four declared labels, and any other value that found its way into a label field. */
  datatype TaintPolicy = Clean | Sanitized | Tainted | Isolated | Unranked(text: string)

  predicate IsLabel(t: TaintPolicy) {
    t.Unranked? ==> t.text !in {"clean", "sanitized", "tainted", "isolated"}
  }

  type TaintLabel = t: TaintPolicy | IsLabel(t) witness Clean

  datatype AttestationFormat = JwtSvid | X509Svid | RawJws | TpmQuote

  datatype Attestation = Attestation(format: AttestationFormat, value: string, issuer: Option<string>)

  datatype ToolAuthority = ToolAuthority(toolUri: string, scope: string, maxDepth: nat)

  datatype StatePermission =
    StatePermission(namespace: string, accessMode: AccessMode, taintPolicy: TaintLabel)

  datatype Gco = Gco(
    gcoVersion: string,
    traceId: string,
    spanId: string,
    parentSpanId: Option<string>,
    policyId: string,
    modelIdentity: string,
    interventionVersion: string,
    toolAuthority: seq<ToolAuthority>,
    stateAccessPermissions: seq<StatePermission>,
    expiresAt: Instant,
    lineage: seq<string>,
    attestation: Option<Attestation>)

  // ----- The digest of a GCO -----

  function AccessText(m: AccessMode): string {
    match m
    case NoAccess => "none"
    case Read => "read"
    case Append => "append"
    case Write => "write"
  }

  function TaintText(t: TaintLabel): string {
    match t
    case Clean => "clean"
    case Sanitized => "sanitized"
    case Tainted => "tainted"
    case Isolated => "isolated"
    case Unranked(text) => text
  }

  function OptionalText(s: Option<string>): Json {
    if s.None? then Null else Str(s.value)
  }

  function ToolJson(t: ToolAuthority): Json {
    Obj([("max_depth", Num(t.maxDepth)), ("scope", Str(t.scope)), ("tool_uri", Str(t.toolUri))])
  }

  function PermissionJson(p: StatePermission): Json {
    Obj([("access_mode", Str(AccessText(p.accessMode))),
         ("namespace", Str(p.namespace)),
         ("taint_policy", Str(TaintText(p.taintPolicy)))])
  }

  function ArrayOf<T>(f: T -> Json, xs: seq<T>): Json {
    Arr(seq(|xs|, i requires 0 <= i < |xs| => f(xs[i])))
  }

  function StrJson(s: string): Json { Str(s) }

  /** Every field but the attestation, in key order. */
  function Payload(g: Gco): Json {
    Obj([("expires_at", Str(Iso(g.expiresAt))),
         ("gco_version", Str(g.gcoVersion)),
         ("intervention_version", Str(g.interventionVersion)),
         ("lineage", ArrayOf(StrJson, g.lineage)),
         ("model_identity", Str(g.modelIdentity)),
         ("parent_span_id", OptionalText(g.parentSpanId)),
         ("policy_id", Str(g.policyId)),
         ("span_id", Str(g.spanId)),
         ("state_access_permissions", ArrayOf(PermissionJson, g.stateAccessPermissions)),
         ("tool_authority", ArrayOf(ToolJson, g.toolAuthority)),
         ("trace_id", Str(g.traceId))])
  }

  function CanonicalText(g: Gco): string { Encode(Payload(g), true) }

  function CanonicalHash(hash: HashFn, g: Gco): Digest { hash(CanonicalText(g)) }

  /** Two different texts with one digest. */
  predicate Collision(hash: HashFn, text: string, other: string) {
    text != other && hash(text) == hash(other)
  }

  ghost predicate Injective<T(!new)>(f: T -> Json) {
    forall x, y :: f(x) == f(y) ==> x == y
  }

  lemma ArrayOfInjective<T(!new)>(f: T -> Json, xs: seq<T>, ys: seq<T>)
    requires Injective(f) && ArrayOf(f, xs) == ArrayOf(f, ys)
    ensures xs == ys
  {
    var a, b := ArrayOf(f, xs).items, ArrayOf(f, ys).items;
    assert |a| == |b|;
    forall i | 0 <= i < |xs| ensures xs[i] == ys[i] {
      assert a[i] == b[i];
    }
  }

  lemma AccessTextInjective(m: AccessMode, n: AccessMode)
    requires AccessText(m) == AccessText(n)
    ensures m == n
  {
    assert AccessText(m)[0] == AccessText(n)[0];
  }

  lemma TaintTextInjective(s: TaintLabel, t: TaintLabel)
    requires TaintText(s) == TaintText(t)
    ensures s == t
  {
    assert |TaintText(s)| == |TaintText(t)|;
    assert TaintText(s) != "" ==> TaintText(s)[0] == TaintText(t)[0];
  }

  lemma PermissionJsonInjective()
    ensures Injective(PermissionJson)
  {
    forall p, q | PermissionJson(p) == PermissionJson(q) ensures p == q {
      var a, b := PermissionJson(p).fields, PermissionJson(q).fields;
      assert a[0].1.s == b[0].1.s && a[1].1.s == b[1].1.s && a[2].1.s == b[2].1.s;
      AccessTextInjective(p.accessMode, q.accessMode);
      TaintTextInjective(p.taintPolicy, q.taintPolicy);
    }
  }

  lemma ToolJsonInjective()
    ensures Injective(ToolJson)
  {
    forall p, q | ToolJson(p) == ToolJson(q) ensures p == q {
      var a, b := ToolJson(p).fields, ToolJson(q).fields;
      assert a[0].1.n == b[0].1.n && a[1].1.s == b[1].1.s && a[2].1.s == b[2].1.s;
    }
  }

  lemma PayloadParts(g: Gco, h: Gco)
    requires Payload(g) == Payload(h)
    ensures Iso(g.expiresAt) == Iso(h.expiresAt)
    ensures g.gcoVersion == h.gcoVersion && g.interventionVersion == h.interventionVersion
    ensures ArrayOf(StrJson, g.lineage) == ArrayOf(StrJson, h.lineage)
    ensures g.modelIdentity == h.modelIdentity && g.parentSpanId == h.parentSpanId
    ensures g.policyId == h.policyId && g.spanId == h.spanId && g.traceId == h.traceId
    ensures ArrayOf(PermissionJson, g.stateAccessPermissions) == ArrayOf(PermissionJson, h.stateAccessPermissions)
    ensures ArrayOf(ToolJson, g.toolAuthority) == ArrayOf(ToolJson, h.toolAuthority)
  {
    var a, b := Payload(g).fields, Payload(h).fields;
    assert a[0] == b[0] && a[1] == b[1] && a[2] == b[2] && a[3] == b[3];
    assert a[4] == b[4] && a[5] == b[5] && a[6] == b[6] && a[7] == b[7];
    assert a[8] == b[8] && a[9] == b[9] && a[10] == b[10];
  }

  lemma PayloadInjective(g: Gco, h: Gco)
    requires Payload(g) == Payload(h)
    ensures g.(attestation := None) == h.(attestation := None)
  {
    PayloadParts(g, h);
    IsoRoundTrip(g.expiresAt);
    IsoRoundTrip(h.expiresAt);
    ArrayOfInjective(StrJson, g.lineage, h.lineage);
    PermissionJsonInjective();
    ArrayOfInjective(PermissionJson, g.stateAccessPermissions, h.stateAccessPermissions);
    ToolJsonInjective();
    ArrayOfInjective(ToolJson, g.toolAuthority, h.toolAuthority);
  }

  /** Equal digest texts mean equal GCOs, attestation aside. */
  lemma CanonicalTextInjective(g: Gco, h: Gco)
    requires CanonicalText(g) == CanonicalText(h)
    ensures g.(attestation := None) == h.(attestation := None)
  {
    EncodeInjective(Payload(g), Payload(h), true);
    PayloadInjective(g, h);
  }

  /** The attestation is not part of the digest. */
  lemma HashIgnoresAttestation(hash: HashFn, g: Gco, att: Option<Attestation>)
    ensures CanonicalHash(hash, g.(attestation := att)) == CanonicalHash(hash, g)
  {
  }

  // ----- Lists with a key: a dict comprehension keeps the last item, a search loop the first -----

  function Keys<T>(xs: seq<T>, key: T -> string): (ks: seq<string>)
    ensures |ks| == |xs| && forall i | 0 <= i < |xs| :: ks[i] == key(xs[i])
  {
    seq(|xs|, i requires 0 <= i < |xs| => key(xs[i]))
  }

  predicate Distinct<T>(xs: seq<T>, key: T -> string) {
    forall i, j | 0 <= i < j < |xs| :: key(xs[i]) != key(xs[j])
  }

  /** `len(keys) != len(set(keys))` */
  predicate HasDuplicates<T>(xs: seq<T>, key: T -> string) {
    var ks := Keys(xs, key);
    |ks| != |set k | k in ks|
  }

  lemma {:induction false} CountDistinct(ks: seq<string>)
    ensures |set k | k in ks| <= |ks|
    ensures |set k | k in ks| == |ks| <==> forall i, j | 0 <= i < j < |ks| :: ks[i] != ks[j]
  {
    var all := set k | k in ks;
    if ks != [] {
      var n := |ks| - 1;
      var front := ks[..n];
      var s := set k | k in front;
      CountDistinct(front);
      assert ks == front + [ks[n]];
      assert all == s + {ks[n]};
      if ks[n] in front {
        assert all == s;
        var i :| 0 <= i < n && ks[i] == ks[n];
      }
    }
  }

  lemma DuplicatesIff<T>(xs: seq<T>, key: T -> string)
    ensures HasDuplicates(xs, key) <==> !Distinct(xs, key)
  {
    var ks := Keys(xs, key);
    CountDistinct(ks);
    if Distinct(xs, key) {
      assert forall i, j | 0 <= i < j < |ks| :: ks[i] != ks[j];
    } else {
      var i, j :| 0 <= i < j < |xs| && key(xs[i]) == key(xs[j]);
      assert ks[i] == ks[j];
    }
  }

  function FindLast<T>(xs: seq<T>, key: T -> string, k: string): (r: Option<T>)
    ensures r.Some? ==> r.value in xs && key(r.value) == k
    ensures r.None? ==> forall x | x in xs :: key(x) != k
  {
    if xs == [] then None
    else if key(xs[|xs| - 1]) == k then Some(xs[|xs| - 1])
    else
      var r := FindLast(xs[..|xs| - 1], key, k);
      assert forall x | x in xs :: x in xs[..|xs| - 1] || x == xs[|xs| - 1];
      r
  }

  function FindFirst<T>(xs: seq<T>, key: T -> string, k: string): (r: Option<T>)
    ensures r.Some? ==> r.value in xs && key(r.value) == k
    ensures r.None? ==> forall x | x in xs :: key(x) != k
  {
    if xs == [] then None
    else if key(xs[0]) == k then Some(xs[0])
    else FindFirst(xs[1..], key, k)
  }

  /** On a list without duplicate keys both searches find the one item there is. */
  lemma FindDistinct<T>(xs: seq<T>, key: T -> string, x: T)
    requires Distinct(xs, key) && x in xs
    ensures FindLast(xs, key, key(x)) == Some(x) && FindFirst(xs, key, key(x)) == Some(x)
  {
    var f, l := FindFirst(xs, key, key(x)).value, FindLast(xs, key, key(x)).value;
    var i :| 0 <= i < |xs| && xs[i] == x;
    var j :| 0 <= j < |xs| && xs[j] == f;
    var k :| 0 <= k < |xs| && xs[k] == l;
  }

  /** Without duplicate keys, keeping the last match and keeping the first is the same. */
  lemma SearchesAgree<T>(xs: seq<T>, key: T -> string, k: string)
    requires Distinct(xs, key)
    ensures FindLast(xs, key, k) == FindFirst(xs, key, k)
  {
    if FindFirst(xs, key, k).Some? {
      FindDistinct(xs, key, FindFirst(xs, key, k).value);
    }
  }

  function UriOf(t: ToolAuthority): string { t.toolUri }

  function NamespaceOf(p: StatePermission): string { p.namespace }

  /** `xs[i]` is the first item with this key. */
  predicate FirstAt<T>(xs: seq<T>, key: T -> string, k: string, i: int) {
    0 <= i < |xs| && key(xs[i]) == k && forall j | 0 <= j < i :: key(xs[j]) != k
  }

  predicate LastAt<T>(xs: seq<T>, key: T -> string, k: string, i: int) {
    0 <= i < |xs| && key(xs[i]) == k && forall j | i < j < |xs| :: key(xs[j]) != k
  }

  lemma {:induction false} FirstIndex<T>(xs: seq<T>, key: T -> string, k: string) returns (i: nat)
    requires FindFirst(xs, key, k).Some?
    ensures FirstAt(xs, key, k, i) && xs[i] == FindFirst(xs, key, k).value
    decreases |xs|
  {
    if key(xs[0]) == k {
      i := 0;
    } else {
      i := FirstIndex(xs[1..], key, k);
      assert forall j | 0 < j < i + 1 :: xs[j] == xs[1..][j - 1];
      i := i + 1;
    }
  }

  lemma {:induction false} LastIndex<T>(xs: seq<T>, key: T -> string, k: string) returns (i: nat)
    requires FindLast(xs, key, k).Some?
    ensures LastAt(xs, key, k, i) && xs[i] == FindLast(xs, key, k).value
    decreases |xs|
  {
    var n := |xs| - 1;
    if key(xs[n]) == k {
      i := n;
    } else {
      i := LastIndex(xs[..n], key, k);
    }
  }

  /** The search loop finds the first match ... */
  lemma FindFirstMeans<T>(xs: seq<T>, key: T -> string, k: string, x: T)
    ensures FindFirst(xs, key, k) == Some(x) <==> exists i :: FirstAt(xs, key, k, i) && xs[i] == x
  {
    hide FindFirst;
    if FindFirst(xs, key, k).Some? {
      var f := FirstIndex(xs, key, k);
      forall i | FirstAt(xs, key, k, i) ensures i == f { }
    }
  }

  /** ... and a dictionary of the list keeps the last. */
  lemma FindLastMeans<T>(xs: seq<T>, key: T -> string, k: string, x: T)
    ensures FindLast(xs, key, k) == Some(x) <==> exists i :: LastAt(xs, key, k, i) && xs[i] == x
  {
    hide FindLast;
    if FindLast(xs, key, k).Some? {
      var l := LastIndex(xs, key, k);
      forall i | LastAt(xs, key, k, i) ensures i == l { }
    }
  }

  // ----- What the digest text says -----

  function NameOf(field: (string, Json)): string { field.0 }

  /** `None` when the name is missing. */
  function Lookup(fields: seq<(string, Json)>, name: string): Option<Json> {
    match FindLast(fields, NameOf, name)
    case None => None
    case Some(field) => Some(field.1)
  }

  /** Increasing in code-point order, as `sort_keys` leaves them. */
  predicate KeySorted(names: seq<string>) {
    forall i | 0 <= i < |names| - 1 :: LexLess(names[i], names[i + 1])
  }

  predicate NamesAre(fields: seq<(string, Json)>, names: seq<string>) {
    |fields| == |names| && forall i | 0 <= i < |names| :: fields[i].0 == names[i]
  }

  lemma {:induction false} SortedLess(names: seq<string>, i: nat, j: nat)
    requires KeySorted(names) && i < j < |names|
    ensures LexLess(names[i], names[j])
    decreases j
  {
    hide LexLess;
    assert LexLess(names[j - 1], names[j]);
    if i < j - 1 {
      SortedLess(names, i, j - 1);
      LexTransitive(names[i], names[j - 1], names[j]);
    }
  }

  lemma SortedDistinct(fields: seq<(string, Json)>, names: seq<string>)
    requires NamesAre(fields, names) && KeySorted(names)
    ensures Distinct(fields, NameOf)
  {
    hide LexLess, KeySorted;
    forall i, j | 0 <= i < j < |fields| ensures NameOf(fields[i]) != NameOf(fields[j]) {
      SortedLess(names, i, j);
      LexTotal(names[i], names[j]);
    }
  }

  /** In an object with sorted names, looking a name up finds its own value. */
  lemma LookupAt(fields: seq<(string, Json)>, names: seq<string>, i: nat)
    requires NamesAre(fields, names) && KeySorted(names) && i < |names|
    ensures Lookup(fields, names[i]) == Some(fields[i].1)
  {
    hide LexLess, KeySorted;
    SortedDistinct(fields, names);
    FindDistinct(fields, NameOf, fields[i]);
  }

  const PAYLOAD_NAMES := ["expires_at", "gco_version", "intervention_version", "lineage", "model_identity",
                          "parent_span_id", "policy_id", "span_id", "state_access_permissions",
                          "tool_authority", "trace_id"]

  lemma FrontPayloadNames()
    ensures LexLess("expires_at", "gco_version") && LexLess("gco_version", "intervention_version")
    ensures LexLess("intervention_version", "lineage") && LexLess("lineage", "model_identity")
    ensures LexLess("model_identity", "parent_span_id") && LexLess("parent_span_id", "policy_id")
  {
    hide LexLess;
    assert "expires_at"[0] == 'e' && "gco_version"[0] == 'g' && "intervention_version"[0] == 'i';
    assert "lineage"[0] == 'l' && "model_identity"[0] == 'm' && "parent_span_id"[0] == 'p';
    assert "parent_span_id"[..1] == "policy_id"[..1] == "p" && "parent_span_id"[1] == 'a' && "policy_id"[1] == 'o';
    LexLessAt("expires_at", "gco_version", 0);
    LexLessAt("gco_version", "intervention_version", 0);
    LexLessAt("intervention_version", "lineage", 0);
    LexLessAt("lineage", "model_identity", 0);
    LexLessAt("model_identity", "parent_span_id", 0);
    LexLessAt("parent_span_id", "policy_id", 1);
  }

  lemma BackPayloadNames()
    ensures LexLess("policy_id", "span_id") && LexLess("span_id", "state_access_permissions")
    ensures LexLess("state_access_permissions", "tool_authority") && LexLess("tool_authority", "trace_id")
  {
    hide LexLess;
    assert "policy_id"[0] == 'p' && "span_id"[0] == 's' && "state_access_permissions"[0] == 's';
    assert "tool_authority"[0] == 't' && "trace_id"[0] == 't';
    assert "span_id"[..1] == "state_access_permissions"[..1] == "s";
    assert "span_id"[1] == 'p' && "state_access_permissions"[1] == 't';
    assert "tool_authority"[..1] == "trace_id"[..1] == "t" && "tool_authority"[1] == 'o' && "trace_id"[1] == 'r';
    LexLessAt("policy_id", "span_id", 0);
    LexLessAt("span_id", "state_access_permissions", 1);
    LexLessAt("state_access_permissions", "tool_authority", 0);
    LexLessAt("tool_authority", "trace_id", 1);
  }

  lemma PayloadNamesSorted()
    ensures KeySorted(PAYLOAD_NAMES)
  {
    hide LexLess;
    FrontPayloadNames();
    BackPayloadNames();
  }

  lemma GrantNamesSorted()
    ensures KeySorted(["max_depth", "scope", "tool_uri"])
    ensures KeySorted(["access_mode", "namespace", "taint_policy"])
  {
    hide LexLess;
    LexLessAt("max_depth", "scope", 0);
    LexLessAt("scope", "tool_uri", 0);
    LexLessAt("access_mode", "namespace", 0);
    LexLessAt("namespace", "taint_policy", 0);
  }

  /** The value as the source writes it: null for a missing text. */
  predicate TextOrNull(v: Json, text: Option<string>) {
    if text.None? then v == Null else v == Str(text.value)
  }

  /** An object with a tool's three fields. */
  predicate WritesTool(v: Json, t: ToolAuthority) {
    && v.Obj? && NamesAre(v.fields, ["max_depth", "scope", "tool_uri"])
    && Lookup(v.fields, "max_depth") == Some(Num(t.maxDepth))
    && Lookup(v.fields, "scope") == Some(Str(t.scope))
    && Lookup(v.fields, "tool_uri") == Some(Str(t.toolUri))
  }

  predicate WritesPermission(v: Json, p: StatePermission) {
    && v.Obj? && NamesAre(v.fields, ["access_mode", "namespace", "taint_policy"])
    && Lookup(v.fields, "access_mode") == Some(Str(AccessText(p.accessMode)))
    && Lookup(v.fields, "namespace") == Some(Str(p.namespace))
    && Lookup(v.fields, "taint_policy") == Some(Str(TaintText(p.taintPolicy)))
  }

  lemma GrantsWritten(t: ToolAuthority, p: StatePermission)
    ensures WritesTool(ToolJson(t), t) && WritesPermission(PermissionJson(p), p)
  {
    hide Lookup, KeySorted, AccessText, TaintText;
    GrantNamesSorted();
    var tools, permissions := ["max_depth", "scope", "tool_uri"], ["access_mode", "namespace", "taint_policy"];
    LookupAt(ToolJson(t).fields, tools, 0);
    LookupAt(ToolJson(t).fields, tools, 1);
    LookupAt(ToolJson(t).fields, tools, 2);
    LookupAt(PermissionJson(p).fields, permissions, 0);
    LookupAt(PermissionJson(p).fields, permissions, 1);
    LookupAt(PermissionJson(p).fields, permissions, 2);
  }

  predicate WritesGcoTexts(fields: seq<(string, Json)>, g: Gco) {
    && Lookup(fields, "gco_version") == Some(Str(g.gcoVersion))
    && Lookup(fields, "intervention_version") == Some(Str(g.interventionVersion))
    && Lookup(fields, "model_identity") == Some(Str(g.modelIdentity))
    && Lookup(fields, "parent_span_id").Some? && TextOrNull(Lookup(fields, "parent_span_id").value, g.parentSpanId)
    && Lookup(fields, "policy_id") == Some(Str(g.policyId))
    && Lookup(fields, "span_id") == Some(Str(g.spanId))
    && Lookup(fields, "trace_id") == Some(Str(g.traceId))
  }

  /** A list, item by item. */
  predicate WritesList<T>(v: Option<Json>, xs: seq<T>, writes: (Json, T) -> bool) {
    && v.Some? && v.value.Arr? && |v.value.items| == |xs|
    && forall i | 0 <= i < |xs| :: writes(v.value.items[i], xs[i])
  }

  predicate WritesText(v: Json, s: string) { v == Str(s) }

  predicate WritesTime(v: Option<Json>, t: Instant) { v == Some(Str(Iso(t))) }

  /** A JSON object with these names in order, each with its own field. */
  predicate WritesGco(fields: seq<(string, Json)>, g: Gco) {
    && NamesAre(fields, PAYLOAD_NAMES)
    && WritesGcoTexts(fields, g)
    && WritesTime(Lookup(fields, "expires_at"), g.expiresAt)
    && WritesList(Lookup(fields, "lineage"), g.lineage, WritesText)
    && WritesList(Lookup(fields, "state_access_permissions"), g.stateAccessPermissions, WritesPermission)
    && WritesList(Lookup(fields, "tool_authority"), g.toolAuthority, WritesTool)
  }

  lemma PayloadTexts(g: Gco)
    ensures WritesGcoTexts(Payload(g).fields, g)
  {
    hide Lookup, KeySorted, Iso, ArrayOf;
    PayloadNamesSorted();
    var fields := Payload(g).fields;
    LookupAt(fields, PAYLOAD_NAMES, 1);
    LookupAt(fields, PAYLOAD_NAMES, 2);
    LookupAt(fields, PAYLOAD_NAMES, 4);
    LookupAt(fields, PAYLOAD_NAMES, 5);
    LookupAt(fields, PAYLOAD_NAMES, 6);
    LookupAt(fields, PAYLOAD_NAMES, 7);
    LookupAt(fields, PAYLOAD_NAMES, 10);
  }

  lemma PayloadLists(g: Gco)
    ensures var fields := Payload(g).fields;
      && WritesTime(Lookup(fields, "expires_at"), g.expiresAt)
      && Lookup(fields, "lineage") == Some(ArrayOf(StrJson, g.lineage))
      && Lookup(fields, "state_access_permissions") == Some(ArrayOf(PermissionJson, g.stateAccessPermissions))
      && Lookup(fields, "tool_authority") == Some(ArrayOf(ToolJson, g.toolAuthority))
  {
    hide Lookup, KeySorted, Iso, ArrayOf;
    PayloadNamesSorted();
    var fields := Payload(g).fields;
    LookupAt(fields, PAYLOAD_NAMES, 0);
    LookupAt(fields, PAYLOAD_NAMES, 3);
    LookupAt(fields, PAYLOAD_NAMES, 8);
    LookupAt(fields, PAYLOAD_NAMES, 9);
  }

  lemma ListWritten<T>(f: T -> Json, xs: seq<T>, writes: (Json, T) -> bool)
    requires forall x | x in xs :: writes(f(x), x)
    ensures WritesList(Some(ArrayOf(f, xs)), xs, writes)
  {
  }

  lemma PayloadNamed(g: Gco)
    ensures NamesAre(Payload(g).fields, PAYLOAD_NAMES)
  {
    hide Iso, ArrayOf, OptionalText;
  }

  lemma GrantListsWritten(g: Gco)
    ensures WritesList(Some(ArrayOf(ToolJson, g.toolAuthority)), g.toolAuthority, WritesTool)
    ensures WritesList(Some(ArrayOf(PermissionJson, g.stateAccessPermissions)), g.stateAccessPermissions,
                       WritesPermission)
  {
    hide WritesTool, WritesPermission, ToolJson, PermissionJson, WritesList, ArrayOf;
    forall t | t in g.toolAuthority ensures WritesTool(ToolJson(t), t) { ToolWritten(t); }
    forall p | p in g.stateAccessPermissions ensures WritesPermission(PermissionJson(p), p) { PermissionWritten(p); }
    ListWritten(PermissionJson, g.stateAccessPermissions, WritesPermission);
    ListWritten(ToolJson, g.toolAuthority, WritesTool);
  }

  lemma PayloadWrites(g: Gco)
    ensures WritesGco(Payload(g).fields, g)
  {
    hide Payload, Lookup, WritesTool, WritesPermission, ToolJson, PermissionJson, WritesGcoTexts, WritesTime,
         WritesList, ArrayOf, NamesAre;
    PayloadTexts(g);
    PayloadLists(g);
    GrantListsWritten(g);
    ListWritten(StrJson, g.lineage, WritesText);
    PayloadNamed(g);
  }

  lemma ToolWritten(t: ToolAuthority)
    ensures WritesTool(ToolJson(t), t)
  {
    GrantsWritten(t, StatePermission("", NoAccess, Clean));
  }

  lemma PermissionWritten(p: StatePermission)
    ensures WritesPermission(PermissionJson(p), p)
  {
    GrantsWritten(ToolAuthority("", "", 0), p);
  }

  /** What the digest text says, and how: every field but the attestation, under its own name, the names
      in code-point order, ASCII only. */
  lemma CanonicalTextMeans(hash: HashFn, g: Gco) returns (fields: seq<(string, Json)>)
    ensures WritesGco(fields, g) && KeySorted(PAYLOAD_NAMES)
    ensures CanonicalHash(hash, g) == hash(Encode(Obj(fields), true))
    ensures CanonicalText(g) == Encode(Obj(fields), true) && Decode(CanonicalText(g)) == Some(Obj(fields))
  {
    hide WritesGco, Encode, Decode, KeySorted;
    fields := Payload(g).fields;
    DecodeEncode(Payload(g), true);
    PayloadWrites(g);
    PayloadNamesSorted();
  }

  /** The names of the modes and labels. */
  lemma NamesOfModes(m: AccessMode, t: TaintLabel)
    ensures AccessText(m) in ["none", "read", "append", "write"]
    ensures m == NoAccess <==> AccessText(m) == "none"
    ensures m == Read <==> AccessText(m) == "read"
    ensures m == Append <==> AccessText(m) == "append"
    ensures m == Write <==> AccessText(m) == "write"
    ensures t == Clean <==> TaintText(t) == "clean"
    ensures t == Sanitized <==> TaintText(t) == "sanitized"
    ensures t == Tainted <==> TaintText(t) == "tainted"
    ensures t == Isolated <==> TaintText(t) == "isolated"
  {
    var names := ["none", "read", "append", "write"];
    assert names[0][0] == 'n' && names[1][0] == 'r' && names[2][0] == 'a' && names[3][0] == 'w';
    assert "clean"[0] == 'c' && "sanitized"[0] == 's' && "tainted"[0] == 't' && "isolated"[0] == 'i';
  }
}
