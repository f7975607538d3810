/** The governed key-value store: access modes per namespace and a label on every key. */
module StateStore {
  import opened Wrappers
  import opened Models
  import opened Validator
  import opened Gates

  newtype Byte = b: int | 0 <= b < 0x100

  type Bytes = seq<Byte>

  /** Namespace and key. */
  type StoreKey = (string, string)

  datatype StoreState = StoreState(values: map<StoreKey, Bytes>, taints: map<StoreKey, TaintLabel>)

  const EMPTY_STORE := StoreState(map[], map[])

  datatype StoreError = NamespaceAccessDenied | StateKeyNotFound | TaintedStateRead

  /** The higher-ranked label; a label without a rank, once there, stays. */
  function HigherTaint(existing: TaintLabel, writer: TaintLabel): TaintLabel {
    if TaintRank(existing).None? then existing
    else if TaintRank(writer).None? then writer
    else if TaintRank(existing).value >= TaintRank(writer).value then existing
    else writer
  }

  predicate MayWrite(p: StatePermission) { p.accessMode == Write || p.accessMode == Append }

  predicate MayRead(p: StatePermission) { p.accessMode == AccessMode.Read || p.accessMode == Write }

  /** `write` with these permissions; a refused write leaves the store alone. */
  function StoreWrite(s: StoreState, k: StoreKey, value: Bytes, permissions: seq<StatePermission>)
    : Result<StoreState, StoreError>
  {
    match GrantFor(permissions, k.0)
    case None => Err(NamespaceAccessDenied)
    case Some(p) =>
      if !MayWrite(p) then Err(NamespaceAccessDenied)
      else if p.accessMode == Append && k in s.values then Err(NamespaceAccessDenied)
      else
        var taint := if k in s.taints then HigherTaint(s.taints[k], p.taintPolicy) else p.taintPolicy;
        Ok(StoreState(s.values[k := value], s.taints[k := taint]))
  }

  function StoreRead(s: StoreState, k: StoreKey, permissions: seq<StatePermission>): Result<Bytes, StoreError> {
    match GrantFor(permissions, k.0)
    case None => Err(NamespaceAccessDenied)
    case Some(p) =>
      if !MayRead(p) then Err(NamespaceAccessDenied)
      else if k !in s.values || k !in s.taints then Err(StateKeyNotFound)
      else
        var stored, reader := TaintRank(s.taints[k]), TaintRank(p.taintPolicy);
        if stored.None? || stored.value > TaintRank(Sanitized).value then Err(TaintedStateRead)
        else if reader.None? || stored.value > reader.value then Err(TaintedStateRead)
        else Ok(s.values[k])
  }

  function StoreTaint(s: StoreState, k: StoreKey, permissions: seq<StatePermission>)
    : Result<TaintLabel, StoreError>
  {
    match GrantFor(permissions, k.0)
    case None => Err(NamespaceAccessDenied)
    case Some(p) =>
      if !MayRead(p) then Err(NamespaceAccessDenied)
      else if k !in s.taints then Err(StateKeyNotFound)
      else Ok(s.taints[k])
  }

  class GovernedStateStore {
    var values: map<StoreKey, Bytes>
    var taints: map<StoreKey, TaintLabel>

    constructor ()
      ensures State() == EMPTY_STORE
    {
      values := map[];
      taints := map[];
    }

    ghost function State(): StoreState
      reads this
    {
      StoreState(values, taints)
    }

    method Write(namespace: string, key: string, value: Bytes, permissions: seq<StatePermission>)
      returns (r: Outcome<StoreError>)
      modifies this
      ensures match StoreWrite(old(State()), (namespace, key), value, permissions)
              case Ok(s) => r == Pass && State() == s
              case Err(e) => r == Fail(e) && State() == old(State())
    {
      var permission := GrantFor(permissions, namespace);
      if permission.None? || !MayWrite(permission.value) {
        return Fail(NamespaceAccessDenied);
      }
      var k := (namespace, key);
      if permission.value.accessMode == Append && k in values {
        return Fail(NamespaceAccessDenied);
      }
      values := values[k := value];
      if k in taints {
        taints := taints[k := HigherTaint(taints[k], permission.value.taintPolicy)];
      } else {
        taints := taints[k := permission.value.taintPolicy];
      }
      return Pass;
    }

    method Read(namespace: string, key: string, permissions: seq<StatePermission>)
      returns (r: Result<Bytes, StoreError>)
      ensures r == StoreRead(State(), (namespace, key), permissions)
    {
      var permission := GrantFor(permissions, namespace);
      if permission.None? || !MayRead(permission.value) {
        return Err(NamespaceAccessDenied);
      }
      var k := (namespace, key);
      if k !in values || k !in taints {
        return Err(StateKeyNotFound);
      }
      var storedRank := TaintRank(taints[k]);
      if storedRank.None? || storedRank.value > TaintRank(Sanitized).value {
        return Err(TaintedStateRead);
      }
      var permissionRank := TaintRank(permission.value.taintPolicy);
      if permissionRank.None? || storedRank.value > permissionRank.value {
        return Err(TaintedStateRead);
      }
      return Ok(values[k]);
    }

    method GetTaint(namespace: string, key: string, permissions: seq<StatePermission>)
      returns (r: Result<TaintLabel, StoreError>)
      ensures r == StoreTaint(State(), (namespace, key), permissions)
    {
      var permission := GrantFor(permissions, namespace);
      if permission.None? || !MayRead(permission.value) {
        return Err(NamespaceAccessDenied);
      }
      if (namespace, key) !in taints {
        return Err(StateKeyNotFound);
      }
      return Ok(taints[(namespace, key)]);
    }
  }

  // ----- The gate in front of the store -----

  /** The permissions a write goes to the store with: in append mode the namespace's grants are
      narrowed to append. */
  function PermissionsForMode(permissions: seq<StatePermission>, namespace: string, mode: AccessMode)
    : (r: seq<StatePermission>)
    ensures |r| == |permissions|
  {
    if mode == Write then permissions
    else seq(|permissions|, i requires 0 <= i < |permissions| =>
               if permissions[i].namespace == namespace then permissions[i].(accessMode := Append)
               else permissions[i])
  }

  /** Narrowing changes the mode of the first match and nothing else about it. */
  lemma {:induction false} NarrowedGrant(permissions: seq<StatePermission>, namespace: string)
    ensures var narrowed := PermissionsForMode(permissions, namespace, Append);
      GrantFor(narrowed, namespace) ==
        if GrantFor(permissions, namespace).None? then None
        else Some(GrantFor(permissions, namespace).value.(accessMode := Append))
  {
    if permissions != [] {
      NarrowedGrant(permissions[1..], namespace);
      assert PermissionsForMode(permissions, namespace, Append)[1..]
          == PermissionsForMode(permissions[1..], namespace, Append);
    }
  }

  /** The runtime's gate and the store's own access check agree for every permission list: reading
      passes the one exactly when it passes the other; a write passes the store's check exactly when
      the gate grants append. */
  lemma GateAgreesWithStore(s: StoreState, k: StoreKey, value: Bytes, permissions: seq<StatePermission>)
    ensures StateGate(permissions, k.0, Some(AccessMode.Read)) <==>
      StoreRead(s, k, permissions) != Err(NamespaceAccessDenied)
    ensures StateGate(permissions, k.0, Some(Append)) <==>
      GrantFor(permissions, k.0).Some? && MayWrite(GrantFor(permissions, k.0).value)
    ensures StateGate(permissions, k.0, Some(Write)) ==>
      StoreWrite(s, k, value, PermissionsForMode(permissions, k.0, Write)).Ok?
    ensures StateGate(permissions, k.0, Some(Append)) ==>
      (StoreWrite(s, k, value, PermissionsForMode(permissions, k.0, Append)).Ok? <==> k !in s.values)
  {
    NarrowedGrant(permissions, k.0);
  }

  // ----- When the store accepts -----

  /** A write is accepted exactly when the first permission for the namespace is WRITE, or is APPEND and the
      key is new; every refusal is a denial. What is stored is the value, under one of the two labels. */
  lemma StoreWriteMeans(s: StoreState, k: StoreKey, value: Bytes, permissions: seq<StatePermission>)
    ensures var r := StoreWrite(s, k, value, permissions);
      && (r.Ok? <==> exists i :: GrantAt(permissions, k.0, i)
                                 && (permissions[i].accessMode == Write
                                     || (permissions[i].accessMode == Append && k !in s.values)))
      && (r.Err? ==> r.error == NamespaceAccessDenied)
      && (r.Ok? ==> && r.value.values == s.values[k := value]
                    && r.value.taints.Keys == s.taints.Keys + {k}
                    && forall o | o in s.taints && o != k :: r.value.taints[o] == s.taints[o])
      && (r.Ok? ==> forall i | GrantAt(permissions, k.0, i) ::
            if k in s.taints then r.value.taints[k] in {s.taints[k], permissions[i].taintPolicy}
            else r.value.taints[k] == permissions[i].taintPolicy)
  {
    hide FindFirst, TaintRank;
    var grant := GrantFor(permissions, k.0);
    if grant.Some? {
      GrantForMeans(permissions, k.0, grant.value);
      var g :| GrantAt(permissions, k.0, g) && permissions[g] == grant.value;
      forall i | GrantAt(permissions, k.0, i) ensures i == g { }
    } else {
      forall i | GrantAt(permissions, k.0, i) ensures false { GrantForMeans(permissions, k.0, permissions[i]); }
    }
  }

  /** A read gives the stored value exactly when the first permission for the namespace is READ or WRITE, the
      key is there, and its label is CLEAN, or SANITIZED under a permission that is not CLEAN and has a rank.
      It is refused as tainted when only the label stands in the way, as missing when only the key is. */
  lemma StoreReadExactly(s: StoreState, k: StoreKey, permissions: seq<StatePermission>)
    ensures var r := StoreRead(s, k, permissions);
      var granted := exists i :: GrantAt(permissions, k.0, i) && permissions[i].accessMode in {AccessMode.Read, Write};
      var there := k in s.values && k in s.taints;
      && (!granted ==> r == Err(NamespaceAccessDenied))
      && (granted && !there ==> r == Err(StateKeyNotFound))
      && (granted && there ==> forall i | GrantAt(permissions, k.0, i) ::
            var mine := permissions[i].taintPolicy;
            r == if !mine.Unranked? && (s.taints[k] == Clean || (s.taints[k] == Sanitized && mine != Clean))
                 then Ok(s.values[k]) else Err(TaintedStateRead))
  {
    hide FindFirst;
    var grant := GrantFor(permissions, k.0);
    if grant.Some? {
      GrantForMeans(permissions, k.0, grant.value);
      var g :| GrantAt(permissions, k.0, g) && permissions[g] == grant.value;
      forall i | GrantAt(permissions, k.0, i) ensures i == g { }
    } else {
      forall i | GrantAt(permissions, k.0, i) ensures false { GrantForMeans(permissions, k.0, permissions[i]); }
    }
  }
}
