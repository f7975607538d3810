/** Whole runs of runtime operations, from an empty store: the store is a function of the history of
    accepted writes, and delegation bounds what that history can hold. */
module StoreRuns {
  import opened Wrappers
  import opened Clock
  import opened Models
  import opened Validator
  import opened Gates
  import opened Chains
  import opened ReplayCache
  import opened AttestationChecks
  import opened StateStore
  import opened Runtime
  import opened RuntimeRuns

  predicate Writes(v: Verifier, s: RuntimeState, op: Op) {
    op.WriteOp? && WriteStep(v, s, op.gco, op.key, op.value, op.mode, op.verifyNow, op.now).0.Allowed?
  }

  /** An accepted write to a key: the value, and the label of the writer's grant. */
  datatype Entry = Entry(value: Bytes, writerLabel: TaintLabel)

  /** What an accepted write goes through: the gate for its mode, and the store with the grant
      narrowed to that mode. */
  lemma WriteMeans(v: Verifier, s: RuntimeState, op: Op)
    requires op.WriteOp?
    ensures Writes(v, s, op) ==>
      && CoerceWriteMode(op.mode).Some?
      && StateGate(op.gco.stateAccessPermissions, op.key.0, CoerceWriteMode(op.mode))
      && GrantFor(op.gco.stateAccessPermissions, op.key.0).Some?
      && (CoerceWriteMode(op.mode) == Some(Append) ==> op.key !in s.store.values)
      && (CoerceWriteMode(op.mode) == Some(Write) ==>
            GrantFor(op.gco.stateAccessPermissions, op.key.0).value.accessMode == Write)
      && var writer := GrantFor(op.gco.stateAccessPermissions, op.key.0).value.taintPolicy;
      && Apply(v, s, op).store == StoreState(
           s.store.values[op.key := op.value],
           s.store.taints[op.key := if op.key in s.store.taints
                                    then HigherTaint(s.store.taints[op.key], writer) else writer])
    ensures !Writes(v, s, op) ==> Apply(v, s, op).store == s.store
  {
    hide VerifyStep, FindFirst, HigherTaint, ParseMode;
    NarrowedGrant(op.gco.stateAccessPermissions, op.key.0);
  }

  lemma OthersKeepStore(v: Verifier, s: RuntimeState, op: Op)
    requires !op.WriteOp?
    ensures Apply(v, s, op).store == s.store
  {
    hide VerifyStep, StoreRead, StateGate, AccessStep, ToolCallStep, SubcallStep, DeriveStep;
  }

  /** All accepted writes to a key in a run, oldest first. */
  function History(v: Verifier, cache: Option<CacheState>, ops: seq<Op>, k: StoreKey): seq<Entry> {
    if ops == [] then []
    else
      var front, op := ops[..|ops| - 1], ops[|ops| - 1];
      var s := Run(v, cache, front);
      var entries := History(v, cache, front, k);
      if Writes(v, s, op) && op.key == k then
        WriteMeans(v, s, op);
        entries + [Entry(op.value, GrantFor(op.gco.stateAccessPermissions, k.0).value.taintPolicy)]
      else entries
  }

  // ----- The join of labels -----

  /** Ranks with an absorbing top for labels that have none. */
  function Join(a: Option<nat>, b: Option<nat>): Option<nat> {
    if a.None? || b.None? then None else if a.value >= b.value then a else b
  }

  /** The join of the labels of a non-empty history. */
  function JoinAll(entries: seq<Entry>): Option<nat>
    requires entries != []
  {
    var n := |entries| - 1;
    if n == 0 then TaintRank(entries[0].writerLabel)
    else Join(JoinAll(entries[..n]), TaintRank(entries[n].writerLabel))
  }

  /** A join is at most a bound exactly when every label it joins has a rank within the bound. */
  lemma {:induction false} JoinBounded(entries: seq<Entry>, bound: nat)
    requires entries != []
    ensures JoinAll(entries).Some? && JoinAll(entries).value <= bound <==>
      forall e | e in entries :: TaintRank(e.writerLabel).Some? && TaintRank(e.writerLabel).value <= bound
    decreases |entries|
  {
    hide TaintRank;
    var n := |entries| - 1;
    if n > 0 {
      JoinBounded(entries[..n], bound);
      assert forall e :: e in entries <==> e == entries[n] || e in entries[..n];
    }
  }

  lemma HigherTaintJoins(existing: TaintLabel, writer: TaintLabel)
    ensures TaintRank(HigherTaint(existing, writer)) == Join(TaintRank(existing), TaintRank(writer))
  {
  }

  // ----- The store is its history -----

  /** A key is there when it was written, with the last value written and the join of all labels. */
  ghost predicate IsHistoryOf(store: StoreState, k: StoreKey, entries: seq<Entry>) {
    && (k in store.values <==> entries != [])
    && (k in store.taints <==> entries != [])
    && (entries != [] ==>
          && store.values[k] == entries[|entries| - 1].value
          && TaintRank(store.taints[k]) == JoinAll(entries))
  }

  lemma StoreStep(v: Verifier, s: RuntimeState, op: Op, k: StoreKey, entries: seq<Entry>)
    requires IsHistoryOf(s.store, k, entries)
    ensures !(Writes(v, s, op) && op.key == k) ==> IsHistoryOf(Apply(v, s, op).store, k, entries)
    ensures Writes(v, s, op) && op.key == k ==>
      && GrantFor(op.gco.stateAccessPermissions, k.0).Some?
      && var writerLabel := GrantFor(op.gco.stateAccessPermissions, k.0).value.taintPolicy;
      IsHistoryOf(Apply(v, s, op).store, k, entries + [Entry(op.value, writerLabel)])
  {
    hide Writes, Apply, TaintRank, HigherTaint, FindFirst, StateGate;
    if !op.WriteOp? {
      OthersKeepStore(v, s, op);
      NotAWrite(v, s, op);
    } else {
      WriteMeans(v, s, op);
      if Writes(v, s, op) && op.key == k {
        var writer := GrantFor(op.gco.stateAccessPermissions, k.0).value.taintPolicy;
        var extended := entries + [Entry(op.value, writer)];
        assert extended[..|entries|] == entries;
        if entries != [] { HigherTaintJoins(s.store.taints[k], writer); }
      }
    }
  }

  lemma NotAWrite(v: Verifier, s: RuntimeState, op: Op)
    requires !op.WriteOp?
    ensures !Writes(v, s, op)
  {
  }

  /** After any run, every key holds exactly what its accepted writes put there: the last value, and
      a label that ranks as the join of all writers' labels, an unrankable one absorbing. */
  lemma {:induction false} StoreIsHistory(v: Verifier, cache: Option<CacheState>, ops: seq<Op>, k: StoreKey)
    ensures IsHistoryOf(Run(v, cache, ops).store, k, History(v, cache, ops, k))
    decreases |ops|
  {
    hide Writes, Apply, IsHistoryOf, FindFirst;
    if ops == [] {
      assert IsHistoryOf(EMPTY_STORE, k, []) by { EmptyIsHistory(k); }
    } else {
      var front, op := ops[..|ops| - 1], ops[|ops| - 1];
      StoreIsHistory(v, cache, front, k);
      StoreStep(v, Run(v, cache, front), op, k, History(v, cache, front, k));
    }
  }

  lemma EmptyIsHistory(k: StoreKey)
    ensures IsHistoryOf(EMPTY_STORE, k, [])
  {
  }

  /** Values and labels always have the same keys. */
  lemma SameKeys(v: Verifier, cache: Option<CacheState>, ops: seq<Op>)
    ensures Run(v, cache, ops).store.values.Keys == Run(v, cache, ops).store.taints.Keys
  {
    hide Run, History;
    var store := Run(v, cache, ops).store;
    forall k ensures k in store.values.Keys <==> k in store.taints.Keys {
      StoreIsHistory(v, cache, ops, k);
    }
  }

  // ----- Reading back -----

  /** Ranks no higher than SANITIZED, nor than the reader's own label. */
  predicate ReadableBy(t: TaintLabel, reader: TaintLabel) {
    && TaintRank(t).Some? && TaintRank(reader).Some?
    && TaintRank(t).value <= TaintRank(Sanitized).value
    && TaintRank(t).value <= TaintRank(reader).value
  }

  /** In any run, a read by a verified, live reader succeeds with a value exactly when the reader may
      read the namespace, that value was the last one written to the key, and every label the key was
      ever written with was readable by the reader. */
  lemma ReadMeans(v: Verifier, cache: Option<CacheState>, ops: seq<Op>, g: Gco, k: StoreKey,
                  verifyNow: Instant, now: Instant, value: Bytes)
    requires VerifyStep(v, Run(v, cache, ops).cache, g, verifyNow).0.Pass? && Live(g, now)
    ensures ReadStep(v, Run(v, cache, ops), g, k, verifyNow, now).0 == Allowed(value) <==>
      var entries := History(v, cache, ops, k);
      var grant := GrantFor(g.stateAccessPermissions, k.0);
      && grant.Some? && MayRead(grant.value)
      && entries != [] && entries[|entries| - 1].value == value
      && forall e | e in entries :: ReadableBy(e.writerLabel, grant.value.taintPolicy)
    ensures ReadStep(v, Run(v, cache, ops), g, k, verifyNow, now).0 == Denied(ByTaint) <==>
      var entries := History(v, cache, ops, k);
      var grant := GrantFor(g.stateAccessPermissions, k.0);
      && grant.Some? && MayRead(grant.value)
      && entries != []
      && exists e :: e in entries && !ReadableBy(e.writerLabel, grant.value.taintPolicy)
  {
    hide Run, History, VerifyStep, FindFirst, Less, IsHistoryOf;
    var store, entries := Run(v, cache, ops).store, History(v, cache, ops, k);
    var grant := GrantFor(g.stateAccessPermissions, k.0);
    StoreIsHistory(v, cache, ops, k);
    StoreReadMeans(store, k, g.stateAccessPermissions, entries, value);
    StoredValue(store, k, entries);
    if entries != [] {
      StoreReadMeans(store, k, g.stateAccessPermissions, entries, entries[|entries| - 1].value);
    }
    GateAgreesWithStore(store, k, value, g.stateAccessPermissions);
  }

  lemma StoredValue(store: StoreState, k: StoreKey, entries: seq<Entry>)
    requires IsHistoryOf(store, k, entries)
    ensures k in store.values <==> entries != []
    ensures k in store.taints <==> entries != []
    ensures entries != [] ==> store.values[k] == entries[|entries| - 1].value
  {
  }

  /** In any run, a permitted look-up of a label finds one exactly when the key was ever written; the
      label ranks as the join of all writers' labels, and tells whether the value could be read. */
  lemma TaintMeans(v: Verifier, cache: Option<CacheState>, ops: seq<Op>, k: StoreKey,
                   permissions: seq<StatePermission>)
    ensures var store, entries := Run(v, cache, ops).store, History(v, cache, ops, k);
      var grant := GrantFor(permissions, k.0);
      var r := StoreTaint(store, k, permissions);
      && (r.Ok? <==> grant.Some? && MayRead(grant.value) && entries != [])
      && (r == Err(StateKeyNotFound) <==> grant.Some? && MayRead(grant.value) && entries == [])
      && (r.Ok? ==> TaintRank(r.value) == JoinAll(entries))
      && (r.Ok? ==> (StoreRead(store, k, permissions).Ok? <==> ReadableBy(r.value, grant.value.taintPolicy)))
  {
    hide Run, History, FindFirst, JoinAll;
    StoreIsHistory(v, cache, ops, k);
  }

  lemma StoreReadMeans(store: StoreState, k: StoreKey, permissions: seq<StatePermission>,
                       entries: seq<Entry>, value: Bytes)
    requires IsHistoryOf(store, k, entries)
    ensures StoreRead(store, k, permissions) == Ok(value) <==>
      var grant := GrantFor(permissions, k.0);
      && grant.Some? && MayRead(grant.value)
      && entries != [] && entries[|entries| - 1].value == value
      && forall e | e in entries :: ReadableBy(e.writerLabel, grant.value.taintPolicy)
  {
    hide FindFirst;
    var grant := GrantFor(permissions, k.0);
    if grant.Some? && entries != [] {
      var reader := TaintRank(grant.value.taintPolicy);
      JoinBounded(entries, 1);
      if reader.Some? {
        JoinBounded(entries, reader.value);
        assert forall e | e in entries :: ReadableBy(e.writerLabel, grant.value.taintPolicy) <==>
          && TaintRank(e.writerLabel).Some?
          && TaintRank(e.writerLabel).value <= 1 && TaintRank(e.writerLabel).value <= reader.value;
      } else {
        assert entries[0] in entries;
      }
    }
  }

  // ----- Overwriting -----

  /** One step changes a stored value only if it is an accepted write in mode "write", to that key,
      by a subject granted WRITE. */
  lemma OverwriteNeedsWrite(v: Verifier, s: RuntimeState, op: Op, k: StoreKey)
    requires k in s.store.values
    requires k !in Apply(v, s, op).store.values || Apply(v, s, op).store.values[k] != s.store.values[k]
    ensures Writes(v, s, op) && op.key == k && CoerceWriteMode(op.mode) == Some(Write)
    ensures GrantFor(op.gco.stateAccessPermissions, k.0).Some?
    ensures GrantFor(op.gco.stateAccessPermissions, k.0).value.accessMode == Write
  {
    hide Writes, Apply, FindFirst, StateGate, HigherTaint;
    if !op.WriteOp? {
      OthersKeepStore(v, s, op);
    } else {
      WriteMeans(v, s, op);
    }
  }

  /** In mode "append" an existing key keeps its value and its label, whatever the grant. */
  lemma AppendNeverOverwrites(v: Verifier, s: RuntimeState, op: Op)
    requires op.WriteOp? && op.mode == "append" && op.key in s.store.values
    ensures !Writes(v, s, op) && Apply(v, s, op).store == s.store
  {
    hide Writes, Apply, FindFirst, StateGate, HigherTaint;
    WriteMeans(v, s, op);
  }

  /** A stretch of a run without such a write leaves a stored value as it is. */
  lemma {:induction false} ValueStable(v: Verifier, cache: Option<CacheState>, ops: seq<Op>, more: seq<Op>, k: StoreKey)
    requires k in Run(v, cache, ops).store.values
    requires forall op | op in more && op.WriteOp? && op.key == k :: CoerceWriteMode(op.mode) != Some(Write)
    ensures k in Run(v, cache, ops + more).store.values
    ensures Run(v, cache, ops + more).store.values[k] == Run(v, cache, ops).store.values[k]
    decreases |more|
  {
    hide Writes, Apply, CoerceWriteMode, FindFirst;
    if more == [] {
      assert ops + more == ops;
    } else {
      var n := |more| - 1;
      assert (ops + more)[..|ops| + n] == ops + more[..n];
      assert forall op | op in more[..n] :: op in more;
      ValueStable(v, cache, ops, more[..n], k);
      var s := Run(v, cache, ops + more[..n]);
      assert more[n] in more;
      var t := Apply(v, s, more[n]).store;
      if k !in t.values || t.values[k] != s.store.values[k] {
        OverwriteNeedsWrite(v, s, more[n], k);
        AWriteIsAWriteOp(v, s, more[n]);
        assert false;
      }
    }
  }

  /** A stored label never falls: overwriting with a lower label keeps the higher rank, and a label
      without a rank stays without one. */
  lemma LabelNeverFalls(v: Verifier, s: RuntimeState, op: Op, k: StoreKey)
    requires k in s.store.taints
    ensures k in Apply(v, s, op).store.taints
    ensures var before, after := TaintRank(s.store.taints[k]), TaintRank(Apply(v, s, op).store.taints[k]);
      Join(before, after) == after
  {
    hide Writes, Apply, FindFirst, StateGate, HigherTaint, TaintRank;
    if !op.WriteOp? {
      OthersKeepStore(v, s, op);
    } else {
      WriteMeans(v, s, op);
      if Writes(v, s, op) {
        HigherTaintJoins(s.store.taints[k], GrantFor(op.gco.stateAccessPermissions, op.key.0).value.taintPolicy);
      }
    }
  }

  // ----- Delegation and the store -----

  /** `g` is the end of some validated chain from `root`. */
  ghost predicate DescendsFrom(hash: HashFn, root: Gco, g: Gco) {
    exists chain, clock :: Rooted(hash, chain, clock) && chain[0] == root && Last(chain) == g
  }

  /** Every accepted write to the namespace comes from a descendant of the root; others may try. */
  ghost predicate OnlyDescendantsWrite(v: Verifier, cache: Option<CacheState>, root: Gco, ops: seq<Op>,
                                       namespace: string)
  {
    forall i | 0 <= i < |ops| && Writes(v, Run(v, cache, ops[..i]), ops[i]) && ops[i].key.0 == namespace ::
      DescendsFrom(v.hash, root, ops[i].gco)
  }

  /** The label, if it ranks at all, ranks no lower than the root's: it is the root's own, or a
      ranked one above it. */
  predicate AtLeast(t: TaintLabel, roots: TaintLabel) {
    t == roots || RankAtLeast(t, roots)
  }

  lemma WriterLabel(v: Verifier, s: RuntimeState, op: Op, root: Gco)
    requires Writes(v, s, op) && DescendsFrom(v.hash, root, op.gco)
    ensures GrantFor(root.stateAccessPermissions, op.key.0).Some?
    ensures GrantFor(op.gco.stateAccessPermissions, op.key.0).Some?
    ensures AtLeast(GrantFor(op.gco.stateAccessPermissions, op.key.0).value.taintPolicy,
                    GrantFor(root.stateAccessPermissions, op.key.0).value.taintPolicy)
    ensures StateGate(root.stateAccessPermissions, op.key.0, CoerceWriteMode(op.mode))
  {
    hide Link, ValidateRoot, WriteStep, Apply, FindFirst, HigherTaint, CoerceWriteMode, TaintRank;
    var chain, clock :| Rooted(v.hash, chain, clock) && chain[0] == root && Last(chain) == op.gco;
    AWriteIsAWriteOp(v, s, op);
    WriteMeans(v, s, op);
    StateAccessNarrows(v.hash, chain, clock, op.key.0, CoerceWriteMode(op.mode));
  }

  lemma AWriteIsAWriteOp(v: Verifier, s: RuntimeState, op: Op)
    requires Writes(v, s, op)
    ensures op.WriteOp?
  {
  }

  /** If only descendants of a root get to write to a namespace, every label ever written there is the
      root's or ranks at least as high, and the root itself may write there whenever it was written. */
  lemma {:induction false} LabelsBoundedByRoot(v: Verifier, cache: Option<CacheState>, ops: seq<Op>,
                                               root: Gco, k: StoreKey)
    requires OnlyDescendantsWrite(v, cache, root, ops, k.0)
    ensures History(v, cache, ops, k) != [] ==> GrantFor(root.stateAccessPermissions, k.0).Some?
    ensures forall e | e in History(v, cache, ops, k) ::
      AtLeast(e.writerLabel, GrantFor(root.stateAccessPermissions, k.0).value.taintPolicy)
    decreases |ops|
  {
    hide WriteStep, Run, FindFirst, DescendsFrom, AtLeast, StateGate, CoerceWriteMode;
    if ops != [] {
      var front, op := ops[..|ops| - 1], ops[|ops| - 1];
      forall i | 0 <= i < |front| && Writes(v, Run(v, cache, front[..i]), front[i]) && front[i].key.0 == k.0
        ensures DescendsFrom(v.hash, root, front[i].gco)
      {
        assert ops[..i] == front[..i];
      }
      LabelsBoundedByRoot(v, cache, front, root, k);
      var s := Run(v, cache, front);
      if Writes(v, s, op) && op.key == k {
        WriterLabel(v, s, op, root);
      }
    }
  }

  lemma {:induction false} JoinAtLeast(entries: seq<Entry>, roots: TaintLabel)
    requires entries != [] && forall e | e in entries :: AtLeast(e.writerLabel, roots)
    ensures TaintRank(roots).Some? ==>
      JoinAll(entries).Some? && JoinAll(entries).value >= TaintRank(roots).value
    ensures TaintRank(roots).None? ==> JoinAll(entries).None?
    decreases |entries|
  {
    hide TaintRank;
    var n := |entries| - 1;
    assert entries[n] in entries;
    if n > 0 {
      assert forall e | e in entries[..n] :: e in entries;
      JoinAtLeast(entries[..n], roots);
    }
  }

  /** ... so every label stored in that namespace ranks at least as high as the root's. */
  lemma StoredLabelsAboveRoot(v: Verifier, cache: Option<CacheState>, ops: seq<Op>, root: Gco, k: StoreKey)
    requires OnlyDescendantsWrite(v, cache, root, ops, k.0)
    requires k in Run(v, cache, ops).store.taints
    ensures GrantFor(root.stateAccessPermissions, k.0).Some?
    ensures var roots := TaintRank(GrantFor(root.stateAccessPermissions, k.0).value.taintPolicy);
      var stored := TaintRank(Run(v, cache, ops).store.taints[k]);
      if roots.None? then stored.None? else stored.Some? && stored.value >= roots.value
  {
    hide Run, History, FindFirst, AtLeast, DescendsFrom, JoinAll, TaintRank;
    StoreIsHistory(v, cache, ops, k);
    LabelsBoundedByRoot(v, cache, ops, root, k);
    JoinAtLeast(History(v, cache, ops, k), GrantFor(root.stateAccessPermissions, k.0).value.taintPolicy);
  }

  /** ... and if the root's label there is TAINTED, ISOLATED or unrankable, nobody ever reads
      anything from that namespace, in any run. */
  lemma QuarantineHolds(v: Verifier, cache: Option<CacheState>, ops: seq<Op>, root: Gco,
                        g: Gco, k: StoreKey, verifyNow: Instant, now: Instant)
    requires OnlyDescendantsWrite(v, cache, root, ops, k.0)
    requires GrantFor(root.stateAccessPermissions, k.0).Some? ==>
      GrantFor(root.stateAccessPermissions, k.0).value.taintPolicy !in {Clean, Sanitized}
    ensures ReadStep(v, Run(v, cache, ops), g, k, verifyNow, now).0.Denied?
  {
    hide Run, History, FindFirst, AtLeast, DescendsFrom, JoinAll, VerifyStep, StateGate, Less, OnlyDescendantsWrite;
    var s := Run(v, cache, ops);
    if k in s.store.taints {
      StoredLabelsAboveRoot(v, cache, ops, root, k);
    }
  }
}
