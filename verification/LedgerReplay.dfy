/** Reading the ledger's history: which policies are active, now or as of an earlier instant. */
module LedgerReplay {
  import opened Wrappers
  import opened Text
  import opened Clock
  import opened Models
  import opened LedgerRecord

  function PolicyOf(r: Record): string { r.policyId }

  /** Applies events in order: a deactivation removes the policy, anything else replaces it. */
  function Active(records: seq<Record>): map<string, Record> {
    if records == [] then map[]
    else
      var front, r := Active(records[..|records| - 1]), records[|records| - 1];
      if r.eventType == Deactivate then front - {r.policyId} else front[r.policyId := r]
  }

  /** The last event of a policy, searching backwards. */
  function Latest(records: seq<Record>, policyId: string): Option<Record> {
    FindLast(records, PolicyOf, policyId)
  }

  /** `records[i]` is the last event of its policy. */
  predicate IsLast(records: seq<Record>, i: int) {
    && 0 <= i < |records|
    && forall j | i < j < |records| :: records[j].policyId != records[i].policyId
  }

  lemma {:induction false} LatestIndex(records: seq<Record>, policyId: string) returns (i: int)
    requires Latest(records, policyId).Some?
    ensures IsLast(records, i) && records[i].policyId == policyId
    ensures Latest(records, policyId) == Some(records[i])
    decreases |records|
  {
    var n := |records| - 1;
    if records[n].policyId == policyId {
      i := n;
    } else {
      i := LatestIndex(records[..n], policyId);
    }
  }

  lemma {:induction false} LastIsLatest(records: seq<Record>, i: int)
    requires IsLast(records, i)
    ensures Latest(records, records[i].policyId) == Some(records[i])
    decreases |records|
  {
    var n := |records| - 1;
    if i < n {
      assert records[n].policyId != records[i].policyId;
      assert IsLast(records[..n], i);
      LastIsLatest(records[..n], i);
    }
  }

  /** The backwards search finds the event that no later event of its policy follows. */
  lemma LatestMeans(records: seq<Record>, policyId: string, r: Record)
    ensures Latest(records, policyId) == Some(r) <==>
      exists i :: IsLast(records, i) && records[i] == r && r.policyId == policyId
  {
    hide Latest;
    if Latest(records, policyId) == Some(r) {
      var i := LatestIndex(records, policyId);
    }
    if i :| IsLast(records, i) && records[i] == r && r.policyId == policyId {
      LastIsLatest(records, i);
    }
  }

  /** Folding forwards and searching backwards agree: a policy is active exactly when its last event
      is not a deactivation, and then the active record is that event. */
  lemma {:induction false} ActiveIsLatest(records: seq<Record>, policyId: string)
    ensures policyId in Active(records) <==>
      Latest(records, policyId).Some? && Latest(records, policyId).value.eventType != Deactivate
    ensures policyId in Active(records) ==> Active(records)[policyId] == Latest(records, policyId).value
    decreases |records|
  {
    if records != [] {
      ActiveIsLatest(records[..|records| - 1], policyId);
    }
  }

  // ----- As of an instant -----

  /** The sort key: recorded time, then sequence, then event identifier. */
  predicate NoLater(a: Record, b: Record) {
    if a.recordedAt.Key() != b.recordedAt.Key() then Less(a.recordedAt, b.recordedAt)
    else if a.sequence != b.sequence then a.sequence < b.sequence
    else a.eventId == b.eventId || LexLess(a.eventId, b.eventId)
  }

  /** Events sort by recorded time; at one time by sequence; at one sequence by identifier, a proper prefix
      first and otherwise by the first character that differs. */
  lemma NoLaterMeans(a: Record, b: Record)
    ensures Less(a.recordedAt, b.recordedAt) ==> NoLater(a, b) && !NoLater(b, a)
    ensures a.recordedAt == b.recordedAt && a.sequence < b.sequence ==> NoLater(a, b) && !NoLater(b, a)
    ensures a.recordedAt == b.recordedAt && a.sequence == b.sequence ==>
      (NoLater(a, b) <==>
        || a.eventId <= b.eventId
        || exists i :: FirstDiffers(a.eventId, b.eventId, i) && a.eventId[i] < b.eventId[i])
  {
    hide UtcTime.Key, LexLess;
    LexLessMeans(a.eventId, b.eventId);
  }

  lemma NoLaterOrders(a: Record, b: Record, c: Record)
    ensures NoLater(a, b) || NoLater(b, a)
    ensures NoLater(a, b) && NoLater(b, c) ==> NoLater(a, c)
  {
    hide UtcTime.Key, LexLess;
    LexTotal(a.eventId, b.eventId);
    if LexLess(a.eventId, b.eventId) && LexLess(b.eventId, c.eventId) {
      LexTransitive(a.eventId, b.eventId, c.eventId);
    }
  }

  /** `records[i]` sorts before `records[j]`: by key and, since sorting is stable, by position where
      the keys are equal. */
  predicate Before(records: seq<Record>, i: nat, j: nat)
    requires i < |records| && j < |records|
  {
    NoLater(records[i], records[j]) && (NoLater(records[j], records[i]) ==> i < j)
  }

  predicate Qualifies(records: seq<Record>, at: Instant, i: int) {
    0 <= i < |records| && Leq(records[i].recordedAt, at)
  }

  /** `order` lists the qualifying positions below `n` the way a stable sort by key does. */
  ghost predicate StableSort(records: seq<Record>, at: Instant, order: seq<nat>, n: nat) {
    && (forall i: nat :: i in order <==> i < n && Qualifies(records, at, i))
    && (forall a | 0 <= a < |order| :: order[a] < |records|)
    && (forall a, b | 0 <= a < b < |order| :: Before(records, order[a], order[b]))
  }

  /** `sorted`, as an insertion sort of positions. */
  function Insert(records: seq<Record>, order: seq<nat>, i: nat): (r: seq<nat>)
    requires i < |records| && forall a | 0 <= a < |order| :: order[a] < |records|
    ensures forall a | 0 <= a < |r| :: r[a] < |records|
  {
    if order == [] || NoLater(records[order[|order| - 1]], records[i]) then order + [i]
    else Insert(records, order[..|order| - 1], i) + [order[|order| - 1]]
  }

  function SortedUpTo(records: seq<Record>, at: Instant, n: nat): (order: seq<nat>)
    requires n <= |records|
    ensures forall a | 0 <= a < |order| :: order[a] < |records|
  {
    if n == 0 then []
    else if !Qualifies(records, at, n - 1) then SortedUpTo(records, at, n - 1)
    else Insert(records, SortedUpTo(records, at, n - 1), n - 1)
  }

  function Pick(records: seq<Record>, order: seq<nat>): (picked: seq<Record>)
    requires forall a | 0 <= a < |order| :: order[a] < |records|
    ensures |picked| == |order| && forall a | 0 <= a < |order| :: picked[a] == records[order[a]]
  {
    seq(|order|, a requires 0 <= a < |order| => records[order[a]])
  }

  /** `active_policies(at=...)` */
  function ActiveAt(records: seq<Record>, at: Instant): map<string, Record> {
    Active(Pick(records, SortedUpTo(records, at, |records|)))
  }

  lemma {:induction false} InsertMeans(records: seq<Record>, order: seq<nat>, i: nat)
    requires i < |records|
    requires forall a | 0 <= a < |order| :: order[a] < i
    requires forall a, b | 0 <= a < b < |order| :: Before(records, order[a], order[b])
    ensures var r := Insert(records, order, i);
      && (forall o: nat :: o in r <==> o in order || o == i)
      && (forall a, b | 0 <= a < b < |r| :: Before(records, r[a], r[b]))
    decreases |order|
  {
    hide NoLater;
    if order != [] {
      var n := |order| - 1;
      var front, last := order[..n], order[n];
      assert forall o: nat :: o in order <==> o in front || o == last;
      if NoLater(records[last], records[i]) {
        forall a | 0 <= a < n ensures Before(records, order[a], i) {
          assert Before(records, order[a], last);
          NoLaterOrders(records[order[a]], records[last], records[i]);
        }
      } else {
        InsertMeans(records, front, i);
        NoLaterOrders(records[last], records[i], records[i]);
        var r := Insert(records, front, i);
        forall a | 0 <= a < |r| ensures Before(records, r[a], last) {
          assert r[a] in r;
          if r[a] != i {
            var k :| 0 <= k < n && order[k] == r[a];
          }
        }
      }
    }
  }

  lemma ExtendStable(records: seq<Record>, at: Instant, order: seq<nat>, n: nat)
    requires n < |records| && StableSort(records, at, order, n)
    ensures if Qualifies(records, at, n) then StableSort(records, at, Insert(records, order, n), n + 1)
            else StableSort(records, at, order, n + 1)
  {
    hide Before, Insert, Leq;
    if Qualifies(records, at, n) {
      forall a | 0 <= a < |order| ensures order[a] < n { assert order[a] in order; }
      InsertMeans(records, order, n);
    }
  }

  lemma {:induction false} SortIsStable(records: seq<Record>, at: Instant, n: nat)
    requires n <= |records|
    ensures StableSort(records, at, SortedUpTo(records, at, n), n)
  {
    hide Before, Insert, Qualifies, StableSort;
    if n > 0 {
      SortIsStable(records, at, n - 1);
      ExtendStable(records, at, SortedUpTo(records, at, n - 1), n - 1);
    } else {
      NothingSorted(records, at);
    }
  }

  lemma NothingSorted(records: seq<Record>, at: Instant)
    ensures StableSort(records, at, [], 0)
  {
  }

  // ----- What the sorted replay means -----

  /** `records[i]` sorts last among its policy's events up to `at`. */
  predicate Governs(records: seq<Record>, at: Instant, i: int) {
    && Qualifies(records, at, i)
    && forall j | 0 <= j < |records| && j != i && records[j].policyId == records[i].policyId
                  && Qualifies(records, at, j) :: Before(records, j, i)
  }

  lemma GovernorUnique(records: seq<Record>, at: Instant, i: nat, j: nat)
    requires Governs(records, at, i) && Governs(records, at, j) && records[i].policyId == records[j].policyId
    ensures i == j
  {
    hide NoLater;
    if i != j {
      assert false;
    }
  }

  /** Some governing event of the policy is this record, and it is no deactivation. */
  ghost predicate GovernedBy(records: seq<Record>, at: Instant, policyId: string, r: Record) {
    && r.policyId == policyId && r.eventType != Deactivate
    && exists i :: Governs(records, at, i) && records[i] == r
  }

  lemma Governor(records: seq<Record>, at: Instant, policyId: string, r: Record) returns (i: nat)
    requires GovernedBy(records, at, policyId, r)
    ensures Governs(records, at, i) && Qualifies(records, at, i) && i < |records|
    ensures records[i] == r && r.policyId == policyId && r.eventType != Deactivate
  {
    hide Before, Leq;
    i :| Governs(records, at, i) && records[i] == r;
  }

  lemma LastGoverns(records: seq<Record>, at: Instant, order: seq<nat>, k: int)
    requires StableSort(records, at, order, |records|) && IsLast(Pick(records, order), k)
    ensures Governs(records, at, order[k])
  {
    hide Before, Leq;
    var i := order[k];
    assert i in order;
    forall j | 0 <= j < |records| && j != i && records[j].policyId == records[i].policyId && Qualifies(records, at, j)
      ensures Before(records, j, i)
    {
      assert j in order;
      var m :| 0 <= m < |order| && order[m] == j;
    }
  }

  lemma NoneMeansAbsent(records: seq<Record>, policyId: string, r: Record)
    requires Latest(records, policyId).None?
    ensures !(r in records && r.policyId == policyId)
  {
    assert PolicyOf(r) == r.policyId;
  }

  /** Whatever stable sort orders the qualifying events, replaying them gives each policy its greatest
      one by recorded time, sequence, identifier and position. */
  lemma SortedReplayMeans(records: seq<Record>, at: Instant, order: seq<nat>, policyId: string, r: Record)
    requires StableSort(records, at, order, |records|)
    ensures Maps(Active(Pick(records, order)), policyId, r) <==> GovernedBy(records, at, policyId, r)
  {
    hide Before, Leq, Active, Latest, Governs, Qualifies;
    var sorted := Pick(records, order);
    ActiveIsLatest(sorted, policyId);
    if Latest(sorted, policyId).Some? {
      var k := LatestIndex(sorted, policyId);
      LastGoverns(records, at, order, k);
      if GovernedBy(records, at, policyId, r) {
        var i := Governor(records, at, policyId, r);
        GovernorUnique(records, at, i, order[k]);
      }
    } else if GovernedBy(records, at, policyId, r) {
      var i := Governor(records, at, policyId, r);
      var m :| 0 <= m < |order| && order[m] == i;
      assert sorted[m] in sorted;
      NoneMeansAbsent(sorted, policyId, r);
    }
  }

  /** As of `at`, a policy is active with a record exactly when that record sorts last among the
      policy's events up to `at`, and is no deactivation. */
  lemma AsOfMeans(records: seq<Record>, at: Instant, policyId: string, r: Record)
    ensures Maps(ActiveAt(records, at), policyId, r) <==> GovernedBy(records, at, policyId, r)
  {
    hide StableSort, Active, SortedUpTo, GovernedBy;
    SortIsStable(records, at, |records|);
    SortedReplayMeans(records, at, SortedUpTo(records, at, |records|), policyId, r);
  }

  predicate Maps(m: map<string, Record>, policyId: string, r: Record) {
    policyId in m && m[policyId] == r
  }

  lemma SameMap(m: map<string, Record>, n: map<string, Record>)
    requires forall policyId, r :: Maps(m, policyId, r) <==> Maps(n, policyId, r)
    ensures m == n
  {
    forall k | k in m ensures k in n && n[k] == m[k] { assert Maps(m, k, m[k]); }
    forall k | k in n ensures k in m { assert Maps(n, k, n[k]); }
  }

  /** Events recorded after `at` change nothing as of `at`. */
  lemma LaterEventsChangeNothing(records: seq<Record>, more: seq<Record>, at: Instant)
    requires forall r | r in more :: Less(at, r.recordedAt)
    ensures ActiveAt(records + more, at) == ActiveAt(records, at)
  {
    hide ActiveAt, Governs, GovernedBy;
    var all := records + more;
    forall policyId, r ensures Maps(ActiveAt(all, at), policyId, r) <==> Maps(ActiveAt(records, at), policyId, r) {
      AsOfMeans(all, at, policyId, r);
      AsOfMeans(records, at, policyId, r);
      assert GovernedBy(all, at, policyId, r) <==> GovernedBy(records, at, policyId, r) by {
        SameGovernors(records, more, at);
        UnfoldGoverned(all, at, policyId, r);
        UnfoldGoverned(records, at, policyId, r);
      }
    }
    SameMap(ActiveAt(all, at), ActiveAt(records, at));
  }

  lemma UnfoldGoverned(records: seq<Record>, at: Instant, policyId: string, r: Record)
    ensures GovernedBy(records, at, policyId, r) <==>
      && r.policyId == policyId && r.eventType != Deactivate
      && exists i :: Governs(records, at, i) && 0 <= i < |records| && records[i] == r
  {
  }

  lemma SameGovernors(records: seq<Record>, more: seq<Record>, at: Instant)
    requires forall r | r in more :: Less(at, r.recordedAt)
    ensures forall i :: Governs(records + more, at, i) <==> Governs(records, at, i)
    ensures forall i | Governs(records, at, i) :: 0 <= i < |records|
  {
    hide UtcTime.Key, NoLater;
    var all := records + more;
    forall i | |records| <= i < |all| ensures !Qualifies(all, at, i) {
      assert all[i] in more;
    }
    forall i ensures Governs(all, at, i) <==> Governs(records, at, i) {
      if Governs(all, at, i) {
        forall j | 0 <= j < |records| && j != i && records[j].policyId == records[i].policyId
                   && Qualifies(records, at, j)
          ensures Before(records, j, i)
        {
          assert Qualifies(all, at, j) && all[j].policyId == all[i].policyId;
          assert Before(all, j, i);
        }
      } else if Governs(records, at, i) {
        forall j | 0 <= j < |all| && j != i && all[j].policyId == all[i].policyId && Qualifies(all, at, j)
          ensures Before(all, j, i)
        {
          assert Qualifies(records, at, j) && records[j].policyId == records[i].policyId;
          assert Before(records, j, i);
        }
      }
    }
  }

  // ----- When the two replays agree -----

  /** The last event appended for a policy decides it as of `at` too: if that event keeps the policy
      active it also sorts last up to `at`; if it is a deactivation, so is whatever sorts last. */
  predicate LastDecides(records: seq<Record>, at: Instant) {
    forall i | 0 <= i < |records| && IsLast(records, i) ::
      if records[i].eventType != Deactivate then Governs(records, at, i)
      else forall g | 0 <= g < |records| && Governs(records, at, g) && records[g].policyId == records[i].policyId ::
          records[g].eventType == Deactivate
  }

  lemma LastIsActive(records: seq<Record>, i: nat)
    requires IsLast(records, i) && records[i].eventType != Deactivate
    ensures Maps(Active(records), records[i].policyId, records[i])
  {
    hide Active, Latest;
    ActiveIsLatest(records, records[i].policyId);
    LastIsLatest(records, i);
  }

  lemma ActiveIndex(records: seq<Record>, policyId: string) returns (i: nat)
    requires policyId in Active(records)
    ensures IsLast(records, i) && records[i].policyId == policyId && records[i].eventType != Deactivate
    ensures Active(records)[policyId] == records[i]
  {
    hide Active, Latest;
    ActiveIsLatest(records, policyId);
    i := LatestIndex(records, policyId);
  }

  lemma LastIndex(records: seq<Record>, g: nat) returns (i: nat)
    requires g < |records|
    ensures IsLast(records, i) && records[i].policyId == records[g].policyId
  {
    hide Latest;
    if Latest(records, records[g].policyId).None? {
      NoneMeansAbsent(records, records[g].policyId, records[g]);
    }
    i := LatestIndex(records, records[g].policyId);
  }

  /** An event that is last appended, and equal to the one that sorts last, is that one. */
  lemma EqualGovernor(records: seq<Record>, at: Instant, i: nat, g: nat)
    requires IsLast(records, i) && Governs(records, at, g) && records[g] == records[i]
    ensures g == i
  {
    hide UtcTime.Key, LexLess;
    if g != i {
      assert false;
    }
  }

  lemma DecidingLastGoverns(records: seq<Record>, at: Instant, policyId: string, r: Record)
    requires LastDecides(records, at)
    ensures GovernedBy(records, at, policyId, r) <==> Maps(Active(records), policyId, r)
  {
    hide Governs, Active, Qualifies, IsLast;
    if GovernedBy(records, at, policyId, r) {
      var g := Governor(records, at, policyId, r);
      var i := LastIndex(records, g);
      LastInside(records, i);
      assert records[i].eventType != Deactivate;
      GovernorUnique(records, at, g, i);
      LastIsActive(records, i);
    }
    if Maps(Active(records), policyId, r) {
      var i := ActiveIndex(records, policyId);
      LastInside(records, i);
    }
  }

  lemma LastInside(records: seq<Record>, i: int)
    requires IsLast(records, i)
    ensures 0 <= i < |records|
  {
  }

  lemma AgreementDecides(records: seq<Record>, at: Instant, i: nat)
    requires ActiveAt(records, at) == Active(records) && IsLast(records, i)
    ensures records[i].eventType != Deactivate ==> Governs(records, at, i)
    ensures records[i].eventType == Deactivate ==>
      forall g | 0 <= g < |records| && Governs(records, at, g) && records[g].policyId == records[i].policyId ::
          records[g].eventType == Deactivate
  {
    hide Governs, Active, ActiveAt, Latest;
    var p := records[i].policyId;
    if records[i].eventType != Deactivate {
      LastIsActive(records, i);
      AsOfMeans(records, at, p, records[i]);
      var g := Governor(records, at, p, records[i]);
      EqualGovernor(records, at, i, g);
    } else {
      LastIsLatest(records, i);
      ActiveIsLatest(records, p);
      forall g | 0 <= g < |records| && Governs(records, at, g) && records[g].policyId == p
        ensures records[g].eventType == Deactivate
      {
        AsOfMeans(records, at, p, records[g]);
      }
    }
  }

  /** The as-of replay is the plain replay exactly when the last event appended for each policy also
      decides it in time order. */
  lemma ReplaysAgreeIff(records: seq<Record>, at: Instant)
    ensures ActiveAt(records, at) == Active(records) <==> LastDecides(records, at)
  {
    hide Governs, Active, ActiveAt, GovernedBy, IsLast;
    if ActiveAt(records, at) == Active(records) {
      forall i | 0 <= i < |records| && IsLast(records, i)
        ensures if records[i].eventType != Deactivate then Governs(records, at, i)
                else forall g | 0 <= g < |records| && Governs(records, at, g)
                                && records[g].policyId == records[i].policyId :: records[g].eventType == Deactivate
      {
        AgreementDecides(records, at, i);
      }
    }
    if LastDecides(records, at) {
      forall policyId, r ensures Maps(ActiveAt(records, at), policyId, r) <==> Maps(Active(records), policyId, r) {
        AsOfMeans(records, at, policyId, r);
        DecidingLastGoverns(records, at, policyId, r);
      }
      SameMap(ActiveAt(records, at), Active(records));
    }
  }

  /** Recorded times never decrease, and sequences count up. */
  predicate TimeMonotone(records: seq<Record>) {
    && (forall i, j | 0 <= i < j < |records| :: Leq(records[i].recordedAt, records[j].recordedAt))
    && (forall i | 0 <= i < |records| :: records[i].sequence == i)
  }

  /** So they agree on time-monotone ledgers, once `at` covers every event. */
  lemma AsOfIsPlainReplay(records: seq<Record>, at: Instant)
    requires TimeMonotone(records) && forall r | r in records :: Leq(r.recordedAt, at)
    ensures ActiveAt(records, at) == Active(records)
  {
    hide UtcTime.Key, Active, ActiveAt, LexLess;
    forall i | 0 <= i < |records| && IsLast(records, i)
      ensures Governs(records, at, i)
      ensures forall g | 0 <= g < |records| && Governs(records, at, g)
                         && records[g].policyId == records[i].policyId :: g == i
    {
      LastGovernsMonotone(records, at, i);
      forall g | 0 <= g < |records| && Governs(records, at, g) && records[g].policyId == records[i].policyId
        ensures g == i
      {
        GovernorUnique(records, at, g, i);
      }
    }
    ReplaysAgreeIff(records, at);
  }

  lemma LastGovernsMonotone(records: seq<Record>, at: Instant, i: nat)
    requires TimeMonotone(records) && forall r | r in records :: Leq(r.recordedAt, at)
    requires IsLast(records, i)
    ensures Governs(records, at, i)
  {
    hide UtcTime.Key, LexLess;
    assert records[i] in records;
    forall j | 0 <= j < |records| && j != i && records[j].policyId == records[i].policyId
      ensures Before(records, j, i)
    {
      assert j < i;
      assert records[j].sequence < records[i].sequence;
    }
  }

  /** Where they part: an event appended last but dated first wins the plain replay and loses the
      as-of replay. */
  lemma ReplaysCanDiffer(late: Record, early: Record, at: Instant)
    requires late.policyId == early.policyId
    requires late.eventType != Deactivate && early.eventType != Deactivate
    requires Less(early.recordedAt, late.recordedAt) && Leq(late.recordedAt, at)
    ensures Maps(Active([late, early]), early.policyId, early)
    ensures Maps(ActiveAt([late, early], at), early.policyId, late)
    ensures !LastDecides([late, early], at)
  {
    hide UtcTime.Key, ActiveAt, LexLess;
    var records := [late, early];
    assert records[..1] == [late];
    assert Before(records, 1, 0);
    assert Governs(records, at, 0);
    AsOfMeans(records, at, late.policyId, late);
    assert IsLast(records, 1) && !Before(records, 0, 1);
  }
}
