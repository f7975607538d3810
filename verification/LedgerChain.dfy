/** The hash chain of the policy ledger, and what a sealed head pins. */
module LedgerChain {
  import opened Wrappers
  import opened Models
  import opened LedgerRecord

  const ZEROS := "0000000000000000"

  const GENESIS_PREV_HASH := ZEROS + ZEROS + ZEROS + ZEROS

  /** The predecessor the first entry names: 64 zeros. */
  lemma GenesisIs()
    ensures |GENESIS_PREV_HASH| == 64 && forall i | 0 <= i < 64 :: GENESIS_PREV_HASH[i] == '0'
  {
    assert ZEROS[0] == ZEROS[1] == ZEROS[2] == ZEROS[3] == ZEROS[4] == ZEROS[5] == ZEROS[6] == ZEROS[7] == '0';
    assert ZEROS[8] == ZEROS[9] == ZEROS[10] == ZEROS[11] == ZEROS[12] == ZEROS[13] == ZEROS[14] == ZEROS[15] == '0';
    forall i | 0 <= i < 64 ensures GENESIS_PREV_HASH[i] == '0' {
      assert GENESIS_PREV_HASH[i] == ZEROS[i % 16];
    }
  }

  datatype Break = SequenceGap | PrevHashMismatch | EntryHashMismatch

  /** The hash an entry must name as its predecessor's. */
  function PrevHash(entries: seq<Record>, i: nat): string
    requires i <= |entries|
  {
    if i == 0 then GENESIS_PREV_HASH else entries[i - 1].entryHash
  }

  /** What is wrong with entry `i`, if anything. */
  function LinkBreak(hash: HashFn, entries: seq<Record>, i: nat): Option<Break>
    requires i < |entries|
  {
    if entries[i].sequence != i then Some(SequenceGap)
    else if entries[i].prevEntryHash != PrevHash(entries, i) then Some(PrevHashMismatch)
    else if entries[i].entryHash != EntryHash(hash, entries[i]) then Some(EntryHashMismatch)
    else None
  }

  /** Entry `i` is the first that does not fit, and this is what is wrong with it. */
  predicate FirstBreak(hash: HashFn, entries: seq<Record>, i: nat, b: Break) {
    && i < |entries| && LinkBreak(hash, entries, i) == Some(b)
    && forall j | 0 <= j < i :: LinkBreak(hash, entries, j).None?
  }

  predicate ChainHolds(hash: HashFn, entries: seq<Record>) {
    forall i | 0 <= i < |entries| :: LinkBreak(hash, entries, i).None?
  }

  function Head(entries: seq<Record>): Option<string> {
    if entries == [] then None else Some(entries[|entries| - 1].entryHash)
  }

  /** `verify(expected_head=...)` */
  predicate Verifies(hash: HashFn, entries: seq<Record>, expectedHead: Option<string>) {
    ChainHolds(hash, entries) && (expectedHead.Some? ==> Head(entries) == expectedHead)
  }

  /** A chain holds exactly when every entry stands at its own sequence number, names the hash of the one
      before it, or 64 zeros, and carries the hash of its own body text. */
  lemma ChainMeans(hash: HashFn, entries: seq<Record>)
    ensures ChainHolds(hash, entries) <==> forall i | 0 <= i < |entries| ::
      && entries[i].sequence == i
      && entries[i].prevEntryHash == (if i == 0 then GENESIS_PREV_HASH else entries[i - 1].entryHash)
      && entries[i].entryHash == hash(BodyText(entries[i]))
  {
    hide BodyText;
    if ChainHolds(hash, entries) {
      forall i | 0 <= i < |entries|
        ensures entries[i].sequence == i && entries[i].entryHash == hash(BodyText(entries[i]))
        ensures entries[i].prevEntryHash == if i == 0 then GENESIS_PREV_HASH else entries[i - 1].entryHash
      {
        assert LinkBreak(hash, entries, i).None?;
      }
    }
  }

  /** What is reported of an entry: its position before its link, and its link before its own hash. */
  lemma BreakMeans(hash: HashFn, entries: seq<Record>, i: nat)
    requires i < |entries|
    ensures var inPlace := entries[i].sequence == i;
      var linked := entries[i].prevEntryHash == if i == 0 then GENESIS_PREV_HASH else entries[i - 1].entryHash;
      var sealed_ := entries[i].entryHash == hash(BodyText(entries[i]));
      && (LinkBreak(hash, entries, i) == Some(SequenceGap) <==> !inPlace)
      && (LinkBreak(hash, entries, i) == Some(PrevHashMismatch) <==> inPlace && !linked)
      && (LinkBreak(hash, entries, i) == Some(EntryHashMismatch) <==> inPlace && linked && !sealed_)
  {
    hide BodyText;
  }

  lemma PrefixHolds(hash: HashFn, entries: seq<Record>, n: nat)
    requires ChainHolds(hash, entries) && n <= |entries|
    ensures ChainHolds(hash, entries[..n])
  {
    hide EntryHash;
    forall i | 0 <= i < n ensures LinkBreak(hash, entries[..n], i).None? {
      assert LinkBreak(hash, entries, i).None?;
    }
  }

  lemma ExtendHolds(hash: HashFn, entries: seq<Record>, r: Record)
    requires ChainHolds(hash, entries)
    requires r.sequence == |entries| && r.prevEntryHash == PrevHash(entries, |entries|)
    requires r.entryHash == EntryHash(hash, r)
    ensures ChainHolds(hash, entries + [r])
  {
    hide EntryHash;
    forall i | 0 <= i <= |entries| ensures LinkBreak(hash, entries + [r], i).None? {
      if i < |entries| { assert LinkBreak(hash, entries, i).None?; }
    }
  }

  /** Two different bodies with one hash. */
  predicate BodiesCollide(hash: HashFn, a: Record, b: Record) {
    Body(a) != Body(b) && Collision(hash, BodyText(a), BodyText(b))
  }

  /** Equal entry hashes come from equal bodies or from a collision. */
  lemma SameHashSameBody(hash: HashFn, a: Record, b: Record)
    requires EntryHash(hash, a) == EntryHash(hash, b)
    ensures Body(a) == Body(b) || BodiesCollide(hash, a, b)
  {
    hide BodyText;
    if BodyText(a) == BodyText(b) {
      BodyTextInjective(a, b);
    } else if Body(a) == Body(b) {
      BodyTextOfBody(a);
      BodyTextOfBody(b);
    }
  }

  lemma BodyTextOfBody(a: Record)
    ensures BodyText(a) == BodyText(Body(a))
  {
    hide MetadataJson;
  }

  /** A sealed head pins the whole ledger: if two ledgers, of any lengths, both verify against the
      same head hash, they are the same list of records, or the entries found here have different
      bodies with one hash. Truncation, reordering and re-hashed suffixes are all covered. */
  lemma {:induction false} SealedHeadPinsLedger(hash: HashFn, a: seq<Record>, b: seq<Record>, head: string)
    returns (i: nat, j: nat)
    requires Verifies(hash, a, Some(head)) && Verifies(hash, b, Some(head))
    ensures a == b || (i < |a| && j < |b| && BodiesCollide(hash, a[i], b[j]))
    decreases |a|
  {
    hide EntryHash, BodiesCollide;
    i, j := |a| - 1, |b| - 1;
    assert LinkBreak(hash, a, i).None? && LinkBreak(hash, b, j).None?;
    SameHashSameBody(hash, a[i], b[j]);
    if Body(a[i]) == Body(b[j]) {
      assert a[i] == b[j].(entryHash := a[i].entryHash) == b[j];
      assert a == a[..i] + [a[i]] && b == b[..j] + [b[j]];
      if i > 0 {
        PrefixHolds(hash, a, i);
        PrefixHolds(hash, b, j);
        i, j := SealedHeadPinsLedger(hash, a[..i], b[..j], a[i].prevEntryHash);
      }
    }
  }

  /** A published head stays a checkpoint: a longer ledger that verifies and carries the sealed hash
      anywhere starts with the sealed ledger, or a collision is found. */
  lemma CheckpointPinsPrefix(hash: HashFn, a: seq<Record>, b: seq<Record>, k: nat) returns (i: nat, j: nat)
    requires a != [] && k < |b|
    requires ChainHolds(hash, a) && ChainHolds(hash, b)
    requires Head(a) == Some(b[k].entryHash)
    ensures a <= b || (i < |a| && j < |b| && BodiesCollide(hash, a[i], b[j]))
  {
    hide EntryHash, BodiesCollide;
    PrefixHolds(hash, b, k + 1);
    i, j := SealedHeadPinsLedger(hash, a, b[..k + 1], b[k].entryHash);
  }
}
