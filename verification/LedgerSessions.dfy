/** One ledger file over many sessions: each opens the file, makes its attempts and ends, perhaps after
    a storage failure. What was acknowledged is never lost silently. */
module LedgerSessions {
  import opened Wrappers
  import opened Text
  import opened Json
  import opened Models
  import opened LedgerRecord
  import opened LedgerChain
  import opened Ledger
  import opened LedgerRuns

  /** A session may skip verification on opening. One that dies while it writes a line ends like one
      whose last append failed. */
  datatype Session = Session(verify: bool, attempts: seq<Attempt>)

  /** The ledger a session opens, if the file lets it. */
  function Opened(hash: HashFn, text: string, session: Session): Option<LedgerState> {
    var loaded := LoadText(text);
    if loaded.Ok? && (session.verify ==> Verifies(hash, loaded.value, None)) then
      Some(LedgerState(loaded.value, true, Some(text)))
    else None
  }

  /** The file when the session has ended. */
  function Left(hash: HashFn, text: string, session: Session): string {
    var s := Opened(hash, text, session);
    if s.None? then text
    else
      var t := Run(hash, s.value, session.attempts);
      if t.file.Some? then t.file.value else text
  }

  /** The file after some sessions; it starts out empty. */
  function FileAfter(hash: HashFn, sessions: seq<Session>): string {
    if sessions == [] then ""
    else Left(hash, FileAfter(hash, sessions[..|sessions| - 1]), sessions[|sessions| - 1])
  }

  /** The records that were handed back to callers in a run: those it added in memory. */
  function Added(hash: HashFn, s: LedgerState, attempts: seq<Attempt>): seq<Record> {
    if attempts == [] then []
    else
      var n := |attempts| - 1;
      var result := RecordStep(hash, Run(hash, s, attempts[..n]), attempts[n].request, attempts[n].storage).0;
      Added(hash, s, attempts[..n]) + if result.Ok? then [result.value] else []
  }

  /** All acknowledged records, oldest first. */
  function Acknowledged(hash: HashFn, sessions: seq<Session>): seq<Record> {
    if sessions == [] then []
    else
      var front, last := sessions[..|sessions| - 1], sessions[|sessions| - 1];
      var s := Opened(hash, FileAfter(hash, front), last);
      Acknowledged(hash, front) + if s.Some? then Added(hash, s.value, last.attempts) else []
  }

  /** The append of `r` failed, yet the disk kept its whole line. */
  predicate KeptWhole(hash: HashFn, s: LedgerState, a: Attempt, r: Record) {
    && s.usable && s.file.Some? && CheckRequest(a.request).Pass? && a.storage.Failed?
    && r == Sealed(hash, s.entries, a.request) && a.storage.kept >= |RecordLine(r)|
  }

  /** `r` was never acknowledged, but the append that failed left its whole line behind. */
  ghost predicate Unacknowledged(hash: HashFn, sessions: seq<Session>, r: Record) {
    exists i, k :: 0 <= i < |sessions| && 0 <= k < |sessions[i].attempts| && LeftBehind(hash, sessions, i, k, r)
  }

  predicate LeftBehind(hash: HashFn, sessions: seq<Session>, i: nat, k: nat, r: Record)
    requires i < |sessions| && k < |sessions[i].attempts|
  {
    var s := Opened(hash, FileAfter(hash, sessions[..i]), sessions[i]);
    && s.Some?
    && KeptWhole(hash, Run(hash, s.value, sessions[i].attempts[..k]), sessions[i].attempts[k], r)
  }

  // ----- One session -----

  lemma {:induction false} AddedEntries(hash: HashFn, s: LedgerState, attempts: seq<Attempt>)
    requires AllWellFormed(s.entries)
    ensures Run(hash, s, attempts).entries == s.entries + Added(hash, s, attempts)
    decreases |attempts|
  {
    hide RecordStep, AllWellFormed, ChainHolds, FileInStep, Lines;
    if attempts == [] {
      assert s.entries + [] == s.entries;
    } else {
      var n := |attempts| - 1;
      AddedEntries(hash, s, attempts[..n]);
      RunKeepsLedger(hash, s, attempts[..n]);
      StepKeepsValid(hash, Run(hash, s, attempts[..n]), attempts[n].request, attempts[n].storage);
    }
  }

  /** A file that stopped loading during a session ends with a line feed. */
  lemma BrokenAtLine(hash: HashFn, s: LedgerState, attempts: seq<Attempt>)
    requires s.file.Some? && LoadText(s.file.value) == Ok(s.entries)
    requires Run(hash, s, attempts).usable
    requires Run(hash, s, attempts).file.Some? && LoadText(Run(hash, s, attempts).file.value).Err?
    ensures var text := Run(hash, s, attempts).file.value;
      text != "" && text[|text| - 1] == '\n'
  {
    hide LoadText, Run, RecordLine, ChainHolds, FileInStep, AllWellFormed;
    var t := Run(hash, s, attempts);
    LoadedWellFormed(s.file.value);
    RunKeepsLedger(hash, s, attempts);
    var added := t.entries[|s.entries|..];
    if added == [] {
      NothingAdded(s.file.value);
    } else {
      var n := |added| - 1;
      LinesSnoc(added[..n], added[n]);
      assert added[..n] + [added[n]] == added;
    }
  }

  lemma NothingAdded(text: string)
    ensures text + Terminated(Lines([])) == text
  {
  }

  /** What can be in the file, if it loads: the entries, or those and a record left behind. */
  ghost predicate Explained(hash: HashFn, s: LedgerState, attempts: seq<Attempt>, final: seq<Record>) {
    var t := Run(hash, s, attempts);
    || final == t.entries
    || exists k, r :: 0 <= k < |attempts| && KeptAt(hash, s, attempts, k, r) && final == t.entries + [r]
  }

  predicate KeptAt(hash: HashFn, s: LedgerState, attempts: seq<Attempt>, k: nat, r: Record)
    requires k < |attempts|
  {
    KeptWhole(hash, Run(hash, s, attempts[..k]), attempts[k], r)
  }

  lemma ExplainedLater(hash: HashFn, s: LedgerState, attempts: seq<Attempt>, final: seq<Record>)
    requires attempts != [] && Explained(hash, s, attempts[..|attempts| - 1], final)
    requires Run(hash, s, attempts) == Run(hash, s, attempts[..|attempts| - 1])
    ensures Explained(hash, s, attempts, final)
  {
    hide KeptWhole, Run;
    var front := attempts[..|attempts| - 1];
    if final != Run(hash, s, front).entries {
      var k, r :| 0 <= k < |front| && KeptAt(hash, s, front, k, r) && final == Run(hash, s, front).entries + [r];
      assert front[..k] == attempts[..k];
      assert KeptAt(hash, s, attempts, k, r);
    }
  }

  lemma ExplainedNow(hash: HashFn, s: LedgerState, attempts: seq<Attempt>, r: Record)
    requires attempts != []
    requires var n := |attempts| - 1; KeptWhole(hash, Run(hash, s, attempts[..n]), attempts[n], r)
    ensures Explained(hash, s, attempts, Run(hash, s, attempts).entries + [r])
  {
    hide KeptWhole, Run;
    assert KeptAt(hash, s, attempts, |attempts| - 1, r);
  }

  /** What a session leaves loads, if at all, as its entries, or as those and the one record whose
      append failed with its line whole; while it is usable, as its entries. */
  lemma {:induction false} SessionLeaves(hash: HashFn, s: LedgerState, attempts: seq<Attempt>)
    requires s.usable && s.file.Some? && LoadText(s.file.value) == Ok(s.entries)
    ensures var t := Run(hash, s, attempts);
      && t.file.Some?
      && (LoadText(t.file.value).Ok? ==>
            var final := LoadText(t.file.value).value;
            && (t.usable ==> final == t.entries)
            && (ChainHolds(hash, s.entries) ==> ChainHolds(hash, final))
            && Explained(hash, s, attempts, final))
    decreases |attempts|
  {
    hide LoadText, RecordStep, ChainHolds, KeptWhole, Explained, AllWellFormed, Lines, FileInStep;
    if attempts == [] {
      UnchangedExplained(hash, s, attempts);
    } else {
      var n := |attempts| - 1;
      var u, t := Run(hash, s, attempts[..n]), Run(hash, s, attempts);
      SessionLeaves(hash, s, attempts[..n]);
      LoadedWellFormed(s.file.value);
      RunKeepsLedger(hash, s, attempts[..n]);
      if u.usable && LoadText(u.file.value).Err? {
        BrokenAtLine(hash, s, attempts[..n]);
        StepWrites(hash, u, attempts[n].request, attempts[n].storage);
        Broken(u.file.value, t.file.value);
      } else if u.usable {
        StepLeaves(hash, u, attempts[n]);
        if r :| KeptWhole(hash, u, attempts[n], r) && LoadText(t.file.value) == Ok(t.entries + [r]) {
          ExplainedNow(hash, s, attempts, r);
        } else {
          UnchangedExplained(hash, s, attempts);
        }
      } else {
        FailureIsFinal(hash, u, attempts[n].request, attempts[n].storage);
        if LoadText(t.file.value).Ok? {
          ExplainedLater(hash, s, attempts, LoadText(t.file.value).value);
        }
      }
    }
  }

  lemma UnchangedExplained(hash: HashFn, s: LedgerState, attempts: seq<Attempt>)
    ensures Explained(hash, s, attempts, Run(hash, s, attempts).entries)
  {
  }

  lemma Broken(text: string, longer: string)
    requires text != "" && text[|text| - 1] == '\n' && LoadText(text).Err?
    requires text <= longer
    ensures LoadText(longer).Err?
  {
    hide LoadText;
    assert longer == text + longer[|text|..];
    UnreadableStays(text, longer[|text|..], LoadText(text).error);
  }

  /** What one attempt may leave of a file that loads as the entries. */
  ghost predicate StepExplained(hash: HashFn, u: LedgerState, a: Attempt) {
    var t := RecordStep(hash, u, a.request, a.storage).1;
    && t.file.Some?
    && (LoadText(t.file.value).Ok? ==>
          var final := LoadText(t.file.value).value;
          && (t.usable ==> final == t.entries)
          && (ChainHolds(hash, u.entries) ==> ChainHolds(hash, final))
          && (final == t.entries || exists r :: KeptWhole(hash, u, a, r) && final == t.entries + [r]))
  }

  lemma FailedExplained(hash: HashFn, u: LedgerState, a: Attempt)
    requires u.usable && u.file.Some? && LoadText(u.file.value) == Ok(u.entries)
    requires CheckRequest(a.request).Pass? && a.storage.Failed?
    ensures StepExplained(hash, u, a)
  {
    hide LoadText, RecordLine, CheckRequest, Sealed, ChainHolds, WellFormed, AllWellFormed, Skip, OpenTail,
         OpenLine, RecordStep;
    var r := Sealed(hash, u.entries, a.request);
    LoadedWellFormed(u.file.value);
    SealedFits(hash, u, a.request);
    assert a.storage == Failed(a.storage.kept);
    TornAppend(hash, u, a.request, a.storage.kept);
    FailedKeepsEntries(hash, u, a);
    if a.storage.kept >= |RecordLine(r)| {
      assert KeptWhole(hash, u, a, r);
    }
  }

  lemma FailedKeepsEntries(hash: HashFn, u: LedgerState, a: Attempt)
    requires u.usable && u.file.Some? && CheckRequest(a.request).Pass? && a.storage.Failed?
    ensures var t := RecordStep(hash, u, a.request, a.storage).1;
      !t.usable && t.entries == u.entries
  {
    hide CheckRequest, Sealed, RecordLine, Appended;
  }

  lemma StepLeaves(hash: HashFn, u: LedgerState, a: Attempt)
    requires u.usable && u.file.Some? && LoadText(u.file.value) == Ok(u.entries)
    ensures StepExplained(hash, u, a)
  {
    hide LoadText, RecordLine, CheckRequest, Sealed, ChainHolds, WellFormed, AllWellFormed, Skip, OpenTail,
         OpenLine, KeptWhole;
    if CheckRequest(a.request).Pass? {
      if a.storage.Failed? {
        FailedExplained(hash, u, a);
      } else {
        LoadedWellFormed(u.file.value);
        SealedFits(hash, u, a.request);
        AppendReadable(u.file.value, u.entries, Sealed(hash, u.entries, a.request));
      }
    }
  }

  // ----- All sessions -----

  /** Every record stands at its own sequence position. */
  predicate Holds(final: seq<Record>, r: Record) {
    r.sequence < |final| && final[r.sequence] == r
  }

  lemma EntriesHeld(hash: HashFn, entries: seq<Record>, final: seq<Record>)
    requires ChainHolds(hash, entries) && entries <= final
    ensures forall r | r in entries :: Holds(final, r)
  {
    hide EntryHash;
    forall r | r in entries ensures Holds(final, r) {
      var i :| 0 <= i < |entries| && entries[i] == r;
      assert LinkBreak(hash, entries, i).None?;
    }
  }

  /** What the file after some sessions may say: it is a chain, every acknowledged record is in place,
      and anything else was left behind by an append that failed. */
  ghost predicate Faithful(hash: HashFn, sessions: seq<Session>, final: seq<Record>) {
    && ChainHolds(hash, final)
    && (forall r | r in Acknowledged(hash, sessions) :: Holds(final, r))
    && (forall e | e in final :: e in Acknowledged(hash, sessions) || Unacknowledged(hash, sessions, e))
  }

  lemma UnacknowledgedLater(hash: HashFn, sessions: seq<Session>, r: Record)
    requires sessions != [] && Unacknowledged(hash, sessions[..|sessions| - 1], r)
    ensures Unacknowledged(hash, sessions, r)
  {
    hide KeptWhole, Opened, FileAfter, Run;
    var front := sessions[..|sessions| - 1];
    var i, k :| 0 <= i < |front| && 0 <= k < |front[i].attempts| && LeftBehind(hash, front, i, k, r);
    assert front[..i] == sessions[..i] && front[i] == sessions[i];
    assert LeftBehind(hash, sessions, i, k, r);
  }

  lemma LeftInLast(hash: HashFn, sessions: seq<Session>, s: LedgerState, k: nat, r: Record)
    requires sessions != [] && k < |sessions[|sessions| - 1].attempts|
    requires var n := |sessions| - 1; Opened(hash, FileAfter(hash, sessions[..n]), sessions[n]) == Some(s)
    requires KeptAt(hash, s, sessions[|sessions| - 1].attempts, k, r)
    ensures Unacknowledged(hash, sessions, r)
  {
    hide KeptWhole, Opened, FileAfter, Run;
    assert LeftBehind(hash, sessions, |sessions| - 1, k, r);
  }

  /** The session that opened the file kept everything it found and explains the rest. */
  lemma SessionFaithful(hash: HashFn, sessions: seq<Session>, s: LedgerState, final: seq<Record>)
    requires sessions != []
    requires var n := |sessions| - 1;
      && Opened(hash, FileAfter(hash, sessions[..n]), sessions[n]) == Some(s)
      && Faithful(hash, sessions[..n], s.entries)
      && Explained(hash, s, sessions[n].attempts, final)
    requires AllWellFormed(s.entries) && ChainHolds(hash, final)
    ensures Faithful(hash, sessions, final)
  {
    hide KeptWhole, Opened, FileAfter, Run, ChainHolds, AllWellFormed, Added, KeptAt, Unacknowledged;
    var n := |sessions| - 1;
    var front, attempts := sessions[..n], sessions[n].attempts;
    var t := Run(hash, s, attempts);
    AddedEntries(hash, s, attempts);
    assert t.entries <= final;
    assert Acknowledged(hash, sessions) == Acknowledged(hash, front) + Added(hash, s, attempts);
    EntriesHeld(hash, final, final);
    forall r | r in Acknowledged(hash, sessions) ensures Holds(final, r) {
      if r in Acknowledged(hash, front) {
        assert Holds(s.entries, r);
      } else {
        assert r in t.entries;
      }
    }
    forall e | e in final ensures e in Acknowledged(hash, sessions) || Unacknowledged(hash, sessions, e) {
      if e in s.entries {
        if e !in Acknowledged(hash, front) { UnacknowledgedLater(hash, sessions, e); }
      } else if e !in Added(hash, s, attempts) {
        var k, r :| 0 <= k < |attempts| && KeptAt(hash, s, attempts, k, r) && final == t.entries + [r];
        LeftInLast(hash, sessions, s, k, r);
      }
    }
  }

  /** Durability: after any sessions on one file, with and without verification, with any storage
      failures and refusals to open, if the file loads then it verifies, every record ever acknowledged
      stands in it at its own sequence position, and any other entry is one whose append failed but
      left its whole line. No acknowledged record is lost silently. */
  lemma {:induction false} AcknowledgedSurvive(hash: HashFn, sessions: seq<Session>)
    ensures var text := FileAfter(hash, sessions);
      LoadText(text).Ok? ==> Faithful(hash, sessions, LoadText(text).value)
    decreases |sessions|
  {
    hide LoadText, Run, Faithful, Explained, ChainHolds, AllWellFormed;
    if sessions == [] {
      assert LoadText("") == Ok([]) && Faithful(hash, [], []) by { EmptyFaithful(hash); }
    } else {
      var n := |sessions| - 1;
      var text := FileAfter(hash, sessions[..n]);
      AcknowledgedSurvive(hash, sessions[..n]);
      var s := Opened(hash, text, sessions[n]);
      if s.Some? {
        LoadedWellFormed(text);
        SessionLeaves(hash, s.value, sessions[n].attempts);
        assert ChainHolds(hash, s.value.entries) by { FaithfulChain(hash, sessions[..n], s.value.entries); }
        var left := Run(hash, s.value, sessions[n].attempts).file.value;
        if LoadText(left).Ok? {
          SessionFaithful(hash, sessions, s.value, LoadText(left).value);
        }
      } else if LoadText(text).Ok? {
        RefusedFaithful(hash, sessions, LoadText(text).value);
      }
    }
  }

  lemma EmptyFaithful(hash: HashFn)
    ensures LoadText("") == Ok([]) && Faithful(hash, [], [])
  {
  }

  lemma FaithfulChain(hash: HashFn, sessions: seq<Session>, final: seq<Record>)
    requires Faithful(hash, sessions, final)
    ensures ChainHolds(hash, final)
  {
    hide ChainHolds;
  }

  lemma RefusedFaithful(hash: HashFn, sessions: seq<Session>, final: seq<Record>)
    requires sessions != [] && Faithful(hash, sessions[..|sessions| - 1], final)
    requires Opened(hash, FileAfter(hash, sessions[..|sessions| - 1]), sessions[|sessions| - 1]).None?
    ensures Faithful(hash, sessions, final)
  {
    hide Opened, FileAfter, Unacknowledged, ChainHolds;
    var front := sessions[..|sessions| - 1];
    assert Acknowledged(hash, sessions) == Acknowledged(hash, front);
    forall e | e in final && e !in Acknowledged(hash, front) ensures Unacknowledged(hash, sessions, e) {
      UnacknowledgedLater(hash, sessions, e);
    }
  }

  // ----- A disk that never fails -----

  predicate AllStored(attempts: seq<Attempt>) {
    forall k | 0 <= k < |attempts| :: attempts[k].storage.Stored?
  }

  lemma {:induction false} StoredStaysUsable(hash: HashFn, s: LedgerState, attempts: seq<Attempt>)
    requires s.usable && AllStored(attempts)
    ensures Run(hash, s, attempts).usable
    decreases |attempts|
  {
    hide CheckRequest, Sealed, RecordLine;
    if attempts != [] {
      StoredStaysUsable(hash, s, attempts[..|attempts| - 1]);
    }
  }

  /** If the disk never fails, the file after any sessions loads, as exactly the acknowledged records
      in order, and is ready for more. */
  lemma {:induction false} NothingLostWithoutFailure(hash: HashFn, sessions: seq<Session>)
    requires forall i | 0 <= i < |sessions| :: AllStored(sessions[i].attempts)
    ensures InStep(FileAfter(hash, sessions), Acknowledged(hash, sessions))
    decreases |sessions|
  {
    hide LoadText, Run, Faithful, ChainHolds, AllWellFormed, OpenTail, Skip, AllStored, Added, Lines;
    if sessions == [] {
      assert InStep("", []) by { EmptyInStep(); }
    } else {
      var n := |sessions| - 1;
      var text := FileAfter(hash, sessions[..n]);
      NothingLostWithoutFailure(hash, sessions[..n]);
      AcknowledgedSurvive(hash, sessions[..n]);
      LoadedWellFormed(text);
      FaithfulChain(hash, sessions[..n], LoadText(text).value);
      var s := LedgerState(LoadText(text).value, true, Some(text));
      assert Opened(hash, text, sessions[n]) == Some(s);
      StoredStaysUsable(hash, s, sessions[n].attempts);
      RunKeepsLedger(hash, s, sessions[n].attempts);
      AddedEntries(hash, s, sessions[n].attempts);
    }
  }

  lemma EmptyInStep()
    ensures InStep("", [])
  {
  }
}
