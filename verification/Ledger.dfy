/** The append-only ledger object over a JSONL file. */
module Ledger {
  import opened Wrappers
  import opened Text
  import opened Clock
  import opened Models
  import opened LedgerRecord
  import opened LedgerChain
  import opened LedgerReplay

  /** The arguments of `record_activation`, after the defaults for time and identifier are drawn. */
  datatype Request = Request(
    policyId: string,
    interventionVersion: string,
    eventType: string,
    deploymentId: Option<string>,
    actor: Option<string>,
    reason: Option<string>,
    metadata: map<string, string>,
    recordedAt: Instant,
    eventId: string)

  datatype LedgerError =
    | Unusable
    | UnknownEventType
    | BlankPolicyId
    | BlankVersion
    | BlankEventId
    | EmptyMetadataKey
    | StorageFailure
    | MalformedLine(line: nat)
    | BrokenChain(at: nat, break_: Break)
    | EmptyLedger
    | HeadMismatch

  /** What the disk does with an append: all of it, or a failure that keeps some prefix. */
  datatype Storage = Stored | Failed(kept: nat)

  datatype LedgerState = LedgerState(entries: seq<Record>, usable: bool, file: Option<string>)

  // ----- Appending -----

  function CheckRequest(req: Request): Outcome<LedgerError> {
    Check(ParseEventType(req.eventType).Some?, UnknownEventType)
      .Then(Check(!IsBlank(req.policyId), BlankPolicyId))
      .Then(Check(!IsBlank(req.interventionVersion), BlankVersion))
      .Then(Check(!IsBlank(req.eventId), BlankEventId))
      .Then(Check("" !in req.metadata, EmptyMetadataKey))
  }

  /** The record a request becomes at the end of `entries`, before its own hash is set. */
  function Draft(entries: seq<Record>, req: Request, eventType: EventType): Record {
    Record(|entries|, req.eventId, req.recordedAt, eventType, req.policyId, req.interventionVersion,
           req.deploymentId, req.actor, req.reason, req.metadata, PrevHash(entries, |entries|), "")
  }

  function Sealed(hash: HashFn, entries: seq<Record>, req: Request): Record
    requires CheckRequest(req).Pass?
  {
    var draft := Draft(entries, req, ParseEventType(req.eventType).value);
    draft.(entryHash := EntryHash(hash, draft))
  }

  /** What is on disk after trying to append a line. */
  function Appended(text: string, line: string, storage: Storage): string {
    match storage
    case Stored => text + line + "\n"
    case Failed(kept) => text + (line + "\n")[..if kept <= |line| + 1 then kept else |line| + 1]
  }

  /** `record_activation` as a function of the state. A storage failure makes the ledger unusable. */
  function RecordStep(hash: HashFn, s: LedgerState, req: Request, storage: Storage)
    : (Result<Record, LedgerError>, LedgerState)
  {
    if !s.usable then (Err(Unusable), s)
    else if CheckRequest(req).Fail? then (Err(CheckRequest(req).error), s)
    else
      var r := Sealed(hash, s.entries, req);
      if s.file.None? then (Ok(r), s.(entries := s.entries + [r]))
      else
        var file := Some(Appended(s.file.value, RecordLine(r), storage));
        if storage.Stored? then (Ok(r), LedgerState(s.entries + [r], true, file))
        else (Err(StorageFailure), LedgerState(s.entries, false, file))
  }

  // ----- Lines -----

  function Lines(entries: seq<Record>): (lines: seq<string>)
    ensures |lines| == |entries|
  {
    seq(|entries|, i requires 0 <= i < |entries| => RecordLine(entries[i]))
  }

  /** `"\n".join(lines)` */
  function JoinLines(lines: seq<string>): string {
    if lines == [] then ""
    else if |lines| == 1 then lines[0]
    else lines[0] + "\n" + JoinLines(lines[1..])
  }

  /** The records on some lines, blank ones skipped; an unreadable line is reported by number. */
  function ReadLines(lines: seq<string>): Result<seq<Record>, LedgerError> {
    if lines == [] then Ok([])
    else
      var n := |lines| - 1;
      var front :- ReadLines(lines[..n]);
      if IsBlank(lines[n]) then Ok(front)
      else
        match ReadLine(lines[n])
        case None => Err(MalformedLine(n + 1))
        case Some(r) => Ok(front + [r])
  }

  function LoadText(text: string): Result<seq<Record>, LedgerError> {
    if IsBlank(text) then Ok([]) else ReadLines(SplitLines(text))
  }

  lemma {:induction false} ReadLinesFailure(lines: seq<string>, k: nat, e: LedgerError)
    requires k <= |lines| && ReadLines(lines[..k]) == Err(e)
    ensures ReadLines(lines) == Err(e)
    decreases |lines|
  {
    var n := |lines|;
    if k < n {
      assert lines[..n - 1][..k] == lines[..k];
      ReadLinesFailure(lines[..n - 1], k, e);
    } else {
      assert lines[..k] == lines;
    }
  }

  // ----- The objects -----

  class LedgerFile {
    var text: string

    constructor (text: string)
      ensures this.text == text
    {
      this.text := text;
    }
  }

  class PolicyDeploymentLedger {
    const hash: HashFn
    const file: LedgerFile?
    var entries: seq<Record>
    var usable: bool

    /** A ledger without entries; `Load` reads the file behind it. */
    constructor (hash: HashFn, file: LedgerFile?)
      ensures this.hash == hash && this.file == file
      ensures entries == [] && usable
    {
      this.hash := hash;
      this.file := file;
      entries := [];
      usable := true;
    }

    ghost function State(): LedgerState
      reads this, file
    {
      LedgerState(entries, usable, if file == null then None else Some(file.text))
    }

    /** Reads the lines into the entries; a failed load leaves what was read before the bad line. */
    method LoadJsonl(text: string) returns (r: Outcome<LedgerError>)
      requires entries == []
      modifies this
      ensures usable == old(usable)
      ensures match LoadText(text)
              case Ok(records) => r == Pass && entries == records
              case Err(e) => r == Fail(e)
    {
      hide ReadLine, SplitLines;
      if IsBlank(text) {
        return Pass;
      }
      var lines := SplitLines(text);
      for i := 0 to |lines|
        invariant ReadLines(lines[..i]) == Ok(entries)
        invariant usable == old(usable)
      {
        assert lines[..i + 1][..i] == lines[..i];
        if !IsBlank(lines[i]) {
          var record := ReadLine(lines[i]);
          if record.None? {
            ReadLinesFailure(lines, i + 1, MalformedLine(i + 1));
            return Fail(MalformedLine(i + 1));
          }
          entries := entries + [record.value];
        }
      }
      assert lines[..|lines|] == lines;
      return Pass;
    }

    /** Opens the file behind the ledger and, unless told not to, verifies what it holds. */
    method Load(verifyOnLoad: bool) returns (r: Outcome<LedgerError>)
      requires entries == [] && usable && file != null
      modifies this
      ensures r.Pass? <==>
        LoadText(file.text).Ok? && (verifyOnLoad ==> Verifies(hash, LoadText(file.text).value, None))
      ensures r.Pass? ==> entries == LoadText(file.text).value
      ensures usable
    {
      hide LoadText, Verifies;
      r := LoadJsonl(file.text);
      if r.Pass? && verifyOnLoad {
        r := Verify(None);
      }
    }

    method Verify(expectedHead: Option<string>) returns (r: Outcome<LedgerError>)
      ensures r.Pass? <==> usable && Verifies(hash, entries, expectedHead)
      ensures !usable ==> r == Fail(Unusable)
      ensures usable && !ChainHolds(hash, entries) ==>
        r.Fail? && r.error.BrokenChain? && FirstBreak(hash, entries, r.error.at, r.error.break_)
      ensures usable && ChainHolds(hash, entries) && r.Fail? ==>
        r.error == if entries == [] then EmptyLedger else HeadMismatch
    {
      hide EntryHash;
      if !usable {
        return Fail(Unusable);
      }
      var prev := GENESIS_PREV_HASH;
      for index := 0 to |entries|
        invariant prev == PrevHash(entries, index)
        invariant forall i | 0 <= i < index :: LinkBreak(hash, entries, i).None?
      {
        var record := entries[index];
        if record.sequence != index {
          assert LinkBreak(hash, entries, index) == Some(SequenceGap);
          return Fail(BrokenChain(index, SequenceGap));
        }
        if record.prevEntryHash != prev {
          assert LinkBreak(hash, entries, index) == Some(PrevHashMismatch);
          return Fail(BrokenChain(index, PrevHashMismatch));
        }
        if record.entryHash != EntryHash(hash, record) {
          assert LinkBreak(hash, entries, index) == Some(EntryHashMismatch);
          return Fail(BrokenChain(index, EntryHashMismatch));
        }
        prev := record.entryHash;
      }
      if expectedHead.Some? {
        if entries == [] {
          return Fail(EmptyLedger);
        }
        if entries[|entries| - 1].entryHash != expectedHead.value {
          return Fail(HeadMismatch);
        }
      }
      return Pass;
    }

    /** `storage` is what the disk will do, should the request get that far. */
    method RecordActivation(req: Request, storage: Storage) returns (r: Result<Record, LedgerError>)
      modifies this, file
      ensures (r, State()) == RecordStep(hash, old(State()), req, storage)
    {
      hide EntryHash, RecordLine, CheckRequest;
      if !usable {
        return Err(Unusable);
      }
      var check := CheckRequest(req);
      if check.Fail? {
        return Err(check.error);
      }
      var record := Sealed(hash, entries, req);
      r := Append(record, storage);
    }

    method Append(record: Record, storage: Storage) returns (r: Result<Record, LedgerError>)
      modifies this, file
      ensures !old(usable) ==> r == Err(Unusable) && State() == old(State())
      ensures old(usable) && (file == null || storage.Stored?) ==>
        r == Ok(record) && entries == old(entries) + [record] && usable
      ensures old(usable) && file != null && storage.Failed? ==>
        r == Err(StorageFailure) && entries == old(entries) && !usable
      ensures old(usable) && file != null ==>
        file.text == Appended(old(file.text), RecordLine(record), storage)
    {
      hide RecordLine;
      if !usable {
        return Err(Unusable);
      }
      if file != null {
        file.text := Appended(file.text, RecordLine(record), storage);
        if storage.Failed? {
          usable := false;
          return Err(StorageFailure);
        }
      }
      entries := entries + [record];
      return Ok(record);
    }

    method ActivePolicies() returns (r: Result<map<string, Record>, LedgerError>)
      ensures r == if usable then Ok(Active(entries)) else Err(Unusable)
    {
      if !usable {
        return Err(Unusable);
      }
      var active := Snapshot(entries);
      return Ok(active);
    }

    method ActivePoliciesAt(at: Instant) returns (r: Result<map<string, Record>, LedgerError>)
      ensures r == if usable then Ok(ActiveAt(entries, at)) else Err(Unusable)
    {
      hide SortedUpTo;
      if !usable {
        return Err(Unusable);
      }
      var active := Snapshot(Pick(entries, SortedUpTo(entries, at, |entries|)));
      return Ok(active);
    }

    method LatestForPolicy(policyId: string) returns (r: Result<Option<Record>, LedgerError>)
      ensures r == if usable then Ok(Latest(entries, policyId)) else Err(Unusable)
    {
      if !usable {
        return Err(Unusable);
      }
      var i := |entries|;
      assert entries[..i] == entries;
      while i > 0
        invariant 0 <= i <= |entries|
        invariant Latest(entries, policyId) == Latest(entries[..i], policyId)
      {
        i := i - 1;
        assert entries[..i + 1][..i] == entries[..i];
        if entries[i].policyId == policyId {
          return Ok(Some(entries[i]));
        }
      }
      return Ok(None);
    }

    /** The full chain as a file; the target may be the ledger's own file. */
    method ExportJsonl(target: LedgerFile) returns (r: Outcome<LedgerError>)
      modifies target
      ensures r == if usable then Pass else Fail(Unusable)
      ensures target.text == if usable then Terminated(Lines(entries)) else old(target.text)
    {
      hide Lines;
      if !usable {
        return Fail(Unusable);
      }
      var payload := JoinLines(Lines(entries));
      JoinIsTerminated(entries);
      if payload != "" {
        payload := payload + "\n";
      }
      target.text := payload;
      return Pass;
    }
  }

  method Snapshot(records: seq<Record>) returns (active: map<string, Record>)
    ensures active == Active(records)
  {
    active := map[];
    for i := 0 to |records|
      invariant active == Active(records[..i])
    {
      assert records[..i + 1][..i] == records[..i];
      if records[i].eventType == Deactivate {
        active := active - {records[i].policyId};
      } else {
        active := active[records[i].policyId := records[i]];
      }
    }
    assert records[..|records|] == records;
  }

  lemma {:induction false} JoinTerminated(lines: seq<string>)
    requires lines != []
    ensures JoinLines(lines) + "\n" == Terminated(lines)
    decreases |lines|
  {
    if |lines| > 1 {
      JoinTerminated(lines[1..]);
      calc {
        JoinLines(lines) + "\n";
        lines[0] + "\n" + (JoinLines(lines[1..]) + "\n");
        Terminated(lines);
      }
    }
  }

  lemma JoinIsTerminated(entries: seq<Record>)
    ensures JoinLines(Lines(entries)) == "" <==> entries == []
    ensures entries != [] ==> JoinLines(Lines(entries)) + "\n" == Terminated(Lines(entries))
  {
    hide RecordLine;
    if entries != [] {
      JoinTerminated(Lines(entries));
      LineShape(entries[0]);
      assert Lines(entries)[0] == RecordLine(entries[0]);
    }
  }
}
