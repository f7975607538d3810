/** Whole runs of the ledger, its file, and what a reader finds in the file afterwards. */
module LedgerRuns {
  import opened Wrappers
  import opened Text
  import opened Json
  import opened JsonPrefix
  import opened Models
  import opened LedgerRecord
  import opened LedgerChain
  import opened Ledger

  // ----- Reading what was written -----

  predicate AllWellFormed(entries: seq<Record>) {
    forall i | 0 <= i < |entries| :: WellFormed(entries[i])
  }

  lemma ReadSnoc(lines: seq<string>, line: string)
    ensures ReadLines(lines + [line]) ==
      if ReadLines(lines).Err? then ReadLines(lines)
      else if IsBlank(line) then ReadLines(lines)
      else if ReadLine(line).None? then Err(MalformedLine(|lines| + 1))
      else Ok(ReadLines(lines).value + [ReadLine(line).value])
  {
    hide ReadLine;
    assert (lines + [line])[..|lines|] == lines;
  }

  lemma {:induction false} BlankLines(lines: seq<string>)
    requires forall i | 0 <= i < |lines| :: IsBlank(lines[i])
    ensures ReadLines(lines) == Ok([])
    decreases |lines|
  {
    hide ReadLine;
    if lines != [] {
      BlankLines(lines[..|lines| - 1]);
    }
  }

  lemma {:induction false} BlankSplits(text: string)
    requires IsBlank(text)
    ensures forall i | 0 <= i < |SplitLines(text)| :: IsBlank(SplitLines(text)[i])
    decreases |text|
  {
    hide IsSpace;
    if text != "" {
      var n := LineLength(text);
      if n < |text| {
        BlankSplits(text[n + 1..]);
        if n + 2 <= |text| { BlankSplits(text[n + 2..]); }
      }
    }
  }

  /** The early exit for blank texts changes nothing. */
  lemma LoadIsReadLines(text: string)
    ensures LoadText(text) == ReadLines(SplitLines(text))
  {
    hide ReadLines, SplitLines, ReadLine;
    if IsBlank(text) {
      BlankSplits(text);
      BlankLines(SplitLines(text));
    }
  }

  lemma {:induction false} ReadWritten(entries: seq<Record>)
    requires AllWellFormed(entries)
    ensures ReadLines(Lines(entries)) == Ok(entries)
    decreases |entries|
  {
    hide ReadLine, RecordLine, WellFormed, ReadLines, IsBlank;
    if entries == [] {
      BlankLines([]);
    } else {
      var n := |entries| - 1;
      var line := RecordLine(entries[n]);
      ReadWritten(entries[..n]);
      assert Lines(entries) == Lines(entries[..n]) + [line];
      LineRoundTrip(entries[n]);
      LineShape(entries[n]);
      assert line[..|line|] == line;
      ReadSnoc(Lines(entries[..n]), line);
      assert entries == entries[..n] + [entries[n]];
    }
  }

  /** Loading an exported ledger gives back exactly its entries; so it verifies like the original and
      has the same head. The exported file is ready for another line: exporting a ledger onto its own
      file puts the two in step again. */
  lemma ExportRoundTrip(entries: seq<Record>)
    requires AllWellFormed(entries)
    ensures LoadText(Terminated(Lines(entries))) == Ok(entries)
    ensures InStep(Terminated(Lines(entries)), entries)
  {
    hide RecordLine, ReadLines, IsBlank, LoadText, WellFormed;
    forall i | 0 <= i < |entries| ensures OneLine(Lines(entries)[i]) {
      LineShape(entries[i]);
    }
    SplitTerminated(Lines(entries), "");
    assert Terminated(Lines(entries)) + "" == Terminated(Lines(entries));
    assert SplitLines("") == [] && Lines(entries) + [] == Lines(entries);
    LoadIsReadLines(Terminated(Lines(entries)));
    ReadWritten(entries);
    TerminatedCloses(Lines(entries));
  }

  lemma TerminatedCloses(lines: seq<string>)
    ensures Skip(OpenTail(Terminated(lines))) == ""
  {
    hide Terminated;
    if lines == [] {
      assert Terminated(lines) == "" by { NothingTerminated(); }
    } else {
      var n := |lines| - 1;
      TerminatedSnoc(lines[..n], lines[n]);
      assert lines[..n] + [lines[n]] == lines;
    }
  }

  lemma NothingTerminated()
    ensures Terminated([]) == ""
  {
  }

  // ----- What a file loads as -----

  /** A line with something on it that does not read. */
  predicate Unreadable(line: string) { !IsBlank(line) && ReadLine(line).None? }

  /** How many of the first `n` lines are not blank. */
  function Filled(lines: seq<string>, n: nat): (k: nat)
    requires n <= |lines|
    ensures k <= n
  {
    if n == 0 then 0 else Filled(lines, n - 1) + if IsBlank(lines[n - 1]) then 0 else 1
  }

  /** The records are those of the lines that are not blank, in order. */
  predicate ReadFrom(lines: seq<string>, records: seq<Record>) {
    && |records| == Filled(lines, |lines|)
    && forall i | 0 <= i < |lines| && !IsBlank(lines[i]) ::
         Filled(lines, i) < |records| && ReadLine(lines[i]) == Some(records[Filled(lines, i)])
  }

  lemma {:induction false} FilledPrefix(lines: seq<string>, m: nat, n: nat)
    requires n <= m <= |lines|
    ensures Filled(lines[..m], n) == Filled(lines, n)
  {
    hide IsBlank;
    if n > 0 { FilledPrefix(lines, m, n - 1); }
  }

  lemma {:induction false} FilledGrows(lines: seq<string>, m: nat, n: nat)
    requires m <= n <= |lines|
    ensures Filled(lines, m) <= Filled(lines, n)
    ensures m < n && !IsBlank(lines[m]) ==> Filled(lines, m) < Filled(lines, n)
    decreases n
  {
    hide IsBlank;
    if m < n {
      if m < n - 1 { FilledGrows(lines, m, n - 1); }
    }
  }

  lemma {:induction false} ReadLinesMeans(lines: seq<string>)
    ensures match ReadLines(lines)
      case Ok(records) => ReadFrom(lines, records) && forall i | 0 <= i < |lines| :: !Unreadable(lines[i])
      case Err(e) => exists i :: 0 <= i < |lines| && e == MalformedLine(i + 1) && Unreadable(lines[i])
                                 && forall j | 0 <= j < i :: !Unreadable(lines[j])
    decreases |lines|
  {
    hide IsBlank, ReadLine;
    if lines != [] {
      var n := |lines| - 1;
      var front := lines[..n];
      ReadLinesMeans(front);
      if ReadLines(front).Err? {
        var i :| 0 <= i < n && ReadLines(front).error == MalformedLine(i + 1) && Unreadable(front[i])
          && forall j | 0 <= j < i :: !Unreadable(front[j]);
        assert Unreadable(lines[i]) && forall j | 0 <= j < i :: lines[j] == front[j];
      } else {
        assert forall j | 0 <= j < n :: !Unreadable(front[j]) && lines[j] == front[j];
        if !Unreadable(lines[n]) {
          ReadFromSnoc(lines, ReadLines(front).value);
        }
      }
    }
  }

  lemma FilledStep(lines: seq<string>, n: nat)
    requires n < |lines|
    ensures Filled(lines, n + 1) == Filled(lines, n) + if IsBlank(lines[n]) then 0 else 1
  {
    hide IsBlank;
  }

  lemma ReadFromSnoc(lines: seq<string>, records: seq<Record>)
    requires lines != [] && ReadFrom(lines[..|lines| - 1], records) && !Unreadable(lines[|lines| - 1])
    ensures var line := lines[|lines| - 1];
      ReadFrom(lines, if IsBlank(line) then records else records + [ReadLine(line).value])
  {
    hide IsBlank, ReadLine, Filled;
    var n := |lines| - 1;
    var front := lines[..n];
    FilledPrefix(lines, n, n);
    FilledStep(lines, n);
    assert front[..n] == front;
    forall i | 0 <= i < n && !IsBlank(lines[i])
      ensures Filled(lines, i) < |records| && ReadLine(lines[i]) == Some(records[Filled(lines, i)])
    {
      FilledPrefix(lines, n, i);
      assert front[i] == lines[i];
    }
  }

  lemma ReadFromUnique(lines: seq<string>, a: seq<Record>, b: seq<Record>)
    requires ReadFrom(lines, a) && ReadFrom(lines, b)
    ensures a == b
  {
    hide IsBlank, ReadLine;
    forall k | 0 <= k < |a| ensures a[k] == b[k] {
      var i := FilledIndex(lines, |lines|, k);
    }
  }

  lemma {:induction false} FilledIndex(lines: seq<string>, n: nat, k: nat) returns (i: nat)
    requires n <= |lines| && k < Filled(lines, n)
    ensures i < n && !IsBlank(lines[i]) && Filled(lines, i) == k
    decreases n
  {
    hide IsBlank;
    if k < Filled(lines, n - 1) {
      i := FilledIndex(lines, n - 1, k);
    } else {
      i := n - 1;
    }
  }

  /** A file loads as the records on its lines that are not blank, in order, exactly when each of those
      lines reads; otherwise the first that does not is reported by its number. */
  lemma LoadMeans(text: string)
    ensures var lines := SplitLines(text);
      && (forall records :: LoadText(text) == Ok(records) <==>
            ReadFrom(lines, records) && forall i | 0 <= i < |lines| :: !Unreadable(lines[i]))
      && (forall e :: LoadText(text) == Err(e) <==>
            exists i :: 0 <= i < |lines| && e == MalformedLine(i + 1) && Unreadable(lines[i])
                        && forall j | 0 <= j < i :: !Unreadable(lines[j]))
  {
    hide SplitLines, LoadText, ReadLines, ReadFrom, Unreadable;
    var lines := SplitLines(text);
    LoadIsReadLines(text);
    ReadLinesMeans(lines);
    if LoadText(text).Ok? {
      forall records | ReadFrom(lines, records) ensures records == LoadText(text).value {
        ReadFromUnique(lines, records, LoadText(text).value);
      }
    }
  }

  // ----- One more line -----

  /** What an object's text, or the beginning of one, reads as when it merges with an unfinished line
      before it: itself when that is JSON white space, and nothing otherwise. */
  lemma MergedLine(tail: string, part: string)
    requires part != "" && part[0] == '{'
    requires IsBlank(tail) || ReadLine(tail).Some?
    ensures ReadLine(tail + part) == if Skip(tail) == "" then ReadLine(part) else None
  {
    hide ReadRecord, ReadValue, IsBlank, Skip;
    if Skip(tail) == "" {
      SkipToMore(tail, part);
      AtBrace(part);
    } else {
      MergedBroken(tail, part);
    }
  }

  lemma AtBrace(s: string)
    requires s != "" && s[0] == '{'
    ensures Skip(s) == s
  {
  }

  lemma MergedBroken(tail: string, part: string)
    requires part != "" && part[0] == '{'
    requires IsBlank(tail) || ReadLine(tail).Some?
    requires Skip(tail) != ""
    ensures Decode(tail + part) == None
  {
    hide ReadRecord, ReadValue, Skip;
    var s := Skip(tail);
    SkipMore(tail, part);
    assert (s + part)[0] == s[0];
    if IsBlank(tail) {
      SkipInside(tail);
      NotAValue(s + part);
    } else {
      ReadNeedsObject(tail);
      AtBrace(s);
      RunOn(s, part);
      AtBrace(s + part);
    }
  }

  lemma {:induction false} SkipInside(s: string)
    ensures Skip(s) != "" ==> Skip(s)[0] in s
  {
    if s != "" && IsJsonSpace(s[0]) { SkipInside(s[1..]); }
  }

  lemma NotAValue(s: string)
    requires s != "" && IsSpace(s[0])
    ensures ReadValue(s) == None
  {
    assert s[0] != 'n';
  }

  lemma ReadNeedsObject(line: string)
    requires ReadLine(line).Some?
    ensures Skip(line) != "" && Skip(line)[0] == '{'
  {
    hide BuildRecord, KnownName, ReadChars, ReadFields, ReadItems, ReadNat;
  }

  /** The number of the line after the last line boundary. */
  function OpenLine(text: string): nat { |SplitLines(text[..ClosedLength(text)])| + 1 }

  /** A readable text followed by an object's text, or the beginning of one, with or without a line
      feed after it. */
  lemma OneMoreLine(text: string, entries: seq<Record>, part: string)
    requires LoadText(text) == Ok(entries) && OneLine(part) && part != "" && part[0] == '{'
    ensures LoadText(text + part) == LoadText(text + part + "\n")
    ensures LoadText(text + part) ==
      if Skip(OpenTail(text)) == "" && ReadLine(part).Some? then Ok(entries + [ReadLine(part).value])
      else Err(MalformedLine(OpenLine(text)))
  {
    hide LoadText, ReadLines, SplitLines, ClosedLength, IsBlank, Skip, ReadLine;
    var closed, tail := text[..ClosedLength(text)], OpenTail(text);
    assert text == closed + tail;
    assert text + part == closed + (tail + part);
    assert text + part + "\n" == closed + (tail + part) + "\n";
    SplitClosed(closed, tail + part);
    ReadSnoc(SplitLines(closed), tail + part);
    LoadIsReadLines(text);
    LoadIsReadLines(text + part);
    LoadIsReadLines(text + part + "\n");
    assert !IsBlank(tail + part) by { BraceNotBlank(part); NotBlankAfter(tail, part); }
    if tail == "" {
      assert text == closed;
      assert IsBlank("") by { EmptyIsBlank(); }
    } else {
      SplitClosed(closed, tail);
      ReadSnoc(SplitLines(closed), tail);
    }
    MergedLine(tail, part);
    if Skip(tail) == "" {
      SkippedIsBlank(tail);
    }
  }

  lemma BraceNotBlank(part: string)
    requires part != "" && part[0] == '{'
    ensures !IsBlank(part)
  {
    assert !IsSpace(part[0]);
  }

  /** After a text whose lines can be read, the text plus one more record line loads as the old
      records and the new one exactly when the text's unfinished last line is JSON white space, as it
      is whenever the text ends with a line boundary. Otherwise the file no longer loads. */
  lemma AppendReadable(text: string, entries: seq<Record>, r: Record)
    requires LoadText(text) == Ok(entries) && WellFormed(r)
    ensures LoadText(text + RecordLine(r) + "\n") ==
      if Skip(OpenTail(text)) == "" then Ok(entries + [r]) else Err(MalformedLine(OpenLine(text)))
  {
    hide LoadText, RecordLine, WellFormed, OpenTail, OpenLine, Skip, ReadLine;
    LineShape(r);
    LineRoundTrip(r);
    OneMoreLine(text, entries, RecordLine(r));
  }

  lemma EmptyIsBlank()
    ensures IsBlank("")
  {
  }

  lemma NotBlankAfter(tail: string, line: string)
    requires !IsBlank(line)
    ensures !IsBlank(tail + line)
  {
    hide IsSpace;
    var i :| 0 <= i < |line| && !IsSpace(line[i]);
    assert (tail + line)[|tail| + i] == line[i];
  }

  lemma {:induction false} SkippedIsBlank(s: string)
    requires Skip(s) == ""
    ensures IsBlank(s)
  {
    if s != "" {
      SkippedIsBlank(s[1..]);
      assert s == [s[0]] + s[1..];
    }
  }

  // ----- Runs -----

  datatype Attempt = Attempt(request: Request, storage: Storage)

  function Run(hash: HashFn, s: LedgerState, attempts: seq<Attempt>): LedgerState {
    if attempts == [] then s
    else
      var n := |attempts| - 1;
      RecordStep(hash, Run(hash, s, attempts[..n]), attempts[n].request, attempts[n].storage).1
  }

  /** The entries form a chain and could be stored; and while the ledger is usable its file, if any,
      loads as exactly the entries and is ready for another line. */
  ghost predicate Valid(hash: HashFn, s: LedgerState) {
    ChainHolds(hash, s.entries) && AllWellFormed(s.entries) && FileInStep(s)
  }

  predicate FileInStep(s: LedgerState) {
    s.usable && s.file.Some? ==> InStep(s.file.value, s.entries)
  }

  predicate InStep(text: string, entries: seq<Record>) {
    LoadText(text) == Ok(entries) && Skip(OpenTail(text)) == ""
  }

  lemma DigestNotBlank(d: Digest)
    ensures !IsBlank(d)
  {
    assert !IsSpace(d[0]);
  }

  lemma {:induction false} ReadWellFormed(lines: seq<string>)
    ensures ReadLines(lines).Ok? ==> AllWellFormed(ReadLines(lines).value)
    decreases |lines|
  {
    hide Decode, IsBlank, WellFormed, KnownName, BuildRecord;
    if lines != [] {
      ReadWellFormed(lines[..|lines| - 1]);
    }
  }

  /** Whatever a file loads as is well formed. */
  lemma LoadedWellFormed(text: string)
    ensures LoadText(text).Ok? ==> AllWellFormed(LoadText(text).value)
  {
    hide ReadLines, SplitLines, WellFormed, IsBlank;
    ReadWellFormed(SplitLines(text));
  }

  /** So opening a file that loads gives a valid ledger exactly when it verifies and the text after its
      last line boundary is JSON white space. */
  lemma OpenedIsValid(hash: HashFn, text: string)
    requires LoadText(text).Ok?
    ensures var s := LedgerState(LoadText(text).value, true, Some(text));
      Valid(hash, s) <==> Verifies(hash, s.entries, None) && Skip(OpenTail(text)) == ""
  {
    hide LoadText, ChainHolds, AllWellFormed, OpenTail, Skip;
    LoadedWellFormed(text);
  }

  /** A new ledger is valid, with an empty file behind it or none. */
  lemma NewIsValid(hash: HashFn)
    ensures Valid(hash, LedgerState([], true, None)) && Valid(hash, LedgerState([], true, Some("")))
  {
  }

  lemma SealedFits(hash: HashFn, s: LedgerState, req: Request)
    requires AllWellFormed(s.entries) && CheckRequest(req).Pass?
    ensures var r := Sealed(hash, s.entries, req);
      && WellFormed(r) && AllWellFormed(s.entries + [r])
      && (ChainHolds(hash, s.entries + [r]) <==> ChainHolds(hash, s.entries))
      && r.entryHash == EntryHash(hash, r)
  {
    hide BodyText, ParseEventType, IsBlank, LinkBreak, ChainHolds;
    var r := Sealed(hash, s.entries, req);
    DigestNotBlank(EntryHash(hash, Draft(s.entries, req, ParseEventType(req.eventType).value)));
    assert !IsBlank(GENESIS_PREV_HASH) by { GenesisNotBlank(); }
    assert !IsBlank("") ==> "" != "" by { EmptyIsBlank(); }
    BodyTextOfBody(r);
    BodyTextOfBody(Draft(s.entries, req, ParseEventType(req.eventType).value));
    if ChainHolds(hash, s.entries) {
      ExtendHolds(hash, s.entries, r);
    }
    if ChainHolds(hash, s.entries + [r]) {
      PrefixHolds(hash, s.entries + [r], |s.entries|);
      assert (s.entries + [r])[..|s.entries|] == s.entries;
    }
  }

  lemma GenesisNotBlank()
    ensures !IsBlank(GENESIS_PREV_HASH)
  {
    GenesisIs();
    assert !IsSpace(GENESIS_PREV_HASH[0]);
  }

  lemma ClosedAfterLine(text: string)
    ensures OpenTail(text + "\n") == ""
  {
    assert Closed(text + "\n");
  }

  /** A request is accepted exactly when the ledger is usable, the request is well formed, and the disk
      stores the line; the sealed record then carries the request's own fields, the next sequence
      number, its predecessor's hash and the hash of its own body. */
  lemma RecordMeans(hash: HashFn, s: LedgerState, req: Request, storage: Storage)
    ensures var (result, t) := RecordStep(hash, s, req, storage);
      && (result.Ok? <==>
            && s.usable
            && (exists e :: EventText(e) == req.eventType)
            && !IsBlank(req.policyId) && !IsBlank(req.interventionVersion) && !IsBlank(req.eventId)
            && "" !in req.metadata
            && (s.file.Some? ==> storage.Stored?))
      && (result.Ok? ==>
            var r := result.value;
            && EventText(r.eventType) == req.eventType
            && r.policyId == req.policyId && r.interventionVersion == req.interventionVersion
            && r.deploymentId == req.deploymentId && r.actor == req.actor && r.reason == req.reason
            && r.metadata == req.metadata && r.recordedAt == req.recordedAt && r.eventId == req.eventId
            && r.sequence == |s.entries| && r.prevEntryHash == PrevHash(s.entries, |s.entries|)
            && r.entryHash == EntryHash(hash, r) && Head(t.entries) == Some(r.entryHash))
  {
    hide BodyText, IsBlank, ParseEventType, RecordLine, EventText;
    EventTexts(req.eventType);
    if CheckRequest(req).Pass? {
      BodyTextOfBody(Sealed(hash, s.entries, req));
      BodyTextOfBody(Draft(s.entries, req, ParseEventType(req.eventType).value));
    }
  }

  lemma EventTexts(s: string)
    ensures forall e :: ParseEventType(s) == Some(e) <==> EventText(e) == s
  {
    hide ParseEventType, EventText;
    forall e ensures ParseEventType(s) == Some(e) <==> EventText(e) == s {
      EventNames(s, e);
      EventNamesOne(s, e);
    }
  }

  lemma EventNamesOne(s: string, e: EventType)
    ensures EventNamed(s, e) <==> EventText(e) == s
  {
    assert "deactivate"[0] == 'd' && "activate"[0] == 'a' && "supersede"[0] == 's';
  }

  /** The error of the first condition that does not hold. */
  function FirstRefusal(checks: seq<(bool, LedgerError)>): Option<LedgerError> {
    if checks == [] then None
    else if !checks[0].0 then Some(checks[0].1)
    else FirstRefusal(checks[1..])
  }

  /** Which error a refused request gets, and that only a storage failure changes anything. */
  lemma RecordErrors(hash: HashFn, s: LedgerState, req: Request, storage: Storage)
    ensures var (result, t) := RecordStep(hash, s, req, storage);
      && (result.Err? ==> Some(result.error) == FirstRefusal([
           (s.usable, Unusable),
           (exists e :: EventText(e) == req.eventType, UnknownEventType),
           (!IsBlank(req.policyId), BlankPolicyId),
           (!IsBlank(req.interventionVersion), BlankVersion),
           (!IsBlank(req.eventId), BlankEventId),
           ("" !in req.metadata, EmptyMetadataKey),
           (s.file.Some? ==> storage.Stored?, StorageFailure)]))
      && (result.Err? && result.error != StorageFailure ==> t == s)
      && (result.Err? && result.error == StorageFailure ==> !t.usable && t.entries == s.entries)
  {
    hide BodyText, IsBlank, ParseEventType, RecordLine, EventText, Sealed;
    EventTexts(req.eventType);
    var c := [(s.usable, Unusable),
              (exists e :: EventText(e) == req.eventType, UnknownEventType),
              (!IsBlank(req.policyId), BlankPolicyId),
              (!IsBlank(req.interventionVersion), BlankVersion),
              (!IsBlank(req.eventId), BlankEventId),
              ("" !in req.metadata, EmptyMetadataKey),
              (s.file.Some? ==> storage.Stored?, StorageFailure)];
    RefusalSteps(c);
  }

  lemma RefusalSteps(c: seq<(bool, LedgerError)>)
    requires |c| == 7
    ensures FirstRefusal(c) ==
      if !c[0].0 then Some(c[0].1) else if !c[1].0 then Some(c[1].1) else if !c[2].0 then Some(c[2].1)
      else if !c[3].0 then Some(c[3].1) else if !c[4].0 then Some(c[4].1) else if !c[5].0 then Some(c[5].1)
      else if !c[6].0 then Some(c[6].1) else None
  {
    assert c[1..][1..] == c[2..] && c[2..][1..] == c[3..] && c[3..][1..] == c[4..] && c[4..][1..] == c[5..];
    assert c[5..][1..] == c[6..] && c[6..][1..] == [];
    assert FirstRefusal(c[6..]) == if !c[6].0 then Some(c[6].1) else None;
    assert FirstRefusal(c[5..]) == if !c[5].0 then Some(c[5].1) else FirstRefusal(c[6..]);
    assert FirstRefusal(c[4..]) == if !c[4].0 then Some(c[4].1) else FirstRefusal(c[5..]);
    assert FirstRefusal(c[3..]) == if !c[3].0 then Some(c[3].1) else FirstRefusal(c[4..]);
    assert FirstRefusal(c[2..]) == if !c[2].0 then Some(c[2].1) else FirstRefusal(c[3..]);
  }

  lemma StaysInStep(text: string, entries: seq<Record>, r: Record)
    requires InStep(text, entries) && WellFormed(r)
    ensures InStep(text + RecordLine(r) + "\n", entries + [r])
  {
    hide LoadText, RecordLine, OpenTail, Skip, SplitLines;
    AppendReadable(text, entries, r);
    ClosedAfterLine(text + RecordLine(r));
    assert Skip("") == "" by { SkipEmpty(); }
  }

  /** What a call leaves in the file: nothing new, the whole line of an accepted record, or part of a
      line after a storage failure. */
  lemma StepWrites(hash: HashFn, s: LedgerState, req: Request, storage: Storage)
    requires s.file.Some?
    ensures var (result, t) := RecordStep(hash, s, req, storage);
      && t.file.Some?
      && var written := s.file.value + if result.Ok? then RecordLine(result.value) + "\n" else "";
      written <= t.file.value && (t.usable || !s.usable ==> t.file.value == written)
  {
    hide RecordLine, CheckRequest, Sealed;
    var (result, t) := RecordStep(hash, s, req, storage);
    if result.Ok? {
      assert s.file.value + (RecordLine(result.value) + "\n") == s.file.value + RecordLine(result.value) + "\n";
    } else {
      assert s.file.value + "" == s.file.value;
    }
  }

  /** What a call does to the entries: it appends the accepted record or nothing. */
  lemma StepEntries(hash: HashFn, s: LedgerState, req: Request, storage: Storage)
    requires AllWellFormed(s.entries)
    ensures var (result, t) := RecordStep(hash, s, req, storage);
      && AllWellFormed(t.entries)
      && (ChainHolds(hash, t.entries) <==> ChainHolds(hash, s.entries))
      && (t.usable ==> s.usable)
      && t.entries == s.entries + (if result.Ok? then [result.value] else [])
      && (result.Ok? ==> s.usable && WellFormed(result.value))
  {
    hide RecordLine, CheckRequest, Sealed, WellFormed, AllWellFormed, ChainHolds, Appended, EntryHash;
    assert s.entries + [] == s.entries;
    if s.usable && CheckRequest(req).Pass? {
      SealedFits(hash, s, req);
    }
  }

  /** One call, accepted, refused or failed by the disk: the old entries stay in front, the ledger
      verifies exactly if it did before, and a file in step stays in step while the ledger is usable. */
  lemma StepKeepsValid(hash: HashFn, s: LedgerState, req: Request, storage: Storage)
    requires AllWellFormed(s.entries)
    ensures var (result, t) := RecordStep(hash, s, req, storage);
      && AllWellFormed(t.entries)
      && (ChainHolds(hash, t.entries) <==> ChainHolds(hash, s.entries))
      && (FileInStep(s) ==> FileInStep(t))
      && (t.usable ==> s.usable)
      && t.entries == s.entries + if result.Ok? then [result.value] else []
  {
    hide InStep, RecordLine, WellFormed, AllWellFormed, ChainHolds, RecordStep;
    var (result, t) := RecordStep(hash, s, req, storage);
    StepEntries(hash, s, req, storage);
    NoFileStays(hash, s, req, storage);
    if t.usable && s.file.Some? {
      StepWrites(hash, s, req, storage);
      if FileInStep(s) && result.Ok? {
        StaysInStep(s.file.value, s.entries, result.value);
        assert s.file.value + (RecordLine(result.value) + "\n") == s.file.value + RecordLine(result.value) + "\n";
      } else {
        assert s.file.value + "" == s.file.value && s.entries + [] == s.entries;
      }
    }
  }

  lemma NoFileStays(hash: HashFn, s: LedgerState, req: Request, storage: Storage)
    ensures s.file.None? ==> RecordStep(hash, s, req, storage).1.file.None?
  {
    hide CheckRequest, Sealed;
  }

  lemma SkipEmpty()
    ensures Skip("") == ""
  {
  }

  /** After any run of attempts: the ledger verifies exactly if it did before; a valid one is still
      valid, so its file, while it is usable, loads as exactly its entries; the old entries are a
      prefix of the new; and what was added to the file is exactly the new entries' lines, up to a
      torn line after a storage failure. */
  lemma {:induction false} RunKeepsLedger(hash: HashFn, s: LedgerState, attempts: seq<Attempt>)
    requires AllWellFormed(s.entries)
    ensures var t := Run(hash, s, attempts);
      && AllWellFormed(t.entries)
      && (Verifies(hash, t.entries, None) <==> Verifies(hash, s.entries, None))
      && (FileInStep(s) ==> FileInStep(t)) && (Valid(hash, s) ==> Valid(hash, t))
      && s.entries <= t.entries
      && (t.usable ==> s.usable)
      && (s.file.Some? ==>
            && t.file.Some?
            && var written := s.file.value + Terminated(Lines(t.entries[|s.entries|..]));
            written <= t.file.value && (t.usable ==> t.file.value == written))
    decreases |attempts|
  {
    hide FileInStep, RecordStep, RecordLine, Lines, AllWellFormed, ChainHolds;
    var t := Run(hash, s, attempts);
    if attempts == [] {
      assert Lines(s.entries[|s.entries|..]) == [] by { NoLines(s.entries); }
      if s.file.Some? { assert s.file.value + "" == s.file.value; }
    } else {
      var n := |attempts| - 1;
      var u := Run(hash, s, attempts[..n]);
      RunKeepsLedger(hash, s, attempts[..n]);
      StepKeepsValid(hash, u, attempts[n].request, attempts[n].storage);
      if s.file.Some? {
        StepWrites(hash, u, attempts[n].request, attempts[n].storage);
        FailureIsFinal(hash, u, attempts[n].request, attempts[n].storage);
        var result := RecordStep(hash, u, attempts[n].request, attempts[n].storage).0;
        if result.Ok? {
          LinesSnoc(u.entries[|s.entries|..], result.value);
          assert t.entries[|s.entries|..] == u.entries[|s.entries|..] + [result.value];
          var before := Terminated(Lines(u.entries[|s.entries|..]));
          var line := RecordLine(result.value);
          assert s.file.value + before + (line + "\n") == s.file.value + (before + line + "\n");
        } else {
          assert u.file.value + "" == u.file.value && u.entries + [] == u.entries;
        }
      }
    }
  }

  lemma NoLines(entries: seq<Record>)
    ensures Lines(entries[|entries|..]) == []
  {
  }

  lemma LinesSnoc(entries: seq<Record>, r: Record)
    ensures Terminated(Lines(entries + [r])) == Terminated(Lines(entries)) + RecordLine(r) + "\n"
  {
    hide RecordLine, Terminated;
    assert Lines(entries + [r]) == Lines(entries) + [RecordLine(r)];
    TerminatedSnoc(Lines(entries), RecordLine(r));
  }

  /** An unusable ledger refuses every request and changes nothing any more. */
  lemma FailureIsFinal(hash: HashFn, s: LedgerState, req: Request, storage: Storage)
    ensures !s.usable ==> RecordStep(hash, s, req, storage) == (Err(Unusable), s)
  {
  }

  /** After a storage failure no later attempt ever succeeds, and the state is frozen. */
  lemma {:induction false} FailureLatches(hash: HashFn, s: LedgerState, attempts: seq<Attempt>, later: seq<Attempt>)
    requires !Run(hash, s, attempts).usable
    ensures Run(hash, s, attempts + later) == Run(hash, s, attempts)
    decreases |later|
  {
    hide RecordStep;
    if later == [] {
      assert attempts + later == attempts;
    } else {
      var n := |later| - 1;
      assert (attempts + later)[..|attempts| + n] == attempts + later[..n];
      FailureLatches(hash, s, attempts, later[..n]);
      FailureIsFinal(hash, Run(hash, s, attempts), later[n].request, later[n].storage);
    }
  }

  lemma {:induction false} RunsCompose(hash: HashFn, s: LedgerState, attempts: seq<Attempt>, later: seq<Attempt>)
    ensures Run(hash, s, attempts + later) == Run(hash, Run(hash, s, attempts), later)
    decreases |later|
  {
    hide RecordStep;
    if later == [] {
      assert attempts + later == attempts;
    } else {
      var n := |later| - 1;
      assert (attempts + later)[..|attempts| + n] == attempts + later[..n];
      RunsCompose(hash, s, attempts, later[..n]);
    }
  }

  // ----- A last line without its line feed -----

  /** A text that does not load does not load with anything written after it either. */
  lemma UnreadableStays(text: string, more: string, e: LedgerError)
    requires text != "" && text[|text| - 1] == '\n' && LoadText(text) == Err(e)
    ensures LoadText(text + more) == Err(e)
  {
    hide LoadText, ReadLines, SplitLines;
    var lines := SplitLines(text) + SplitLines(more);
    LoadIsReadLines(text);
    LoadIsReadLines(text + more);
    SplitAppend(text, more);
    assert lines[..|SplitLines(text)|] == SplitLines(text);
    ReadLinesFailure(lines, |SplitLines(text)|, e);
  }

  lemma FirstOfLines(entries: seq<Record>)
    requires entries != []
    ensures Terminated(Lines(entries)) == RecordLine(entries[0]) + "\n" + Terminated(Lines(entries)[1..])
  {
    hide RecordLine;
  }

  /** What the file's last line was when the ledger was opened decides for good. After any run that
      accepts something, the file of a usable ledger loads as its entries exactly when the text after
      the last line boundary was JSON white space at the start. If it was anything else, a record
      without its line feed say, the file never loads again, usable or not. */
  lemma OpenTailDecides(hash: HashFn, s: LedgerState, attempts: seq<Attempt>)
    requires s.file.Some? && LoadText(s.file.value) == Ok(s.entries)
    requires |Run(hash, s, attempts).entries| > |s.entries|
    ensures Run(hash, s, attempts).file.Some?
    ensures var t := Run(hash, s, attempts);
      && (t.usable ==> (LoadText(t.file.value) == Ok(t.entries) <==> Skip(OpenTail(s.file.value)) == ""))
      && (Skip(OpenTail(s.file.value)) != "" ==>
            LoadText(t.file.value) == Err(MalformedLine(OpenLine(s.file.value))))
  {
    hide LoadText, RecordStep, RecordLine, Lines, Run, ChainHolds, OpenTail, OpenLine, Skip, WellFormed;
    var t, text := Run(hash, s, attempts), s.file.value;
    LoadedWellFormed(text);
    RunKeepsLedger(hash, s, attempts);
    var added := t.entries[|s.entries|..];
    assert WellFormed(added[0]) by { assert added[0] == t.entries[|s.entries|]; }
    AppendReadable(text, s.entries, added[0]);
    if Skip(OpenTail(text)) != "" {
      var broken := text + RecordLine(added[0]) + "\n";
      FirstOfLines(added);
      var written := text + Terminated(Lines(added));
      var rest := Terminated(Lines(added)[1..]) + t.file.value[|written|..];
      assert t.file.value == written + t.file.value[|written|..];
      assert t.file.value == broken + rest;
      UnreadableStays(broken, rest, MalformedLine(OpenLine(text)));
    }
  }

  /** ... so no later run makes it load again. */
  lemma NeverLoadsAgain(hash: HashFn, s: LedgerState, attempts: seq<Attempt>, later: seq<Attempt>)
    requires s.file.Some? && LoadText(s.file.value) == Ok(s.entries) && Skip(OpenTail(s.file.value)) != ""
    requires |Run(hash, s, attempts).entries| > |s.entries|
    ensures Run(hash, s, attempts + later).file.Some?
    ensures LoadText(Run(hash, s, attempts + later).file.value).Err?
  {
    hide LoadText, RecordStep, Lines, Run, ChainHolds, OpenTail, OpenLine, Skip, WellFormed;
    LoadedWellFormed(s.file.value);
    RunKeepsLedger(hash, s, attempts);
    RunKeepsLedger(hash, Run(hash, s, attempts), later);
    RunsCompose(hash, s, attempts, later);
    OpenTailDecides(hash, s, attempts + later);
  }

  // ----- Reopening after a storage failure -----

  lemma PartOneLine(line: string, k: nat)
    requires OneLine(line) && k <= |line|
    ensures OneLine(line[..k])
  {
  }

  lemma CutLine(r: Record, k: nat)
    requires k < |RecordLine(r)|
    ensures ReadLine(RecordLine(r)[..k]).None?
  {
    hide Encode, RecordFields;
    CutShort(RecordFields(r), true, k);
  }

  /** Any beginning of a record's line is one line and starts with the brace; only the whole reads. */
  lemma LinePart(r: Record, k: nat)
    requires WellFormed(r) && 0 < k <= |RecordLine(r)|
    ensures var part := RecordLine(r)[..k];
      && OneLine(part) && part != "" && part[0] == '{'
      && ReadLine(part) == if k < |RecordLine(r)| then None else Some(r)
  {
    hide RecordLine, WellFormed, OneLine, ReadLine, IsBlank;
    var line := RecordLine(r);
    LineShape(r);
    PartOneLine(line, k);
    if k < |line| {
      CutLine(r, k);
    } else {
      assert line[..k] == line;
      LineRoundTrip(r);
    }
  }

  /** What a failed append leaves in the file. */
  lemma TornFile(hash: HashFn, s: LedgerState, req: Request, kept: nat)
    requires s.usable && s.file.Some? && CheckRequest(req).Pass?
    ensures var line := RecordLine(Sealed(hash, s.entries, req));
      RecordStep(hash, s, req, Failed(kept)).1.file ==
        Some(if kept <= |line| then s.file.value + line[..kept] else s.file.value + line + "\n")
  {
    hide RecordLine, CheckRequest, Sealed;
    var line := RecordLine(Sealed(hash, s.entries, req));
    if kept <= |line| {
      assert (line + "\n")[..kept] == line[..kept];
    } else {
      assert (line + "\n")[..|line| + 1] == line + "\n";
      assert s.file.value + (line + "\n") == s.file.value + line + "\n";
    }
  }

  lemma TornText(text: string, entries: seq<Record>, r: Record, kept: nat)
    requires LoadText(text) == Ok(entries) && WellFormed(r)
    ensures var line := RecordLine(r);
      LoadText(if kept <= |line| then text + line[..kept] else text + line + "\n") ==
        if kept == 0 then Ok(entries)
        else if kept >= |line| && Skip(OpenTail(text)) == "" then Ok(entries + [r])
        else Err(MalformedLine(OpenLine(text)))
  {
    hide LoadText, RecordLine, WellFormed, Skip, OpenTail, OpenLine, ReadLine, OneLine;
    var line := RecordLine(r);
    if kept == 0 {
      assert text + line[..0] == text;
    } else if kept < |line| {
      LinePart(r, kept);
      OneMoreLine(text, entries, line[..kept]);
    } else {
      assert |line| > 0 by { LineShape(r); }
      LinePart(r, |line|);
      assert line[..|line|] == line;
      OneMoreLine(text, entries, line);
    }
  }

  /** Reopening the file after a failed append finds the old entries, or the old entries and the one
      that was being written, or refuses to load: never anything else. Which of the three depends on
      how much of the line the disk kept, and on what the file ended with before. */
  lemma TornAppend(hash: HashFn, s: LedgerState, req: Request, kept: nat)
    requires s.usable && s.file.Some? && LoadText(s.file.value) == Ok(s.entries) && CheckRequest(req).Pass?
    ensures var r := Sealed(hash, s.entries, req);
      var t := RecordStep(hash, s, req, Failed(kept)).1;
      t.file.Some? && LoadText(t.file.value) ==
        if kept == 0 then Ok(s.entries)
        else if kept >= |RecordLine(r)| && Skip(OpenTail(s.file.value)) == "" then Ok(s.entries + [r])
        else Err(MalformedLine(OpenLine(s.file.value)))
  {
    hide LoadText, RecordLine, CheckRequest, Sealed, ChainHolds, WellFormed, Skip, OpenTail, OpenLine,
         AllWellFormed, RecordStep;
    LoadedWellFormed(s.file.value);
    SealedFits(hash, s, req);
    TornFile(hash, s, req, kept);
    TornText(s.file.value, s.entries, Sealed(hash, s.entries, req), kept);
  }

  /** A whole record line without its line feed is an unfinished last line. */
  lemma WholeLineOpen(text: string, r: Record)
    requires Skip(OpenTail(text)) == ""
    ensures Skip(OpenTail(text + RecordLine(r))) != ""
  {
    hide RecordLine, Skip, IsBlank, OpenTail, OneLine;
    LineShape(r);
    OpenTailMore(text, RecordLine(r));
    SkipToMore(OpenTail(text), RecordLine(r));
  }

  /** The disk keeps the whole line but not its line feed. */
  lemma TornWhole(hash: HashFn, s: LedgerState, req: Request)
    requires Valid(hash, s) && s.usable && s.file.Some? && CheckRequest(req).Pass?
    ensures var r := Sealed(hash, s.entries, req);
      var torn := RecordStep(hash, s, req, Failed(|RecordLine(r)|)).1;
      && torn.file.Some? && Skip(OpenTail(torn.file.value)) != ""
      && LoadText(torn.file.value) == Ok(s.entries + [r])
      && ChainHolds(hash, s.entries + [r]) && AllWellFormed(s.entries + [r])
  {
    hide LoadText, RecordLine, CheckRequest, Sealed, ChainHolds, WellFormed, Skip, OpenTail, OpenLine,
         AllWellFormed, RecordStep;
    var r := Sealed(hash, s.entries, req);
    var line := RecordLine(r);
    SealedFits(hash, s, req);
    TornAppend(hash, s, req, |line|);
    assert |line| > 0 by { LineShape(r); }
    TornFile(hash, s, req, |line|);
    assert line[..|line|] == line;
    WholeLineOpen(s.file.value, r);
  }

  /** A failed append that keeps the whole line but not its line feed leaves a file that reopens and
      verifies with the record in it; but the next record it acknowledges makes it unreadable. */
  lemma AcknowledgedThenUnreadable(hash: HashFn, s: LedgerState, req: Request, next: Request)
    requires Valid(hash, s) && s.usable && s.file.Some?
    requires CheckRequest(req).Pass? && CheckRequest(next).Pass?
    ensures var r := Sealed(hash, s.entries, req);
      var torn := RecordStep(hash, s, req, Failed(|RecordLine(r)|)).1;
      var reopened := LedgerState(s.entries + [r], true, torn.file);
      var (result, t) := RecordStep(hash, reopened, next, Stored);
      && torn.file.Some? && LoadText(torn.file.value) == Ok(reopened.entries)
      && Verifies(hash, reopened.entries, None)
      && result.Ok? && t.usable && t.entries == reopened.entries + [result.value]
      && t.file.Some? && LoadText(t.file.value) == Err(MalformedLine(OpenLine(torn.file.value)))
  {
    hide LoadText, RecordLine, CheckRequest, Sealed, ChainHolds, WellFormed, Skip, OpenTail, OpenLine,
         AllWellFormed, Valid, InStep;
    TornWhole(hash, s, req);
    var r := Sealed(hash, s.entries, req);
    var torn := RecordStep(hash, s, req, Failed(|RecordLine(r)|)).1;
    var reopened := LedgerState(s.entries + [r], true, torn.file);
    SealedFits(hash, reopened, next);
    AppendReadable(torn.file.value, reopened.entries, Sealed(hash, reopened.entries, next));
  }
}
