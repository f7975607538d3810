/** Ledger records: the body that is hashed, the line that is stored, and reading a line back. */
module LedgerRecord {
  import opened Wrappers
  import opened Text
  import opened Json
  import opened Clock
  import opened Models

  datatype EventType = Activate | Deactivate | Supersede

  datatype Record = Record(
    sequence: nat,
    eventId: string,
    recordedAt: Instant,
    eventType: EventType,
    policyId: string,
    interventionVersion: string,
    deploymentId: Option<string>,
    actor: Option<string>,
    reason: Option<string>,
    metadata: map<string, string>,
    prevEntryHash: string,
    entryHash: string)

  /** What the record model's own validators demand. */
  predicate WellFormed(r: Record) {
    && !IsBlank(r.eventId) && !IsBlank(r.prevEntryHash) && !IsBlank(r.entryHash)
    && r.policyId != "" && r.interventionVersion != ""
  }

  function EventText(e: EventType): string {
    match e
    case Activate => "activate"
    case Deactivate => "deactivate"
    case Supersede => "supersede"
  }

  function ParseEventType(s: string): Option<EventType> {
    if s == "activate" then Some(Activate)
    else if s == "deactivate" then Some(Deactivate)
    else if s == "supersede" then Some(Supersede)
    else None
  }

  // ----- Metadata in key order -----

  predicate Least(k: string, ks: set<string>) {
    k in ks && forall o | o in ks :: o == k || LexLess(k, o)
  }

  lemma {:induction false} LeastExists(ks: set<string>)
    requires ks != {}
    ensures exists k :: Least(k, ks)
    decreases |ks|
  {
    var x :| x in ks;
    if ks == {x} {
      assert Least(x, ks);
    } else {
      LeastExists(ks - {x});
      var k :| Least(k, ks - {x});
      LexTotal(x, k);
      if LexLess(k, x) {
        assert Least(k, ks);
      } else {
        forall o | o in ks && o != x ensures LexLess(x, o) {
          if o != k { LexTransitive(x, k, o); }
        }
        assert Least(x, ks);
      }
    }
  }

  lemma LeastUnique(ks: set<string>)
    ensures forall k, k' | Least(k, ks) && Least(k', ks) :: k == k'
  {
    forall k, k' | Least(k, ks) && Least(k', ks) ensures k == k' {
      LexTotal(k, k');
    }
  }

  function LeastKey(ks: set<string>): (k: string)
    requires ks != {}
    ensures Least(k, ks)
  {
    LeastExists(ks);
    LeastUnique(ks);
    var k :| Least(k, ks);
    k
  }

  function SortedKeys(ks: set<string>): seq<string>
    decreases |ks|
  {
    if ks == {} then []
    else
      var k := LeastKey(ks);
      [k] + SortedKeys(ks - {k})
  }

  /** Each key once, in increasing code-point order: the order of insertion leaves no trace. */
  lemma {:induction false} SortedKeysSorted(ks: set<string>)
    ensures forall k :: k in SortedKeys(ks) <==> k in ks
    ensures forall i, j | 0 <= i < j < |SortedKeys(ks)| :: LexLess(SortedKeys(ks)[i], SortedKeys(ks)[j])
    ensures forall i, j | 0 <= i < j < |SortedKeys(ks)| :: SortedKeys(ks)[i] != SortedKeys(ks)[j]
    decreases |ks|
  {
    if ks != {} {
      var k := LeastKey(ks);
      var rest := SortedKeys(ks - {k});
      SortedKeysSorted(ks - {k});
      assert SortedKeys(ks) == [k] + rest;
      forall j | 0 <= j < |rest| ensures LexLess(k, rest[j]) && rest[j] != k {
        assert rest[j] in rest;
      }
    }
  }

  function FieldsOf(ks: seq<string>, m: map<string, string>): seq<(string, Json)>
    requires forall k | k in ks :: k in m
  {
    seq(|ks|, i requires 0 <= i < |ks| => (ks[i], Str(m[ks[i]])))
  }

  function MetadataJson(m: map<string, string>): Json {
    SortedKeysSorted(m.Keys);
    Obj(FieldsOf(SortedKeys(m.Keys), m))
  }

  /** A JSON object of strings as a map: of equal keys the last one counts. */
  function ReadMetadata(fields: seq<(string, Json)>): Option<map<string, string>> {
    if fields == [] then Some(map[])
    else
      var m :- ReadMetadata(fields[..|fields| - 1]);
      var (k, v) := fields[|fields| - 1];
      if v.Str? then Some(m[k := v.s]) else None
  }

  lemma {:induction false} ReadFieldsOf(ks: seq<string>, m: map<string, string>)
    requires forall k | k in ks :: k in m
    ensures ReadMetadata(FieldsOf(ks, m)) == Some(map k | k in ks :: m[k])
    decreases |ks|
  {
    if ks != [] {
      var n := |ks| - 1;
      var front := ks[..n];
      ReadFieldsOf(front, m);
      assert FieldsOf(ks, m)[..n] == FieldsOf(front, m);
      assert forall k :: k in ks <==> k in front || k == ks[n];
      var a: map<string, string> := map k | k in front :: m[k];
      assert a[ks[n] := m[ks[n]]] == map k | k in ks :: m[k];
    }
  }

  lemma MetadataRoundTrip(m: map<string, string>)
    ensures ReadMetadata(MetadataJson(m).fields) == Some(m)
  {
    SortedKeysSorted(m.Keys);
    ReadFieldsOf(SortedKeys(m.Keys), m);
    assert (map k | k in SortedKeys(m.Keys) :: m[k]) == m;
  }

  // ----- The hashed body -----

  function BodyJson(r: Record): Json {
    Obj([("actor", OptionalText(r.actor)),
         ("deployment_id", OptionalText(r.deploymentId)),
         ("event_id", Str(r.eventId)),
         ("event_type", Str(EventText(r.eventType))),
         ("intervention_version", Str(r.interventionVersion)),
         ("metadata", MetadataJson(r.metadata)),
         ("policy_id", Str(r.policyId)),
         ("prev_entry_hash", Str(r.prevEntryHash)),
         ("reason", OptionalText(r.reason)),
         ("recorded_at", Str(Iso(r.recordedAt))),
         ("sequence", Num(r.sequence))])
  }

  /** The canonical body keeps non-ASCII characters as they are. */
  function BodyText(r: Record): string { Encode(BodyJson(r), false) }

  function EntryHash(hash: HashFn, r: Record): Digest { hash(BodyText(r)) }

  /** Everything but the entry's own hash. */
  function Body(r: Record): Record { r.(entryHash := "") }

  lemma EventTextRoundTrip(e: EventType)
    ensures ParseEventType(EventText(e)) == Some(e)
  {
    assert "deactivate"[0] == 'd' && "activate"[0] == 'a' && "supersede"[0] == 's';
  }

  lemma BodyParts(a: Record, b: Record)
    requires BodyJson(a) == BodyJson(b)
    ensures a.actor == b.actor && a.deploymentId == b.deploymentId && a.reason == b.reason
    ensures a.eventId == b.eventId && EventText(a.eventType) == EventText(b.eventType)
    ensures a.interventionVersion == b.interventionVersion && a.policyId == b.policyId
    ensures MetadataJson(a.metadata) == MetadataJson(b.metadata)
    ensures a.prevEntryHash == b.prevEntryHash && Iso(a.recordedAt) == Iso(b.recordedAt)
    ensures a.sequence == b.sequence
  {
    hide MetadataJson, Iso;
    var x, y := BodyJson(a).fields, BodyJson(b).fields;
    assert x[0] == y[0] && x[1] == y[1] && x[2] == y[2] && x[3] == y[3];
    assert x[4] == y[4] && x[5] == y[5] && x[6] == y[6] && x[7] == y[7];
    assert x[8] == y[8] && x[9] == y[9] && x[10] == y[10];
  }

  /** The canonical body text determines the body, metadata map included: different bodies never
      give the same text. */
  lemma BodyTextInjective(a: Record, b: Record)
    requires BodyText(a) == BodyText(b)
    ensures Body(a) == Body(b)
  {
    hide MetadataJson, Iso, Encode, EventText, BodyJson;
    EncodeInjective(BodyJson(a), BodyJson(b), false);
    BodyParts(a, b);
    EventTextRoundTrip(a.eventType);
    EventTextRoundTrip(b.eventType);
    MetadataRoundTrip(a.metadata);
    MetadataRoundTrip(b.metadata);
    IsoRoundTrip(a.recordedAt);
    IsoRoundTrip(b.recordedAt);
  }

  // ----- The stored line -----

  function RecordFields(r: Record): seq<(string, Json)> {
    [("actor", OptionalText(r.actor)),
     ("deployment_id", OptionalText(r.deploymentId)),
     ("entry_hash", Str(r.entryHash)),
     ("event_id", Str(r.eventId)),
     ("event_type", Str(EventText(r.eventType))),
     ("intervention_version", Str(r.interventionVersion)),
     ("metadata", MetadataJson(r.metadata)),
     ("policy_id", Str(r.policyId)),
     ("prev_entry_hash", Str(r.prevEntryHash)),
     ("reason", OptionalText(r.reason)),
     ("recorded_at", Str(Iso(r.recordedAt))),
     ("sequence", Num(r.sequence))]
  }

  /** One line of the JSONL file, ASCII only. */
  function RecordLine(r: Record): string { Encode(Obj(RecordFields(r)), true) }

  // ----- Reading a line back -----

  function TextField(fields: seq<(string, Json)>, name: string): Option<string> {
    var v :- Lookup(fields, name);
    if v.Str? then Some(v.s) else None
  }

  function OptionalField(fields: seq<(string, Json)>, name: string): Option<Option<string>> {
    match Lookup(fields, name)
    case None => Some(None)
    case Some(Null) => Some(None)
    case Some(Str(s)) => Some(Some(s))
    case _ => None
  }

  function MetadataField(fields: seq<(string, Json)>): Option<map<string, string>> {
    match Lookup(fields, "metadata")
    case None => Some(map[])
    case Some(Obj(entries)) => ReadMetadata(entries)
    case _ => None
  }

  const RECORD_NAMES := ["actor", "deployment_id", "entry_hash", "event_id", "event_type", "intervention_version",
                         "metadata", "policy_id", "prev_entry_hash", "reason", "recorded_at", "sequence"]

  predicate KnownName(name: string) { name in RECORD_NAMES }

  function SequenceField(fields: seq<(string, Json)>): Option<nat> {
    var v :- Lookup(fields, "sequence");
    if v.Num? then Some(v.n) else None
  }

  function EventField(fields: seq<(string, Json)>): Option<EventType> {
    var s :- TextField(fields, "event_type");
    ParseEventType(s)
  }

  function TimeField(fields: seq<(string, Json)>): Option<Instant> {
    var s :- TextField(fields, "recorded_at");
    ParseIso(s)
  }

  function BuildRecord(fields: seq<(string, Json)>): Option<Record> {
    var sequence :- SequenceField(fields);
    var eventId :- TextField(fields, "event_id");
    var recordedAt :- TimeField(fields);
    var eventType :- EventField(fields);
    var policyId :- TextField(fields, "policy_id");
    var version :- TextField(fields, "intervention_version");
    var deploymentId :- OptionalField(fields, "deployment_id");
    var actor :- OptionalField(fields, "actor");
    var reason :- OptionalField(fields, "reason");
    var metadata :- MetadataField(fields);
    var prev :- TextField(fields, "prev_entry_hash");
    var entry :- TextField(fields, "entry_hash");
    Some(Record(sequence, eventId, recordedAt, eventType, policyId, version, deploymentId, actor,
                reason, metadata, prev, entry))
  }

  /** `model_validate`: unknown names are refused, required ones must be there and well formed. */
  function ReadRecord(v: Json): (r: Option<Record>)
    ensures r.Some? ==> WellFormed(r.value)
  {
    if !v.Obj? || exists f | f in v.fields :: !KnownName(f.0) then None
    else
      var r :- BuildRecord(v.fields);
      if WellFormed(r) then Some(r) else None
  }

  function ReadLine(line: string): Option<Record> {
    var v :- Decode(line);
    ReadRecord(v)
  }

  lemma FrontNamesSorted()
    ensures LexLess("actor", "deployment_id") && LexLess("deployment_id", "entry_hash")
    ensures LexLess("deployment_id", "event_id") && LexLess("entry_hash", "event_id")
    ensures LexLess("event_id", "event_type") && LexLess("event_type", "intervention_version")
  {
    hide LexLess;
    assert "actor"[0] == 'a' && "deployment_id"[0] == 'd' && "entry_hash"[0] == 'e' && "event_id"[0] == 'e';
    assert "event_type"[0] == 'e' && "intervention_version"[0] == 'i';
    assert "entry_hash"[1] == 'n' && "event_id"[1] == 'v' && "entry_hash"[..1] == "event_id"[..1] == "e";
    assert "event_id"[..6] == "event_type"[..6] == "event_" && "event_id"[6] == 'i' && "event_type"[6] == 't';
    LexLessAt("actor", "deployment_id", 0);
    LexLessAt("deployment_id", "entry_hash", 0);
    LexLessAt("deployment_id", "event_id", 0);
    LexLessAt("entry_hash", "event_id", 1);
    LexLessAt("event_id", "event_type", 6);
    LexLessAt("event_type", "intervention_version", 0);
  }

  lemma BackNamesSorted()
    ensures LexLess("intervention_version", "metadata") && LexLess("metadata", "policy_id")
    ensures LexLess("policy_id", "prev_entry_hash") && LexLess("prev_entry_hash", "reason")
    ensures LexLess("reason", "recorded_at") && LexLess("recorded_at", "sequence")
  {
    hide LexLess;
    assert "intervention_version"[0] == 'i' && "metadata"[0] == 'm' && "policy_id"[0] == 'p';
    assert "prev_entry_hash"[0] == 'p' && "reason"[0] == 'r' && "recorded_at"[0] == 'r' && "sequence"[0] == 's';
    assert "policy_id"[..1] == "prev_entry_hash"[..1] == "p" && "policy_id"[1] == 'o' && "prev_entry_hash"[1] == 'r';
    assert "reason"[..2] == "recorded_at"[..2] == "re" && "reason"[2] == 'a' && "recorded_at"[2] == 'c';
    LexLessAt("intervention_version", "metadata", 0);
    LexLessAt("metadata", "policy_id", 0);
    LexLessAt("policy_id", "prev_entry_hash", 1);
    LexLessAt("prev_entry_hash", "reason", 0);
    LexLessAt("reason", "recorded_at", 2);
    LexLessAt("recorded_at", "sequence", 0);
  }

  const BODY_NAMES := ["actor", "deployment_id", "event_id", "event_type", "intervention_version", "metadata",
                       "policy_id", "prev_entry_hash", "reason", "recorded_at", "sequence"]

  /** The names of the stored line and of the hashed body are in increasing code-point order, as sorting by
      key leaves them. */
  lemma RecordNamesSorted()
    ensures KeySorted(RECORD_NAMES) && KeySorted(BODY_NAMES)
  {
    hide LexLess;
    FrontNamesSorted();
    BackNamesSorted();
  }

  lemma TextFieldsRead(r: Record)
    ensures var fields := RecordFields(r);
      && TextField(fields, "event_id") == Some(r.eventId)
      && TextField(fields, "policy_id") == Some(r.policyId)
      && TextField(fields, "intervention_version") == Some(r.interventionVersion)
      && TextField(fields, "prev_entry_hash") == Some(r.prevEntryHash)
      && TextField(fields, "entry_hash") == Some(r.entryHash)
      && SequenceField(fields) == Some(r.sequence)
  {
    hide Lookup, MetadataJson, Iso, EventText, KeySorted;
    RecordNamesSorted();
    RecordFieldNames(r);
    var fields := RecordFields(r);
    LookupAt(fields, RECORD_NAMES, 2);
    LookupAt(fields, RECORD_NAMES, 3);
    LookupAt(fields, RECORD_NAMES, 5);
    LookupAt(fields, RECORD_NAMES, 7);
    LookupAt(fields, RECORD_NAMES, 8);
    LookupAt(fields, RECORD_NAMES, 11);
  }

  lemma OptionalFieldsRead(r: Record)
    ensures var fields := RecordFields(r);
      && OptionalField(fields, "actor") == Some(r.actor)
      && OptionalField(fields, "deployment_id") == Some(r.deploymentId)
      && OptionalField(fields, "reason") == Some(r.reason)
  {
    hide Lookup, MetadataJson, Iso, EventText, KeySorted;
    RecordNamesSorted();
    RecordFieldNames(r);
    var fields := RecordFields(r);
    LookupAt(fields, RECORD_NAMES, 0);
    LookupAt(fields, RECORD_NAMES, 1);
    LookupAt(fields, RECORD_NAMES, 9);
  }

  lemma ParsedFieldsRead(r: Record)
    ensures var fields := RecordFields(r);
      && EventField(fields) == Some(r.eventType)
      && TimeField(fields) == Some(r.recordedAt)
      && MetadataField(fields) == Some(r.metadata)
  {
    hide Lookup, MetadataJson, Iso, ParseIso, EventText, ParseEventType, ReadMetadata, KeySorted;
    RecordNamesSorted();
    RecordFieldNames(r);
    var fields := RecordFields(r);
    LookupAt(fields, RECORD_NAMES, 4);
    LookupAt(fields, RECORD_NAMES, 6);
    LookupAt(fields, RECORD_NAMES, 10);
    MetadataRoundTrip(r.metadata);
    MetadataIsObject(r.metadata);
    IsoRoundTrip(r.recordedAt);
    EventTextRoundTrip(r.eventType);
  }

  lemma RecordRead(r: Record)
    requires WellFormed(r)
    ensures ReadRecord(Obj(RecordFields(r))) == Some(r)
  {
    hide RecordFields, TextField, OptionalField, SequenceField, EventField, TimeField, MetadataField,
         WellFormed;
    TextFieldsRead(r);
    OptionalFieldsRead(r);
    ParsedFieldsRead(r);
    RecordFieldNames(r);
  }

  lemma RecordFieldNames(r: Record)
    ensures NamesAre(RecordFields(r), RECORD_NAMES)
  {
    hide MetadataJson, Iso, EventText;
  }

  lemma MetadataIsObject(m: map<string, string>)
    ensures MetadataJson(m).Obj?
  {
  }

  /** Reading a stored line gives the record back. */
  lemma LineRoundTrip(r: Record)
    requires WellFormed(r)
    ensures ReadLine(RecordLine(r)) == Some(r)
  {
    hide Encode, Decode, RecordFields, ReadRecord;
    DecodeEncode(Obj(RecordFields(r)), true);
    RecordRead(r);
  }

  /** A stored line holds no line boundary and is not blank: it starts with a brace. */
  lemma LineShape(r: Record)
    ensures OneLine(RecordLine(r)) && RecordLine(r) != "" && RecordLine(r)[0] == '{'
    ensures forall k | 0 < k <= |RecordLine(r)| :: !IsBlank(RecordLine(r)[..k])
  {
    hide RecordFields, EncodeFields;
    EncodePrintable(Obj(RecordFields(r)));
    var line := RecordLine(r);
    assert Printable(line);
    assert line[0] == '{';
    forall k | 0 < k <= |line| ensures !IsBlank(line[..k]) {
      assert !IsSpace(line[..k][0]);
    }
  }

  // ----- What the hashed text and the stored line say -----

  /** The three event names. */
  predicate EventNamed(s: string, e: EventType) {
    (s == "activate" && e == Activate) || (s == "deactivate" && e == Deactivate)
      || (s == "supersede" && e == Supersede)
  }

  /** Writing and reading event names follow that table, and nothing else is an event name. */
  lemma EventNames(s: string, e: EventType)
    ensures EventNamed(EventText(e), e)
    ensures ParseEventType(s) == Some(e) <==> EventNamed(s, e)
  {
    EventTextRoundTrip(e);
    assert "deactivate"[0] == 'd' && "activate"[0] == 'a' && "supersede"[0] == 's';
  }

  /** An object of texts reads as the map: of equal names the last one counts. */
  ghost predicate ReadsMetadata(entries: seq<(string, Json)>, m: map<string, string>) {
    && (forall i | 0 <= i < |entries| :: entries[i].1.Str?)
    && (forall k :: k in m <==> Lookup(entries, k).Some?)
    && (forall k | k in m :: Lookup(entries, k) == Some(Str(m[k])))
  }

  lemma LookupSnoc(entries: seq<(string, Json)>, k: string)
    requires entries != []
    ensures var n := |entries| - 1;
      Lookup(entries, k) == if entries[n].0 == k then Some(entries[n].1) else Lookup(entries[..n], k)
  {
    assert NameOf(entries[|entries| - 1]) == entries[|entries| - 1].0;
  }

  lemma ReadsMetadataSnoc(entries: seq<(string, Json)>, front: map<string, string>, s: string)
    requires entries != [] && ReadsMetadata(entries[..|entries| - 1], front)
    requires entries[|entries| - 1].1 == Str(s)
    ensures ReadsMetadata(entries, front[entries[|entries| - 1].0 := s])
  {
    hide Lookup;
    var n := |entries| - 1;
    var m := front[entries[n].0 := s];
    assert forall i | 0 <= i < n :: entries[i] == entries[..n][i];
    forall k ensures k in m <==> Lookup(entries, k).Some? {
      LookupSnoc(entries, k);
    }
    forall k | k in m ensures Lookup(entries, k) == Some(Str(m[k])) {
      LookupSnoc(entries, k);
    }
  }

  lemma {:induction false} ReadMetadataMeans(entries: seq<(string, Json)>)
    ensures ReadMetadata(entries).Some? <==> forall i | 0 <= i < |entries| :: entries[i].1.Str?
    ensures ReadMetadata(entries).Some? ==> ReadsMetadata(entries, ReadMetadata(entries).value)
    decreases |entries|
  {
    hide Lookup, ReadsMetadata;
    if entries == [] {
      assert ReadsMetadata([], map[]) by { NoMetadata(); }
    } else {
      var n := |entries| - 1;
      ReadMetadataMeans(entries[..n]);
      assert forall i | 0 <= i < n :: entries[i] == entries[..n][i];
      if ReadMetadata(entries).Some? {
        ReadsMetadataSnoc(entries, ReadMetadata(entries[..n]).value, entries[n].1.s);
      }
    }
  }

  lemma NoMetadata()
    ensures ReadsMetadata([], map[])
  {
    assert forall k :: Lookup([], k) == None;
  }

  lemma ReadsMetadataUnique(entries: seq<(string, Json)>, m: map<string, string>, n: map<string, string>)
    requires ReadsMetadata(entries, m) && ReadsMetadata(entries, n)
    ensures m == n
  {
    hide Lookup;
    forall k ensures k in m <==> k in n { }
    forall k | k in m ensures m[k] == n[k] {
      assert Lookup(entries, k) == Some(Str(m[k])) && Lookup(entries, k) == Some(Str(n[k]));
    }
  }

  /** Names in strictly increasing order, and the map's own values. */
  ghost predicate WritesMetadata(v: Option<Json>, m: map<string, string>) {
    && v.Some? && v.value.Obj?
    && KeySorted(Keys(v.value.fields, NameOf))
    && ReadsMetadata(v.value.fields, m)
  }

  lemma MetadataWritten(m: map<string, string>)
    ensures WritesMetadata(Some(MetadataJson(m)), m)
  {
    hide LexLess, Lookup, ReadMetadata;
    var fields := MetadataJson(m).fields;
    SortedKeysSorted(m.Keys);
    MetadataRoundTrip(m);
    ReadMetadataMeans(fields);
    var names := Keys(fields, NameOf);
    assert names == SortedKeys(m.Keys);
  }

  predicate WritesOptional(v: Option<Json>, text: Option<string>) {
    v.Some? && TextOrNull(v.value, text)
  }

  predicate WritesEvent(v: Option<Json>, e: EventType) { v.Some? && v.value.Str? && EventNamed(v.value.s, e) }

  /** Every field of the body under its own name. */
  ghost predicate WritesFields(fields: seq<(string, Json)>, r: Record) {
    && WritesOptional(Lookup(fields, "actor"), r.actor)
    && WritesOptional(Lookup(fields, "deployment_id"), r.deploymentId)
    && Lookup(fields, "event_id") == Some(Str(r.eventId))
    && WritesEvent(Lookup(fields, "event_type"), r.eventType)
    && Lookup(fields, "intervention_version") == Some(Str(r.interventionVersion))
    && WritesMetadata(Lookup(fields, "metadata"), r.metadata)
    && Lookup(fields, "policy_id") == Some(Str(r.policyId))
    && Lookup(fields, "prev_entry_hash") == Some(Str(r.prevEntryHash))
    && WritesOptional(Lookup(fields, "reason"), r.reason)
    && WritesTime(Lookup(fields, "recorded_at"), r.recordedAt)
    && Lookup(fields, "sequence") == Some(Num(r.sequence))
  }

  lemma BodyNamed(r: Record)
    ensures BodyJson(r).Obj? && NamesAre(BodyJson(r).fields, BODY_NAMES)
  {
    hide MetadataJson, Iso, EventText, OptionalText;
  }

  lemma BodyLooksUp(r: Record)
    ensures var fields := BodyJson(r).fields;
      && Lookup(fields, "actor") == Some(OptionalText(r.actor))
      && Lookup(fields, "deployment_id") == Some(OptionalText(r.deploymentId))
      && Lookup(fields, "event_id") == Some(Str(r.eventId))
      && Lookup(fields, "event_type") == Some(Str(EventText(r.eventType)))
      && Lookup(fields, "intervention_version") == Some(Str(r.interventionVersion))
      && Lookup(fields, "metadata") == Some(MetadataJson(r.metadata))
  {
    hide Lookup, MetadataJson, Iso, EventText, OptionalText, KeySorted;
    BodyNamed(r);
    RecordNamesSorted();
    var fields := BodyJson(r).fields;
    LookupAt(fields, BODY_NAMES, 0);
    LookupAt(fields, BODY_NAMES, 1);
    LookupAt(fields, BODY_NAMES, 2);
    LookupAt(fields, BODY_NAMES, 3);
    LookupAt(fields, BODY_NAMES, 4);
    LookupAt(fields, BODY_NAMES, 5);
  }

  lemma BodyLooksUpRest(r: Record)
    ensures var fields := BodyJson(r).fields;
      && Lookup(fields, "policy_id") == Some(Str(r.policyId))
      && Lookup(fields, "prev_entry_hash") == Some(Str(r.prevEntryHash))
      && Lookup(fields, "reason") == Some(OptionalText(r.reason))
      && Lookup(fields, "recorded_at") == Some(Str(Iso(r.recordedAt)))
      && Lookup(fields, "sequence") == Some(Num(r.sequence))
  {
    hide Lookup, MetadataJson, Iso, EventText, OptionalText, KeySorted;
    BodyNamed(r);
    RecordNamesSorted();
    var fields := BodyJson(r).fields;
    LookupAt(fields, BODY_NAMES, 6);
    LookupAt(fields, BODY_NAMES, 7);
    LookupAt(fields, BODY_NAMES, 8);
    LookupAt(fields, BODY_NAMES, 9);
    LookupAt(fields, BODY_NAMES, 10);
  }

  lemma OptionalWritten(text: Option<string>)
    ensures WritesOptional(Some(OptionalText(text)), text)
  {
  }

  /** The text an entry's hash is taken of: the eleven fields of the body under their own names, the names
      in code-point order, compact, non-ASCII characters as they are. */
  lemma BodyTextMeans(hash: HashFn, r: Record) returns (fields: seq<(string, Json)>)
    ensures EntryHash(hash, r) == hash(Encode(Obj(fields), false))
    ensures NamesAre(fields, BODY_NAMES) && KeySorted(BODY_NAMES) && WritesFields(fields, r)
    ensures BodyText(r) == Encode(Obj(fields), false) && Decode(BodyText(r)) == Some(Obj(fields))
  {
    hide Lookup, Encode, Decode, BodyJson, MetadataJson, Iso, EventText, OptionalText, WritesMetadata, WritesOptional,
         KeySorted;
    BodyNamed(r);
    fields := BodyJson(r).fields;
    DecodeEncode(BodyJson(r), false);
    RecordNamesSorted();
    BodyLooksUp(r);
    BodyLooksUpRest(r);
    OptionalWritten(r.actor);
    OptionalWritten(r.deploymentId);
    OptionalWritten(r.reason);
    MetadataWritten(r.metadata);
    EventNames(EventText(r.eventType), r.eventType);
  }

  lemma LineLooksUp(r: Record)
    ensures var fields := RecordFields(r);
      && Lookup(fields, "actor") == Some(OptionalText(r.actor))
      && Lookup(fields, "deployment_id") == Some(OptionalText(r.deploymentId))
      && Lookup(fields, "entry_hash") == Some(Str(r.entryHash))
      && Lookup(fields, "event_id") == Some(Str(r.eventId))
      && Lookup(fields, "event_type") == Some(Str(EventText(r.eventType)))
      && Lookup(fields, "intervention_version") == Some(Str(r.interventionVersion))
  {
    hide Lookup, MetadataJson, Iso, EventText, OptionalText, KeySorted;
    RecordFieldNames(r);
    RecordNamesSorted();
    var fields := RecordFields(r);
    LookupAt(fields, RECORD_NAMES, 0);
    LookupAt(fields, RECORD_NAMES, 1);
    LookupAt(fields, RECORD_NAMES, 2);
    LookupAt(fields, RECORD_NAMES, 3);
    LookupAt(fields, RECORD_NAMES, 4);
    LookupAt(fields, RECORD_NAMES, 5);
  }

  lemma LineLooksUpRest(r: Record)
    ensures var fields := RecordFields(r);
      && Lookup(fields, "metadata") == Some(MetadataJson(r.metadata))
      && Lookup(fields, "policy_id") == Some(Str(r.policyId))
      && Lookup(fields, "prev_entry_hash") == Some(Str(r.prevEntryHash))
      && Lookup(fields, "reason") == Some(OptionalText(r.reason))
      && Lookup(fields, "recorded_at") == Some(Str(Iso(r.recordedAt)))
      && Lookup(fields, "sequence") == Some(Num(r.sequence))
  {
    hide Lookup, MetadataJson, Iso, EventText, OptionalText, KeySorted;
    RecordFieldNames(r);
    RecordNamesSorted();
    var fields := RecordFields(r);
    LookupAt(fields, RECORD_NAMES, 6);
    LookupAt(fields, RECORD_NAMES, 7);
    LookupAt(fields, RECORD_NAMES, 8);
    LookupAt(fields, RECORD_NAMES, 9);
    LookupAt(fields, RECORD_NAMES, 10);
    LookupAt(fields, RECORD_NAMES, 11);
  }

  /** The stored line: the same fields and the entry's own hash, in order, compact, ASCII only. */
  lemma RecordLineMeans(r: Record) returns (fields: seq<(string, Json)>)
    ensures NamesAre(fields, RECORD_NAMES) && KeySorted(RECORD_NAMES) && WritesFields(fields, r)
    ensures Lookup(fields, "entry_hash") == Some(Str(r.entryHash))
    ensures RecordLine(r) == Encode(Obj(fields), true) && Decode(RecordLine(r)) == Some(Obj(fields))
  {
    hide Lookup, Encode, Decode, RecordFields, MetadataJson, Iso, EventText, OptionalText, WritesMetadata,
         WritesOptional, KeySorted;
    fields := RecordFields(r);
    DecodeEncode(Obj(RecordFields(r)), true);
    RecordFieldNames(r);
    RecordNamesSorted();
    LineLooksUp(r);
    LineLooksUpRest(r);
    OptionalWritten(r.actor);
    OptionalWritten(r.deploymentId);
    OptionalWritten(r.reason);
    MetadataWritten(r.metadata);
    EventNames(EventText(r.eventType), r.eventType);
  }

  // ----- Which lines read, and as what -----

  /** A field that may be missing or null. */
  predicate ReadsOptional(v: Option<Json>, text: Option<string>) {
    match v
    case None => text.None?
    case Some(j) => TextOrNull(j, text)
  }

  predicate ReadsTime(v: Option<Json>, t: Instant) { v.Some? && v.value.Str? && ParseIso(v.value.s) == Some(t) }

  ghost predicate ReadsMap(v: Option<Json>, m: map<string, string>) {
    match v
    case None => m == map[]
    case Some(Obj(entries)) => ReadsMetadata(entries, m)
    case _ => false
  }

  ghost predicate ReadsFields(fields: seq<(string, Json)>, r: Record) {
    && ReadsOptional(Lookup(fields, "actor"), r.actor)
    && ReadsOptional(Lookup(fields, "deployment_id"), r.deploymentId)
    && Lookup(fields, "entry_hash") == Some(Str(r.entryHash))
    && Lookup(fields, "event_id") == Some(Str(r.eventId))
    && WritesEvent(Lookup(fields, "event_type"), r.eventType)
    && Lookup(fields, "intervention_version") == Some(Str(r.interventionVersion))
    && ReadsMap(Lookup(fields, "metadata"), r.metadata)
    && Lookup(fields, "policy_id") == Some(Str(r.policyId))
    && Lookup(fields, "prev_entry_hash") == Some(Str(r.prevEntryHash))
    && ReadsOptional(Lookup(fields, "reason"), r.reason)
    && ReadsTime(Lookup(fields, "recorded_at"), r.recordedAt)
    && Lookup(fields, "sequence") == Some(Num(r.sequence))
  }

  lemma OptionalReads(fields: seq<(string, Json)>, name: string, text: Option<string>)
    ensures OptionalField(fields, name) == Some(text) <==> ReadsOptional(Lookup(fields, name), text)
  {
    hide Lookup;
  }

  lemma MapReads(fields: seq<(string, Json)>, m: map<string, string>)
    ensures MetadataField(fields) == Some(m) <==> ReadsMap(Lookup(fields, "metadata"), m)
  {
    hide Lookup, ReadsMetadata, ReadMetadata;
    var v := Lookup(fields, "metadata");
    if v.Some? && v.value.Obj? {
      ReadMetadataMeans(v.value.fields);
      if ReadsMetadata(v.value.fields, m) {
        AllTexts(v.value.fields, m);
        ReadsMetadataUnique(v.value.fields, m, ReadMetadata(v.value.fields).value);
      }
    }
  }

  lemma AllTexts(entries: seq<(string, Json)>, m: map<string, string>)
    requires ReadsMetadata(entries, m)
    ensures forall i | 0 <= i < |entries| :: entries[i].1.Str?
  {
    hide Lookup;
  }

  lemma EventReads(fields: seq<(string, Json)>, e: EventType)
    ensures EventField(fields) == Some(e) <==> WritesEvent(Lookup(fields, "event_type"), e)
  {
    hide Lookup, ParseEventType, EventNamed;
    var v := Lookup(fields, "event_type");
    if v.Some? && v.value.Str? { EventNames(v.value.s, e); }
  }

  lemma BuildMeans(fields: seq<(string, Json)>, r: Record)
    ensures BuildRecord(fields) == Some(r) <==> ReadsFields(fields, r)
  {
    hide Lookup, ReadsOptional, ReadsMap, WritesEvent, OptionalField, MetadataField, EventField, ParseIso;
    OptionalReads(fields, "actor", r.actor);
    OptionalReads(fields, "deployment_id", r.deploymentId);
    OptionalReads(fields, "reason", r.reason);
    MapReads(fields, r.metadata);
    EventReads(fields, r.eventType);
  }

  /** A line reads as a record exactly when it is a JSON object without unknown names, whose fields under
      their own names are the record's, the optional ones null or left out, and whose identifiers and
      hashes are not blank, policy and version not empty. */
  lemma ReadLineMeans(line: string, r: Record)
    ensures ReadLine(line) == Some(r) <==>
      match Decode(line)
      case Some(Obj(fields)) =>
        && (forall f | f in fields :: f.0 in RECORD_NAMES)
        && ReadsFields(fields, r)
        && !IsBlank(r.eventId) && !IsBlank(r.prevEntryHash) && !IsBlank(r.entryHash)
        && r.policyId != "" && r.interventionVersion != ""
      case _ => false
  {
    hide Decode, ReadsFields, BuildRecord, IsBlank;
    var v := Decode(line);
    if v.Some? && v.value.Obj? {
      BuildMeans(v.value.fields, r);
    }
  }
}
