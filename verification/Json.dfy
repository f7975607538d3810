/** The JSON text that the ledger and the GCO digest hash and store: `json.dumps` with compact
    separators, and `json.loads`. Escaping follows section 7 of RFC 8259. */
module Json {
  import opened Wrappers
  import opened Text

  datatype Json =
    | Null
    | Num(n: nat)
    | Str(s: string)
    | Arr(items: seq<Json>)
    | Obj(fields: seq<(string, Json)>)

  // ----- Writing -----

  function HexDigit(d: nat): (c: char)
    requires d < 16
  {
    if d < 10 then ('0' as int + d) as char else ('a' as int + d - 10) as char
  }

  function Hex4(n: nat): (s: string)
    requires n < 0x10000
    ensures |s| == 4
  {
    [HexDigit(n / 4096), HexDigit(n / 256 % 16), HexDigit(n / 16 % 16), HexDigit(n % 16)]
  }

  /** `\uXXXX`, as a surrogate pair above the basic plane. */
  function UnicodeEscape(c: char): string {
    var n := c as int;
    if n < 0x10000 then "\\u" + Hex4(n)
    else "\\u" + Hex4(0xd800 + (n - 0x10000) / 1024) + "\\u" + Hex4(0xdc00 + (n - 0x10000) % 1024)
  }

  function Escape(c: char, ascii: bool): string {
    if c == '\"' then "\\\""
    else if c == '\\' then "\\\\"
    else if c == '\n' then "\\n"
    else if c == '\r' then "\\r"
    else if c == '\t' then "\\t"
    else if c == '\U{000c}' then "\\f"
    else if c == '\U{0008}' then "\\b"
    else if c < ' ' || (ascii && c > '~') then UnicodeEscape(c)
    else [c]
  }

  function EscapeAll(s: string, ascii: bool): string {
    if s == "" then "" else Escape(s[0], ascii) + EscapeAll(s[1..], ascii)
  }

  function Quote(s: string, ascii: bool): string {
    "\"" + EscapeAll(s, ascii) + "\""
  }

  /** `ascii` is the `ensure_ascii` argument of `json.dumps`. */
  function Encode(v: Json, ascii: bool): string
    decreases v, 1
  {
    match v
    case Null => "null"
    case Num(n) => NatText(n)
    case Str(s) => Quote(s, ascii)
    case Arr(items) => "[" + EncodeItems(items, ascii) + "]"
    case Obj(fields) => "{" + EncodeFields(fields, ascii) + "}"
  }

  function EncodeItems(items: seq<Json>, ascii: bool): string
    decreases items, 0
  {
    if items == [] then ""
    else if |items| == 1 then Encode(items[0], ascii)
    else Encode(items[0], ascii) + "," + EncodeItems(items[1..], ascii)
  }

  function EncodeField(field: (string, Json), ascii: bool): string
    decreases field, 2
  {
    Quote(field.0, ascii) + ":" + Encode(field.1, ascii)
  }

  function EncodeFields(fields: seq<(string, Json)>, ascii: bool): string
    decreases fields, 0
  {
    if fields == [] then ""
    else if |fields| == 1 then EncodeField(fields[0], ascii)
    else EncodeField(fields[0], ascii) + "," + EncodeFields(fields[1..], ascii)
  }

  // ----- Reading: each reader returns what it read and the text left over -----

  predicate IsJsonSpace(c: char) { c == ' ' || c == '\t' || c == '\n' || c == '\r' }

  function Skip(s: string): (r: string)
    ensures |r| <= |s|
  {
    if s != "" && IsJsonSpace(s[0]) then Skip(s[1..]) else s
  }

  function HexValue(c: char): (d: Option<nat>)
    ensures d.Some? ==> d.value < 16
  {
    if '0' <= c <= '9' then Some(c as int - '0' as int)
    else if 'a' <= c <= 'f' then Some(c as int - 'a' as int + 10)
    else if 'A' <= c <= 'F' then Some(c as int - 'A' as int + 10)
    else None
  }

  function ReadHex4(s: string): (r: Option<nat>)
    ensures r.Some? ==> |s| >= 4 && r.value < 0x10000
  {
    if |s| < 4 then None else
      var a :- HexValue(s[0]);
      var b :- HexValue(s[1]);
      var c :- HexValue(s[2]);
      var d :- HexValue(s[3]);
      var (high, low) := (a * 16 + b, c * 16 + d);
      assert high < 256 && low < 256;
      Some(high * 256 + low)
  }

  /** What follows a backslash. An unpaired surrogate is refused. */
  function ReadEscape(s: string): (r: Option<(char, string)>)
    ensures r.Some? ==> |r.value.1| < |s|
  {
    if s == "" then None
    else if s[0] in {'\"', '\\', '/'} then Some((s[0], s[1..]))
    else if s[0] == 'n' then Some(('\n', s[1..]))
    else if s[0] == 'r' then Some(('\r', s[1..]))
    else if s[0] == 't' then Some(('\t', s[1..]))
    else if s[0] == 'f' then Some(('\U{000c}', s[1..]))
    else if s[0] == 'b' then Some(('\U{0008}', s[1..]))
    else if s[0] == 'u' then
      var n :- ReadHex4(s[1..]);
      if n < 0xd800 || n >= 0xe000 then Some((n as char, s[5..]))
      else if n < 0xdc00 && |s| >= 7 && s[5..7] == "\\u" then
        var m :- ReadHex4(s[7..]);
        if 0xdc00 <= m < 0xe000 then
          Some(((0x10000 + (n - 0xd800) * 1024 + (m - 0xdc00)) as char, s[11..]))
        else None
      else None
    else None
  }

  /** The inside of a string and its closing quote. */
  function ReadChars(s: string): (r: Option<(string, string)>)
    ensures r.Some? ==> |r.value.1| < |s|
    decreases |s|
  {
    if s == "" then None
    else if s[0] == '\"' then Some(("", s[1..]))
    else if s[0] == '\\' then
      var (c, t) :- ReadEscape(s[1..]);
      var (cs, u) :- ReadChars(t);
      Some(([c] + cs, u))
    else if s[0] < ' ' then None
    else
      var (cs, u) :- ReadChars(s[1..]);
      Some(([s[0]] + cs, u))
  }

  function DigitCount(s: string): (n: nat)
    ensures n <= |s|
    ensures forall i | 0 <= i < n :: IsDigit(s[i])
    ensures n == |s| || !IsDigit(s[n])
  {
    if s == "" || !IsDigit(s[0]) then 0 else 1 + DigitCount(s[1..])
  }

  /** A natural number; a fraction or an exponent makes it a float, which no record field holds. */
  function ReadNat(s: string): (r: Option<(nat, string)>)
    ensures r.Some? ==> |r.value.1| < |s|
  {
    var n := if s != "" && s[0] == '0' then 1 else DigitCount(s);
    if n == 0 || (n < |s| && s[n] in {'.', 'e', 'E'}) then None
    else Some((DigitsValue(s[..n]), s[n..]))
  }

  function ReadValue(s: string): (r: Option<(Json, string)>)
    ensures r.Some? ==> |r.value.1| < |s|
    decreases |s|, 0
  {
    if s == "" then None
    else if s[0] == '\"' then
      var (cs, t) :- ReadChars(s[1..]);
      Some((Str(cs), t))
    else if s[0] == '{' then
      var t := Skip(s[1..]);
      if t != "" && t[0] == '}' then Some((Obj([]), t[1..]))
      else
        var (fs, u) :- ReadFields(t);
        Some((Obj(fs), u))
    else if s[0] == '[' then
      var t := Skip(s[1..]);
      if t != "" && t[0] == ']' then Some((Arr([]), t[1..]))
      else
        var (vs, u) :- ReadItems(t);
        Some((Arr(vs), u))
    else if IsDigit(s[0]) then
      var (n, t) :- ReadNat(s);
      Some((Num(n), t))
    else if "null" <= s then Some((Null, s[4..]))
    else None
  }

  function ReadItems(s: string): (r: Option<(seq<Json>, string)>)
    ensures r.Some? ==> |r.value.1| < |s|
    decreases |s|, 1
  {
    var (v, t) :- ReadValue(s);
    var u := Skip(t);
    if u == "" then None
    else if u[0] == ']' then Some(([v], u[1..]))
    else if u[0] == ',' then
      var (vs, w) :- ReadItems(Skip(u[1..]));
      Some(([v] + vs, w))
    else None
  }

  function ReadField(s: string): (r: Option<((string, Json), string)>)
    ensures r.Some? ==> |r.value.1| < |s|
    decreases |s|, 1
  {
    if s == "" || s[0] != '\"' then None else
      var (key, t) :- ReadChars(s[1..]);
      var u := Skip(t);
      if u == "" || u[0] != ':' then None else
        var (v, w) :- ReadValue(Skip(u[1..]));
        Some(((key, v), w))
  }

  function ReadFields(s: string): (r: Option<(seq<(string, Json)>, string)>)
    ensures r.Some? ==> |r.value.1| < |s|
    decreases |s|, 2
  {
    var (f, t) :- ReadField(s);
    var u := Skip(t);
    if u == "" then None
    else if u[0] == '}' then Some(([f], u[1..]))
    else if u[0] == ',' then
      var (fs, w) :- ReadFields(Skip(u[1..]));
      Some(([f] + fs, w))
    else None
  }

  /** `json.loads` */
  function Decode(text: string): Option<Json> {
    var (v, rest) :- ReadValue(Skip(text));
    if Skip(rest) == "" then Some(v) else None
  }

  // ----- Reading undoes writing -----

  lemma HexDigitRoundTrip(d: nat)
    requires d < 16
    ensures HexValue(HexDigit(d)) == Some(d)
  {
  }

  lemma HexDigitsRead(a: nat, b: nat, c: nat, d: nat, rest: string)
    requires a < 16 && b < 16 && c < 16 && d < 16
    ensures ReadHex4([HexDigit(a), HexDigit(b), HexDigit(c), HexDigit(d)] + rest)
         == Some(a * 4096 + b * 256 + c * 16 + d)
  {
    HexDigitRoundTrip(a);
    HexDigitRoundTrip(b);
    HexDigitRoundTrip(c);
    HexDigitRoundTrip(d);
    var s := [HexDigit(a), HexDigit(b), HexDigit(c), HexDigit(d)] + rest;
    assert s[0] == HexDigit(a) && s[1] == HexDigit(b) && s[2] == HexDigit(c) && s[3] == HexDigit(d);
  }

  lemma HexDigitsOf(n: nat)
    requires n < 0x10000
    ensures n / 4096 < 16
    ensures n == n / 4096 * 4096 + n / 256 % 16 * 256 + n / 16 % 16 * 16 + n % 16
  {
    var a := n / 16;
    var b := a / 16;
    var c := b / 16;
    assert b == n / 256 && c == n / 4096 by { HexQuotients(n); }
    assert n == a * 16 + n % 16 && a == b * 16 + a % 16 && b == c * 16 + b % 16;
  }

  lemma HexQuotients(n: nat)
    ensures n / 16 / 16 == n / 256 && n / 16 / 16 / 16 == n / 4096
  {
    assert n / 256 / 16 == n / 4096;
  }

  lemma HexRoundTrip(n: nat, rest: string)
    requires n < 0x10000
    ensures ReadHex4(Hex4(n) + rest) == Some(n) && (Hex4(n) + rest)[4..] == rest
  {
    HexDigitsOf(n);
    HexDigitsRead(n / 4096, n / 256 % 16, n / 16 % 16, n % 16, rest);
  }

  /** A character of the basic plane written as one `\uXXXX`. */
  lemma BasicEscapeRoundTrip(c: char, rest: string)
    requires c as int < 0x10000
    ensures ReadEscape((UnicodeEscape(c) + rest)[1..]) == Some((c, rest))
  {
    hide Hex4, ReadHex4;
    var t := (UnicodeEscape(c) + rest)[1..];
    HexRoundTrip(c as int, rest);
    assert t == "u" + (Hex4(c as int) + rest);
    assert t[1..] == Hex4(c as int) + rest;
    assert t[5..] == t[1..][4..];
  }

  lemma PairRead(hi: nat, lo: nat, rest: string)
    requires 0xd800 <= hi < 0xdc00 <= lo < 0xe000
    ensures ReadEscape("u" + (Hex4(hi) + ("\\u" + (Hex4(lo) + rest))))
         == Some(((0x10000 + (hi - 0xd800) * 1024 + (lo - 0xdc00)) as char, rest))
  {
    hide Hex4, ReadHex4;
    var low := Hex4(lo) + rest;
    var t := "u" + (Hex4(hi) + ("\\u" + low));
    HexRoundTrip(hi, "\\u" + low);
    HexRoundTrip(lo, rest);
    assert t[1..] == Hex4(hi) + ("\\u" + low);
    assert t[5..] == t[1..][4..] == "\\u" + low;
    assert t[5..7] == t[5..][..2] == "\\u";
    assert t[7..] == t[5..][2..] == low;
    assert t[11..] == low[4..];
  }

  lemma DropBackslash(a: string, b: string, rest: string)
    ensures ("\\u" + a + "\\u" + b + rest)[1..] == "u" + (a + ("\\u" + (b + rest)))
  {
  }

  lemma SurrogatesOf(n: nat)
    requires 0x10000 <= n < 0x110000
    ensures 0xd800 <= 0xd800 + (n - 0x10000) / 1024 < 0xdc00
    ensures 0xdc00 <= 0xdc00 + (n - 0x10000) % 1024 < 0xe000
    ensures n == 0x10000 + (n - 0x10000) / 1024 * 1024 + (n - 0x10000) % 1024
  {
  }

  /** A character above it, written as a surrogate pair. */
  lemma PairEscapeRoundTrip(c: char, rest: string)
    requires c as int >= 0x10000
    ensures ReadEscape((UnicodeEscape(c) + rest)[1..]) == Some((c, rest))
  {
    hide Hex4, ReadEscape;
    SurrogatesOf(c as int);
    var hi, lo := 0xd800 + (c as int - 0x10000) / 1024, 0xdc00 + (c as int - 0x10000) % 1024;
    DropBackslash(Hex4(hi), Hex4(lo), rest);
    PairRead(hi, lo, rest);
  }

  lemma EscapeRoundTrip(c: char, ascii: bool, rest: string)
    requires |Escape(c, ascii)| > 1
    ensures Escape(c, ascii)[0] == '\\'
    ensures ReadEscape((Escape(c, ascii) + rest)[1..]) == Some((c, rest))
  {
    if c in {'\"', '\\', '\n', '\r', '\t', '\U{000c}', '\U{0008}'} {
      var t := (Escape(c, ascii) + rest)[1..];
      assert t[0] == Escape(c, ascii)[1];
      assert t[1..] == rest;
    } else if c as int < 0x10000 {
      BasicEscapeRoundTrip(c, rest);
    } else {
      PairEscapeRoundTrip(c, rest);
    }
  }

  lemma {:induction false} CharsRoundTrip(s: string, ascii: bool, rest: string)
    ensures ReadChars(EscapeAll(s, ascii) + "\"" + rest) == Some((s, rest))
  {
    var whole := EscapeAll(s, ascii) + "\"" + rest;
    if s == "" {
      assert whole == "\"" + rest;
    } else {
      var e := Escape(s[0], ascii);
      var tail := EscapeAll(s[1..], ascii) + "\"" + rest;
      assert whole == e + tail;
      CharsRoundTrip(s[1..], ascii, rest);
      assert [s[0]] + s[1..] == s;
      if |e| > 1 {
        EscapeRoundTrip(s[0], ascii, tail);
      } else {
        assert whole[1..] == tail;
      }
    }
  }

  /** What may follow a value inside a document: without it "1" and "2" would run together. */
  predicate Delimited(rest: string) {
    rest == "" || rest[0] in {',', ']', '}'}
  }

  lemma NatRoundTrip(n: nat, rest: string)
    requires Delimited(rest)
    ensures ReadNat(NatText(n) + rest) == Some((n, rest))
  {
    var t := NatText(n);
    var s := t + rest;
    var k := DigitCount(s);
    assert forall i | 0 <= i < |t| :: s[i] == t[i];
    assert |t| < |s| ==> s[|t|] == rest[0];
    assert k == |t|;
    assert s[..k] == t && s[k..] == rest;
  }

  /** A value starts with no space and no closing bracket. */
  lemma FirstChar(v: Json, ascii: bool)
    ensures Encode(v, ascii) != ""
    ensures !IsJsonSpace(Encode(v, ascii)[0]) && Encode(v, ascii)[0] !in {']', '}'}
  {
  }

  // One step of each list reader.

  lemma LastItem(s: string, v: Json, rest: string)
    requires ReadValue(s) == Some((v, "]" + rest))
    ensures ReadItems(s) == Some(([v], rest))
  {
    assert ("]" + rest)[1..] == rest;
  }

  lemma NextItem(s: string, v: Json, tail: string, vs: seq<Json>, rest: string)
    requires ReadValue(s) == Some((v, "," + tail))
    requires tail != "" && !IsJsonSpace(tail[0])
    requires ReadItems(tail) == Some((vs, rest))
    ensures ReadItems(s) == Some(([v] + vs, rest))
  {
    assert ("," + tail)[1..] == tail;
  }

  lemma LastField(s: string, f: (string, Json), rest: string)
    requires ReadField(s) == Some((f, "}" + rest))
    ensures ReadFields(s) == Some(([f], rest))
  {
    assert ("}" + rest)[1..] == rest;
  }

  lemma NextField(s: string, f: (string, Json), tail: string, fs: seq<(string, Json)>, rest: string)
    requires ReadField(s) == Some((f, "," + tail))
    requires tail != "" && !IsJsonSpace(tail[0])
    requires ReadFields(tail) == Some((fs, rest))
    ensures ReadFields(s) == Some(([f] + fs, rest))
  {
    assert ("," + tail)[1..] == tail;
  }

  lemma QuotedRead(key: string, ascii: bool, rest: string)
    ensures (Quote(key, ascii) + rest)[0] == '\"'
    ensures ReadChars((Quote(key, ascii) + rest)[1..]) == Some((key, rest))
  {
    hide EscapeAll, ReadChars;
    CharsRoundTrip(key, ascii, rest);
    assert (Quote(key, ascii) + rest)[1..] == EscapeAll(key, ascii) + "\"" + rest;
  }

  lemma StringRoundTrip(cs: string, ascii: bool, rest: string)
    ensures ReadValue(Quote(cs, ascii) + rest) == Some((Str(cs), rest))
  {
    QuotedRead(cs, ascii, rest);
  }

  lemma NullRoundTrip(rest: string)
    ensures ReadValue("null" + rest) == Some((Null, rest))
  {
    var s := "null" + rest;
    assert "null" <= s && s[0] == 'n' && s[4..] == rest;
  }

  lemma NumRoundTrip(n: nat, rest: string)
    requires Delimited(rest)
    ensures ReadValue(NatText(n) + rest) == Some((Num(n), rest))
  {
    NatRoundTrip(n, rest);
    assert IsDigit((NatText(n) + rest)[0]);
  }

  lemma Regroup(a: string, b: string, c: string, d: string, e: string)
    ensures a + b + c + d + e == a + (b + (c + d + e))
  {
  }

  lemma FirstItemChar(items: seq<Json>, ascii: bool)
    requires items != []
    ensures EncodeItems(items, ascii) != "" && !IsJsonSpace(EncodeItems(items, ascii)[0])
    ensures EncodeItems(items, ascii)[0] != ']'
  {
    FirstChar(items[0], ascii);
  }

  lemma FirstFieldChar(fields: seq<(string, Json)>, ascii: bool)
    requires fields != []
    ensures EncodeFields(fields, ascii) != "" && EncodeFields(fields, ascii)[0] == '\"'
  {
    assert EncodeField(fields[0], ascii)[0] == '\"';
  }

  lemma {:induction false} RoundTrip(v: Json, ascii: bool, rest: string)
    requires Delimited(rest)
    ensures ReadValue(Encode(v, ascii) + rest) == Some((v, rest))
    decreases v, 1
  {
    match v
    case Null => NullRoundTrip(rest);
    case Num(n) => NumRoundTrip(n, rest);
    case Str(cs) => StringRoundTrip(cs, ascii, rest);
    case Arr(items) => ArrayRoundTrip(items, ascii, rest);
    case Obj(fields) => ObjectRoundTrip(fields, ascii, rest);
  }

  lemma NoSkip(s: string)
    requires s != "" && !IsJsonSpace(s[0])
    ensures Skip(s) == s
  {
  }

  lemma {:induction false} ArrayRoundTrip(items: seq<Json>, ascii: bool, rest: string)
    ensures ReadValue("[" + EncodeItems(items, ascii) + "]" + rest) == Some((Arr(items), rest))
    decreases items, 3
  {
    var s := "[" + EncodeItems(items, ascii) + "]" + rest;
    var t := EncodeItems(items, ascii) + "]" + rest;
    assert s[1..] == t;
    if items == [] {
      assert t == "]" + rest;
      assert t[0] == ']' && t[1..] == rest;
      NoSkip(t);
    } else {
      ItemsRoundTrip(items, ascii, rest);
      FirstItemChar(items, ascii);
      assert t[0] == EncodeItems(items, ascii)[0];
    }
  }

  lemma {:induction false} ObjectRoundTrip(fields: seq<(string, Json)>, ascii: bool, rest: string)
    ensures ReadValue("{" + EncodeFields(fields, ascii) + "}" + rest) == Some((Obj(fields), rest))
    decreases fields, 3
  {
    hide ReadFields;
    var s := "{" + EncodeFields(fields, ascii) + "}" + rest;
    var t := EncodeFields(fields, ascii) + "}" + rest;
    assert s[1..] == t;
    if fields == [] {
      assert t == "}" + rest;
      assert t[1..] == rest;
    } else {
      FieldsRoundTrip(fields, ascii, rest);
      FirstFieldChar(fields, ascii);
      assert t[0] == EncodeFields(fields, ascii)[0];
    }
  }

  lemma {:induction false} ItemsRoundTrip(items: seq<Json>, ascii: bool, rest: string)
    requires items != []
    ensures ReadItems(EncodeItems(items, ascii) + "]" + rest) == Some((items, rest))
    decreases items, 0
  {
    hide ReadItems, ReadValue, Encode;
    var head := Encode(items[0], ascii);
    if |items| == 1 {
      RoundTrip(items[0], ascii, "]" + rest);
      LastItem(head + ("]" + rest), items[0], rest);
      assert head + "]" + rest == head + ("]" + rest);
      assert items == [items[0]];
    } else {
      var more := EncodeItems(items[1..], ascii);
      var tail := more + "]" + rest;
      RoundTrip(items[0], ascii, "," + tail);
      FirstItemChar(items[1..], ascii);
      assert tail[0] == more[0];
      ItemsRoundTrip(items[1..], ascii, rest);
      NextItem(head + ("," + tail), items[0], tail, items[1..], rest);
      Regroup(head, ",", more, "]", rest);
      assert items == [items[0]] + items[1..];
    }
  }

  lemma FieldStep(s: string, key: string, value: string, v: Json, rest: string)
    requires s != "" && s[0] == '\"' && ReadChars(s[1..]) == Some((key, ":" + value))
    requires value != "" && !IsJsonSpace(value[0])
    requires ReadValue(value) == Some((v, rest))
    ensures ReadField(s) == Some(((key, v), rest))
  {
    assert (":" + value)[1..] == value;
  }

  lemma {:induction false} FieldRoundTrip(field: (string, Json), ascii: bool, rest: string)
    requires Delimited(rest)
    ensures ReadField(EncodeField(field, ascii) + rest) == Some((field, rest))
    decreases field, 2
  {
    hide ReadField, ReadValue, ReadChars, Encode, Quote;
    var value := Encode(field.1, ascii) + rest;
    FirstChar(field.1, ascii);
    RoundTrip(field.1, ascii, rest);
    QuotedRead(field.0, ascii, ":" + value);
    FieldStep(Quote(field.0, ascii) + (":" + value), field.0, value, field.1, rest);
    assert EncodeField(field, ascii) + rest == Quote(field.0, ascii) + (":" + value);
  }

  lemma {:induction false} FieldsRoundTrip(fields: seq<(string, Json)>, ascii: bool, rest: string)
    requires fields != []
    ensures ReadFields(EncodeFields(fields, ascii) + "}" + rest) == Some((fields, rest))
    decreases fields, 0
  {
    hide ReadFields, ReadField, EncodeField;
    var f := fields[0];
    var head := EncodeField(f, ascii);
    if |fields| == 1 {
      FieldRoundTrip(f, ascii, "}" + rest);
      LastField(head + ("}" + rest), f, rest);
      assert head + "}" + rest == head + ("}" + rest);
      assert fields == [f];
    } else {
      var more := EncodeFields(fields[1..], ascii);
      var tail := more + "}" + rest;
      assert tail != "" && !IsJsonSpace(tail[0]) by { FirstFieldChar(fields[1..], ascii); }
      FieldsRoundTrip(fields[1..], ascii, rest);
      FieldRoundTrip(f, ascii, "," + tail);
      NextField(head + ("," + tail), f, tail, fields[1..], rest);
      assert EncodeFields(fields, ascii) + "}" + rest == head + ("," + tail) by {
        Regroup(head, ",", more, "}", rest);
      }
      assert fields == [f] + fields[1..];
    }
  }

  /** Loading what was dumped gives the value back. */
  lemma DecodeEncode(v: Json, ascii: bool)
    ensures Decode(Encode(v, ascii)) == Some(v)
  {
    RoundTrip(v, ascii, "");
    FirstChar(v, ascii);
    assert Encode(v, ascii) + "" == Encode(v, ascii);
  }

  /** Different values never give the same text. */
  lemma EncodeInjective(v: Json, w: Json, ascii: bool)
    requires Encode(v, ascii) == Encode(w, ascii)
    ensures v == w
  {
    DecodeEncode(v, ascii);
    DecodeEncode(w, ascii);
  }

  // ----- ASCII text stays on one line -----

  predicate Printable(s: string) {
    forall i | 0 <= i < |s| :: ' ' <= s[i] <= '~'
  }

  lemma HexPrintable(n: nat)
    requires n < 0x10000
    ensures Printable(Hex4(n))
  {
  }

  lemma EscapePrintable(c: char)
    ensures Printable(Escape(c, true))
  {
    hide Hex4;
    var n := c as int;
    if n < 0x10000 {
      HexPrintable(n);
    } else {
      SurrogatesOf(n);
      HexPrintable(0xd800 + (n - 0x10000) / 1024);
      HexPrintable(0xdc00 + (n - 0x10000) % 1024);
    }
  }

  lemma {:induction false} EscapeAllPrintable(s: string)
    ensures Printable(EscapeAll(s, true))
  {
    if s != "" {
      EscapePrintable(s[0]);
      EscapeAllPrintable(s[1..]);
    }
  }

  /** With ASCII escaping, every character of the text is printable ASCII: in particular no line
      boundary survives, whatever the strings inside hold. */
  lemma {:induction false} EncodePrintable(v: Json)
    ensures Printable(Encode(v, true))
    decreases v, 1
  {
    match v
    case Null =>
    case Num(n) =>
    case Str(s) => EscapeAllPrintable(s);
    case Arr(items) => ItemsPrintable(items);
    case Obj(fields) => FieldsPrintable(fields);
  }

  lemma {:induction false} ItemsPrintable(items: seq<Json>)
    ensures Printable(EncodeItems(items, true))
    decreases items, 0
  {
    if items != [] {
      EncodePrintable(items[0]);
      ItemsPrintable(items[1..]);
    }
  }

  lemma {:induction false} FieldPrintable(field: (string, Json))
    ensures Printable(EncodeField(field, true))
    decreases field, 2
  {
    EscapeAllPrintable(field.0);
    EncodePrintable(field.1);
  }

  lemma {:induction false} FieldsPrintable(fields: seq<(string, Json)>)
    ensures Printable(EncodeFields(fields, true))
    decreases fields, 0
  {
    if fields != [] {
      FieldPrintable(fields[0]);
      FieldsPrintable(fields[1..]);
    }
  }

  // ----- The conventions of the text -----

  const LOWER_HEX := "0123456789abcdef"

  /** Four hexadecimal digits, most significant first. */
  ghost predicate Spells(s: string, n: nat) {
    exists a, b, c, d ::
      && 0 <= a < 16 && 0 <= b < 16 && 0 <= c < 16 && 0 <= d < 16
      && s == [LOWER_HEX[a], LOWER_HEX[b], LOWER_HEX[c], LOWER_HEX[d]]
      && n == ((a * 16 + b) * 16 + c) * 16 + d
  }

  lemma HexDigitsAre(d: nat)
    requires d < 16
    ensures HexDigit(d) == LOWER_HEX[d]
  {
  }

  lemma Hex4Spells(n: nat)
    requires n < 0x10000
    ensures Spells(Hex4(n), n)
  {
    var a, b, c, d := n / 4096, n / 256 % 16, n / 16 % 16, n % 16;
    HexDigitsOf(n);
    HexDigitsAre(a);
    HexDigitsAre(b);
    HexDigitsAre(c);
    HexDigitsAre(d);
    assert Hex4(n) == [LOWER_HEX[a], LOWER_HEX[b], LOWER_HEX[c], LOWER_HEX[d]];
  }

  /** The two-character escapes of section 7 of RFC 8259 that are written. */
  const SHORT_ESCAPES: map<char, char> := map[
    '\"' := '\"', '\\' := '\\', '\n' := 'n', '\r' := 'r', '\t' := 't', '\U{000c}' := 'f', '\U{0008}' := 'b']

  /** How a character is written: as itself, behind a backslash, as `\uXXXX` when it is a control
      character or has to be ASCII, and above the basic plane as a surrogate pair. */
  lemma EscapeMeans(c: char, ascii: bool)
    ensures c in SHORT_ESCAPES ==> Escape(c, ascii) == ['\\', SHORT_ESCAPES[c]]
    ensures c !in SHORT_ESCAPES && ' ' <= c && (ascii ==> c <= '~') ==> Escape(c, ascii) == [c]
    ensures c !in SHORT_ESCAPES && (c < ' ' || (ascii && c > '~')) && c as int < 0x10000 ==>
      var e := Escape(c, ascii);
      |e| == 6 && e[..2] == "\\u" && Spells(e[2..], c as int)
    ensures ascii && c as int >= 0x10000 ==>
      exists hi, lo ::
        && 0xd800 <= hi < 0xdc00 <= lo < 0xe000
        && c as int == 0x10000 + (hi - 0xd800) * 0x400 + (lo - 0xdc00)
        && PairOf(Escape(c, ascii), hi, lo)
  {
    hide Hex4, Spells;
    var n := c as int;
    if n < 0x10000 {
      Hex4Spells(n);
      assert ("\\u" + Hex4(n))[2..] == Hex4(n);
    } else {
      SurrogatesOf(n);
      var hi, lo := 0xd800 + (n - 0x10000) / 1024, 0xdc00 + (n - 0x10000) % 1024;
      PairSpells(hi, lo);
      assert ascii ==> Escape(c, ascii) == "\\u" + Hex4(hi) + "\\u" + Hex4(lo);
    }
  }

  ghost predicate PairOf(e: string, hi: nat, lo: nat) {
    && |e| == 12 && e[..2] == "\\u" && e[6..8] == "\\u"
    && Spells(e[2..6], hi) && Spells(e[8..], lo)
  }

  lemma PairSpells(hi: nat, lo: nat)
    requires hi < 0x10000 && lo < 0x10000
    ensures PairOf("\\u" + Hex4(hi) + "\\u" + Hex4(lo), hi, lo)
  {
    hide Hex4, Spells;
    Hex4Spells(hi);
    Hex4Spells(lo);
    var e := "\\u" + Hex4(hi) + "\\u" + Hex4(lo);
    assert e[2..6] == Hex4(hi) && e[8..] == Hex4(lo);
  }

  /** `sep.join(parts)` */
  function Joined(parts: seq<string>, sep: string): string {
    if parts == [] then ""
    else if |parts| == 1 then parts[0]
    else parts[0] + sep + Joined(parts[1..], sep)
  }

  function ItemTexts(items: seq<Json>, ascii: bool): seq<string> {
    seq(|items|, i requires 0 <= i < |items| => Encode(items[i], ascii))
  }

  function FieldTexts(fields: seq<(string, Json)>, ascii: bool): seq<string> {
    seq(|fields|, i requires 0 <= i < |fields| =>
          Encode(Str(fields[i].0), ascii) + ":" + Encode(fields[i].1, ascii))
  }

  function Escapes(s: string, ascii: bool): seq<string> {
    seq(|s|, i requires 0 <= i < |s| => Escape(s[i], ascii))
  }

  lemma {:induction false} ItemsJoined(items: seq<Json>, ascii: bool)
    ensures EncodeItems(items, ascii) == Joined(ItemTexts(items, ascii), ",")
  {
    hide Encode;
    if |items| > 1 {
      ItemsJoined(items[1..], ascii);
      assert ItemTexts(items, ascii)[1..] == ItemTexts(items[1..], ascii);
    }
  }

  lemma {:induction false} FieldsJoined(fields: seq<(string, Json)>, ascii: bool)
    ensures EncodeFields(fields, ascii) == Joined(FieldTexts(fields, ascii), ",")
  {
    hide Quote;
    if |fields| > 1 {
      FieldsJoined(fields[1..], ascii);
      assert FieldTexts(fields, ascii)[1..] == FieldTexts(fields[1..], ascii);
    }
  }

  lemma {:induction false} CharsJoined(s: string, ascii: bool)
    ensures EscapeAll(s, ascii) == Joined(Escapes(s, ascii), "")
  {
    hide Escape;
    if |s| == 1 {
      assert s[1..] == "";
      assert EscapeAll(s, ascii) == Escape(s[0], ascii) + "";
    } else if |s| > 1 {
      CharsJoined(s[1..], ascii);
      assert Escapes(s, ascii)[1..] == Escapes(s[1..], ascii);
    }
  }

  /** The text of any value: no space anywhere, commas between items, a colon after a name, fields in the
      order they stand in. */
  lemma EncodeMeans(v: Json, ascii: bool)
    ensures match v
      case Null => Encode(v, ascii) == "null"
      case Num(n) => Encode(v, ascii) == NatText(n)
      case Str(s) => Encode(v, ascii) == "\"" + Joined(Escapes(s, ascii), "") + "\""
      case Arr(items) => Encode(v, ascii) == "[" + Joined(ItemTexts(items, ascii), ",") + "]"
      case Obj(fields) => Encode(v, ascii) == "{" + Joined(FieldTexts(fields, ascii), ",") + "}"
  {
    hide Joined, ItemTexts, FieldTexts, Escapes, EncodeItems, EncodeFields, EscapeAll;
    match v
    case Str(s) => CharsJoined(s, ascii);
    case Arr(items) => ItemsJoined(items, ascii);
    case Obj(fields) => FieldsJoined(fields, ascii);
    case _ =>
  }
}
