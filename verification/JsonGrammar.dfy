/** The reader against the grammar of RFC 8259, for the values modelled: a text reads as a value exactly
    when the grammar has a tree for it. */
module JsonGrammar {
  import opened Wrappers
  import opened Text
  import opened Json
  import opened JsonPrefix

  // ----- The grammar, as concrete syntax trees -----

  /** `pieces` are the characters of a string as they stand in the text; `space` is what an empty list or
      object has inside. */
  datatype Tree =
    | NullText
    | NumText(digits: string)
    | StrText(pieces: seq<string>)
    | ArrText(space: string, items: seq<Spaced>)
    | ObjText(space: string, members: seq<Member>)

  datatype Spaced = Spaced(before: string, tree: Tree, after: string)

  datatype Member = Member(before: string, key: seq<string>, gap: string, value: Spaced)

  function Concat(pieces: seq<string>): string {
    if pieces == [] then "" else pieces[0] + Concat(pieces[1..])
  }

  function Unparse(t: Tree): string
    decreases t, 1
  {
    match t
    case NullText => "null"
    case NumText(digits) => digits
    case StrText(pieces) => "\"" + Concat(pieces) + "\""
    case ArrText(space, items) => "[" + (if items == [] then space else ItemsText(items)) + "]"
    case ObjText(space, members) => "{" + (if members == [] then space else MembersText(members)) + "}"
  }

  function SpacedText(s: Spaced): string
    decreases s, 2
  {
    s.before + Unparse(s.tree) + s.after
  }

  function ItemsText(items: seq<Spaced>): string
    decreases items, 0
  {
    if items == [] then ""
    else if |items| == 1 then SpacedText(items[0])
    else SpacedText(items[0]) + "," + ItemsText(items[1..])
  }

  function MemberText(m: Member): string
    decreases m, 3
  {
    m.before + "\"" + Concat(m.key) + "\"" + m.gap + ":" + SpacedText(m.value)
  }

  function MembersText(members: seq<Member>): string
    decreases members, 0
  {
    if members == [] then ""
    else if |members| == 1 then MemberText(members[0])
    else MemberText(members[0]) + "," + MembersText(members[1..])
  }

  // ----- What a tree denotes -----

  predicate AllSpace(s: string) {
    forall i | 0 <= i < |s| :: s[i] in {' ', '\t', '\n', '\r'}
  }

  const UPPER_HEX := "0123456789ABCDEF"

  predicate HexDigitOf(c: char, d: int) {
    0 <= d < 16 && (c == LOWER_HEX[d] || c == UPPER_HEX[d])
  }

  /** `\u` and four hexadecimal digits, in either case. */
  ghost predicate UnicodePiece(p: string, n: int) {
    && |p| == 6 && p[0] == '\\' && p[1] == 'u'
    && exists a, b, c, d :: HexDigitOf(p[2], a) && HexDigitOf(p[3], b) && HexDigitOf(p[4], c) && HexDigitOf(p[5], d)
                            && n == a * 4096 + b * 256 + c * 16 + d
  }

  /** The two-character escapes of section 7. */
  const ESCAPES: map<char, char> := map[
    '\"' := '\"', '\\' := '\\', '/' := '/', 'n' := '\n', 'r' := '\r', 't' := '\t', 'f' := '\U{000c}', 'b' := '\U{0008}']

  /** A surrogate pair for `c`. */
  ghost predicate PairPiece(p: string, c: char) {
    && |p| == 12
    && exists hi, lo :: UnicodePiece(p[..6], hi) && UnicodePiece(p[6..], lo)
                        && 0xd800 <= hi < 0xdc00 <= lo < 0xe000
                        && c as int == 0x10000 + (hi - 0xd800) * 1024 + (lo - 0xdc00)
  }

  /** A character stands for itself, unless it is a quote, a backslash or a control character; or it is
      escaped. */
  ghost predicate Piece(p: string, c: char) {
    || (p == [c] && ' ' <= c && c != '\"' && c != '\\')
    || (|p| == 2 && p[0] == '\\' && p[1] in ESCAPES && ESCAPES[p[1]] == c)
    || UnicodePiece(p, c as int)
    || PairPiece(p, c)
  }

  ghost predicate Pieces(pieces: seq<string>, cs: string) {
    |pieces| == |cs| && forall i | 0 <= i < |cs| :: Piece(pieces[i], cs[i])
  }

  ghost predicate Denotes(t: Tree, v: Json)
    decreases t, 1
  {
    match (t, v)
    case (NullText, Null) => true
    case (NumText(digits), Num(n)) =>
      && digits != "" && (forall i | 0 <= i < |digits| :: IsDigit(digits[i]))
      && (digits[0] == '0' ==> |digits| == 1) && DigitsValue(digits) == n
    case (StrText(pieces), Str(cs)) => Pieces(pieces, cs)
    case (ArrText(space, items), Arr(vs)) => AllSpace(space) && ItemsDenote(items, vs)
    case (ObjText(space, members), Obj(fields)) => AllSpace(space) && MembersDenote(members, fields)
    case _ => false
  }

  ghost predicate SpacedDenotes(s: Spaced, v: Json)
    decreases s, 2
  {
    AllSpace(s.before) && Denotes(s.tree, v) && AllSpace(s.after)
  }

  ghost predicate ItemsDenote(items: seq<Spaced>, vs: seq<Json>)
    decreases items, 0
  {
    if items == [] || vs == [] then items == [] && vs == []
    else SpacedDenotes(items[0], vs[0]) && ItemsDenote(items[1..], vs[1..])
  }

  ghost predicate MemberDenotes(m: Member, f: (string, Json))
    decreases m, 3
  {
    AllSpace(m.before) && Pieces(m.key, f.0) && AllSpace(m.gap) && SpacedDenotes(m.value, f.1)
  }

  ghost predicate MembersDenote(members: seq<Member>, fields: seq<(string, Json)>)
    decreases members, 0
  {
    if members == [] || fields == [] then members == [] && fields == []
    else MemberDenotes(members[0], fields[0]) && MembersDenote(members[1..], fields[1..])
  }

  // ----- What is read is in the grammar -----

  lemma JsonSpacesAre(c: char)
    ensures IsJsonSpace(c) <==> c in {' ', '\t', '\n', '\r'}
  {
  }

  lemma OneMoreSpace(c: char, space: string)
    requires IsJsonSpace(c) && AllSpace(space)
    ensures AllSpace([c] + space)
  {
    JsonSpacesAre(c);
  }

  lemma SkipStep(s: string)
    ensures Skip(s) == if s != "" && IsJsonSpace(s[0]) then Skip(s[1..]) else s
  {
    hide IsJsonSpace;
  }

  lemma {:induction false} SkipSplits(s: string) returns (space: string)
    ensures s == space + Skip(s) && AllSpace(space)
  {
    hide IsJsonSpace, AllSpace, Skip;
    SkipStep(s);
    if s != "" && IsJsonSpace(s[0]) {
      var rest := SkipSplits(s[1..]);
      space := [s[0]] + rest;
      OneMoreSpace(s[0], rest);
      assert s == [s[0]] + s[1..];
    } else {
      space := "";
      NoSpace();
    }
  }

  lemma HexValueMeans(c: char, d: nat)
    ensures HexValue(c) == Some(d) <==> HexDigitOf(c, d)
  {
  }

  lemma Hex4Read(s: string, n: nat)
    requires ReadHex4(s) == Some(n)
    ensures UnicodePiece("\\u" + s[..4], n)
  {
    var p := "\\u" + s[..4];
    var a, b, c, d := HexValue(s[0]).value, HexValue(s[1]).value, HexValue(s[2]).value, HexValue(s[3]).value;
    HexValueMeans(s[0], a);
    HexValueMeans(s[1], b);
    HexValueMeans(s[2], c);
    HexValueMeans(s[3], d);
    assert p[2] == s[0] && p[3] == s[1] && p[4] == s[2] && p[5] == s[3];
    assert n == a * 4096 + b * 256 + c * 16 + d;
  }

  lemma EscapeRead(s: string, c: char, r: string) returns (p: string)
    requires ReadEscape(s) == Some((c, r))
    ensures "\\" + s == p + r && Piece(p, c)
  {
    hide ReadHex4, UnicodePiece, PairPiece;
    if s[0] == 'u' {
      var n := ReadHex4(s[1..]).value;
      Hex4Read(s[1..], n);
      assert "\\u" + s[1..][..4] == "\\" + s[..5];
      if n < 0xd800 || n >= 0xe000 {
        p := "\\" + s[..5];
        assert s == s[..5] + s[5..];
      } else {
        var m := ReadHex4(s[7..]).value;
        Hex4Read(s[7..], m);
        p := "\\" + s[..11];
        assert s == s[..11] + s[11..];
        assert p[..6] == "\\" + s[..5];
        assert p[6..] == s[5..7] + s[7..][..4] == "\\u" + s[7..][..4];
        assert PairPiece(p, c) by { PairFrom(p, n, m, c); }
      }
    } else {
      p := ['\\', s[0]];
      assert s == [s[0]] + s[1..];
      assert p[1] == s[0] && s[0] in ESCAPES && ESCAPES[s[0]] == c;
    }
  }

  lemma PairFrom(p: string, hi: nat, lo: nat, c: char)
    requires |p| == 12 && UnicodePiece(p[..6], hi) && UnicodePiece(p[6..], lo)
    requires 0xd800 <= hi < 0xdc00 <= lo < 0xe000
    requires c as int == 0x10000 + (hi - 0xd800) * 1024 + (lo - 0xdc00)
    ensures PairPiece(p, c)
  {
    hide UnicodePiece;
  }

  lemma {:induction false} CharsRead(s: string, cs: string, r: string) returns (pieces: seq<string>)
    requires ReadChars(s) == Some((cs, r))
    ensures s == Concat(pieces) + "\"" + r && Pieces(pieces, cs)
    decreases |s|
  {
    hide ReadEscape, Piece;
    if s[0] == '\"' {
      pieces := [];
      assert s == "\"" + s[1..];
    } else if s[0] == '\\' {
      var (c, t) := ReadEscape(s[1..]).value;
      var p := EscapeRead(s[1..], c, t);
      var rest := CharsRead(t, cs[1..], r);
      pieces := [p] + rest;
      assert s == "\\" + s[1..];
      assert pieces[1..] == rest;
      assert p + (Concat(rest) + "\"" + r) == p + Concat(rest) + "\"" + r;
    } else {
      var rest := CharsRead(s[1..], cs[1..], r);
      pieces := [[s[0]]] + rest;
      assert s == [s[0]] + s[1..];
      assert pieces[1..] == rest;
      assert Piece([s[0]], s[0]) by { PlainPiece(s[0]); }
      assert [s[0]] + (Concat(rest) + "\"" + r) == [s[0]] + Concat(rest) + "\"" + r;
    }
  }

  lemma PlainPiece(c: char)
    requires ' ' <= c && c != '\"' && c != '\\'
    ensures Piece([c], c)
  {
  }

  lemma NatRead(s: string, n: nat, r: string) returns (digits: string)
    requires ReadNat(s) == Some((n, r))
    ensures s == digits + r && Denotes(NumText(digits), Num(n))
  {
    var k := if s != "" && s[0] == '0' then 1 else DigitCount(s);
    digits := s[..k];
    assert s == s[..k] + s[k..];
  }

  lemma TextRead(s: string, v: Json, r: string) returns (t: Tree)
    requires s != "" && s[0] == '\"' && ReadValue(s) == Some((v, r))
    ensures s == Unparse(t) + r && Denotes(t, v)
  {
    hide ReadChars, Pieces, Concat;
    var (cs, u) := ReadChars(s[1..]).value;
    var pieces := CharsRead(s[1..], cs, u);
    t := StrText(pieces);
    assert s == "\"" + s[1..];
    assert "\"" + (Concat(pieces) + "\"" + r) == "\"" + Concat(pieces) + "\"" + r;
  }

  lemma {:induction false} ValueRead(s: string, v: Json, r: string) returns (t: Tree)
    requires ReadValue(s) == Some((v, r))
    ensures s == Unparse(t) + r && Denotes(t, v)
    decreases |s|, 0
  {
    hide ReadChars, ReadNat, ReadItems, ReadFields, Pieces, AllSpace, Skip, Concat;
    if s[0] == '\"' {
      t := TextRead(s, v, r);
    } else if s[0] == '{' {
      t := ObjectRead(s, v, r);
    } else if s[0] == '[' {
      t := ArrayRead(s, v, r);
    } else if IsDigit(s[0]) {
      var (n, u) := ReadNat(s).value;
      var digits := NatRead(s, n, u);
      t := NumText(digits);
    } else {
      t := NullText;
      assert s == s[..4] + s[4..] && s[..4] == "null";
    }
  }

  lemma {:induction false} ArrayRead(s: string, v: Json, r: string) returns (t: Tree)
    requires s != "" && s[0] == '[' && ReadValue(s) == Some((v, r))
    ensures s == Unparse(t) + r && Denotes(t, v)
    decreases |s|, 0, 0
  {
    hide ReadItems, AllSpace, Skip;
    var space := SkipSplits(s[1..]);
    var u := Skip(s[1..]);
    assert s == "[" + s[1..];
    if u != "" && u[0] == ']' {
      t := ArrText(space, []);
      assert u == "]" + u[1..];
      assert "[" + (space + ("]" + r)) == "[" + space + "]" + r;
    } else {
      var (vs, w) := ReadItems(u).value;
      var items := ItemsRead(u, space, vs, w);
      t := ArrText("", items);
      assert AllSpace("") by { NoSpace(); }
      assert "[" + (ItemsText(items) + "]" + r) == "[" + ItemsText(items) + "]" + r;
    }
  }

  lemma NoSpace()
    ensures AllSpace("")
  {
  }

  lemma {:induction false} ObjectRead(s: string, v: Json, r: string) returns (t: Tree)
    requires s != "" && s[0] == '{' && ReadValue(s) == Some((v, r))
    ensures s == Unparse(t) + r && Denotes(t, v)
    decreases |s|, 0, 0
  {
    hide ReadFields, AllSpace, Skip, Concat, MemberText, MemberDenotes;
    var space := SkipSplits(s[1..]);
    var u := Skip(s[1..]);
    assert s == "{" + s[1..];
    if u != "" && u[0] == '}' {
      t := ObjText(space, []);
      assert u == "}" + u[1..];
      assert "{" + (space + ("}" + r)) == "{" + space + "}" + r;
    } else {
      var (fields, w) := ReadFields(u).value;
      var members := FieldsRead(u, space, fields, w);
      t := ObjText("", members);
      assert AllSpace("") by { NoSpace(); }
      assert "{" + (MembersText(members) + "}" + r) == "{" + MembersText(members) + "}" + r;
    }
  }

  /** `before` is the white space skipped in front of `s`. */
  lemma {:induction false} ItemsRead(s: string, before: string, vs: seq<Json>, r: string) returns (items: seq<Spaced>)
    requires ReadItems(s) == Some((vs, r)) && AllSpace(before)
    ensures items != [] && before + s == ItemsText(items) + "]" + r && ItemsDenote(items, vs)
    decreases |s|, 1
  {
    hide ReadValue, AllSpace, Skip, Unparse, Denotes, SpacedText, SpacedDenotes;
    var (v, u) := ReadValue(s).value;
    var t := ValueRead(s, v, u);
    var after := SkipSplits(u);
    var w := Skip(u);
    var item := Spaced(before, t, after);
    SpacedAs(item, v, s, u, w);
    if w[0] == ']' {
      items := [item];
      assert w == "]" + r;
      assert SpacedText(item) + ("]" + r) == SpacedText(item) + "]" + r;
      assert vs[1..] == [] && items[1..] == [];
    } else {
      var space := SkipSplits(w[1..]);
      var (more, x) := ReadItems(Skip(w[1..])).value;
      var rest := ItemsRead(Skip(w[1..]), space, more, x);
      items := [item] + rest;
      assert items[1..] == rest && vs[1..] == more;
      Rejoin(SpacedText(item), w, ItemsText(rest), "]", r);
      assert before + s == ItemsText(items) + "]" + r;
    }
  }

  lemma Rejoin(first: string, w: string, more: string, close: string, r: string)
    requires w != "" && w[0] == ',' && w[1..] == more + close + r
    ensures first + w == first + "," + more + close + r
  {
    assert w == "," + w[1..];
    assert first + ("," + (more + close + r)) == first + "," + more + close + r;
  }

  lemma SpacedAs(item: Spaced, v: Json, s: string, u: string, w: string)
    requires AllSpace(item.before) && AllSpace(item.after) && Denotes(item.tree, v)
    requires s == Unparse(item.tree) + u && u == item.after + w
    ensures item.before + s == SpacedText(item) + w && SpacedDenotes(item, v)
  {
    hide AllSpace, Unparse, Denotes;
    var t := Unparse(item.tree);
    assert item.before + (t + (item.after + w)) == item.before + t + item.after + w;
  }

  lemma {:induction false} FieldRead(s: string, before: string, f: (string, Json), r: string) returns (m: Member)
    requires ReadField(s) == Some((f, r)) && AllSpace(before)
    ensures before + s == MemberText(m) + r && MemberDenotes(m, f) && m.value.after == ""
    decreases |s|, 1
  {
    hide ReadValue, ReadChars, AllSpace, Skip, Unparse, Denotes, Concat, Pieces;
    var (key, t) := ReadChars(s[1..]).value;
    var pieces := CharsRead(s[1..], key, t);
    var gap := SkipSplits(t);
    var u := Skip(t);
    var space := SkipSplits(u[1..]);
    var x := Skip(u[1..]);
    var (v, w) := ReadValue(x).value;
    var tree := ValueRead(x, v, w);
    var value := Spaced(space, tree, "");
    m := Member(before, pieces, gap, value);
    assert AllSpace("") by { NoSpace(); }
    MemberPieces(before, s, Concat(pieces), gap, t, u, space, Unparse(tree), x, w);
    assert SpacedText(value) == space + Unparse(tree);
  }

  lemma MemberPieces(before: string, s: string, key: string, gap: string, t: string, u: string,
                     space: string, text: string, x: string, w: string)
    requires s != "" && s[0] == '\"' && s[1..] == key + "\"" + t && t == gap + u
    requires u != "" && u[0] == ':' && u[1..] == space + x && x == text + w
    ensures before + s == before + "\"" + key + "\"" + gap + ":" + (space + text) + w
  {
    assert s == "\"" + s[1..] && u == ":" + u[1..];
    calc {
      before + s;
      before + ("\"" + (key + "\"" + (gap + (":" + (space + (text + w))))));
      before + "\"" + key + "\"" + gap + ":" + (space + text) + w;
    }
  }

  lemma {:induction false} FieldsRead(s: string, before: string, fields: seq<(string, Json)>, r: string)
    returns (members: seq<Member>)
    requires ReadFields(s) == Some((fields, r)) && AllSpace(before)
    ensures members != [] && before + s == MembersText(members) + "}" + r && MembersDenote(members, fields)
    decreases |s|, 2
  {
    hide ReadField, AllSpace, Skip, MemberText, MemberDenotes;
    var (f, u) := ReadField(s).value;
    var bare := FieldRead(s, before, f, u);
    var after := SkipSplits(u);
    var w := Skip(u);
    var m := bare.(value := bare.value.(after := after));
    AfterMember(bare, f, after);
    assert before + s == MemberText(m) + w by {
      assert MemberText(bare) + (after + w) == MemberText(bare) + after + w;
    }
    if w[0] == '}' {
      members := [m];
      assert w == "}" + r;
      assert MemberText(m) + ("}" + r) == MemberText(m) + "}" + r;
      assert fields[1..] == [] && members[1..] == [];
    } else {
      var space := SkipSplits(w[1..]);
      var (more, x) := ReadFields(Skip(w[1..])).value;
      var rest := FieldsRead(Skip(w[1..]), space, more, x);
      members := [m] + rest;
      assert members[1..] == rest && fields[1..] == more;
      Rejoin(MemberText(m), w, MembersText(rest), "}", r);
      assert before + s == MembersText(members) + "}" + r;
    }
  }

  lemma AfterMember(m: Member, f: (string, Json), after: string)
    requires MemberDenotes(m, f) && m.value.after == "" && AllSpace(after)
    ensures var n := m.(value := m.value.(after := after));
      MemberDenotes(n, f) && MemberText(n) == MemberText(m) + after
  {
    hide AllSpace, Pieces, Unparse, Denotes, Concat;
    var n := m.(value := m.value.(after := after));
    assert SpacedText(m.value) == m.value.before + Unparse(m.value.tree);
    assert SpacedText(n.value) == SpacedText(m.value) + after;
    assert n.before == m.before && n.key == m.key && n.gap == m.gap;
    var front := m.before + "\"" + Concat(m.key) + "\"" + m.gap + ":";
    assert front + (SpacedText(m.value) + after) == front + SpacedText(m.value) + after;
  }

  // ----- What is in the grammar is read -----

  lemma SkipOver(space: string, tail: string)
    requires AllSpace(space) && tail != "" && !IsJsonSpace(tail[0])
    ensures Skip(space + tail) == tail
  {
    hide Skip;
    AllSkipped(space);
    SkipToMore(space, tail);
  }

  lemma DigitsMakeHex(s: string, a: nat, b: nat, c: nat, d: nat)
    requires |s| >= 4
    requires HexDigitOf(s[0], a) && HexDigitOf(s[1], b) && HexDigitOf(s[2], c) && HexDigitOf(s[3], d)
    ensures ReadHex4(s) == Some(a * 4096 + b * 256 + c * 16 + d)
  {
    hide HexDigitOf, HexValue;
    HexValueMeans(s[0], a);
    HexValueMeans(s[1], b);
    HexValueMeans(s[2], c);
    HexValueMeans(s[3], d);
  }

  lemma UnicodeReads(p: string, n: nat, rest: string)
    requires UnicodePiece(p, n)
    ensures p[0] == '\\' && p[1] == 'u' && ReadHex4((p + rest)[2..]) == Some(n) && (p + rest)[6..] == rest
  {
    hide ReadHex4;
    var s := (p + rest)[2..];
    var a, b, c, d :| HexDigitOf(p[2], a) && HexDigitOf(p[3], b) && HexDigitOf(p[4], c) && HexDigitOf(p[5], d)
      && n == a * 4096 + b * 256 + c * 16 + d;
    assert s[0] == p[2] && s[1] == p[3] && s[2] == p[4] && s[3] == p[5];
    DigitsMakeHex(s, a, b, c, d);
  }

  lemma UnicodeEscapeReads(p: string, c: char, rest: string)
    requires UnicodePiece(p, c as int)
    ensures |p| == 6 && p[0] == '\\' && ReadEscape((p + rest)[1..]) == Some((c, rest))
  {
    hide ReadHex4, UnicodePiece;
    UnicodeReads(p, c as int, rest);
    assert |p| == 6 by { SixLong(p, c as int); }
    var s := (p + rest)[1..];
    assert s[0] == 'u' && s[1..] == (p + rest)[2..] && s[5..] == (p + rest)[6..];
  }

  lemma SixLong(p: string, n: int)
    requires UnicodePiece(p, n)
    ensures |p| == 6
  {
  }

  lemma PairReads(p: string, c: char, rest: string)
    requires PairPiece(p, c)
    ensures p[0] == '\\' && ReadEscape((p + rest)[1..]) == Some((c, rest))
  {
    hide ReadHex4, UnicodePiece;
    var hi, lo :| UnicodePiece(p[..6], hi) && UnicodePiece(p[6..], lo) && 0xd800 <= hi < 0xdc00 <= lo < 0xe000
      && c as int == 0x10000 + (hi - 0xd800) * 1024 + (lo - 0xdc00);
    var s := (p + rest)[1..];
    UnicodeReads(p[..6], hi, p[6..] + rest);
    UnicodeReads(p[6..], lo, rest);
    assert p[..6] + (p[6..] + rest) == p + rest;
    assert s[0] == p[..6][1] && s[1..] == (p + rest)[2..];
    assert forall i | 0 <= i < 11 :: s[i] == p[i + 1];
    assert forall i | 0 <= i < 6 :: p[6..][i] == p[i + 6];
    assert s[5] == p[6..][0] && s[6] == p[6..][1];
    assert s[5..7] == [s[5], s[6]] == "\\u";
    assert s[7..] == (p[6..] + rest)[2..];
    assert s[11..] == (p[6..] + rest)[6..];
  }

  lemma PieceReads(p: string, c: char, rest: string)
    requires Piece(p, c)
    ensures p != ""
    ensures p[0] == '\\' ==> ReadEscape((p + rest)[1..]) == Some((c, rest))
    ensures p[0] != '\\' ==> p == [c] && ' ' <= c && c != '\"'
  {
    hide UnicodePiece, PairPiece, ReadHex4;
    if UnicodePiece(p, c as int) {
      UnicodeEscapeReads(p, c, rest);
    } else if PairPiece(p, c) {
      assert p != "" by { TwelveLong(p, c); }
      PairReads(p, c, rest);
    } else if p == [c] && c != '\\' {
    } else {
      var s := (p + rest)[1..];
      assert s[0] == p[1] && s[1..] == rest;
    }
  }

  lemma TwelveLong(p: string, c: char)
    requires PairPiece(p, c)
    ensures |p| == 12
  {
  }

  lemma {:induction false} PiecesRead(pieces: seq<string>, cs: string, rest: string)
    requires Pieces(pieces, cs)
    ensures ReadChars(Concat(pieces) + "\"" + rest) == Some((cs, rest))
    decreases |pieces|
  {
    hide Piece, ReadEscape;
    var s := Concat(pieces) + "\"" + rest;
    if pieces == [] {
      assert s == "\"" + rest;
      assert s[1..] == rest;
    } else {
      var p, tail := pieces[0], Concat(pieces[1..]) + "\"" + rest;
      assert s == p + tail;
      PieceReads(p, cs[0], tail);
      PiecesRead(pieces[1..], cs[1..], rest);
      assert cs == [cs[0]] + cs[1..];
      assert s[0] == p[0];
      if p[0] != '\\' { assert s[1..] == tail; }
    }
  }

  /** What may come after a number. */
  predicate EndsNumber(rest: string) {
    rest == "" || (!IsDigit(rest[0]) && rest[0] !in {'.', 'e', 'E'})
  }

  lemma DigitsRead(digits: string, n: nat, rest: string)
    requires Denotes(NumText(digits), Num(n)) && EndsNumber(rest)
    ensures ReadNat(digits + rest) == Some((n, rest)) && IsDigit((digits + rest)[0])
  {
    var s := digits + rest;
    var k := DigitCount(s);
    assert forall i | 0 <= i < |digits| :: s[i] == digits[i];
    assert |digits| < |s| ==> s[|digits|] == rest[0];
    assert k == |digits|;
    assert s[..|digits|] == digits && s[|digits|..] == rest;
  }

  /** A value starts with no white space and no closing bracket. */
  lemma FirstOf(t: Tree, v: Json)
    requires Denotes(t, v)
    ensures Unparse(t) != "" && !IsJsonSpace(Unparse(t)[0]) && Unparse(t)[0] !in {']', '}'}
  {
    hide Pieces, ItemsDenote, MembersDenote, Concat, AllSpace, DigitsValue;
    if t.NumText? { assert IsDigit(t.digits[0]); }
  }

  lemma {:induction false} ValueReads(t: Tree, v: Json, rest: string)
    requires Denotes(t, v) && (v.Num? ==> EndsNumber(rest))
    ensures ReadValue(Unparse(t) + rest) == Some((v, rest))
    decreases t, 1
  {
    match (t, v)
    case (NullText, Null) => NullRoundTrip(rest);
    case (NumText(digits), Num(n)) => DigitsRead(digits, n, rest);
    case (StrText(pieces), Str(cs)) => TextReads(pieces, cs, rest);
    case (ArrText(space, items), Arr(vs)) => ArrayReads(space, items, vs, rest);
    case (ObjText(space, members), Obj(fields)) => ObjectReads(space, members, fields, rest);
  }

  lemma TextReads(pieces: seq<string>, cs: string, rest: string)
    requires Pieces(pieces, cs)
    ensures ReadValue("\"" + Concat(pieces) + "\"" + rest) == Some((Str(cs), rest))
  {
    hide Concat, Pieces, ReadChars;
    var s := "\"" + Concat(pieces) + "\"" + rest;
    PiecesRead(pieces, cs, rest);
    assert s[0] == '\"' && s[1..] == Concat(pieces) + "\"" + rest;
  }

  lemma {:induction false} ArrayReads(space: string, items: seq<Spaced>, vs: seq<Json>, rest: string)
    requires AllSpace(space) && ItemsDenote(items, vs)
    ensures ReadValue(Unparse(ArrText(space, items)) + rest) == Some((Arr(vs), rest))
    decreases items, 3
  {
    hide ReadItems, Skip, AllSpace, ItemsText;
    var s := Unparse(ArrText(space, items)) + rest;
    if items == [] {
      assert s[1..] == space + ("]" + rest);
      SkipOver(space, "]" + rest);
      assert ("]" + rest)[1..] == rest;
    } else {
      assert s[1..] == ItemsText(items) + "]" + rest;
      ItemsReads(items, vs, rest);
    }
  }

  /** An item with its white space, and what follows it. */
  lemma {:induction false} SpacedReads(item: Spaced, v: Json, tail: string)
    requires SpacedDenotes(item, v) && tail != "" && tail[0] in {',', ']', '}'}
    ensures var s := Skip(SpacedText(item) + tail);
      && s != "" && s[0] !in {']', '}'}
      && ReadValue(s) == Some((v, item.after + tail)) && Skip(item.after + tail) == tail
    decreases item, 2
  {
    hide ReadValue, Skip, AllSpace, Unparse, Denotes;
    var text := Unparse(item.tree);
    FirstOf(item.tree, v);
    SkipOver(item.after, tail);
    assert SpacedText(item) + tail == item.before + (text + (item.after + tail));
    assert (text + (item.after + tail))[0] == text[0];
    SkipOver(item.before, text + (item.after + tail));
    assert EndsNumber(item.after + tail) by { SpaceEndsNumber(item.after, tail); }
    ValueReads(item.tree, v, item.after + tail);
  }

  lemma SpaceEndsNumber(space: string, tail: string)
    requires AllSpace(space) && tail != "" && tail[0] in {',', ']', '}'}
    ensures EndsNumber(space + tail)
  {
    if space != "" { assert (space + tail)[0] == space[0]; }
  }

  lemma ItemsSplit(items: seq<Spaced>, rest: string)
    requires items != []
    ensures ItemsText(items) + "]" + rest == SpacedText(items[0])
      + if |items| == 1 then "]" + rest else "," + (ItemsText(items[1..]) + "]" + rest)
  {
    hide SpacedText;
    if |items| > 1 {
      Regroup(SpacedText(items[0]), ",", ItemsText(items[1..]), "]", rest);
    }
  }

  lemma {:induction false} ItemsReads(items: seq<Spaced>, vs: seq<Json>, rest: string)
    requires items != [] && ItemsDenote(items, vs)
    ensures var s := Skip(ItemsText(items) + "]" + rest);
      s != "" && s[0] != ']' && ReadItems(s) == Some((vs, rest))
    decreases items, 0
  {
    hide ReadValue, ReadItems, Skip, SpacedText, SpacedDenotes, ItemsText;
    ItemsSplit(items, rest);
    if |items| == 1 {
      var tail := "]" + rest;
      assert items[1..] == [];
      assert vs == [vs[0]];
      SpacedReads(items[0], vs[0], tail);
      LastOfItems(Skip(SpacedText(items[0]) + tail), vs[0], items[0].after + tail, rest);
    } else {
      var more := ItemsText(items[1..]) + "]" + rest;
      var tail := "," + more;
      SpacedReads(items[0], vs[0], tail);
      ItemsReads(items[1..], vs[1..], rest);
      assert vs == [vs[0]] + vs[1..];
      NextOfItems(Skip(SpacedText(items[0]) + tail), vs[0], items[0].after + tail, more, vs[1..], rest);
    }
  }

  lemma LastOfItems(s: string, v: Json, t: string, rest: string)
    requires ReadValue(s) == Some((v, t)) && Skip(t) == "]" + rest
    ensures ReadItems(s) == Some(([v], rest))
  {
    hide ReadValue, Skip;
    assert ("]" + rest)[1..] == rest;
  }

  lemma NextOfItems(s: string, v: Json, t: string, more: string, vs: seq<Json>, rest: string)
    requires ReadValue(s) == Some((v, t)) && Skip(t) == "," + more && ReadItems(Skip(more)) == Some((vs, rest))
    ensures ReadItems(s) == Some(([v] + vs, rest))
  {
    hide ReadValue, Skip;
    assert ("," + more)[1..] == more;
  }

  lemma {:induction false} ObjectReads(space: string, members: seq<Member>, fields: seq<(string, Json)>, rest: string)
    requires AllSpace(space) && MembersDenote(members, fields)
    ensures ReadValue(Unparse(ObjText(space, members)) + rest) == Some((Obj(fields), rest))
    decreases members, 3
  {
    hide ReadFields, Skip, AllSpace, MembersText;
    var s := Unparse(ObjText(space, members)) + rest;
    if members == [] {
      assert s[1..] == space + ("}" + rest);
      SkipOver(space, "}" + rest);
      assert ("}" + rest)[1..] == rest;
    } else {
      assert s[1..] == MembersText(members) + "}" + rest;
      MembersRead(members, fields, rest);
    }
  }

  lemma {:induction false} MemberReads(m: Member, f: (string, Json), tail: string)
    requires MemberDenotes(m, f) && tail != "" && tail[0] in {',', '}'}
    ensures var s := Skip(MemberText(m) + tail);
      && s != "" && s[0] == '\"'
      && ReadField(s) == Some((f, m.value.after + tail)) && Skip(m.value.after + tail) == tail
    decreases m, 3
  {
    hide ReadValue, ReadChars, Skip, AllSpace, SpacedText, SpacedDenotes, Concat, Pieces;
    var value := SpacedText(m.value) + tail;
    var afterKey := m.gap + (":" + value);
    var quoted := "\"" + (Concat(m.key) + "\"" + afterKey);
    MemberGroups(m.before, Concat(m.key), m.gap, SpacedText(m.value), tail);
    assert MemberText(m) + tail == m.before + quoted;
    SkipOver(m.before, quoted);
    PiecesRead(m.key, f.0, afterKey);
    assert quoted[1..] == Concat(m.key) + "\"" + afterKey;
    SkipOver(m.gap, ":" + value);
    assert (":" + value)[1..] == value;
    SpacedReads(m.value, f.1, tail);
  }

  lemma MemberGroups(before: string, key: string, gap: string, value: string, tail: string)
    ensures before + "\"" + key + "\"" + gap + ":" + value + tail
         == before + ("\"" + (key + "\"" + (gap + (":" + (value + tail)))))
  {
  }

  lemma MembersSplit(members: seq<Member>, rest: string)
    requires members != []
    ensures MembersText(members) + "}" + rest == MemberText(members[0])
      + if |members| == 1 then "}" + rest else "," + (MembersText(members[1..]) + "}" + rest)
  {
    hide MemberText;
    if |members| > 1 {
      Regroup(MemberText(members[0]), ",", MembersText(members[1..]), "}", rest);
    }
  }

  lemma {:induction false} MembersRead(members: seq<Member>, fields: seq<(string, Json)>, rest: string)
    requires members != [] && MembersDenote(members, fields)
    ensures var s := Skip(MembersText(members) + "}" + rest);
      s != "" && s[0] == '\"' && ReadFields(s) == Some((fields, rest))
    decreases members, 0
  {
    hide ReadField, Skip, MemberText, MemberDenotes, ReadFields, MembersText;
    MembersSplit(members, rest);
    if |members| == 1 {
      var tail := "}" + rest;
      assert members[1..] == [];
      assert fields == [fields[0]];
      MemberReads(members[0], fields[0], tail);
      LastOfFields(Skip(MemberText(members[0]) + tail), fields[0], members[0].value.after + tail, rest);
    } else {
      var more := MembersText(members[1..]) + "}" + rest;
      var tail := "," + more;
      MemberReads(members[0], fields[0], tail);
      MembersRead(members[1..], fields[1..], rest);
      assert fields == [fields[0]] + fields[1..];
      NextOfFields(Skip(MemberText(members[0]) + tail), fields[0], members[0].value.after + tail, more,
                   fields[1..], rest);
    }
  }

  lemma LastOfFields(s: string, f: (string, Json), t: string, rest: string)
    requires ReadField(s) == Some((f, t)) && Skip(t) == "}" + rest
    ensures ReadFields(s) == Some(([f], rest))
  {
    hide ReadField, Skip;
    assert ("}" + rest)[1..] == rest;
  }

  lemma NextOfFields(s: string, f: (string, Json), t: string, more: string, fs: seq<(string, Json)>, rest: string)
    requires ReadField(s) == Some((f, t)) && Skip(t) == "," + more && ReadFields(Skip(more)) == Some((fs, rest))
    ensures ReadFields(s) == Some(([f] + fs, rest))
  {
    hide ReadField, Skip;
    assert ("," + more)[1..] == more;
  }

  // ----- The two together -----

  /** A text reads as a value exactly when it is, up to white space around it, a tree of the grammar that
      denotes the value. */
  lemma DecodeMeans(text: string, v: Json)
    ensures Decode(text) == Some(v) <==> exists s :: SpacedDenotes(s, v) && SpacedText(s) == text
  {
    hide ReadValue, Skip, Unparse, Denotes, AllSpace;
    if Decode(text) == Some(v) {
      var before := SkipSplits(text);
      var (w, rest) := ReadValue(Skip(text)).value;
      var t := ValueRead(Skip(text), v, rest);
      var after := SkipSplits(rest);
      var s := Spaced(before, t, after);
      assert SpacedText(s) == text by {
        assert before + (Unparse(t) + (after + "")) == before + Unparse(t) + after;
      }
      assert SpacedDenotes(s, v);
    }
    if s :| SpacedDenotes(s, v) && SpacedText(s) == text {
      FirstOf(s.tree, v);
      assert text == s.before + (Unparse(s.tree) + s.after);
      SkipOver(s.before, Unparse(s.tree) + s.after);
      AllSkipped(s.after) by { SpacesOnly(s.after); }
      assert EndsNumber(s.after) by { OnlySpaceEndsNumber(s.after); }
      ValueReads(s.tree, v, s.after);
    }
  }

  lemma SpacesOnly(s: string)
    requires AllSpace(s)
    ensures forall i | 0 <= i < |s| :: s[i] in {' ', '\t', '\n', '\r'}
  {
  }

  lemma OnlySpaceEndsNumber(s: string)
    requires AllSpace(s)
    ensures EndsNumber(s)
  {
  }
}
