/** What the reader makes of an object's text that was cut short or run on. */
module JsonPrefix {
  import opened Wrappers
  import opened Text
  import opened Json

  // ----- A reader that stopped before the end never looks at what comes after -----

  lemma {:induction false} SkipMore(s: string, t: string)
    requires Skip(s) != ""
    ensures Skip(s + t) == Skip(s) + t
  {
    if IsJsonSpace(s[0]) {
      SkipMore(s[1..], t);
      assert (s + t)[1..] == s[1..] + t;
    }
  }

  lemma HexMore(s: string, t: string)
    requires ReadHex4(s).Some?
    ensures ReadHex4(s + t) == ReadHex4(s)
  {
    assert forall i | 0 <= i < 4 :: (s + t)[i] == s[i];
  }

  lemma EscapeMore(s: string, t: string, c: char, r: string)
    requires ReadEscape(s) == Some((c, r))
    ensures ReadEscape(s + t) == Some((c, r + t))
  {
    hide ReadHex4;
    assert (s + t)[1..] == s[1..] + t;
    if s[0] == 'u' {
      HexMore(s[1..], t);
      assert (s + t)[5..] == s[5..] + t;
      var n := ReadHex4(s[1..]).value;
      if 0xd800 <= n < 0xdc00 {
        assert (s + t)[5..7] == s[5..7];
        HexMore(s[7..], t);
        assert (s + t)[7..] == s[7..] + t;
        assert (s + t)[11..] == s[11..] + t;
      }
    }
  }

  lemma {:induction false} CharsMore(s: string, t: string, cs: string, r: string)
    requires ReadChars(s) == Some((cs, r))
    ensures ReadChars(s + t) == Some((cs, r + t))
    decreases |s|
  {
    assert (s + t)[1..] == s[1..] + t;
    if s[0] == '\\' {
      var (c, u) := ReadEscape(s[1..]).value;
      EscapeMore(s[1..], t, c, u);
      CharsMore(u, t, cs[1..], r);
    } else if s[0] != '\"' {
      CharsMore(s[1..], t, cs[1..], r);
    }
  }

  lemma NatMore(s: string, t: string, n: nat, r: string)
    requires ReadNat(s) == Some((n, r)) && r != ""
    ensures ReadNat(s + t) == Some((n, r + t))
  {
    var k := if s[0] == '0' then 1 else DigitCount(s);
    var k' := if s[0] == '0' then 1 else DigitCount(s + t);
    assert forall i | 0 <= i < |s| :: (s + t)[i] == s[i];
    assert k' == k;
    assert (s + t)[..k] == s[..k];
    assert (s + t)[k..] == s[k..] + t;
  }

  /** A number at the very end of a text may go on; every other value is over when it is over. */
  predicate Finished(s: string, r: string) {
    r != "" || (s != "" && !IsDigit(s[0]))
  }

  lemma {:induction false} ValueMore(s: string, t: string, v: Json, r: string)
    requires ReadValue(s) == Some((v, r)) && Finished(s, r)
    ensures ReadValue(s + t) == Some((v, r + t))
    decreases |s|, 0
  {
    assert (s + t)[0] == s[0];
    assert (s + t)[1..] == s[1..] + t;
    if s[0] == '\"' {
      CharsMore(s[1..], t, v.s, r);
    } else if s[0] == '{' {
      ObjectMore(s, t, v, r);
    } else if s[0] == '[' {
      ArrayMore(s, t, v, r);
    } else if IsDigit(s[0]) {
      NatMore(s, t, v.n, r);
    } else {
      assert "null" <= s + t;
      assert (s + t)[4..] == s[4..] + t;
    }
  }

  lemma {:induction false} ObjectMore(s: string, t: string, v: Json, r: string)
    requires s != "" && s[0] == '{' && ReadValue(s) == Some((v, r))
    ensures ReadValue(s + t) == Some((v, r + t))
    decreases |s|, 0, 0
  {
    assert (s + t)[0] == s[0];
    assert (s + t)[1..] == s[1..] + t;
    var u := Skip(s[1..]);
    SkipMore(s[1..], t);
    if u[0] == '}' {
      assert (u + t)[1..] == u[1..] + t;
    } else {
      FieldsMore(u, t, v.fields, r);
    }
  }

  lemma {:induction false} ArrayMore(s: string, t: string, v: Json, r: string)
    requires s != "" && s[0] == '[' && ReadValue(s) == Some((v, r))
    ensures ReadValue(s + t) == Some((v, r + t))
    decreases |s|, 0, 0
  {
    assert (s + t)[0] == s[0];
    assert (s + t)[1..] == s[1..] + t;
    var u := Skip(s[1..]);
    SkipMore(s[1..], t);
    if u[0] == ']' {
      assert (u + t)[1..] == u[1..] + t;
    } else {
      ItemsMore(u, t, v.items, r);
    }
  }

  lemma {:induction false} ItemsMore(s: string, t: string, vs: seq<Json>, r: string)
    requires ReadItems(s) == Some((vs, r))
    ensures ReadItems(s + t) == Some((vs, r + t))
    decreases |s|, 1
  {
    var (v, u) := ReadValue(s).value;
    ValueMore(s, t, v, u);
    SkipMore(u, t);
    var w := Skip(u);
    assert (w + t)[1..] == w[1..] + t;
    if w[0] == ',' {
      var x := Skip(w[1..]);
      SkipMore(w[1..], t);
      ItemsMore(x, t, vs[1..], r);
    }
  }

  lemma {:induction false} FieldMore(s: string, t: string, f: (string, Json), r: string)
    requires ReadField(s) == Some((f, r)) && r != ""
    ensures ReadField(s + t) == Some((f, r + t))
    decreases |s|, 1
  {
    hide ReadValue, ReadChars;
    assert (s + t)[1..] == s[1..] + t;
    var (key, u) := ReadChars(s[1..]).value;
    CharsMore(s[1..], t, key, u);
    SkipMore(u, t);
    var w := Skip(u);
    assert (w + t)[1..] == w[1..] + t;
    SkipMore(w[1..], t);
    ValueMore(Skip(w[1..]), t, f.1, r);
  }

  lemma {:induction false} FieldsMore(s: string, t: string, fs: seq<(string, Json)>, r: string)
    requires ReadFields(s) == Some((fs, r))
    ensures ReadFields(s + t) == Some((fs, r + t))
    decreases |s|, 2
  {
    hide ReadField;
    var (f, u) := ReadField(s).value;
    FieldMore(s, t, f, u);
    SkipMore(u, t);
    var w := Skip(u);
    assert (w + t)[1..] == w[1..] + t;
    if w[0] == ',' {
      var x := Skip(w[1..]);
      SkipMore(w[1..], t);
      FieldsMore(x, t, fs[1..], r);
    }
  }

  // ----- Objects are prefix-free -----

  /** No proper prefix of an object's text is a document. */
  lemma CutShort(fields: seq<(string, Json)>, ascii: bool, k: nat)
    requires k < |Encode(Obj(fields), ascii)|
    ensures Decode(Encode(Obj(fields), ascii)[..k]) == None
  {
    var whole := Encode(Obj(fields), ascii);
    var p, t := whole[..k], whole[k..];
    assert whole == p + t;
    RoundTrip(Obj(fields), ascii, "");
    assert whole + "" == whole;
    assert p != "" ==> p[0] == '{';
    if Decode(p).Some? {
      var (v, r) := ReadValue(p).value;
      ObjectMore(p, t, v, r);
      assert false;
    }
  }

  /** A document that is an object stays one only while nothing but white space follows. */
  lemma RunOn(text: string, more: string)
    requires text != "" && text[0] == '{' && Decode(text).Some?
    requires more != "" && !IsJsonSpace(more[0])
    ensures Decode(text + more) == None
  {
    var (v, r) := ReadValue(text).value;
    ObjectMore(text, more, v, r);
    assert Skip(text + more) == text + more;
    SkipToMore(r, more);
  }

  lemma {:induction false} SkipToMore(r: string, more: string)
    requires Skip(r) == "" && more != "" && !IsJsonSpace(more[0])
    ensures Skip(r + more) == more
  {
    if r == "" {
      assert r + more == more;
    } else {
      assert (r + more)[1..] == r[1..] + more;
      SkipToMore(r[1..], more);
    }
  }

  lemma {:induction false} AllSkipped(s: string)
    requires forall i | 0 <= i < |s| :: s[i] in {' ', '\t', '\n', '\r'}
    ensures Skip(s) == ""
  {
    if s != "" { AllSkipped(s[1..]); }
  }

  /** White space around a document, of which there are four kinds, does not matter. */
  lemma SpacesAround(before: string, v: Json, ascii: bool, after: string)
    requires forall i | 0 <= i < |before| :: before[i] in {' ', '\t', '\n', '\r'}
    requires forall i | 0 <= i < |after| :: after[i] in {' ', '\t', '\n', '\r'}
    requires v.Str? || v.Arr? || v.Obj?
    ensures Decode(before + Encode(v, ascii) + after) == Some(v)
  {
    hide ReadValue, Skip, EncodeItems, EncodeFields, EscapeAll;
    var text := Encode(v, ascii) + after;
    FirstChar(v, ascii);
    AllSkipped(before);
    AllSkipped(after);
    SkipToMore(before, text);
    assert before + Encode(v, ascii) + after == before + text;
    assert ReadValue(text) == Some((v, after)) by {
      match v
      case Str(cs) => StringRoundTrip(cs, ascii, after);
      case Arr(items) => ArrayRoundTrip(items, ascii, after);
      case Obj(fields) => ObjectRoundTrip(fields, ascii, after);
    }
  }
}
