/** The string operations of the host language that the repository relies on. Strings are
    sequences of Unicode scalar values. */
module Text {

  // ----- White space: str.strip, str.split -----

  predicate IsSpace(c: char) {
    || 0x09 <= c as int <= 0x0d
    || 0x1c <= c as int <= 0x20
    || c as int == 0x85 || c as int == 0xa0 || c as int == 0x1680
    || 0x2028 <= c as int <= 0x2029 || c as int == 0x202f || c as int == 0x205f || c as int == 0x3000
    || 0x2000 <= c as int <= 0x200a
  }

  /** The characters the host language's `str.isspace` knows. */
  const SPACES := {0x09, 0x0a, 0x0b, 0x0c, 0x0d, 0x1c, 0x1d, 0x1e, 0x1f, 0x20, 0x85, 0xa0, 0x1680,
                   0x2000, 0x2001, 0x2002, 0x2003, 0x2004, 0x2005, 0x2006, 0x2007, 0x2008, 0x2009, 0x200a,
                   0x2028, 0x2029, 0x202f, 0x205f, 0x3000}

  lemma SpacesAre(c: char)
    ensures IsSpace(c) <==> c as int in SPACES
  {
  }

  /** `not s.strip()` */
  predicate IsBlank(s: string) {
    forall i | 0 <= i < |s| :: IsSpace(s[i])
  }

  /** Length of the run of non-space characters at the front of `s`. */
  function WordLength(s: string): (n: nat)
    ensures n <= |s|
    ensures forall i | 0 <= i < n :: !IsSpace(s[i])
    ensures n == |s| || IsSpace(s[n])
  {
    if s == "" || IsSpace(s[0]) then 0 else 1 + WordLength(s[1..])
  }

  /** `s.split()` */
  function Words(s: string): seq<string>
    decreases |s|
  {
    if s == "" then []
    else if IsSpace(s[0]) then Words(s[1..])
    else
      var n := WordLength(s);
      [s[..n]] + Words(s[n..])
  }

  /** `s[i..j]` is a maximal run of non-space characters. */
  predicate IsRun(s: string, i: int, j: int) {
    && 0 <= i < j <= |s|
    && (forall k | i <= k < j :: !IsSpace(s[k]))
    && (i == 0 || IsSpace(s[i - 1]))
    && (j == |s| || IsSpace(s[j]))
  }

  /** A run of a suffix is a run of the whole, unless the cut went through it ... */
  lemma RunOfSuffix(s: string, n: nat, i: int, j: int)
    requires n <= |s| && IsRun(s[n..], i, j)
    requires i > 0 || n == 0 || IsSpace(s[n - 1])
    ensures IsRun(s, n + i, n + j) && s[n + i..n + j] == s[n..][i..j]
  {
    hide IsSpace;
    forall k | n + i <= k < n + j ensures !IsSpace(s[k]) { assert s[k] == s[n..][k - n]; }
    assert i > 0 ==> s[n + i - 1] == s[n..][i - 1];
    assert n + j < |s| ==> s[n + j] == s[n..][j];
  }

  /** ... and a run of the whole that starts after the cut is a run of the suffix. */
  lemma SuffixOfRun(s: string, n: nat, i: int, j: int)
    requires IsRun(s, i, j) && n <= i
    ensures IsRun(s[n..], i - n, j - n) && s[i..j] == s[n..][i - n..j - n]
  {
    hide IsSpace;
    var t := s[n..];
    forall k | i - n <= k < j - n ensures !IsSpace(t[k]) { assert t[k] == s[n + k]; }
    assert i > n ==> t[i - n - 1] == s[i - 1];
    assert j < |s| ==> t[j - n] == s[j];
  }

  /** `split` finds every maximal run of non-space characters ... */
  lemma {:induction false} RunsAreWords(s: string, i: int, j: int)
    requires IsRun(s, i, j)
    ensures s[i..j] in Words(s)
    decreases |s|
  {
    hide IsSpace;
    var n := if IsSpace(s[0]) then 1 else WordLength(s);
    if !IsSpace(s[0]) && i == 0 {
      assert j == n;
    } else {
      assert i == 0 || IsSpace(s[i - 1]);
      assert n <= i;
      SuffixOfRun(s, n, i, j);
      RunsAreWords(s[n..], i - n, j - n);
    }
  }

  /** ... and nothing else. */
  lemma {:induction false} WordsAreRuns(s: string, w: string) returns (i: int, j: int)
    requires w in Words(s)
    ensures IsRun(s, i, j) && w == s[i..j]
    decreases |s|
  {
    hide IsSpace;
    var n := if IsSpace(s[0]) then 1 else WordLength(s);
    if !IsSpace(s[0]) && w == s[..n] {
      i, j := 0, n;
    } else {
      i, j := WordsAreRuns(s[n..], w);
      assert !IsSpace(s[n..][i]);
      RunOfSuffix(s, n, i, j);
      i, j := n + i, n + j;
    }
  }

  /** A text is blank exactly when it has no words. */
  lemma {:induction false} BlankMeans(s: string)
    ensures IsBlank(s) <==> Words(s) == []
    decreases |s|
  {
    hide IsSpace;
    if s != "" {
      if IsSpace(s[0]) {
        BlankMeans(s[1..]);
        assert s == [s[0]] + s[1..];
      }
    }
  }

  // ----- Lines: str.splitlines -----

  predicate IsLineBoundary(c: char) {
    || 0x0a <= c as int <= 0x0d
    || 0x1c <= c as int <= 0x1e
    || c as int == 0x85 || 0x2028 <= c as int <= 0x2029
  }

  /** The line ends of `str.splitlines`: line feed, vertical tab, form feed, carriage return, the three
      information separators, next line, and the Unicode line and paragraph separators. */
  const LINE_ENDS := {0x0a, 0x0b, 0x0c, 0x0d, 0x1c, 0x1d, 0x1e, 0x85, 0x2028, 0x2029}

  lemma LineEndsAre(c: char)
    ensures IsLineBoundary(c) <==> c as int in LINE_ENDS
    ensures IsLineBoundary(c) ==> IsSpace(c)
  {
  }

  predicate OneLine(s: string) {
    forall i | 0 <= i < |s| :: !IsLineBoundary(s[i])
  }

  function LineLength(s: string): (n: nat)
    ensures n <= |s|
    ensures forall i | 0 <= i < n :: !IsLineBoundary(s[i])
    ensures n == |s| || IsLineBoundary(s[n])
  {
    if s == "" || IsLineBoundary(s[0]) then 0 else 1 + LineLength(s[1..])
  }

  lemma LineLengthIs(s: string, n: nat)
    requires n <= |s| && OneLine(s[..n]) && (n == |s| || IsLineBoundary(s[n]))
    ensures LineLength(s) == n
  {
    hide IsLineBoundary, LineLength;
    assert forall i | 0 <= i < n :: s[..n][i] == s[i];
  }

  /** Where the line after the boundary at `n` starts. */
  function NextLine(s: string, n: nat): (k: nat)
    requires n < |s|
    ensures n < k <= |s|
  {
    if n + 1 < |s| && s[n] == '\r' && s[n + 1] == '\n' then n + 2 else n + 1
  }

  /** `s.splitlines()`: a carriage return followed by a line feed is one boundary. */
  function SplitLines(s: string): seq<string>
    decreases |s|
  {
    if s == "" then []
    else
      var n := LineLength(s);
      if n == |s| then [s] else [s[..n]] + SplitLines(s[NextLine(s, n)..])
  }

  /** The lines, each ended by a line feed. */
  function Terminated(lines: seq<string>): string {
    if lines == [] then "" else lines[0] + "\n" + Terminated(lines[1..])
  }

  lemma {:induction false} TerminatedSnoc(lines: seq<string>, line: string)
    ensures Terminated(lines + [line]) == Terminated(lines) + line + "\n"
  {
    if lines == [] {
      assert lines + [line] == [line];
    } else {
      assert (lines + [line])[1..] == lines[1..] + [line];
      TerminatedSnoc(lines[1..], line);
    }
  }

  /** What splitting does, line by line: a text without a boundary is its only line; a boundary ends a
      line and is dropped; a carriage return and a line feed end one line, not two. */
  lemma SplitMeans(line: string, end: char, rest: string)
    requires OneLine(line) && IsLineBoundary(end)
    ensures SplitLines(line) == if line == "" then [] else [line]
    ensures !(end == '\r' && rest != "" && rest[0] == '\n') ==>
      SplitLines(line + [end] + rest) == [line] + SplitLines(rest)
    ensures SplitLines(line + "\r\n" + rest) == [line] + SplitLines(rest)
  {
    hide IsLineBoundary, SplitLines, OneLine;
    if line == "" {
      NoLinesInNothing();
    } else {
      LastLine(line);
    }
    EndsFirst(line, end, rest);
    LineEndsAre('\r');
    EndsFirst(line, '\r', "\n" + rest);
    assert line + ['\r'] + ("\n" + rest) == line + "\r\n" + rest;
    assert ("\n" + rest)[1..] == rest;
  }

  lemma EndsFirst(line: string, end: char, rest: string)
    requires OneLine(line) && IsLineBoundary(end)
    ensures SplitLines(line + [end] + rest) ==
      [line] + SplitLines(if end == '\r' && rest != "" && rest[0] == '\n' then rest[1..] else rest)
  {
    hide IsLineBoundary, LineLength, SplitLines;
    var s, n := line + [end] + rest, |line|;
    assert s[..n] == line && s[n] == end && s[n + 1..] == rest;
    LineLengthIs(s, n);
    assert rest != "" ==> s[n + 1] == rest[0] && s[n + 2..] == rest[1..];
    CutFirst(s);
  }

  /** Reading a line off the front of a text. */
  lemma FirstLine(line: string, rest: string)
    requires OneLine(line)
    ensures SplitLines(line + "\n" + rest) == [line] + SplitLines(rest)
  {
    var s := line + "\n" + rest;
    var n := LineLength(s);
    assert s[|line|] == '\n' && s[..|line|] == line;
    LineLengthIs(s, |line|);
    assert s[n + 1..] == rest;
  }

  /** Splitting what was written line by line gives the lines back, whatever follows them. */
  lemma {:induction false} SplitTerminated(lines: seq<string>, rest: string)
    requires forall i | 0 <= i < |lines| :: OneLine(lines[i])
    ensures SplitLines(Terminated(lines) + rest) == lines + SplitLines(rest)
  {
    if lines == [] {
      assert Terminated(lines) + rest == rest;
    } else {
      var tail := Terminated(lines[1..]) + rest;
      calc {
        SplitLines(Terminated(lines) + rest);
        { assert Terminated(lines) + rest == lines[0] + "\n" + tail; }
        SplitLines(lines[0] + "\n" + tail);
        { FirstLine(lines[0], tail); }
        [lines[0]] + SplitLines(tail);
        { SplitTerminated(lines[1..], rest); }
        [lines[0]] + (lines[1..] + SplitLines(rest));
        { assert [lines[0]] + lines[1..] == lines; }
        lines + SplitLines(rest);
      }
    }
  }

  /** The text is empty or ends with a line boundary. */
  predicate Closed(s: string) {
    s == "" || IsLineBoundary(s[|s| - 1])
  }

  /** Where the part after the last line boundary starts. */
  function ClosedLength(s: string): (n: nat)
    ensures n <= |s| && Closed(s[..n]) && OneLine(s[n..])
  {
    if Closed(s) then
      assert s[..|s|] == s;
      |s|
    else
      var k := |s| - 1;
      var n := ClosedLength(s[..k]);
      assert s[..k][..n] == s[..n];
      assert s[..k][n..] == s[n..k];
      assert s[n..] == s[n..k] + [s[k]];
      n
  }

  function OpenTail(s: string): string { s[ClosedLength(s)..] }

  lemma LastLine(line: string)
    requires OneLine(line) && line != ""
    ensures SplitLines("") == [] && SplitLines(line) == [line] && SplitLines(line + "\n") == [line]
  {
    assert line[..|line|] == line;
    LineLengthIs(line, |line|);
    FirstLine(line, "");
    assert line + "\n" + "" == line + "\n";
  }

  /** After a closed text, one more line is one more line, with or without its line feed. */
  lemma {:induction false} SplitClosed(s: string, line: string)
    requires Closed(s) && OneLine(line) && line != ""
    ensures SplitLines(s + line) == SplitLines(s) + [line]
    ensures SplitLines(s + line + "\n") == SplitLines(s) + [line]
    decreases |s|
  {
    hide SplitLines;
    if s == "" {
      assert s + line == line;
      LastLine(line);
    } else {
      var n := LineLength(s);
      assert n < |s|;
      var k := NextLine(s, n);
      SplitOff(s, line);
      SplitOff(s, line + "\n");
      SplitClosed(s[k..], line);
      assert s + (line + "\n") == s + line + "\n";
      assert s[k..] + (line + "\n") == s[k..] + line + "\n";
      assert s + "" == s && s[k..] + "" == s[k..];
      SplitOff(s, "");
    }
  }

  lemma CutFirst(s: string)
    requires LineLength(s) < |s|
    ensures var n := LineLength(s);
      SplitLines(s) == [s[..n]] + SplitLines(s[NextLine(s, n)..])
  {
    hide IsLineBoundary;
  }

  /** The first line of a text with something after it. */
  lemma SplitOff(s: string, more: string)
    requires LineLength(s) < |s|
    requires more == "" || more[0] != '\n' || s[|s| - 1] != '\r'
    ensures var n := LineLength(s);
      SplitLines(s + more) == [s[..n]] + SplitLines(s[NextLine(s, n)..] + more)
  {
    hide LineLength, SplitLines, NextLine;
    var n, t := LineLength(s), s + more;
    SameFirst(s, more);
    CutFirst(t);
    assert t[..n] == s[..n];
    assert t[NextLine(s, n)..] == s[NextLine(s, n)..] + more;
  }

  lemma SameFirst(s: string, more: string)
    requires LineLength(s) < |s|
    requires more == "" || more[0] != '\n' || s[|s| - 1] != '\r'
    ensures LineLength(s + more) == LineLength(s) && NextLine(s + more, LineLength(s)) == NextLine(s, LineLength(s))
  {
    hide IsLineBoundary, LineLength;
    var n, t := LineLength(s), s + more;
    assert t[..n] == s[..n] && t[n] == s[n];
    LineLengthIs(t, n);
    assert n + 1 < |s| ==> t[n + 1] == s[n + 1];
  }

  /** After a line feed splitting starts afresh. */
  lemma {:induction false} SplitAppend(s: string, more: string)
    requires s != "" && s[|s| - 1] == '\n'
    ensures SplitLines(s + more) == SplitLines(s) + SplitLines(more)
    decreases |s|
  {
    hide SplitLines;
    var n := LineLength(s);
    assert n < |s|;
    var k := NextLine(s, n);
    SplitOff(s, more);
    SplitOff(s, "");
    assert s + "" == s && s[k..] + "" == s[k..];
    if k < |s| {
      SplitAppend(s[k..], more);
    } else {
      assert s[k..] + more == more && SplitLines("") == [] by { NoLinesInNothing(); }
    }
  }

  lemma NoLinesInNothing()
    ensures SplitLines("") == []
  {
  }

  /** No line boundary ends a text inside its unfinished last line. */
  lemma OpenInside(s: string, m: nat, n: nat)
    requires m < n <= |s| && OneLine(s[m..])
    ensures !Closed(s[..n])
  {
    hide IsLineBoundary;
    assert s[m..][n - 1 - m] == s[..n][n - 1];
  }

  lemma ClosedLengthIs(s: string, n: nat)
    requires n <= |s| && Closed(s[..n]) && OneLine(s[n..])
    ensures ClosedLength(s) == n
  {
    hide Closed, OneLine, ClosedLength;
    var m := ClosedLength(s);
    if m < n {
      OpenInside(s, m, n);
    } else if n < m {
      OpenInside(s, n, m);
    }
  }

  /** Text without a line boundary joins the unfinished last line. */
  lemma OpenTailMore(s: string, more: string)
    requires OneLine(more)
    ensures ClosedLength(s + more) == ClosedLength(s) && OpenTail(s + more) == OpenTail(s) + more
  {
    hide IsLineBoundary, ClosedLength;
    var n := ClosedLength(s);
    assert (s + more)[..n] == s[..n] && (s + more)[n..] == s[n..] + more;
    ClosedLengthIs(s + more, n);
  }

  // ----- Decimal digits -----

  predicate IsDigit(c: char) { '0' <= c <= '9' }

  function Digit(d: nat): (c: char)
    requires d < 10
    ensures IsDigit(c) && DigitValue(c) == d
  {
    ('0' as int + d) as char
  }

  lemma DigitsAre(d: nat)
    requires d < 10
    ensures Digit(d) == "0123456789"[d]
  {
  }

  function DigitValue(c: char): (d: nat)
    requires IsDigit(c)
    ensures d < 10
  {
    c as int - '0' as int
  }

  function NatText(n: nat): (s: string)
    ensures s != "" && forall i | 0 <= i < |s| :: IsDigit(s[i])
    ensures n == 0 ==> s == "0"
    ensures n > 0 ==> s[0] != '0'
    ensures DigitsValue(s) == n
  {
    if n < 10 then [Digit(n)]
    else
      var s := NatText(n / 10) + [Digit(n % 10)];
      assert s[..|s| - 1] == NatText(n / 10);
      s
  }

  function DigitsValue(s: string): nat
    requires forall i | 0 <= i < |s| :: IsDigit(s[i])
  {
    if s == "" then 0 else DigitsValue(s[..|s| - 1]) * 10 + DigitValue(s[|s| - 1])
  }

  /** The last digit counts ones, and what is before it tens. */
  lemma PlaceValue(s: string, c: char)
    requires IsDigit(c) && forall i | 0 <= i < |s| :: IsDigit(s[i])
    ensures DigitsValue(s + [c]) == 10 * DigitsValue(s) + (c as int - '0' as int)
  {
    assert (s + [c])[..|s|] == s;
  }

  // ----- Code-point order, which sorts JSON object keys -----

  predicate LexLess(a: string, b: string) {
    if b == "" then false
    else if a == "" then true
    else a[0] < b[0] || (a[0] == b[0] && LexLess(a[1..], b[1..]))
  }

  /** Two texts that first differ at `i` are ordered by that character. */
  lemma {:induction false} LexLessAt(a: string, b: string, i: nat)
    requires i < |a| && i < |b| && a[..i] == b[..i] && a[i] < b[i]
    ensures LexLess(a, b)
  {
    if i > 0 {
      assert a[0] == a[..i][0] && b[0] == b[..i][0];
      assert a[1..][..i - 1] == a[..i][1..] && b[1..][..i - 1] == b[..i][1..];
      LexLessAt(a[1..], b[1..], i - 1);
    }
  }

  lemma {:induction false} LexTotal(a: string, b: string)
    ensures a == b || LexLess(a, b) || LexLess(b, a)
    ensures !(LexLess(a, b) && LexLess(b, a)) && !LexLess(a, a)
  {
    if a != "" && b != "" && a[0] == b[0] {
      LexTotal(a[1..], b[1..]);
      assert a == [a[0]] + a[1..] && b == [b[0]] + b[1..];
    }
    if a != "" { LexTotal(a[1..], a[1..]); }
  }

  lemma {:induction false} LexTransitive(a: string, b: string, c: string)
    requires LexLess(a, b) && LexLess(b, c)
    ensures LexLess(a, c)
  {
    if a != "" && a[0] == b[0] == c[0] {
      LexTransitive(a[1..], b[1..], c[1..]);
    }
  }

  /** A text is less exactly when it is a proper prefix, or has the smaller character where the two first
      differ. */
  lemma {:induction false} LexLessMeans(a: string, b: string)
    ensures LexLess(a, b) <==> a < b || exists i :: FirstDiffers(a, b, i) && a[i] < b[i]
    decreases |a|
  {
    if a != "" && b != "" {
      if a[0] == b[0] {
        LexLessMeans(a[1..], b[1..]);
        assert a < b <==> a[1..] < b[1..] by { assert a == [a[0]] + a[1..] && b == [b[0]] + b[1..]; }
        forall i: nat ensures FirstDiffers(a, b, i + 1) <==> FirstDiffers(a[1..], b[1..], i) {
          ShiftDiffers(a, b, i);
        }
        if i :| FirstDiffers(a, b, i) && a[i] < b[i] {
          assert FirstDiffers(a, b, i - 1 + 1);
          assert a[1..][i - 1] < b[1..][i - 1];
        }
        if i :| FirstDiffers(a[1..], b[1..], i) && a[1..][i] < b[1..][i] {
          assert FirstDiffers(a, b, i + 1) && a[i + 1] < b[i + 1];
        }
      } else {
        assert FirstDiffers(a, b, 0);
      }
    }
  }

  predicate FirstDiffers(a: string, b: string, i: int) {
    0 <= i < |a| && i < |b| && a[i] != b[i] && forall j | 0 <= j < i :: a[j] == b[j]
  }

  lemma ShiftDiffers(a: string, b: string, i: nat)
    requires a != "" && b != "" && a[0] == b[0]
    ensures FirstDiffers(a, b, i + 1) <==> FirstDiffers(a[1..], b[1..], i)
  {
    if FirstDiffers(a[1..], b[1..], i) {
      forall j | 0 <= j < i + 1 ensures a[j] == b[j] {
        if j > 0 { assert a[1..][j - 1] == b[1..][j - 1]; }
      }
    }
    if FirstDiffers(a, b, i + 1) {
      forall j | 0 <= j < i ensures a[1..][j] == b[1..][j] { assert a[j + 1] == b[j + 1]; }
    }
  }
}
