/** Instants in UTC, kept as calendar fields the way the host language keeps them, and their
    ISO 8601 text with a final "Z". */
module Clock {
  import opened Wrappers
  import opened Text

  datatype UtcTime = UtcTime(year: nat, month: nat, day: nat, hour: nat, minute: nat, second: nat, micro: nat) {
    predicate Valid() {
      && 1 <= year <= 9999
      && 1 <= month <= 12
      && 1 <= day <= DaysIn(year, month)
      && hour < 24 && minute < 60 && second < 60 && micro < 1000000
    }

    /** Position on the time line: comparing keys is comparing the fields left to right. */
    function Key(): nat {
      (((((year * 13 + month) * 32 + day) * 24 + hour) * 60 + minute) * 60 + second) * 1000000 + micro
    }
  }

  function DaysIn(year: nat, month: nat): (d: nat)
    ensures 28 <= d <= 31
  {
    if month == 2 then (if year % 4 == 0 && (year % 100 != 0 || year % 400 == 0) then 29 else 28)
    else if month in {4, 6, 9, 11} then 30
    else 31
  }

  type Instant = t: UtcTime | t.Valid() witness UtcTime(1, 1, 1, 0, 0, 0, 0)

  predicate Leq(a: Instant, b: Instant) { a.Key() <= b.Key() }

  predicate Less(a: Instant, b: Instant) { a.Key() < b.Key() }

  function Min(a: Instant, b: Instant): Instant { if Less(b, a) then b else a }

  // ----- What the order means -----

  /** The fields, most significant first. */
  function Fields(t: UtcTime): (f: seq<nat>)
    ensures |f| == 7
  {
    [t.year, t.month, t.day, t.hour, t.minute, t.second, t.micro]
  }

  /** At the first field that differs, `a` has the smaller one. */
  predicate FirstSmaller(a: UtcTime, b: UtcTime, i: nat) {
    && i < 7 && Fields(a)[i] < Fields(b)[i]
    && forall j | 0 <= j < i :: Fields(a)[j] == Fields(b)[j]
  }

  /** Numbers with a last digit below `d` compare by what is before it, then by that digit. */
  lemma DigitOrder(q: nat, r: nat, q': nat, r': nat, d: nat)
    requires r < d && r' < d
    ensures q * d + r < q' * d + r' <==> q < q' || (q == q' && r < r')
    ensures q * d + r == q' * d + r' <==> q == q' && r == r'
  {
    if q < q' {
      assert q' * d >= (q + 1) * d;
    } else if q > q' {
      assert q * d >= (q' + 1) * d;
    }
  }

  function DayKey(t: UtcTime): nat { (t.year * 13 + t.month) * 32 + t.day }

  lemma DayOrder(a: Instant, b: Instant)
    ensures DayKey(a) < DayKey(b) <==>
      || a.year < b.year
      || (a.year == b.year && (a.month < b.month || (a.month == b.month && a.day < b.day)))
    ensures DayKey(a) == DayKey(b) <==> a.year == b.year && a.month == b.month && a.day == b.day
  {
    DigitOrder(a.year, a.month, b.year, b.month, 13);
    DigitOrder(a.year * 13 + a.month, a.day, b.year * 13 + b.month, b.day, 32);
  }

  lemma TimeOrder(a: Instant, b: Instant)
    ensures a.Key() < b.Key() <==>
      || DayKey(a) < DayKey(b)
      || (DayKey(a) == DayKey(b) && (a.hour < b.hour
          || (a.hour == b.hour && (a.minute < b.minute
              || (a.minute == b.minute && (a.second < b.second
                  || (a.second == b.second && a.micro < b.micro)))))))
    ensures a.Key() == b.Key() <==>
      DayKey(a) == DayKey(b) && a.hour == b.hour && a.minute == b.minute && a.second == b.second && a.micro == b.micro
  {
    hide DayKey, UtcTime.Key;
    var x, y := DayKey(a), DayKey(b);
    DigitOrder(x, a.hour, y, b.hour, 24);
    DigitOrder(x * 24 + a.hour, a.minute, y * 24 + b.hour, b.minute, 60);
    var m, n := (x * 24 + a.hour) * 60 + a.minute, (y * 24 + b.hour) * 60 + b.minute;
    DigitOrder(m, a.second, n, b.second, 60);
    DigitOrder(m * 60 + a.second, a.micro, n * 60 + b.second, b.micro, 1000000);
    assert a.Key() == (m * 60 + a.second) * 1000000 + a.micro by { KeyFromDay(a); }
    assert b.Key() == (n * 60 + b.second) * 1000000 + b.micro by { KeyFromDay(b); }
  }

  lemma KeyFromDay(t: UtcTime)
    ensures t.Key() == (((DayKey(t) * 24 + t.hour) * 60 + t.minute) * 60 + t.second) * 1000000 + t.micro
  {
  }

  /** One instant is before another exactly when, at the first of year, month, day, hour, minute, second
      and microsecond that differs, its own is smaller; and there are no two names for an instant. */
  lemma LessMeans(a: Instant, b: Instant)
    ensures Less(a, b) <==> exists i :: FirstSmaller(a, b, i)
    ensures Leq(a, b) <==> Less(a, b) || a == b
    ensures Leq(a, b) && Leq(b, a) ==> a == b
  {
    hide UtcTime.Key, DayKey;
    DayOrder(a, b);
    TimeOrder(a, b);
    if Less(a, b) {
      if a.year < b.year { assert FirstSmaller(a, b, 0); }
      else if a.month < b.month { assert FirstSmaller(a, b, 1); }
      else if a.day < b.day { assert FirstSmaller(a, b, 2); }
      else if a.hour < b.hour { assert FirstSmaller(a, b, 3); }
      else if a.minute < b.minute { assert FirstSmaller(a, b, 4); }
      else if a.second < b.second { assert FirstSmaller(a, b, 5); }
      else { assert FirstSmaller(a, b, 6); }
    }
    if i: nat :| FirstSmaller(a, b, i) {
      FieldsAre(a);
      FieldsAre(b);
      assert i == 0 || i == 1 || i == 2 || i == 3 || i == 4 || i == 5 || i == 6;
    }
  }

  lemma FieldsAre(t: UtcTime)
    ensures var f := Fields(t);
      && f[0] == t.year && f[1] == t.month && f[2] == t.day && f[3] == t.hour && f[4] == t.minute
      && f[5] == t.second && f[6] == t.micro
  {
  }

  lemma MinIsEarlier(a: Instant, b: Instant)
    ensures Min(a, b) in {a, b} && Leq(Min(a, b), a) && Leq(Min(a, b), b)
  {
    hide UtcTime.Key;
  }

  /** The months have their lengths; every fourth year has a leap day, except three in four
      centuries. */
  lemma MonthLengths(year: nat)
    ensures forall m | m in {1, 3, 5, 7, 8, 10, 12} :: DaysIn(year, m) == 31
    ensures forall m | m in {4, 6, 9, 11} :: DaysIn(year, m) == 30
    ensures year % 4 != 0 ==> DaysIn(year, 2) == 28
    ensures year % 4 == 0 && year % 100 != 0 ==> DaysIn(year, 2) == 29
    ensures year % 4 == 0 && year % 100 == 0 && year % 400 != 0 ==> DaysIn(year, 2) == 28
    ensures year % 4 == 0 && year % 400 == 0 ==> DaysIn(year, 2) == 29
  {
  }

  const FIRST: Instant := UtcTime(1, 1, 1, 0, 0, 0, 0)
  const LAST: Instant := UtcTime(9999, 12, 31, 23, 59, 59, 999999)

  /** The host language's calendar starts and ends here. */
  lemma FirstAndLast(t: Instant)
    ensures Leq(FIRST, t) && Leq(t, LAST)
  {
    hide UtcTime.Key, DayKey;
    DayOrder(t, FIRST);
    TimeOrder(t, FIRST);
    DayOrder(LAST, t);
    TimeOrder(LAST, t);
  }

  // ----- ISO text -----

  function Pow10(w: nat): (p: nat)
    ensures p > 0
  {
    if w == 0 then 1 else 10 * Pow10(w - 1)
  }

  /** `n` in exactly `w` decimal digits. */
  function Pad(n: nat, w: nat): (s: string)
    requires n < Pow10(w)
    ensures |s| == w && (forall i | 0 <= i < w :: IsDigit(s[i])) && DigitsValue(s) == n
    decreases w
  {
    if w == 0 then ""
    else
      var s := Pad(n / 10, w - 1) + [Digit(n % 10)];
      assert s[..w - 1] == Pad(n / 10, w - 1);
      s
  }

  function ReadDigits(s: string): Option<nat> {
    if forall i | 0 <= i < |s| :: IsDigit(s[i]) then Some(DigitsValue(s)) else None
  }

  function IsoDate(t: Instant): (s: string)
    ensures |s| == 10
  {
    assert Pow10(2) == 100 && Pow10(4) == 10000;
    Pad(t.year, 4) + "-" + Pad(t.month, 2) + "-" + Pad(t.day, 2)
  }

  function IsoTime(t: Instant): (s: string)
    ensures |s| == 8
  {
    assert Pow10(2) == 100;
    Pad(t.hour, 2) + ":" + Pad(t.minute, 2) + ":" + Pad(t.second, 2)
  }

  function IsoFraction(t: Instant): string {
    assert Pow10(2) == 100 && Pow10(4) == 10000 && Pow10(6) == 1000000;
    if t.micro == 0 then "" else "." + Pad(t.micro, 6)
  }

  /** `isoformat` with "+00:00" written "Z"; the fraction appears only when it is not zero. */
  function Iso(t: Instant): string {
    IsoDate(t) + "T" + IsoTime(t) + IsoFraction(t) + "Z"
  }

  /** Three digit groups around two separators. */
  function ReadGroups(s: string, w: nat, sep: char): (r: Option<(nat, nat, nat)>) {
    if |s| != w + 6 || s[w] != sep || s[w + 3] != sep then None else
      var a :- ReadDigits(s[..w]);
      var b :- ReadDigits(s[w + 1..w + 3]);
      var c :- ReadDigits(s[w + 4..]);
      Some((a, b, c))
  }

  function ReadFraction(s: string): Option<nat> {
    if s == "" then Some(0)
    else if |s| == 7 && s[0] == '.' then ReadDigits(s[1..])
    else None
  }

  function ParseIso(s: string): Option<Instant> {
    if |s| < 20 || s[10] != 'T' || s[|s| - 1] != 'Z' then None else
      var (year, month, day) :- ReadGroups(s[..10], 4, '-');
      var (hour, minute, second) :- ReadGroups(s[11..19], 2, ':');
      var micro :- ReadFraction(s[19..|s| - 1]);
      var t := UtcTime(year, month, day, hour, minute, second, micro);
      if t.Valid() then Some(t) else None
  }

  lemma GroupSlices(a: string, b: string, c: string, sep: char)
    requires |b| == 2 && |c| == 2
    ensures var s := a + [sep] + b + [sep] + c;
            && |s| == |a| + 6 && s[|a|] == sep && s[|a| + 3] == sep
            && s[..|a|] == a && s[|a| + 1..|a| + 3] == b && s[|a| + 4..] == c
  {
  }

  lemma GroupsRead(a: string, b: string, c: string, sep: char)
    requires |b| == 2 && |c| == 2
    requires forall i | 0 <= i < |a| :: IsDigit(a[i])
    requires forall i | 0 <= i < 2 :: IsDigit(b[i]) && IsDigit(c[i])
    ensures ReadGroups(a + [sep] + b + [sep] + c, |a|, sep)
         == Some((DigitsValue(a), DigitsValue(b), DigitsValue(c)))
  {
    hide DigitsValue, IsDigit;
    GroupSlices(a, b, c, sep);
  }

  lemma Slices(date: string, time: string, fraction: string)
    requires |date| == 10 && |time| == 8
    ensures var s := date + "T" + time + fraction + "Z";
            && s[..10] == date && s[10] == 'T' && s[11..19] == time
            && s[19..|s| - 1] == fraction && s[|s| - 1] == 'Z'
  {
  }

  lemma DateRead(t: Instant)
    ensures ReadGroups(IsoDate(t), 4, '-') == Some((t.year, t.month, t.day))
  {
    assert Pow10(2) == 100 && Pow10(4) == 10000;
    GroupsRead(Pad(t.year, 4), Pad(t.month, 2), Pad(t.day, 2), '-');
  }

  lemma TimeRead(t: Instant)
    ensures ReadGroups(IsoTime(t), 2, ':') == Some((t.hour, t.minute, t.second))
  {
    assert Pow10(2) == 100;
    GroupsRead(Pad(t.hour, 2), Pad(t.minute, 2), Pad(t.second, 2), ':');
  }

  lemma FractionRead(t: Instant)
    ensures ReadFraction(IsoFraction(t)) == Some(t.micro)
  {
    assert Pow10(2) == 100 && Pow10(4) == 10000 && Pow10(6) == 1000000;
    if t.micro != 0 {
      assert IsoFraction(t)[1..] == Pad(t.micro, 6);
    }
  }

  /** The text of an instant determines the instant. */
  lemma IsoRoundTrip(t: Instant)
    ensures ParseIso(Iso(t)) == Some(t)
  {
    Slices(IsoDate(t), IsoTime(t), IsoFraction(t));
    DateRead(t);
    TimeRead(t);
    FractionRead(t);
  }

  lemma DatePlaces(t: Instant)
    ensures var s := IsoDate(t);
      && s[4] == '-' && s[7] == '-'
      && ReadDigits(s[..4]) == Some(t.year) && ReadDigits(s[5..7]) == Some(t.month)
      && ReadDigits(s[8..]) == Some(t.day)
  {
    assert Pow10(2) == 100 && Pow10(4) == 10000;
    GroupSlices(Pad(t.year, 4), Pad(t.month, 2), Pad(t.day, 2), '-');
  }

  lemma TimePlaces(t: Instant)
    ensures var s := IsoTime(t);
      && s[2] == ':' && s[5] == ':'
      && ReadDigits(s[..2]) == Some(t.hour) && ReadDigits(s[3..5]) == Some(t.minute)
      && ReadDigits(s[6..]) == Some(t.second)
  {
    assert Pow10(2) == 100;
    GroupSlices(Pad(t.hour, 2), Pad(t.minute, 2), Pad(t.second, 2), ':');
  }

  lemma FractionPlaces(t: Instant)
    ensures var s := IsoFraction(t);
      if t.micro == 0 then s == "" else |s| == 7 && s[0] == '.' && ReadDigits(s[1..]) == Some(t.micro)
  {
    FractionRead(t);
    assert Pow10(6) == 1000000 by { assert Pow10(2) == 100 && Pow10(4) == 10000; }
  }

  /** The text of an instant: the date and the time in decimal, year first, the fraction of a second only
      when there is one. */
  lemma IsoMeans(t: Instant)
    ensures var s := Iso(t);
      && |s| == (if t.micro == 0 then 20 else 27)
      && s[4] == '-' && s[7] == '-' && s[10] == 'T' && s[13] == ':' && s[16] == ':' && s[|s| - 1] == 'Z'
      && ReadDigits(s[..4]) == Some(t.year) && ReadDigits(s[5..7]) == Some(t.month)
      && ReadDigits(s[8..10]) == Some(t.day) && ReadDigits(s[11..13]) == Some(t.hour)
      && ReadDigits(s[14..16]) == Some(t.minute) && ReadDigits(s[17..19]) == Some(t.second)
      && (t.micro != 0 ==> s[19] == '.' && ReadDigits(s[20..26]) == Some(t.micro))
  {
    hide IsoDate, IsoTime, IsoFraction, ReadDigits;
    var s, date, time, fraction := Iso(t), IsoDate(t), IsoTime(t), IsoFraction(t);
    Slices(date, time, fraction);
    DatePlaces(t);
    TimePlaces(t);
    FractionPlaces(t);
    assert s[..4] == date[..4] && s[5..7] == date[5..7] && s[8..10] == date[8..];
    assert s[11..13] == time[..2] && s[14..16] == time[3..5] && s[17..19] == time[6..];
    assert s[4] == date[4] && s[7] == date[7] && s[13] == time[2] && s[16] == time[5];
    if t.micro != 0 {
      assert s[20..26] == fraction[1..] && s[19] == fraction[0];
    }
  }
}
