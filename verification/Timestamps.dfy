/** The text of a log timestamp (src-tauri/src/logging.rs), and the order of such texts. */
module Timestamps {
  import opened CivilCalendar
  import opened LexOrder
  import opened Options

  // ---------------------------------------------------------------------------
  // Rendering
  // ---------------------------------------------------------------------------

  function Digit(d: int): char
    requires 0 <= d <= 9
  {
    '0' + d as char
  }

  /** Decimal digits, padded on the left with zeros to at least `width` of them. */
  function Pad(n: nat, width: nat): (text: string)
    decreases n + width
  {
    if n < 10 && width <= 1 then [Digit(n)]
    else Pad(n / 10, if width > 0 then width - 1 else 0) + [Digit(n % 10)]
  }

  /** One number of a timestamp, its width, and the character after it. */
  datatype Field = Field(value: nat, width: nat, mark: char)

  function Render(fields: seq<Field>): string {
    if fields == [] then ""
    else Pad(fields[0].value, fields[0].width) + [fields[0].mark] + Render(fields[1..])
  }

  function FieldsOf(date: Date, inDay: nat, millis: nat): seq<Field>
    requires date.year >= 0 && date.month >= 0 && date.day >= 0
  {
    [ Field(date.year, 4, '-'), Field(date.month, 2, '-'), Field(date.day, 2, 'T'),
      Field(inDay / 3_600, 2, ':'), Field(inDay % 3_600 / 60, 2, ':'), Field(inDay % 60, 2, '.'),
      Field(millis, 3, 'Z') ]
  }

  function Fields(secs: u64, millis: nat): seq<Field> {
    CivilDayNumber(secs / 86_400);
    FieldsOf(CivilFromDays(secs / 86_400), secs % 86_400, millis)
  }

  function FormatUtcIso8601(secs: u64, millis: nat): (text: string) {
    Render(Fields(secs, millis))
  }

  // ---------------------------------------------------------------------------
  // Fixed-width numbers sort like their values
  // ---------------------------------------------------------------------------

  ghost function Codes(s: string): (r: seq<int>)
    ensures |r| == |s|
  {
    seq(|s|, i requires 0 <= i < |s| => s[i] as int)
  }

  lemma CodesAppend(a: string, b: string)
    ensures Codes(a + b) == Codes(a) + Codes(b)
  {}

  lemma CodesInjective(a: string, b: string)
    requires Codes(a) == Codes(b)
    ensures a == b
  {
    assert forall i :: 0 <= i < |a| ==> Codes(a)[i] == a[i] as int && Codes(b)[i] == b[i] as int;
  }

  ghost function Pow10(width: nat): nat { if width == 0 then 1 else 10 * Pow10(width - 1) }

  /** A number that fits its width takes exactly that width, and one that does not takes more. */
  lemma {:induction false} PadLength(n: nat, width: nat)
    requires width >= 1
    ensures |Pad(n, width)| >= width && (|Pad(n, width)| == width <==> n < Pow10(width))
    decreases n + width
  {
    if n < 10 && width <= 1 {
      assert Pow10(1) == 10;
    } else if width == 1 {
      PadNonempty(n / 10, 0);
      assert Pow10(1) == 10;
    } else {
      PadLength(n / 10, width - 1);
    }
  }

  lemma PadNonempty(n: nat, width: nat)
    ensures |Pad(n, width)| >= 1
  {}

  lemma {:induction false} PadOrder(n: nat, m: nat, width: nat)
    requires width >= 1 && n < Pow10(width) && m < Pow10(width)
    ensures |Pad(n, width)| == |Pad(m, width)| == width
    ensures LexLess(Codes(Pad(n, width)), Codes(Pad(m, width))) <==> n < m
    ensures Pad(n, width) == Pad(m, width) <==> n == m
    decreases width
  {
    PadLength(n, width);
    PadLength(m, width);
    if width == 1 {
      assert Pow10(1) == 10;
      assert Codes([Digit(n)]) == ['0' as int + n] && Codes([Digit(m)]) == ['0' as int + m];
    } else {
      PadOrder(n / 10, m / 10, width - 1);
      var a, b := Pad(n / 10, width - 1), Pad(m / 10, width - 1);
      CodesAppend(a, [Digit(n % 10)]);
      CodesAppend(b, [Digit(m % 10)]);
      assert Codes([Digit(n % 10)]) == ['0' as int + n % 10] && Codes([Digit(m % 10)]) == ['0' as int + m % 10];
      LexAppend(Codes(a), Codes([Digit(n % 10)]), Codes(b), Codes([Digit(m % 10)]));
      if Codes(a) == Codes(b) { CodesInjective(a, b); }
      LastDigitOrder(a, b, Digit(n % 10), Digit(m % 10));
    }
  }

  lemma LastDigitOrder(a: string, b: string, x: char, y: char)
    requires |a| == |b|
    ensures a + [x] == b + [y] <==> a == b && x == y
  {
    if a + [x] == b + [y] {
      assert a == (a + [x])[..|a|] == (b + [y])[..|a|];
      assert (a + [x])[|a|] == (b + [y])[|a|];
    }
  }

  // ---------------------------------------------------------------------------
  // Timestamps sort like the instants they stand for
  // ---------------------------------------------------------------------------

  ghost predicate Fits(f: seq<Field>) {
    forall i :: 0 <= i < |f| ==> f[i].width >= 1 && f[i].value < Pow10(f[i].width)
  }

  ghost predicate SameShape(f: seq<Field>, g: seq<Field>) {
    |f| == |g| && forall i :: 0 <= i < |f| ==> f[i].width == g[i].width && f[i].mark == g[i].mark
  }

  /** Texts of one shape that agree up to field i order by field i. */
  lemma {:induction false} RenderOrderAt(f: seq<Field>, g: seq<Field>, i: nat)
    requires Fits(f) && Fits(g) && SameShape(f, g)
    requires i < |f| && f[..i] == g[..i] && f[i].value < g[i].value
    ensures LexLess(Codes(Render(f)), Codes(Render(g)))
    decreases |f|
  {
    var a, b := Pad(f[0].value, f[0].width), Pad(g[0].value, g[0].width);
    var x, y := [f[0].mark] + Render(f[1..]), [g[0].mark] + Render(g[1..]);
    PadOrder(f[0].value, g[0].value, f[0].width);
    assert Render(f) == a + x && Render(g) == b + y;
    CodesAppend(a, x);
    CodesAppend(b, y);
    LexAppend(Codes(a), Codes(x), Codes(b), Codes(y));
    if i > 0 {
      assert f[0] == f[..i][0] == g[..i][0] == g[0];
      assert f[1..][..i - 1] == f[..i][1..] && g[1..][..i - 1] == g[..i][1..];
      RenderOrderAt(f[1..], g[1..], i - 1);
      CodesAppend([f[0].mark], Render(f[1..]));
      CodesAppend([g[0].mark], Render(g[1..]));
      LexAppend(Codes([f[0].mark]), Codes(Render(f[1..])), Codes([g[0].mark]), Codes(Render(g[1..])));
    }
  }

  /** The first second whose year no longer fits in four digits. */
  const YEAR_10000 := 253_402_300_800

  lemma YearFitsFourDigits(secs: u64)
    ensures var date := CivilFromDays(secs / 86_400); 1970 <= date.year && (date.year <= 9_999 <==> secs < YEAR_10000)
  {
    var days := secs / 86_400;
    CivilDayNumber(days);
    var first := Date(10_000, 1, 1);
    DaysBeforeYearClosed(10_000);
    DayNumberIsMonotone(CivilFromDays(days), first);
  }

  lemma FieldsFit(secs: u64, millis: nat)
    requires millis < 1_000
    ensures Fits(Fields(secs, millis)) <==> secs < YEAR_10000
  {
    hide CivilFromDays, DayNumber;
    YearFitsFourDigits(secs);
    CivilDayNumber(secs / 86_400);
    assert Pow10(2) == 100;
    assert Pow10(3) == 1_000;
    assert Pow10(4) == 10_000;
    var f := Fields(secs, millis);
    if Fits(f) { assert f[0].value < Pow10(f[0].width); }
  }

  lemma EarlierFieldsDiffer(a: Date, p: nat, ms: nat, b: Date, q: nat, mt: nat) returns (i: nat)
    requires IsDate(a) && IsDate(b) && a.year >= 0 && b.year >= 0 && p < 86_400 && q < 86_400
    requires Earlier(a, b) || (a == b && (p < q || (p == q && ms < mt)))
    ensures var f, g := FieldsOf(a, p, ms), FieldsOf(b, q, mt);
            i < 7 && f[..i] == g[..i] && f[i].value < g[i].value
  {
    var f, g := FieldsOf(a, p, ms), FieldsOf(b, q, mt);
    i := if f[0] != g[0] then 0 else if f[1] != g[1] then 1 else if f[2] != g[2] then 2
         else if f[3] != g[3] then 3 else if f[4] != g[4] then 4 else if f[5] != g[5] then 5 else 6;
    if a == b { InDayOrder(p, q); }
  }

  lemma InDayOrder(a: int, b: int)
    requires 0 <= a <= b < 86_400
    ensures a / 3_600 <= b / 3_600
    ensures a / 3_600 == b / 3_600 ==> a % 3_600 / 60 <= b % 3_600 / 60
    ensures a / 3_600 == b / 3_600 && a % 3_600 / 60 == b % 3_600 / 60 ==> a % 60 <= b % 60
    ensures a / 3_600 == b / 3_600 && a % 3_600 / 60 == b % 3_600 / 60 && a % 60 == b % 60 ==> a == b
  {
    assert a % 3_600 % 60 == a % 60 && b % 3_600 % 60 == b % 60;
  }

  /** Up to the year 9999, sorting timestamp texts sorts the instants they were taken at. */
  lemma TimestampsSortChronologically(s: u64, ms: nat, t: u64, mt: nat)
    requires s < YEAR_10000 && t < YEAR_10000 && ms < 1_000 && mt < 1_000
    ensures LexLess(Codes(FormatUtcIso8601(s, ms)), Codes(FormatUtcIso8601(t, mt))) <==> s < t || (s == t && ms < mt)
    ensures FormatUtcIso8601(s, ms) == FormatUtcIso8601(t, mt) <==> s == t && ms == mt
  {
    FieldsFit(s, ms);
    FieldsFit(t, mt);
    if s < t || (s == t && ms < mt) {
      EarlierRendersLess(s, ms, t, mt);
    } else if s != t || ms != mt {
      EarlierRendersLess(t, mt, s, ms);
    } else {
      LexIrreflexive(Codes(FormatUtcIso8601(s, ms)));
    }
  }

  lemma EarlierRendersLess(s: u64, ms: nat, t: u64, mt: nat)
    requires s < YEAR_10000 && t < YEAR_10000
    requires ms < 1_000 && mt < 1_000 && (s < t || (s == t && ms < mt))
    ensures var a, b := Codes(FormatUtcIso8601(s, ms)), Codes(FormatUtcIso8601(t, mt));
            LexLess(a, b) && !LexLess(b, a) && a != b
  {
    hide CivilFromDays, Render, Codes, DayNumber;
    FieldsFit(s, ms);
    FieldsFit(t, mt);
    var m, n := s / 86_400, t / 86_400;
    CivilDayNumber(m);
    CivilDayNumber(n);
    if m < n { CivilFromDaysIsMonotone(m, n); }
    var i := EarlierFieldsDiffer(CivilFromDays(m), s % 86_400, ms, CivilFromDays(n), t % 86_400, mt);
    RenderOrderAt(Fields(s, ms), Fields(t, mt), i);
    LexAsymmetric(Codes(FormatUtcIso8601(s, ms)), Codes(FormatUtcIso8601(t, mt)));
  }

  ghost function WidthOf(f: seq<Field>): nat { if f == [] then 0 else f[0].width + 1 + WidthOf(f[1..]) }

  lemma {:induction false} RenderLength(f: seq<Field>)
    requires forall i :: 0 <= i < |f| ==> f[i].width >= 1
    ensures |Render(f)| >= WidthOf(f) && (|Render(f)| == WidthOf(f) <==> Fits(f))
  {
    if f != [] {
      PadLength(f[0].value, f[0].width);
      RenderLength(f[1..]);
      assert Fits(f) <==> f[0].value < Pow10(f[0].width) && Fits(f[1..]) by {
        assert forall i :: 1 <= i < |f| ==> f[i] == f[1..][i - 1];
      }
    }
  }

  /**
   A timestamp is exactly the 24 characters of the RFC 3339 profile as long as the
   year has four digits; from the year 10000 on it is longer, and it then sorts
   before the year 9999.
   */
  lemma TimestampLength(secs: u64, millis: nat)
    requires millis < 1_000
    ensures |FormatUtcIso8601(secs, millis)| >= 24
    ensures |FormatUtcIso8601(secs, millis)| == 24 <==> secs < YEAR_10000
  {
    var f := Fields(secs, millis);
    FieldsFit(secs, millis);
    RenderLength(f);
    assert WidthOf(f[6..]) == 4 && WidthOf(f[5..]) == 7 by { assert f[6..][1..] == [] && f[5..][1..] == f[6..]; }
    assert WidthOf(f[4..]) == 10 && WidthOf(f[3..]) == 13 by { assert f[4..][1..] == f[5..] && f[3..][1..] == f[4..]; }
    assert WidthOf(f[2..]) == 16 && WidthOf(f[1..]) == 19 by { assert f[2..][1..] == f[3..] && f[1..][1..] == f[2..]; }
  }

  // ---------------------------------------------------------------------------
  // Timestamps read back
  // ---------------------------------------------------------------------------

  predicate IsDigits(t: string) { forall i :: 0 <= i < |t| ==> '0' <= t[i] <= '9' }

  function DecimalOf(t: string): nat
    requires IsDigits(t)
  {
    if t == "" then 0 else DecimalOf(t[..|t| - 1]) * 10 + (t[|t| - 1] as int - '0' as int)
  }

  /** A number of fixed width and the character after it. */
  datatype Slot = Slot(width: nat, mark: char)

  /** Reads numbers of exactly these widths, each followed by its character, and nothing after the last. */
  function Scan(t: string, shape: seq<Slot>): Option<seq<nat>>
    decreases |shape|
  {
    if shape == [] then if t == "" then Some([]) else None
    else
      var w := shape[0].width;
      if |t| <= w || !IsDigits(t[..w]) || t[w] != shape[0].mark then None
      else
        var rest := Scan(t[w + 1..], shape[1..]);
        if rest.None? then None else Some([DecimalOf(t[..w])] + rest.value)
  }

  /** The date-time of section 5.6 of RFC 3339, in UTC with milliseconds. */
  const RFC3339 := [Slot(4, '-'), Slot(2, '-'), Slot(2, 'T'), Slot(2, ':'), Slot(2, ':'), Slot(2, '.'), Slot(3, 'Z')]

  ghost function Shape(f: seq<Field>): (r: seq<Slot>)
    ensures |r| == |f| && forall i :: 0 <= i < |f| ==> r[i] == Slot(f[i].width, f[i].mark)
  {
    seq(|f|, i requires 0 <= i < |f| => Slot(f[i].width, f[i].mark))
  }

  ghost function Values(f: seq<Field>): (r: seq<nat>)
    ensures |r| == |f| && forall i :: 0 <= i < |f| ==> r[i] == f[i].value
  {
    seq(|f|, i requires 0 <= i < |f| => f[i].value)
  }

  lemma {:induction false} PadReads(n: nat, width: nat)
    ensures IsDigits(Pad(n, width)) && DecimalOf(Pad(n, width)) == n
    decreases n + width
  {
    if n < 10 && width <= 1 {
      assert Pad(n, width)[..0] == "";
    } else {
      var high := Pad(n / 10, if width > 0 then width - 1 else 0);
      PadReads(n / 10, if width > 0 then width - 1 else 0);
      assert Pad(n, width)[..|high|] == high;
    }
  }

  /** Fields that fit their widths are read back from the text. */
  lemma {:induction false} RenderScans(f: seq<Field>)
    requires Fits(f) && forall i :: 0 <= i < |f| ==> f[i].width >= 1
    ensures Scan(Render(f), Shape(f)) == Some(Values(f))
  {
    if f != [] {
      var head, rest := Pad(f[0].value, f[0].width), Render(f[1..]);
      PadLength(f[0].value, f[0].width);
      PadReads(f[0].value, f[0].width);
      assert forall i :: 0 <= i < |f[1..]| ==> f[1..][i] == f[i + 1];
      RenderScans(f[1..]);
      hide Pad, DecimalOf, IsDigits, Pow10;
      ScanStep(head, f[0].mark, rest, Shape(f));
      assert Shape(f)[1..] == Shape(f[1..]);
      assert [f[0].value] + Values(f[1..]) == Values(f);
    }
  }

  lemma ScanStep(head: string, mark: char, rest: string, shape: seq<Slot>)
    requires shape != [] && shape[0] == Slot(|head|, mark) && IsDigits(head)
    ensures var more := Scan(rest, shape[1..]);
            Scan(head + [mark] + rest, shape) == if more.None? then None else Some([DecimalOf(head)] + more.value)
  {
    hide DecimalOf;
    var t := head + [mark] + rest;
    assert t[..|head|] == head && t[|head| + 1..] == rest;
  }

  /** A number too long for its width leaves a digit where its mark should be. */
  lemma LongNumberShows(f: seq<Field>)
    requires f != [] && f[0].value >= Pow10(f[0].width) && f[0].width >= 1
    ensures var t := Render(f); |t| > f[0].width && '0' <= t[f[0].width] <= '9'
  {
    var head := Pad(f[0].value, f[0].width);
    PadLength(f[0].value, f[0].width);
    PadReads(f[0].value, f[0].width);
    hide Pad, DecimalOf, Pow10;
    assert Render(f)[f[0].width] == head[f[0].width];
  }

  lemma ScanFails(t: string, shape: seq<Slot>)
    requires shape != [] && |t| > shape[0].width && t[shape[0].width] != shape[0].mark
    ensures Scan(t, shape).None?
  {
    hide DecimalOf;
  }

  /**
   The text is a date-time of section 5.6 of RFC 3339 if and only if the year has four digits, and then
   its numbers are the date that many days after the epoch and the time of that day.
   */
  lemma TimestampReadsBack(secs: u64, millis: nat)
    requires millis < 1_000
    ensures var date, inDay := CivilFromDays(secs / 86_400), secs % 86_400;
            Scan(FormatUtcIso8601(secs, millis), RFC3339) ==
            if secs >= YEAR_10000 then None
            else Some([date.year, date.month, date.day, inDay / 3_600, inDay % 3_600 / 60, inDay % 60, millis])
  {
    hide CivilFromDays, DayNumber, Render, Scan;
    CivilDayNumber(secs / 86_400);
    var f := Fields(secs, millis);
    assert Shape(f) == RFC3339;
    FieldsFit(secs, millis);
    if secs < YEAR_10000 {
      RenderScans(f);
      var date, inDay := CivilFromDays(secs / 86_400), secs % 86_400;
      assert Values(f) == [date.year, date.month, date.day, inDay / 3_600, inDay % 3_600 / 60, inDay % 60, millis];
    } else {
      YearFitsFourDigits(secs);
      assert Pow10(4) == 10_000;
      LongNumberShows(f);
      ScanFails(Render(f), Shape(f));
    }
  }

  /** The order of texts really does break there: five digits sort before four. */
  lemma TimestampOrderBreaksAtYear10000(s: u64, ms: nat, t: u64, mt: nat)
    requires YEAR_10000 - 86_400 <= s < YEAR_10000 <= t < YEAR_10000 + 86_400
    ensures LexLess(Codes(FormatUtcIso8601(t, mt)), Codes(FormatUtcIso8601(s, ms)))
  {
    YearTurn(s / 86_400, t / 86_400, 10_000);
    FirstDigit(10_000, '1');
    FirstDigit(9_999, '9');
    var earlier, later := Render(Fields(s, ms)), Render(Fields(t, mt));
    assert later[0] == '1' && earlier[0] == '9';
    assert Codes(later)[0] == '1' as int && Codes(earlier)[0] == '9' as int;
  }

  /** The texts of two instants compare as the instants do. */
  ghost predicate ComparesAsTime(s: u64, ms: nat, t: u64, mt: nat) {
    LexLess(Codes(FormatUtcIso8601(s, ms)), Codes(FormatUtcIso8601(t, mt))) <==> s < t || (s == t && ms < mt)
  }

  /** All instants before a horizon sort by their texts exactly when the horizon is no later than the year 10000. */
  lemma SortHorizon(horizon: u64)
    ensures (forall s: u64, ms: nat, t: u64, mt: nat :: s < horizon && t < horizon && ms < 1_000 && mt < 1_000 ==>
               ComparesAsTime(s, ms, t, mt)) <==> horizon <= YEAR_10000
  {
    hide FormatUtcIso8601, Codes, LexLess;
    if horizon <= YEAR_10000 {
      forall s: u64, ms: nat, t: u64, mt: nat | s < horizon && t < horizon && ms < 1_000 && mt < 1_000
        ensures ComparesAsTime(s, ms, t, mt)
      {
        TimestampsSortChronologically(s, ms, t, mt);
      }
    } else {
      var last, first: u64 := YEAR_10000 - 1, YEAR_10000;
      TimestampOrderBreaksAtYear10000(last, 0, first, 0);
      assert !ComparesAsTime(first, 0, last, 0);
    }
  }

  lemma FirstDigit(y: nat, c: char)
    requires (y == 10_000 && c == '1') || (y == 9_999 && c == '9')
    ensures |Pad(y, 4)| >= 1 && Pad(y, 4)[0] == c
  {
    var a, b, d := y / 10, y / 100, y / 1_000;
    assert Pad(d, 1)[0] == c;
    assert Pad(b, 2) == Pad(d, 1) + [Digit(b % 10)];
    assert Pad(a, 3) == Pad(b, 2) + [Digit(a % 10)];
    assert Pad(y, 4) == Pad(a, 3) + [Digit(y % 10)];
  }

  lemma YearTurn(last: int, first: int, y: int)
    requires last == 2_932_896 && first == 2_932_897 && y == 10_000
    ensures CivilFromDays(last).year == y - 1 && CivilFromDays(first).year == y
  {
    DaysBeforeYearClosed(y);
    NewYear(y, first);
  }
}
