/**
 The desktop manager stamps each log line with a civil date computed from a day
 count by integer division alone (src-tauri/src/logging.rs).  This module holds
 that arithmetic with its machine integer types, and proves it equal to the
 Gregorian calendar as everybody counts it: one day after another.
 */
module CivilCalendar {

  type u64 = x: int | 0 <= x < 0x1_0000_0000_0000_0000
  type i64 = x: int | -0x8000_0000_0000_0000 <= x < 0x8000_0000_0000_0000

  /** The largest day count that a 64-bit count of seconds can reach. */
  const MAX_DAYS := 213_503_982_334_601

  datatype Date = Date(year: int, month: int, day: int)

  // ---------------------------------------------------------------------------
  // The conversion, as the logger computes it
  // ---------------------------------------------------------------------------

  /** Rust's integer division rounds toward zero. */
  function TruncDiv(a: int, b: int): int
    requires b > 0
  {
    if a >= 0 then a / b else -((-a) / b)
  }

  /** The 400-year era a day falls in; the correction for negative days makes the quotient a floor. */
  function Era(z: int): (era: int)
    ensures era * 146_097 <= z <= era * 146_097 + 146_096
  {
    TruncDiv(if z >= 0 then z else z - 146_096, 146_097)
  }

  /** Every intermediate value is a u64, so each subtraction is proved not to underflow. */
  function YearOfEra(doe: u64): (yoe: u64)
    requires doe <= 146_096
    ensures yoe <= 399
  {
    var lessLeapDays: u64 := doe - doe / 1_460;
    var plusCenturies: u64 := lessLeapDays + doe / 36_524;
    var lessEra: u64 := plusCenturies - doe / 146_096;
    lessEra / 365
  }

  function YearStart(yoe: u64): u64
    requires yoe <= 399
  {
    365 * yoe + yoe / 4 - yoe / 100
  }

  /**
   The March-based year a day falls in and its place in that year.  The contract
   says that all days before it, counted by the leap rule, add up to it again.
   */
  function MarchYear(z: i64): (r: (i64, u64))
    requires 0 <= z <= MAX_DAYS + 719_468
    ensures r.1 <= 365 && (r.1 == 365 ==> IsLeap(r.0 + 1))
    ensures 365 * r.0 + LeapDaysThrough(r.0) + r.1 == z
  {
    var era: i64 := Era(z);
    var doe: u64 := z - era * 146_097;
    var yoe := YearOfEra(doe);
    DayOfYearBounds(doe);
    EraSum(era, yoe);
    LeapsRepeat(yoe + 1, era);
    (yoe + era * 400, doe - YearStart(yoe))
  }

  function CivilFromDays(days: i64): (date: Date)
    requires 0 <= days <= MAX_DAYS
  {
    var (y, doy) := MarchYear(days + 719_468);
    FromMarchYear(y, doy)
  }

  /** Years start in March here, so that a leap day is the last day of its year. */
  function FromMarchYear(y: int, doy: u64): Date
    requires doy <= 365
  {
    var mp: u64 := (5 * doy + 2) / 153;
    var d: u64 := doy - (153 * mp + 2) / 5 + 1;
    var m: u64 := if mp < 10 then mp + 3 else mp - 9;
    Date(if m <= 2 then y + 1 else y, m, d)
  }

  /** What the comments of the conversion promise about its intermediate ranges. */
  lemma DayOfYearBounds(doe: u64)
    requires doe <= 146_096
    ensures YearStart(YearOfEra(doe)) <= doe <= YearStart(YearOfEra(doe)) + 365
    ensures doe == YearStart(YearOfEra(doe)) + 365 ==> IsLeap(YearOfEra(doe) + 1)
  {
    var c, q, r, k := EraCoordinates(doe);
    YearOfEraAt(c, q, r, k);
  }

  // ---------------------------------------------------------------------------
  // The Gregorian calendar
  // ---------------------------------------------------------------------------

  predicate IsLeap(y: int) {
    y % 4 == 0 && (y % 100 != 0 || y % 400 == 0)
  }

  function DaysInMonth(y: int, m: int): int
    requires 1 <= m <= 12
  {
    if m == 2 then (if IsLeap(y) then 29 else 28)
    else if m == 4 || m == 6 || m == 9 || m == 11 then 30
    else 31
  }

  ghost predicate IsDate(d: Date) {
    1 <= d.month <= 12 && 1 <= d.day <= DaysInMonth(d.year, d.month)
  }

  function NextDay(d: Date): Date
    requires IsDate(d)
  {
    if d.day < DaysInMonth(d.year, d.month) then d.(day := d.day + 1)
    else if d.month < 12 then Date(d.year, d.month + 1, 1)
    else Date(d.year + 1, 1, 1)
  }

  const EPOCH := Date(1970, 1, 1)

  /** The date reached by counting n days forward from 1970-01-01. */
  ghost function CountedFromEpoch(n: nat): (d: Date)
    ensures IsDate(d)
  {
    if n == 0 then EPOCH else NextDay(CountedFromEpoch(n - 1))
  }

  ghost function DaysBeforeYear(y: int): nat
    requires y >= 1970
  {
    if y == 1970 then 0 else DaysBeforeYear(y - 1) + (if IsLeap(y - 1) then 366 else 365)
  }

  ghost function DaysBeforeMonth(y: int, m: int): nat
    requires 1 <= m <= 12
  {
    if m == 1 then 0 else DaysBeforeMonth(y, m - 1) + DaysInMonth(y, m - 1)
  }

  /** How many days a date lies after the epoch, summed year by year and month by month. */
  ghost function DayNumber(d: Date): nat
    requires IsDate(d) && d.year >= 1970
  {
    DaysBeforeYear(d.year) + DaysBeforeMonth(d.year, d.month) + d.day - 1
  }

  ghost predicate Earlier(a: Date, b: Date) {
    a.year < b.year || (a.year == b.year && (a.month < b.month || (a.month == b.month && a.day < b.day)))
  }

  // ---------------------------------------------------------------------------
  // Inside one 400-year era
  // ---------------------------------------------------------------------------

  /** A day of the era is day k of year r of the q-th four years of century c. */
  ghost predicate Coordinates(c: int, q: int, r: int, k: int) {
    && 0 <= c <= 3 && 0 <= q <= 24 && 0 <= r <= 3 && 0 <= k <= 365
    && (k == 365 ==> r == 3 && (q < 24 || c == 3))
  }

  lemma EraCoordinates(doe: int) returns (c: int, q: int, r: int, k: int)
    requires 0 <= doe <= 146_096
    ensures Coordinates(c, q, r, k) && doe == 36_524 * c + 1_461 * q + 365 * r + k
  {
    c := if doe == 146_096 then 3 else doe / 36_524;
    var inCentury := doe - 36_524 * c;
    q := inCentury / 1_461;
    var inFourYears := inCentury - 1_461 * q;
    r := if inFourYears == 1_460 then 3 else inFourYears / 365;
    k := inFourYears - 365 * r;
  }

  lemma EraQuotients(c: int, q: int, r: int, k: int)
    requires Coordinates(c, q, r, k)
    ensures var doe := 36_524 * c + 1_461 * q + 365 * r + k;
            var full := if q == 24 && r == 3 && k == 365 then 1 else 0;
            && 0 <= doe <= 146_096
            && doe / 1_460 == 25 * c + q + (24 * c + q + 365 * r + k) / 1_460
            && doe / 36_524 == c + full
            && doe / 146_096 == full
  {}

  lemma YearStartAt(c: int, q: int, r: int)
    requires 0 <= c <= 3 && 0 <= q <= 24 && 0 <= r <= 3
    ensures YearStart(100 * c + 4 * q + r) == 36_524 * c + 1_461 * q + 365 * r
  {
    var y := 100 * c + 4 * q + r;
    assert y / 4 == 25 * c + q && y / 100 == c;
  }

  lemma YearOfEraAt(c: int, q: int, r: int, k: int)
    requires Coordinates(c, q, r, k)
    ensures var doe := 36_524 * c + 1_461 * q + 365 * r + k;
            0 <= doe <= 146_096 && YearOfEra(doe) == 100 * c + 4 * q + r && YearStart(YearOfEra(doe)) == doe - k
    ensures k == 365 ==> IsLeap(100 * c + 4 * q + r + 1)
  {
    EraQuotients(c, q, r, k);
    YearStartAt(c, q, r);
    var carry := (24 * c + q + 365 * r + k) / 1_460;
    assert carry == 0 || (carry == 1 && k > 0);
  }

  // ---------------------------------------------------------------------------
  // Properties of the calendar
  // ---------------------------------------------------------------------------

  ghost function LeapDaysThrough(y: int): int { y / 4 - y / 100 + y / 400 }

  lemma LeapDaysStep(y: int)
    ensures LeapDaysThrough(y) == LeapDaysThrough(y - 1) + (if IsLeap(y) then 1 else 0)
  {
    Divides(y, 4);
    Divides(y, 100);
    Divides(y, 400);
    assert y % 400 == 0 ==> y % 100 == 0 by { if y % 400 == 0 { assert y == 100 * (4 * (y / 400)); } }
    assert y % 100 == 0 ==> y % 4 == 0 by { if y % 100 == 0 { assert y == 4 * (25 * (y / 100)); } }
  }

  lemma Divides(y: int, k: int)
    requires k == 4 || k == 100 || k == 400
    ensures y / k == (y - 1) / k + (if y % k == 0 then 1 else 0)
  {}

  lemma {:induction false} DaysBeforeYearClosed(y: int)
    requires y >= 1970
    ensures DaysBeforeYear(y) == 365 * (y - 1970) + LeapDaysThrough(y - 1) - 477
  {
    if y > 1970 {
      DaysBeforeYearClosed(y - 1);
      LeapDaysStep(y - 1);
    }
  }

  lemma DaysBeforeMonthTable(y: int)
    ensures DaysBeforeMonth(y, 2) == 31 && DaysBeforeMonth(y, 3) == DaysInMonth(y, 2) + 31
    ensures forall m :: 3 <= m <= 12 ==> DaysBeforeMonth(y, m) == DaysInMonth(y, 2) + 31 + (153 * (m - 3) + 2) / 5
  {
    assert DaysBeforeMonth(y, 1) == 0;
    assert DaysBeforeMonth(y, 2) == 31;
    assert DaysBeforeMonth(y, 3) == DaysInMonth(y, 2) + 31;
    assert DaysBeforeMonth(y, 4) == DaysInMonth(y, 2) + 62;
    assert DaysBeforeMonth(y, 6) == DaysInMonth(y, 2) + 123;
    assert DaysBeforeMonth(y, 8) == DaysInMonth(y, 2) + 184;
    assert DaysBeforeMonth(y, 10) == DaysInMonth(y, 2) + 245;
  }

  /** The day after is one further from the epoch, and later. */
  lemma NextDayAdvances(d: Date)
    requires IsDate(d) && d.year >= 1970
    ensures IsDate(NextDay(d)) && NextDay(d).year >= 1970 && Earlier(d, NextDay(d))
    ensures DayNumber(NextDay(d)) == DayNumber(d) + 1
  {
    DaysBeforeMonthTable(d.year);
  }

  lemma {:induction false} DaysBeforeYearMonotone(y: int, y': int)
    requires 1970 <= y < y'
    ensures DaysBeforeYear(y) + (if IsLeap(y) then 366 else 365) <= DaysBeforeYear(y')
    decreases y'
  {
    if y + 1 < y' { DaysBeforeYearMonotone(y, y' - 1); }
  }

  lemma {:induction false} DaysBeforeMonthMonotone(y: int, m: int, m': int)
    requires 1 <= m < m' <= 12
    ensures DaysBeforeMonth(y, m) + DaysInMonth(y, m) <= DaysBeforeMonth(y, m')
    decreases m'
  {
    if m + 1 < m' { DaysBeforeMonthMonotone(y, m, m' - 1); }
  }

  /** Day numbers order dates exactly as the calendar does. */
  lemma DayNumberIsMonotone(a: Date, b: Date)
    requires IsDate(a) && IsDate(b) && a.year >= 1970 && b.year >= 1970
    ensures Earlier(a, b) <==> DayNumber(a) < DayNumber(b)
  {
    if a != b {
      if Earlier(a, b) { EarlierCountsLess(a, b); } else { EarlierCountsLess(b, a); }
    }
  }

  lemma EarlierCountsLess(a: Date, b: Date)
    requires IsDate(a) && IsDate(b) && a.year >= 1970 && b.year >= 1970 && Earlier(a, b)
    ensures DayNumber(a) < DayNumber(b)
  {
    DaysBeforeMonthTable(a.year);
    if a.year < b.year {
      DaysBeforeYearMonotone(a.year, b.year);
      if a.month < 12 { DaysBeforeMonthMonotone(a.year, a.month, 12); }
    } else if a.month < b.month {
      DaysBeforeMonthMonotone(a.year, a.month, b.month);
    }
  }

  lemma {:induction false} CountedDayNumber(n: nat)
    ensures CountedFromEpoch(n).year >= 1970 && DayNumber(CountedFromEpoch(n)) == n
  {
    if n > 0 {
      CountedDayNumber(n - 1);
      NextDayAdvances(CountedFromEpoch(n - 1));
    }
  }

  // ---------------------------------------------------------------------------
  // The conversion is the calendar
  // ---------------------------------------------------------------------------

  /** Month lengths from March on follow the 153-days-in-five-months pattern. */
  lemma MonthOfYear(y: int, doy: int)
    requires 0 <= doy <= 365 && (doy == 365 ==> IsLeap(y + 1))
    ensures IsDate(FromMarchYear(y, doy))
    ensures FromMarchYear(y, doy).month <= 2 <==> doy >= 306
  {}

  lemma MarchYearDayNumber(y: int, doy: int)
    requires 0 <= doy <= 365 && (doy == 365 ==> IsLeap(y + 1))
    requires 365 * y + LeapDaysThrough(y) + doy >= 719_468
    ensures IsDate(FromMarchYear(y, doy)) && FromMarchYear(y, doy).year >= 1970
    ensures DayNumber(FromMarchYear(y, doy)) == 365 * y + LeapDaysThrough(y) + doy - 719_468
  {
    MonthOfYear(y, doy);
    var date := FromMarchYear(y, doy);
    assert y > 1969 || (y == 1969 && doy >= 306);
    DaysBeforeYearClosed(date.year);
    DaysBeforeMonthTable(date.year);
    LeapDaysStep(y);
  }

  lemma EraSum(era: int, yoe: int)
    requires 0 <= yoe <= 399
    ensures var y := yoe + era * 400;
            365 * y + LeapDaysThrough(y) == era * 146_097 + YearStart(yoe)
  {
    var y := yoe + era * 400;
    assert y / 4 == 100 * era + yoe / 4 && y / 100 == 4 * era + yoe / 100 && y / 400 == era;
  }

  /** The date computed for a day count exists, and lies exactly that many days after the epoch. */
  lemma CivilDayNumber(days: i64)
    requires 0 <= days <= MAX_DAYS
    ensures IsDate(CivilFromDays(days)) && CivilFromDays(days).year >= 1970
    ensures DayNumber(CivilFromDays(days)) == days
  {
    var (y, doy) := MarchYear(days + 719_468);
    MarchYearDayNumber(y, doy);
  }

  lemma Remainder(a: int, k: int, q: int, r: int)
    requires k == 4 || k == 100 || k == 400
    requires 0 <= r < k && a == k * q + r
    ensures a % k == r
  {}

  lemma LeapsRepeat(y: int, era: int)
    ensures IsLeap(y + era * 400) == IsLeap(y)
  {
    Remainder(y + era * 400, 4, y / 4 + 100 * era, y % 4);
    Remainder(y + era * 400, 100, y / 100 + 4 * era, y % 100);
    Remainder(y + era * 400, 400, y / 400 + era, y % 400);
  }

  /** For every representable day count the arithmetic agrees with counting days one at a time. */
  lemma CivilFromDaysCountsDays(n: i64)
    requires 0 <= n <= MAX_DAYS
    ensures CivilFromDays(n) == CountedFromEpoch(n)
  {
    CivilDayNumber(n);
    CountedDayNumber(n);
    SameDayNumberSameDate(CivilFromDays(n), CountedFromEpoch(n));
  }

  lemma SameDayNumberSameDate(a: Date, b: Date)
    requires IsDate(a) && IsDate(b) && a.year >= 1970 && b.year >= 1970 && DayNumber(a) == DayNumber(b)
    ensures a == b
  {
    DayNumberIsMonotone(a, b);
    DayNumberIsMonotone(b, a);
  }

  /** Every calendar date from 1970 on is the image of its own day number. */
  lemma CivilFromDaysIsOnto(d: Date)
    requires IsDate(d) && d.year >= 1970 && DayNumber(d) <= MAX_DAYS
    ensures CivilFromDays(DayNumber(d)) == d
  {
    CivilDayNumber(DayNumber(d));
    SameDayNumberSameDate(CivilFromDays(DayNumber(d)), d);
  }

  /** Distinct days give distinct dates, in the same order. */
  lemma CivilFromDaysIsMonotone(m: i64, n: i64)
    requires 0 <= m <= MAX_DAYS && 0 <= n <= MAX_DAYS
    ensures m < n <==> Earlier(CivilFromDays(m), CivilFromDays(n))
  {
    CivilDayNumber(m);
    CivilDayNumber(n);
    DayNumberIsMonotone(CivilFromDays(m), CivilFromDays(n));
  }

  /** The turn of each year. */
  lemma NewYear(y: int, n: i64)
    requires y > 1970 && 1 <= n <= MAX_DAYS && n == DaysBeforeYear(y)
    ensures CivilFromDays(n) == Date(y, 1, 1) && CivilFromDays(n - 1) == Date(y - 1, 12, 31)
  {
    hide FromMarchYear, MarchYear;
    var eve := Date(y - 1, 12, 31);
    NextDayAdvances(eve);
    assert NextDay(eve) == Date(y, 1, 1) && DayNumber(NextDay(eve)) == n;
    CivilFromDaysIsOnto(eve);
    CivilFromDaysIsOnto(NextDay(eve));
  }
}
