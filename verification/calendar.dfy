/**
 * The parts of Foundation's `Date` and `Calendar` the app relies on, for the
 * proleptic Gregorian calendar in UTC.
 *
 * A `Date` is a whole number of seconds since 1970-01-01T00:00:00Z; its
 * calendar day is that number divided by 86400, rounded down. Dafny's `/` on
 * `int` with a positive divisor rounds down, also for instants before 1970.
 */
module Calendar {

  const SecondsPerDay: int := 86400

  datatype Date = Date(seconds: int) {

    /** Days since 1970-01-01 (negative before it). */
    function Day(): int
    {
      seconds / SecondsPerDay
    }
  }

  /** `Calendar.isDate(_:inSameDayAs:)` */
  predicate SameDay(a: Date, b: Date)
  {
    a.Day() == b.Day()
  }

  /** `Calendar.date(byAdding: .day, value: n, to: d)`; UTC has no daylight-saving shifts. */
  function AddDays(d: Date, n: int): (r: Date)
    ensures r.Day() == d.Day() + n
    ensures r.seconds - r.Day() * SecondsPerDay == d.seconds - d.Day() * SecondsPerDay
  {
    Date(d.seconds + n * SecondsPerDay)
  }

  /** A later instant never falls on an earlier calendar day. */
  lemma DayMonotone(a: Date, b: Date)
    requires a.seconds <= b.seconds
    ensures a.Day() <= b.Day()
  {
  }

  predicate IsLeapYear(y: int)
  {
    y % 4 == 0 && (y % 100 != 0 || y % 400 == 0)
  }

  function YearLength(y: int): int
  {
    if IsLeapYear(y) then 366 else 365
  }

  /** Day number of 1 January of year `y`: 365 days a year plus the leap days before it. */
  function DaysBeforeYear(y: int): int
  {
    var p := y - 1;
    365 * p + p / 4 - p / 100 + p / 400 - 719162
  }

  lemma FloorStep4(y: int)
    ensures y / 4 - (y - 1) / 4 == if y % 4 == 0 then 1 else 0
  {
  }

  lemma FloorStep100(y: int)
    ensures y / 100 - (y - 1) / 100 == if y % 100 == 0 then 1 else 0
  {
  }

  lemma FloorStep400(y: int)
    ensures y / 400 - (y - 1) / 400 == if y % 400 == 0 then 1 else 0
  {
  }

  /** Year `y + 1` starts one year length after year `y`. */
  lemma DaysBeforeNextYear(y: int)
    ensures DaysBeforeYear(y + 1) == DaysBeforeYear(y) + YearLength(y)
  {
    FloorStep4(y);
    FloorStep100(y);
    FloorStep400(y);
  }

  lemma {:induction false} DaysBeforeYearGrows(a: int, b: int)
    requires a <= b
    ensures DaysBeforeYear(a) + 365 * (b - a) <= DaysBeforeYear(b)
    decreases b - a
  {
    if a < b {
      DaysBeforeYearGrows(a, b - 1);
      DaysBeforeNextYear(b - 1);
    }
  }

  /**
   * The start of a year written as 2001 plus whole 400-year eras, centuries,
   * 4-year groups and single years; only the last year of a 4-year group is
   * a leap year, except the last group of a century that is not the fourth.
   */
  lemma CycleYearStart(era: int, c: int, q: int, y: int)
    requires 0 <= c <= 3 && 0 <= q <= 24 && 0 <= y <= 3
    ensures DaysBeforeYear(2001 + 400 * era + 100 * c + 4 * q + y)
      == 11323 + 146097 * era + 36524 * c + 1461 * q + 365 * y
    ensures IsLeapYear(2001 + 400 * era + 100 * c + 4 * q + y) <==> y == 3 && (q != 24 || c == 3)
  {
    var p := 2000 + 400 * era + 100 * c + 4 * q + y;
    assert p == 4 * (500 + 100 * era + 25 * c + q) + y;
    assert p / 4 == 500 + 100 * era + 25 * c + q;
    assert p == 100 * (20 + 4 * era + c) + (4 * q + y);
    assert p / 100 == 20 + 4 * era + c;
    assert p == 400 * (5 + era) + (100 * c + 4 * q + y);
    assert p / 400 == 5 + era;
    var Y := p + 1;
    assert Y == 4 * (500 + 100 * era + 25 * c + q) + (y + 1);
    assert Y == 100 * (20 + 4 * era + c) + (4 * q + y + 1);
    assert Y == 400 * (5 + era) + (100 * c + 4 * q + y + 1);
  }

  datatype YearDay = YearDay(year: int, dayOfYear: int)

  /**
   * The year holding day `z` and the 0-based day within it, by splitting the
   * days since 2001-01-01 (day 11323) into eras of 146097 days, centuries of
   * 36524, 4-year groups of 1461 and years of 365.
   */
  function YearDayOf(z: int): (p: YearDay)
    ensures 0 <= p.dayOfYear < YearLength(p.year)
    ensures z == DaysBeforeYear(p.year) + p.dayOfYear
  {
    var n := z - 11323;
    var era := n / 146097;
    var r400 := n % 146097;
    var c := if r400 / 36524 < 3 then r400 / 36524 else 3;
    var r100 := r400 - 36524 * c;
    var q := r100 / 1461;
    var r4 := r100 % 1461;
    var y := if r4 / 365 < 3 then r4 / 365 else 3;
    assert 0 <= q <= 24;
    assert q == 24 && c < 3 ==> r4 <= 1459;
    CycleYearStart(era, c, q, y);
    YearDay(2001 + 400 * era + 100 * c + 4 * q + y, r4 - 365 * y)
  }

  /** A day lying within year `y` is placed in year `y`. */
  lemma YearOfDay(z: int, y: int)
    requires DaysBeforeYear(y) <= z < DaysBeforeYear(y + 1)
    ensures YearDayOf(z) == YearDay(y, z - DaysBeforeYear(y))
  {
    var p := YearDayOf(z);
    DaysBeforeNextYear(p.year);
    if p.year < y {
      DaysBeforeYearGrows(p.year + 1, y);
    } else if p.year > y {
      DaysBeforeYearGrows(y + 1, p.year);
    }
  }

  datatype YearMonth = YearMonth(year: int, month: int)

  /** `Calendar.range(of: .day, in: .month, for:).count` */
  function DaysInMonth(ym: YearMonth): (n: int)
    ensures 28 <= n <= 31
    ensures n == 29 <==> ym.month == 2 && IsLeapYear(ym.year)
  {
    match ym.month
    case 2 => if IsLeapYear(ym.year) then 29 else 28
    case 4 => 30
    case 6 => 30
    case 9 => 30
    case 11 => 30
    case _ => 31
  }

  /** Days of year `y` before the first of month `m`; month 13 stands for the next year's start. */
  function MonthStart(y: int, m: int): (d: int)
    requires 1 <= m <= 13
    ensures m == 1 ==> d == 0
    ensures m == 13 ==> d == YearLength(y)
  {
    var leapDay := if IsLeapYear(y) && m >= 3 then 1 else 0;
    [0, 31, 59, 90, 120, 151, 181, 212, 243, 273, 304, 334, 365][m - 1] + leapDay
  }

  /** Consecutive month starts are one month length apart. */
  lemma MonthStartStep(y: int, m: int)
    requires 1 <= m <= 12
    ensures MonthStart(y, m) + DaysInMonth(YearMonth(y, m)) == MonthStart(y, m + 1)
  {
  }

  lemma {:induction false} MonthStartGrows(y: int, a: int, b: int)
    requires 1 <= a <= b <= 13
    ensures MonthStart(y, a) + 28 * (b - a) <= MonthStart(y, b)
    decreases b - a
  {
    if a < b {
      MonthStartGrows(y, a, b - 1);
      MonthStartStep(y, b - 1);
    }
  }

  /** The month (1..12) holding the 0-based day `d` of year `y`. */
  function MonthOfDayOfYear(y: int, d: int): (m: int)
    requires 0 <= d < YearLength(y)
    ensures 1 <= m <= 12 && MonthStart(y, m) <= d < MonthStart(y, m + 1)
  {
    if d < MonthStart(y, 2) then 1
    else if d < MonthStart(y, 3) then 2
    else if d < MonthStart(y, 4) then 3
    else if d < MonthStart(y, 5) then 4
    else if d < MonthStart(y, 6) then 5
    else if d < MonthStart(y, 7) then 6
    else if d < MonthStart(y, 8) then 7
    else if d < MonthStart(y, 9) then 8
    else if d < MonthStart(y, 10) then 9
    else if d < MonthStart(y, 11) then 10
    else if d < MonthStart(y, 12) then 11
    else 12
  }

  /** A day of the year lying within month `m` is placed in month `m`. */
  lemma MonthOfDayOfYearUnique(y: int, d: int, m: int)
    requires 1 <= m <= 12 && MonthStart(y, m) <= d < MonthStart(y, m + 1)
    ensures 0 <= d < YearLength(y)
    ensures MonthOfDayOfYear(y, d) == m
  {
    MonthStartGrows(y, 1, m);
    MonthStartGrows(y, m + 1, 13);
    var k := MonthOfDayOfYear(y, d);
    if k < m {
      MonthStartGrows(y, k + 1, m);
    } else if k > m {
      MonthStartGrows(y, m + 1, k);
    }
  }

  datatype CivilDate = CivilDate(year: int, month: int, day: int)

  predicate ValidCivil(c: CivilDate)
  {
    1 <= c.month <= 12 && 1 <= c.day <= DaysInMonth(YearMonth(c.year, c.month))
  }

  /** Day number of a calendar date: days since 1970-01-01. */
  function DaysFromCivil(c: CivilDate): int
    requires 1 <= c.month <= 12
  {
    DaysBeforeYear(c.year) + MonthStart(c.year, c.month) + c.day - 1
  }

  /** Year, month (1..12) and day of month of the day numbered `z`. */
  function CivilFromDays(z: int): (c: CivilDate)
    ensures 1 <= c.month <= 12 && 1 <= c.day <= 31
    ensures ValidCivil(c) && DaysFromCivil(c) == z
  {
    var p := YearDayOf(z);
    var m := MonthOfDayOfYear(p.year, p.dayOfYear);
    MonthStartStep(p.year, m);
    CivilDate(p.year, m, p.dayOfYear - MonthStart(p.year, m) + 1)
  }

  /** Converting a valid date to its day number and back gives the date again. */
  lemma CivilRoundTrip(c: CivilDate)
    requires ValidCivil(c)
    ensures CivilFromDays(DaysFromCivil(c)) == c
  {
    var z := DaysFromCivil(c);
    var d := z - DaysBeforeYear(c.year);
    MonthOfDayOfYearUnique(c.year, d, c.month);
    DaysBeforeNextYear(c.year);
    YearOfDay(z, c.year);
  }

  function MonthOf(d: Date): YearMonth
  {
    var c := CivilFromDays(d.Day());
    YearMonth(c.year, c.month)
  }

  /** `Calendar.isDate(a, equalTo: b, toGranularity: .month)`: same year and same month. */
  predicate SameMonth(a: Date, b: Date)
  {
    MonthOf(a) == MonthOf(b)
  }

  /** Two instants on the same calendar day lie in the same month. */
  lemma SameDaySameMonth(a: Date, b: Date)
    requires SameDay(a, b)
    ensures SameMonth(a, b)
  {
  }

  /** `Calendar.component(.day, from:)` */
  function DayOfMonth(d: Date): int
  {
    CivilFromDays(d.Day()).day
  }

  /**
   * The instants in `d`'s month are exactly those whose day lies in the
   * month's span of `DaysInMonth` days from its first, and the day of month
   * of such an instant counts from 1 at that first day.
   */
  lemma MonthSpan(d: Date, x: Date)
    ensures var first := d.Day() - (DayOfMonth(d) - 1);
      && (SameMonth(x, d) <==> first <= x.Day() < first + DaysInMonth(MonthOf(d)))
      && (SameMonth(x, d) ==> DayOfMonth(x) == x.Day() - first + 1)
  {
    var c := CivilFromDays(d.Day());
    var first := d.Day() - (c.day - 1);
    var n := DaysInMonth(YearMonth(c.year, c.month));
    if first <= x.Day() < first + n {
      var cx := CivilDate(c.year, c.month, x.Day() - first + 1);
      assert DaysFromCivil(cx) == x.Day();
      CivilRoundTrip(cx);
    }
  }

  /** The instant at midnight `DayOfMonth(d) - 1` days before `d` is day 1 of `d`'s month. */
  lemma FirstOfMonth(d: Date)
    ensures var first := Date((d.Day() - (DayOfMonth(d) - 1)) * SecondsPerDay);
      SameMonth(first, d) && DayOfMonth(first) == 1
  {
    var first := Date((d.Day() - (DayOfMonth(d) - 1)) * SecondsPerDay);
    assert first.Day() == d.Day() - (DayOfMonth(d) - 1);
    MonthSpan(d, first);
  }

  /** `Calendar.component(.weekday, from:)`: 1 is Sunday, ..., 7 is Saturday; 1970-01-01 was a Thursday. */
  function Weekday(d: Date): (w: int)
    ensures 1 <= w <= 7
  {
    (d.Day() + 4) % 7 + 1
  }

  /** Day 0 is 1970-01-01. */
  lemma EpochIsFirstOfJanuary1970()
    ensures CivilFromDays(0) == CivilDate(1970, 1, 1)
  {
    assert DaysBeforeYear(1970) == 0;
    CivilRoundTrip(CivilDate(1970, 1, 1));
  }
}
