/** The proleptic Gregorian calendar as ECMAScript `Date` computes it (ECMA-262, section
    21.4.1, Time Values and Time Range): day numbers counted from 1 January 1970, the
    year-length rule, the month table, MakeDay's overflow of months and days into
    neighbouring years and months, and the two-digit-year rule of the `Date(year, month,
    day)` constructor (section 21.4.2.1, with MakeFullYear). Months are 0-based as
    `getMonth` returns them. */
module CivilCalendar {

  /** A calendar date as `getFullYear`, `getMonth` and `getDate` report it. */
  datatype CivilDate = CivilDate(year: int, month: int, day: int)

  /** The Gregorian leap-year rule: divisible by 4, and not by 100 unless by 400. */
  predicate IsLeapYear(y: int)
  {
    y % 4 == 0 && (y % 100 != 0 || y % 400 == 0)
  }

  /** DaysInYear of section 21.4.1.3, case by case on the remainders. */
  function DaysInYear(y: int): (n: int)
    ensures n == (if IsLeapYear(y) then 366 else 365)
  {
    if y % 4 != 0 then 365
    else if y % 100 != 0 then 366
    else if y % 400 != 0 then 365
    else 366
  }

  /** The number of days of month `m` (0 = January) of year `y`. */
  function MonthLength(y: int, m: int): (n: int)
    requires 0 <= m < 12
    ensures 28 <= n <= 31
    ensures m == 1 ==> (n == 29 <==> IsLeapYear(y))
    ensures m != 1 ==> (n == 30 <==> m == 3 || m == 5 || m == 8 || m == 10)
  {
    if m == 1 then (if IsLeapYear(y) then 29 else 28)
    else if m == 3 || m == 5 || m == 8 || m == 10 then 30
    else 31
  }

  /** A date that names an existing day: a month 0..11 and a day within that month. */
  predicate IsValid(d: CivilDate)
  {
    0 <= d.month < 12 && 1 <= d.day <= MonthLength(d.year, d.month)
  }

  /** DayFromYear of section 21.4.1.3: the day number of 1 January of year `y`. Dafny's
      division by a positive constant rounds down, as the standard's floor does. */
  function DayFromYear(y: int): int
  {
    365 * (y - 1970) + (y - 1969) / 4 - (y - 1901) / 100 + (y - 1601) / 400
  }

  /** The first day of one year follows the last day of the year before. */
  lemma YearStep(y: int)
    ensures DayFromYear(y + 1) == DayFromYear(y) + DaysInYear(y)
  {
    var c4 := QuotientStep4(y);
    var c100 := QuotientStep100(y);
    var c400 := QuotientStep400(y);
    assert DayFromYear(y + 1) == DayFromYear(y) + 365 + c4 - c100 + c400;
  }

  /** How much (y - 1969) / 4 grows from y to y + 1: one exactly when y is a multiple of 4. */
  lemma QuotientStep4(y: int) returns (c: int)
    ensures c == (if y % 4 == 0 then 1 else 0)
    ensures (y - 1968) / 4 == (y - 1969) / 4 + c
  {
    c := if y % 4 == 0 then 1 else 0;
    var q, r := (y - 1969) / 4, (y - 1969) % 4;
    assert y - 1969 == 4 * q + r && 0 <= r < 4;
    assert y % 4 == (r + 1) % 4;
    if r == 3 {
      assert y - 1968 == 4 * (q + 1);
    } else {
      assert y - 1968 == 4 * q + (r + 1);
    }
  }

  /** How much (y - 1901) / 100 grows from y to y + 1: one exactly when y is a multiple of 100. */
  lemma QuotientStep100(y: int) returns (c: int)
    ensures c == (if y % 100 == 0 then 1 else 0)
    ensures (y - 1900) / 100 == (y - 1901) / 100 + c
  {
    c := if y % 100 == 0 then 1 else 0;
    var q, r := (y - 1901) / 100, (y - 1901) % 100;
    assert y - 1901 == 100 * q + r && 0 <= r < 100;
    assert y % 100 == (r + 1) % 100;
    if r == 99 {
      assert y - 1900 == 100 * (q + 1);
    } else {
      assert y - 1900 == 100 * q + (r + 1);
    }
  }

  /** How much (y - 1601) / 400 grows from y to y + 1: one exactly when y is a multiple of 400. */
  lemma QuotientStep400(y: int) returns (c: int)
    ensures c == (if y % 400 == 0 then 1 else 0)
    ensures (y - 1600) / 400 == (y - 1601) / 400 + c
  {
    c := if y % 400 == 0 then 1 else 0;
    var q, r := (y - 1601) / 400, (y - 1601) % 400;
    assert y - 1601 == 400 * q + r && 0 <= r < 400;
    assert y % 400 == (r + 1) % 400;
    if r == 399 {
      assert y - 1600 == 400 * (q + 1);
    } else {
      assert y - 1600 == 400 * q + (r + 1);
    }
  }

  /** Years are laid out in order: every day of year `y1` comes before year `y2 > y1`. */
  lemma {:induction false} YearsOrdered(y1: int, y2: int)
    requires y1 < y2
    ensures DayFromYear(y1) + DaysInYear(y1) <= DayFromYear(y2)
    decreases y2 - y1
  {
    YearStep(y1);
    if y1 + 1 < y2 {
      YearsOrdered(y1 + 1, y2);
    }
  }

  /** The days of year `y` before month `m`, as a running sum of the month lengths. */
  function DaysBeforeMonth(y: int, m: int): (n: int)
    requires 0 <= m <= 12
    ensures n == [0, 31, 59, 90, 120, 151, 181, 212, 243, 273, 304, 334, 365][m]
                 + (if m >= 2 && IsLeapYear(y) then 1 else 0)
  {
    if m == 0 then 0 else DaysBeforeMonth(y, m - 1) + MonthLength(y, m - 1)
  }

  /** Days since 1 January 1970 (negative before it) of a date whose month is 0..11:
      Day(t) of section 21.4.1.4 for the date's midnight. */
  function DayNumber(d: CivilDate): int
    requires 0 <= d.month < 12
  {
    DayFromYear(d.year) + DaysBeforeMonth(d.year, d.month) + d.day - 1
  }

  /** MakeDay of section 21.4.1.28: the month overflows into the year first (floor
      division and modulo by 12), then the day counts on from the first of that month. */
  function MakeDay(y: int, m: int, d: int): (n: int)
    ensures 0 <= m < 12 ==> n == DayNumber(CivilDate(y, m, 1)) + d - 1
  {
    DayNumber(CivilDate(y + m / 12, m % 12, 1)) + d - 1
  }

  /** Twelve months more is one year more: MakeDay carries whole years out of the month. */
  lemma MakeDayMonthCarry(y: int, m: int, d: int)
    ensures MakeDay(y, m + 12, d) == MakeDay(y + 1, m, d)
  {
    assert (m + 12) / 12 == m / 12 + 1 && (m + 12) % 12 == m % 12;
  }

  /** The month after (y, m), on the 1st. */
  function FollowingMonth(y: int, m: int): (r: CivilDate)
    requires 0 <= m < 12
  {
    if m == 11 then CivilDate(y + 1, 0, 1) else CivilDate(y, m + 1, 1)
  }

  /** The first of the following month comes exactly one month length after the first
      of this one, also across a year end. */
  lemma MonthStep(y: int, m: int)
    requires 0 <= m < 12
    ensures DayNumber(FollowingMonth(y, m)) == DayNumber(CivilDate(y, m, 1)) + MonthLength(y, m)
  {
    if m == 11 {
      YearStep(y);
    }
  }

  /** The month before (y, m), on the 1st. */
  function PrecedingMonth(y: int, m: int): (r: CivilDate)
    requires 0 <= m < 12
    ensures 0 <= r.month < 12
  {
    if m == 0 then CivilDate(y - 1, 11, 1) else CivilDate(y, m - 1, 1)
  }

  /** The 1st of (y, m) comes one month length after the 1st of the month before. */
  lemma PrecedingMonthStep(y: int, m: int)
    requires 0 <= m < 12
    ensures var p := PrecedingMonth(y, m);
      DayNumber(CivilDate(y, m, 1)) == DayNumber(p) + MonthLength(p.year, p.month)
  {
    var p := PrecedingMonth(y, m);
    MonthStep(p.year, p.month);
    assert FollowingMonth(p.year, p.month) == CivilDate(y, m, 1);
  }

  /** Day 0 of the following month, as MakeDay numbers it, is the last day of month `m`. */
  lemma DayBeforeNextMonth(y: int, m: int)
    requires 0 <= m < 12
    ensures MakeDay(y, m + 1, 0) == DayNumber(CivilDate(y, m, MonthLength(y, m)))
  {
    MonthStep(y, m);
    if m == 11 {
      assert (m + 1) / 12 == 1 && (m + 1) % 12 == 0;
    } else {
      assert (m + 1) / 12 == 0 && (m + 1) % 12 == m + 1;
    }
  }

  /** The valid date whose day number lies `d - 1` days after the 1st of (y, m): days
      below 1 borrow from the months before, days past the month end carry into the
      months after. */
  function NormalizeDay(y: int, m: int, d: int): (r: CivilDate)
    requires 0 <= m < 12
    ensures IsValid(r)
    ensures DayNumber(r) == DayNumber(CivilDate(y, m, 1)) + d - 1
    decreases if d < 1 then 1 else 0, if d < 1 then -d else d
  {
    if d < 1 then
      var p := PrecedingMonth(y, m);
      PrecedingMonthStep(y, m);
      NormalizeDay(p.year, p.month, d + MonthLength(p.year, p.month))
    else if d > MonthLength(y, m) then
      var n := FollowingMonth(y, m);
      MonthStep(y, m);
      NormalizeDay(n.year, n.month, d - MonthLength(y, m))
    else
      CivilDate(y, m, d)
  }

  /** The date a `Date` built from year `y`, month `m` and day `d` reports, for any
      integers: its day number is MakeDay(y, m, d). */
  function Normalize(y: int, m: int, d: int): (r: CivilDate)
    ensures IsValid(r)
    ensures DayNumber(r) == MakeDay(y, m, d)
  {
    NormalizeDay(y + m / 12, m % 12, d)
  }

  /** Later months of a year start later. */
  lemma MonthsOrdered(y: int, m1: int, m2: int)
    requires 0 <= m1 < m2 <= 12
    ensures DaysBeforeMonth(y, m1) + MonthLength(y, m1) <= DaysBeforeMonth(y, m2)
  {
  }

  /** Distinct valid dates have distinct day numbers, so a day number determines the
      date that the getters report. */
  lemma DayNumberInjective(a: CivilDate, b: CivilDate)
    requires IsValid(a) && IsValid(b)
    requires DayNumber(a) == DayNumber(b)
    ensures a == b
  {
    DaysBeforeMonthBound(a);
    DaysBeforeMonthBound(b);
    if a.year < b.year {
      YearsOrdered(a.year, b.year);
    } else if b.year < a.year {
      YearsOrdered(b.year, a.year);
    }
    assert a.year == b.year;
    if a.month < b.month {
      MonthsOrdered(a.year, a.month, b.month);
    } else if b.month < a.month {
      MonthsOrdered(a.year, b.month, a.month);
    }
  }

  /** A valid date lies within its year. */
  lemma DaysBeforeMonthBound(d: CivilDate)
    requires IsValid(d)
    ensures DayFromYear(d.year) <= DayNumber(d) < DayFromYear(d.year) + DaysInYear(d.year)
  {
    MonthsOrdered(d.year, d.month, 12);
  }

  /** MakeFullYear of section 21.4.2.1: the constructor reads years 0..99 as 1900..1999. */
  function MakeFullYear(y: int): (r: int)
    ensures r != y <==> 0 <= y <= 99
    ensures r != y ==> 1900 <= r <= 1999 && r % 100 == y
  {
    if 0 <= y <= 99 then 1900 + y else y
  }

  /** `new Date(y, m, d)` read back through `getFullYear`, `getMonth` and `getDate`. */
  function Construct(y: int, m: int, d: int): (r: CivilDate)
    ensures IsValid(r)
    ensures DayNumber(r) == MakeDay(MakeFullYear(y), m, d)
  {
    Normalize(MakeFullYear(y), m, d)
  }

  /** Constructing a valid date outside the two-digit years gives that date back. */
  lemma ConstructValid(d: CivilDate)
    requires IsValid(d) && !(0 <= d.year <= 99)
    ensures Construct(d.year, d.month, d.day) == d
  {
    assert d.month / 12 == 0 && d.month % 12 == d.month;
    assert MakeDay(d.year, d.month, d.day) == DayNumber(d);
    DayNumberInjective(Construct(d.year, d.month, d.day), d);
  }

  /** WeekDay of section 21.4.1.7: 0 = Sunday .. 6 = Saturday; 1 January 1970 was a Thursday. */
  function WeekDay(d: CivilDate): (w: int)
    requires 0 <= d.month < 12
    ensures 0 <= w < 7
  {
    (DayNumber(d) + 4) % 7
  }

  /** The 1st of the following month falls `MonthLength` weekdays later. */
  lemma WeekDayStep(y: int, m: int)
    requires 0 <= m < 12
    ensures WeekDay(FollowingMonth(y, m)) == (WeekDay(CivilDate(y, m, 1)) + MonthLength(y, m)) % 7
  {
    MonthStep(y, m);
    WeekShift(DayNumber(CivilDate(y, m, 1)) + 4, MonthLength(y, m));
  }

  /** Adding to a weekday index wraps around the week. */
  lemma WeekShift(a: int, b: int)
    ensures (a + b) % 7 == (a % 7 + b) % 7
  {
    var q := a / 7;
    assert a == 7 * q + a % 7;
    assert a + b == 7 * q + (a % 7 + b);
  }

  /** Concrete cases: 2024 and 2000 are leap years, 2023 and 1900 are not; 1 January
      1970 was a Thursday and 1 May 2024 a Wednesday. */
  lemma CalendarExamples()
    ensures IsLeapYear(2024) && IsLeapYear(2000) && !IsLeapYear(2023) && !IsLeapYear(1900)
    ensures WeekDay(CivilDate(1970, 0, 1)) == 4 && WeekDay(CivilDate(2024, 4, 1)) == 3
  {
    assert DayFromYear(1970) == 0 && DaysBeforeMonth(1970, 0) == 0;
    assert DayFromYear(2024) == 19723 && DaysBeforeMonth(2024, 4) == 121;
    assert DayNumber(CivilDate(2024, 4, 1)) == 19844;
  }
}
