/** Date-times to the millisecond on the local clock, the minute arithmetic `Date`
    setters perform, and the `YYYY-MM-DDTHH:mm` text of a datetime-local input. */
module LocalTime {
  import opened CivilCalendar

  datatype DateTime = DateTime(date: CivilDate, hour: int, minute: int, second: int, ms: int)

  /** A date-time that names an existing instant of the clock. */
  predicate IsValidTime(t: DateTime)
  {
    IsValid(t.date) && 0 <= t.hour < 24 && 0 <= t.minute < 60 && 0 <= t.second < 60 && 0 <= t.ms < 1000
  }

  /** Minutes since 1 January 1970 00:00 (negative before), seconds not counted. */
  function Minutes(t: DateTime): int
    requires IsValidTime(t)
  {
    DayNumber(t.date) * 1440 + t.hour * 60 + t.minute
  }

  /** A product of two non-negative numbers is non-negative. */
  lemma MulNonneg(a: int, b: int)
    requires a >= 0 && b >= 0
    ensures a * b >= 0
  {
  }

  /** A quotient and a remainder below the divisor are determined by the dividend. */
  lemma SplitUnique(q1: int, r1: int, q2: int, r2: int, d: int)
    requires d > 0 && 0 <= r1 < d && 0 <= r2 < d
    requires q1 * d + r1 == q2 * d + r2
    ensures q1 == q2 && r1 == r2
  {
    if q1 != q2 {
      var lo, hi := if q1 < q2 then q1 else q2, if q1 < q2 then q2 else q1;
      assert hi * d == lo * d + (hi - lo - 1) * d + d;
      MulNonneg(hi - lo - 1, d);
      assert false;
    }
  }

  /** Two valid date-times with the same minute count have the same date, hour and minute. */
  lemma MinutesInjective(a: DateTime, b: DateTime)
    requires IsValidTime(a) && IsValidTime(b)
    requires Minutes(a) == Minutes(b)
    ensures a.date == b.date && a.hour == b.hour && a.minute == b.minute
  {
    SplitUnique(DayNumber(a.date), a.hour * 60 + a.minute, DayNumber(b.date), b.hour * 60 + b.minute, 1440);
    SplitUnique(a.hour, a.minute, b.hour, b.minute, 60);
    DayNumberInjective(a.date, b.date);
  }

  /** The date-time `delta` minutes later (earlier when negative): the new minute count is
      split into a day number and a minute of the day, as MakeDate does with a time that
      overflows the day. Seconds and milliseconds are kept. */
  function ShiftMinutes(t: DateTime, delta: int): (r: DateTime)
    requires IsValidTime(t)
    ensures IsValidTime(r)
    ensures Minutes(r) == Minutes(t) + delta
    ensures r.second == t.second && r.ms == t.ms
  {
    var total := Minutes(t) + delta;
    var day, rest := total / 1440, total % 1440;
    var date := Normalize(1970, 0, day + 1);
    assert DayNumber(date) == day by {
      assert DayFromYear(1970) == 0;
    }
    DateTime(date, rest / 60, rest % 60, t.second, t.ms)
  }

  /** Shifting by nothing changes nothing. */
  lemma ShiftZero(t: DateTime)
    requires IsValidTime(t)
    ensures ShiftMinutes(t, 0) == t
  {
    MinutesInjective(ShiftMinutes(t, 0), t);
  }

  /** Two shifts are one shift by their sum. */
  lemma ShiftCompose(t: DateTime, a: int, b: int)
    requires IsValidTime(t)
    ensures ShiftMinutes(ShiftMinutes(t, a), b) == ShiftMinutes(t, a + b)
  {
    MinutesInjective(ShiftMinutes(ShiftMinutes(t, a), b), ShiftMinutes(t, a + b));
  }

  /** `setMinutes(0, 0, 0)`: the same date and hour, on the hour. */
  function TruncateToHour(t: DateTime): (r: DateTime)
    requires IsValidTime(t)
    ensures IsValidTime(r)
    ensures r.date == t.date && r.hour == t.hour
    ensures r.minute == 0 && r.second == 0 && r.ms == 0
    ensures Minutes(r) <= Minutes(t) < Minutes(r) + 60
  {
    t.(minute := 0, second := 0, ms := 0)
  }

  /** 10 to the power `w`. */
  function Pow10(w: nat): (p: nat)
    ensures p >= 1
  {
    if w == 0 then 1 else 10 * Pow10(w - 1)
  }

  /** The `w` low decimal digits of `n`, left-padded with zeros (padStart). */
  function Digits(n: nat, w: nat): (s: string)
    ensures |s| == w
    ensures forall i :: 0 <= i < w ==> '0' <= s[i] <= '9'
  {
    if w == 0 then [] else Digits(n / 10, w - 1) + [('0' as int + n % 10) as char]
  }

  /** The number a string of decimal digits spells. */
  function DigitsValue(s: string): int
  {
    if s == [] then 0 else DigitsValue(s[..|s| - 1]) * 10 + (s[|s| - 1] as int - '0' as int)
  }

  /** Reading back the digits of a number below 10 to the width gives the number. */
  lemma {:induction false} DigitsRoundTrip(n: nat, w: nat)
    requires n < Pow10(w)
    ensures DigitsValue(Digits(n, w)) == n
  {
    if w > 0 {
      var s := Digits(n, w);
      assert s[..|s| - 1] == Digits(n / 10, w - 1);
      assert s[|s| - 1] as int - '0' as int == n % 10;
      DigitsRoundTrip(n / 10, w - 1);
    }
  }

  /** `toISOString` of a date-time already on the UTC clock: the year in four digits, or
      signed in six outside 0..9999, then month, day, hour, minute, second, milliseconds. */
  function IsoString(t: DateTime): (s: string)
    requires IsValidTime(t)
    ensures |s| >= 24
  {
    var y := t.date.year;
    var year := if 0 <= y <= 9999 then Digits(y, 4)
                else (if y < 0 then "-" else "+") + Digits(if y < 0 then -y else y, 6);
    year + "-" + Digits(t.date.month + 1, 2) + "-" + Digits(t.date.day, 2) + "T"
      + Digits(t.hour, 2) + ":" + Digits(t.minute, 2) + ":" + Digits(t.second, 2)
      + "." + Digits(t.ms, 3) + "Z"
  }

  /** `slice(0, 16)`: the first 16 characters. */
  function Slice16(s: string): (r: string)
    ensures |r| == if |s| < 16 then |s| else 16
  {
    if |s| < 16 then s else s[..16]
  }

  /** The text a datetime-local input holds for a date-time of a four-digit year:
      `YYYY-MM-DDTHH:mm`. */
  function MinuteText(t: DateTime): (s: string)
    requires IsValidTime(t) && 0 <= t.date.year <= 9999
    ensures |s| == 16
  {
    Digits(t.date.year, 4) + "-" + Digits(t.date.month + 1, 2) + "-" + Digits(t.date.day, 2)
      + "T" + Digits(t.hour, 2) + ":" + Digits(t.minute, 2)
  }

  /** For a four-digit year, the first 16 characters of the ISO string are the minute text. */
  lemma IsoSliceIsMinuteText(t: DateTime)
    requires IsValidTime(t) && 0 <= t.date.year <= 9999
    ensures Slice16(IsoString(t)) == MinuteText(t)
  {
    var m := MinuteText(t);
    var rest := ":" + Digits(t.second, 2) + "." + Digits(t.ms, 3) + "Z";
    assert IsoString(t) == m + rest;
  }

  /** How a `YYYY-MM-DDTHH:mm` text is read back as a local date-time on the hour's
      minute: the numbers in their fixed columns, the month counted from 0. */
  function ParseMinuteText(s: string): DateTime
    requires |s| == 16
  {
    DateTime(CivilDate(DigitsValue(s[0..4]), DigitsValue(s[5..7]) - 1, DigitsValue(s[8..10])),
      DigitsValue(s[11..13]), DigitsValue(s[14..16]), 0, 0)
  }

  /** The minute text of a date-time of a four-digit year reads back as that date-time,
      seconds and milliseconds dropped. */
  lemma ParseMinuteTextRoundTrip(t: DateTime)
    requires IsValidTime(t) && 0 <= t.date.year <= 9999
    ensures ParseMinuteText(MinuteText(t)) == t.(second := 0, ms := 0)
  {
    var s := MinuteText(t);
    var y, mo, d := Digits(t.date.year, 4), Digits(t.date.month + 1, 2), Digits(t.date.day, 2);
    var h, mi := Digits(t.hour, 2), Digits(t.minute, 2);
    assert s == y + "-" + mo + "-" + d + "T" + h + ":" + mi;
    FieldsAt(y, mo, d, h, mi);
    assert Pow10(2) == 100 && Pow10(4) == 10000;
    DigitsRoundTrip(t.date.year, 4);
    DigitsRoundTrip(t.date.month + 1, 2);
    DigitsRoundTrip(t.date.day, 2);
    DigitsRoundTrip(t.hour, 2);
    DigitsRoundTrip(t.minute, 2);
  }

  /** The columns of a `YYYY-MM-DDTHH:mm` text hold its five fields. */
  lemma FieldsAt(y: string, mo: string, d: string, h: string, mi: string)
    requires |y| == 4 && |mo| == 2 && |d| == 2 && |h| == 2 && |mi| == 2
    ensures var s := y + "-" + mo + "-" + d + "T" + h + ":" + mi;
      s[0..4] == y && s[5..7] == mo && s[8..10] == d && s[11..13] == h && s[14..16] == mi
  {
  }

  /** A `Date` object: a local date-time its setters change in place. */
  class MutableDate {
    var value: DateTime

    /** `new Date(t)`: a copy of another date's instant. */
    constructor(t: DateTime)
      ensures value == t
    {
      value := t;
    }

    function GetHours(): int
      reads this
    {
      value.hour
    }

    /** `setMinutes(min, sec, ms)` with in-range fields: the same date and hour. */
    method SetMinutes(min: int, sec: int, msec: int)
      requires 0 <= min < 60 && 0 <= sec < 60 && 0 <= msec < 1000
      modifies this
      ensures value == old(value).(minute := min, second := sec, ms := msec)
    {
      value := value.(minute := min, second := sec, ms := msec);
    }

    /** `setHours(h)`: MakeTime with the new hour on the same day, so an hour past 23 (or
        below 0) carries into the following (or preceding) days. */
    method SetHours(h: int)
      requires IsValidTime(value)
      modifies this
      ensures value == ShiftMinutes(old(value), (h - old(value).hour) * 60)
    {
      value := ShiftMinutes(value, (h - value.hour) * 60);
    }
  }
}
