/**
  The calendar arithmetic of JavaScript's `Date` in local time: proleptic
  Gregorian dates, the normalisation that `new Date(y, m, d)`, `setDate` and
  `setMonth` apply to out-of-range months and days (the MakeDay operation of
  ECMAScript-262, section 21.4.1), the weekday `getDay()` and the ordering of
  time values used by `<=` on dates. Months count from 0, as `getMonth()` does.
  Time zones and daylight saving are not modelled: every day has 24 hours.
*/
module JsDate {

  predicate IsLeapYear(y: int) {
    y % 4 == 0 && (y % 100 != 0 || y % 400 == 0)
  }

  /** Number of days of month `m` (0 = January) in year `y`. */
  function DaysInMonth(y: int, m: int): (n: int)
    requires 0 <= m < 12
    ensures 28 <= n <= 31
    ensures n == 29 <==> m == 1 && IsLeapYear(y)
  {
    if m == 1 then (if IsLeapYear(y) then 29 else 28)
    else if m == 3 || m == 5 || m == 8 || m == 10 then 30
    else 31
  }

  /** A calendar date as `getFullYear()`, `getMonth()` and `getDate()` report it. */
  datatype Civil = Civil(year: int, month: int, day: int) {
    predicate Valid() {
      0 <= month < 12 && 1 <= day <= DaysInMonth(year, month)
    }
  }

  /** The month after, and the month before, month `m` of year `y`. */
  function FollowingMonth(y: int, m: int): (int, int)
    requires 0 <= m < 12
  {
    if m == 11 then (y + 1, 0) else (y, m + 1)
  }

  function PrecedingMonth(y: int, m: int): (int, int)
    requires 0 <= m < 12
  {
    if m == 0 then (y - 1, 11) else (y, m - 1)
  }

  function DaysInYear(y: int): int {
    if IsLeapYear(y) then 366 else 365
  }

  /** Leap years in [0, y) by the Gregorian rule (minus those in [y, 0) when y < 0). */
  function LeapYearsBefore(y: int): int {
    (y + 3) / 4 - (y + 99) / 100 + (y + 399) / 400
  }

  /** Days from 0000-01-01 to January 1 of year `y` (negative before year 0). */
  function DaysBeforeYear(y: int): int {
    365 * y + LeapYearsBefore(y)
  }

  /** Days from January 1 to the 1st of month `m` of year `y`. */
  function DaysBeforeMonth(y: int, m: int): int
    requires 0 <= m < 12
  {
    var common := [0, 31, 59, 90, 120, 151, 181, 212, 243, 273, 304, 334][m];
    if m >= 2 && IsLeapYear(y) then common + 1 else common
  }

  /**
    Days from 0000-01-01 to `c`. The day field may lie outside its month: the
    count is then that of the day `c.day - 1` days after the 1st of the month,
    which is how MakeDay reads an out-of-range day.
  */
  function DayNumber(c: Civil): int
    requires 0 <= c.month < 12
  {
    DaysBeforeYear(c.year) + DaysBeforeMonth(c.year, c.month) + c.day - 1
  }

  /** `getDay()`: 0 is Sunday, 6 is Saturday (0000-01-01 was a Saturday). */
  function Weekday(c: Civil): (w: int)
    requires 0 <= c.month < 12
    ensures 0 <= w < 7
  {
    (DayNumber(c) + 6) % 7
  }

  lemma LeapYearsStep(y: int)
    ensures LeapYearsBefore(y + 1) == LeapYearsBefore(y) + (if IsLeapYear(y) then 1 else 0)
  {
    DivStep(y, 4);
    DivStep(y, 100);
    DivStep(y, 400);
    DivisibilityChain(y);
  }

  lemma DivisibilityChain(y: int)
    ensures y % 400 == 0 ==> y % 100 == 0
    ensures y % 100 == 0 ==> y % 4 == 0
  {
    if y % 400 == 0 {
      var t := 4 * (y / 400);
      assert y == 100 * t;
      MultipleMod(y, t, 100);
    }
    if y % 100 == 0 {
      var t := 25 * (y / 100);
      assert y == 4 * t;
      MultipleMod(y, t, 4);
    }
  }

  lemma MultipleMod(y: int, t: int, k: int)
    requires k == 4 || k == 100
    requires y == k * t
    ensures y % k == 0
  {
    var d := y / k;
    if k == 4 {
      assert y == 4 * d + y % 4;
      assert 4 * (t - d) == y % 4;
    } else {
      assert y == 100 * d + y % 100;
      assert 100 * (t - d) == y % 100;
    }
  }

  /** Ceiling division advances exactly at multiples of `k`. */
  lemma DivStep(y: int, k: int)
    requires k == 4 || k == 100 || k == 400
    ensures (y + k) / k == (y + k - 1) / k + (if y % k == 0 then 1 else 0)
  {
    var q, r := y / k, y % k;
    if k == 4 {
      assert y == 4 * q + r && 0 <= r < 4;
      assert (y + k) / k == q + 1;
    } else if k == 100 {
      assert y == 100 * q + r && 0 <= r < 100;
      assert (y + k) / k == q + 1;
    } else {
      assert y == 400 * q + r && 0 <= r < 400;
      assert (y + k) / k == q + 1;
    }
  }

  /** A year is 365 days, plus one in a leap year. */
  lemma YearStep(y: int)
    ensures DaysBeforeYear(y + 1) == DaysBeforeYear(y) + DaysInYear(y)
  {
    LeapYearsStep(y);
  }

  /** The 1st of the next month lies `DaysInMonth` days after the 1st of this one. */
  lemma MonthLength(y: int, m: int)
    requires 0 <= m < 12
    ensures var (ny, nm) := FollowingMonth(y, m);
      DayNumber(Civil(ny, nm, 1)) == DayNumber(Civil(y, m, 1)) + DaysInMonth(y, m)
  {
    if m == 11 {
      YearStep(y);
    }
  }

  lemma {:induction false} DaysBeforeYearGrows(y1: int, y2: int)
    requires y1 <= y2
    ensures DaysBeforeYear(y1) + 365 * (y2 - y1) <= DaysBeforeYear(y2)
    decreases y2 - y1
  {
    if y1 < y2 {
      DaysBeforeYearGrows(y1, y2 - 1);
      YearStep(y2 - 1);
    }
  }

  /** A valid date's day number lies within its year, and within its month. */
  lemma DayNumberBounds(c: Civil)
    requires c.Valid()
    ensures DaysBeforeYear(c.year) <= DayNumber(c) < DaysBeforeYear(c.year + 1)
    ensures DayNumber(Civil(c.year, c.month, 1)) <= DayNumber(c)
      < DayNumber(Civil(c.year, c.month, 1)) + DaysInMonth(c.year, c.month)
  {
    YearStep(c.year);
  }

  /** Day numbers of valid dates follow the (year, month, day) order. */
  lemma DayNumberOrder(a: Civil, b: Civil)
    requires a.Valid() && b.Valid()
    requires a.year < b.year
      || (a.year == b.year && a.month < b.month)
      || (a.year == b.year && a.month == b.month && a.day < b.day)
    ensures DayNumber(a) < DayNumber(b)
  {
    DayNumberBounds(a);
    DayNumberBounds(b);
    if a.year < b.year {
      DaysBeforeYearGrows(a.year + 1, b.year);
    } else if a.month < b.month {
      MonthsOrder(a.year, a.month, b.month);
    }
  }

  lemma MonthsOrder(y: int, m1: int, m2: int)
    requires 0 <= m1 < m2 < 12
    ensures DaysBeforeMonth(y, m1) + DaysInMonth(y, m1) <= DaysBeforeMonth(y, m2)
  {
  }

  /** Two valid dates with the same day number are the same date. */
  lemma DayNumberInjective(a: Civil, b: Civil)
    requires a.Valid() && b.Valid()
    requires DayNumber(a) == DayNumber(b)
    ensures a == b
  {
    if a != b {
      if a.year < b.year || (a.year == b.year && a.month < b.month)
        || (a.year == b.year && a.month == b.month && a.day < b.day)
      {
        DayNumberOrder(a, b);
      } else {
        DayNumberOrder(b, a);
      }
    }
  }

  /**
    Normalises day `d` of month `m` of year `y` into a valid date, carrying
    one month at a time: a day below 1 borrows the length of the previous
    month, a day past the month's end moves into the next month.
  */
  function CarryDays(y: int, m: int, d: int): (c: Civil)
    requires 0 <= m < 12
    ensures c.Valid()
    ensures DayNumber(c) == DayNumber(Civil(y, m, d))
    decreases if d < 1 then 1 else 0, if d < 1 then 1 - d else d
  {
    if d < 1 then
      var (py, pm) := PrecedingMonth(y, m);
      MonthLength(py, pm);
      CarryDays(py, pm, d + DaysInMonth(py, pm))
    else if d > DaysInMonth(y, m) then
      var (ny, nm) := FollowingMonth(y, m);
      MonthLength(y, m);
      CarryDays(ny, nm, d - DaysInMonth(y, m))
    else
      Civil(y, m, d)
  }

  /**
    ECMAScript's MakeDay on a year, a month and a day, any of them out of
    range: the month carries into the year by floor division, then the day
    carries across months.
  */
  function MakeDay(y: int, m: int, d: int): (c: Civil)
    ensures c.Valid()
    ensures DayNumber(c) == DayNumber(Civil(y + m / 12, m % 12, d))
  {
    CarryDays(y + m / 12, m % 12, d)
  }

  /** The valid date with a given day number is unique, so MakeDay picks it. */
  lemma MakeDayUnique(y: int, m: int, d: int, c: Civil)
    requires c.Valid()
    requires DayNumber(c) == DayNumber(Civil(y + m / 12, m % 12, d))
    ensures MakeDay(y, m, d) == c
  {
    DayNumberInjective(MakeDay(y, m, d), c);
  }

  /** Month carry by floor division commutes with stepping to the next month. */
  lemma MonthCarry(y: int, m: int)
    ensures FollowingMonth(y + m / 12, m % 12) == (y + (m + 1) / 12, (m + 1) % 12)
  {
  }

  /** The 1st of a month, whatever the month overflow, is the 1st of the carried month. */
  lemma MakeDayFirst(y: int, m: int)
    ensures MakeDay(y, m, 1) == Civil(y + m / 12, m % 12, 1)
  {
    assert CarryDays(y + m / 12, m % 12, 1) == Civil(y + m / 12, m % 12, 1);
  }

  /** Day 0 of a month is the last day of the month before, whatever the month overflow. */
  lemma MakeDayZero(y: int, m: int)
    ensures var (py, pm) := PrecedingMonth(y + m / 12, m % 12);
      MakeDay(y, m, 0) == Civil(py, pm, DaysInMonth(py, pm))
  {
    var (py, pm) := PrecedingMonth(y + m / 12, m % 12);
    var last := DaysInMonth(py, pm);
    assert CarryDays(py, pm, last) == Civil(py, pm, last);
    assert CarryDays(y + m / 12, m % 12, 0) == CarryDays(py, pm, last);
  }

  /** A date and a local time of day, the fields a JavaScript `Date` reports. */
  datatype DateTime = DateTime(date: Civil, hours: int, minutes: int, seconds: int, millis: int) {
    predicate Valid() {
      date.Valid() && 0 <= hours < 24 && 0 <= minutes < 60 && 0 <= seconds < 60 && 0 <= millis < 1000
    }

    predicate IsMidnight() {
      hours == 0 && minutes == 0 && seconds == 0 && millis == 0
    }
  }

  /** Milliseconds since 0000-01-01 00:00, the quantity `<=` on two dates compares. */
  function TimeValue(t: DateTime): int
    requires 0 <= t.date.month < 12
  {
    DayNumber(t.date) * 86400000 + ((t.hours * 60 + t.minutes) * 60 + t.seconds) * 1000 + t.millis
  }

  /** On midnights, time values compare as day numbers do. */
  lemma MidnightOrder(a: DateTime, b: DateTime)
    requires a.Valid() && b.Valid() && a.IsMidnight() && b.IsMidnight()
    ensures TimeValue(a) <= TimeValue(b) <==> DayNumber(a.date) <= DayNumber(b.date)
  {
  }

  /** `new Date(y, ...)` reads a year from 0 to 99 as 1900 to 1999. */
  function MakeFullYear(y: int): (r: int)
    ensures 0 <= y <= 99 ==> r == 1900 + y
    ensures !(0 <= y <= 99) ==> r == y
  {
    if 0 <= y <= 99 then 1900 + y else y
  }

  /** `new Date(y, m, d)`: local midnight of the normalised date. */
  function NewDate(y: int, m: int, d: int): (t: DateTime)
    ensures t.Valid() && t.IsMidnight()
    ensures t.date == MakeDay(MakeFullYear(y), m, d)
  {
    DateTime(MakeDay(MakeFullYear(y), m, d), 0, 0, 0, 0)
  }

  /**
    `t.setDate(d)`: the date `d - 1` days after the 1st of `t`'s month,
    normalised into a valid date; the time of day is kept.
  */
  function SetDate(t: DateTime, d: int): (r: DateTime)
    ensures r.date.Valid()
    ensures (r.hours, r.minutes, r.seconds, r.millis) == (t.hours, t.minutes, t.seconds, t.millis)
    ensures t.Valid() ==> r.Valid()
    ensures 0 <= t.date.month < 12 ==>
      DayNumber(r.date) == DayNumber(Civil(t.date.year, t.date.month, 1)) + d - 1
  {
    assert 0 <= t.date.month < 12 ==> t.date.month / 12 == 0 && t.date.month % 12 == t.date.month;
    t.(date := MakeDay(t.date.year, t.date.month, d))
  }

  /**
    `t.setMonth(m)`: the month `m` carries into the year by floor division,
    and `t`'s day is counted from the 1st of that month and normalised into
    a valid date; the time of day is kept.
  */
  function SetMonth(t: DateTime, m: int): (r: DateTime)
    ensures r.date.Valid()
    ensures (r.hours, r.minutes, r.seconds, r.millis) == (t.hours, t.minutes, t.seconds, t.millis)
    ensures t.Valid() ==> r.Valid()
    ensures DayNumber(r.date) == DayNumber(Civil(t.date.year + m / 12, m % 12, 1)) + t.date.day - 1
  {
    t.(date := MakeDay(t.date.year, m, t.date.day))
  }

  /** `t.setHours(0, 0, 0, 0)`. */
  function StartOfDay(t: DateTime): (r: DateTime)
    ensures r.IsMidnight() && r.date == t.date
  {
    t.(hours := 0, minutes := 0, seconds := 0, millis := 0)
  }

  /** `t.setDate(t.getDate() + k)` moves a valid date `k` days on. */
  lemma AddDays(t: DateTime, k: int)
    requires t.Valid()
    ensures SetDate(t, t.date.day + k).Valid()
    ensures DayNumber(SetDate(t, t.date.day + k).date) == DayNumber(t.date) + k
    ensures SetDate(t, t.date.day + k).hours == t.hours
  {
    assert t.date.month / 12 == 0 && t.date.month % 12 == t.date.month;
  }

  /** A date seven days after a Sunday is a Sunday. */
  lemma WeekLater(a: Civil, b: Civil)
    requires 0 <= a.month < 12 && 0 <= b.month < 12
    requires Weekday(a) == 0 && DayNumber(b) == DayNumber(a) + 7
    ensures Weekday(b) == 0
  {
    SundayArithmetic(DayNumber(a), DayNumber(b), 1);
  }

  /** Going back `Weekday(c)` days from `c`, then on by whole weeks, lands on a Sunday. */
  lemma BackToSunday(c: Civil, d: Civil, k: int)
    requires 0 <= c.month < 12 && 0 <= d.month < 12
    requires DayNumber(d) == DayNumber(c) - Weekday(c) + 7 * k
    ensures Weekday(d) == 0
  {
    SundayArithmetic(DayNumber(c) - Weekday(c), DayNumber(d), k);
    BackToSundayArithmetic(DayNumber(c));
  }

  lemma SundayArithmetic(n: int, n': int, k: int)
    requires n' == n + 7 * k
    ensures (n + 6) % 7 == 0 ==> (n' + 6) % 7 == 0
  {
    var q := (n + 6) / 7;
    assert n + 6 == 7 * q + (n + 6) % 7;
    assert n' + 6 == 7 * (q + k) + (n + 6) % 7;
  }

  lemma BackToSundayArithmetic(n: int)
    ensures (n - (n + 6) % 7 + 6) % 7 == 0
  {
    var q := (n + 6) / 7;
    assert n + 6 == 7 * q + (n + 6) % 7;
    assert n - (n + 6) % 7 + 6 == 7 * q;
  }

  /** Cell `p` of a seven-column grid is in row `p / 7` and column `p % 7`. */
  lemma Columns(p: int)
    ensures p == 7 * (p / 7) + p % 7 && 0 <= p % 7 < 7
  {
  }

  lemma EpochIsThursday()
    ensures Weekday(Civil(1970, 0, 1)) == 4
  {
  }
}
