/**
  The two month helpers of `core/utils/date.utils.ts`. Each copies its
  argument and changes the copy step by step; here the copy is a local
  `DateTime` value and every JavaScript setter is one reassignment.
*/
module DateUtils {
  import opened JsDate

  /** `getFirstDayOfMonth`: the 1st of the argument's month at 00:00:00.000. */
  method GetFirstDayOfMonth(date: DateTime) returns (firstDay: DateTime)
    requires date.Valid()
    ensures firstDay.Valid() && firstDay.IsMidnight()
    ensures firstDay.date == Civil(date.date.year, date.date.month, 1)
  {
    firstDay := date;
    firstDay := SetDate(firstDay, 1);
    firstDay := StartOfDay(firstDay);
    MakeDayFirst(date.date.year, date.date.month);
    assert date.date.month / 12 == 0 && date.date.month % 12 == date.date.month;
  }

  /** The last day of month `m` of year `y`. */
  function LastDayOf(y: int, m: int): (c: Civil)
    requires 0 <= m < 12
    ensures c.Valid()
  {
    Civil(y, m, DaysInMonth(y, m))
  }

  /**
    What `getLastDayOfMonth` returns for a valid date `c`: the last day of
    `c`'s month when `c.day` fits into the next month, and the last day of the
    next month otherwise.
  */
  function LastDayResult(c: Civil): (r: Civil)
    requires c.Valid()
    ensures r.Valid() && r.day == DaysInMonth(r.year, r.month)
  {
    var (ny, nm) := FollowingMonth(c.year, c.month);
    if c.day <= DaysInMonth(ny, nm) then LastDayOf(c.year, c.month) else LastDayOf(ny, nm)
  }

  /**
    `getLastDayOfMonth`: `setMonth(getMonth() + 1)` keeps the day, so a day
    past the end of the next month first overflows into the month after it;
    `setDate(0)` then steps back to the last day of the month before.
  */
  method GetLastDayOfMonth(date: DateTime) returns (lastDay: DateTime)
    requires date.Valid()
    ensures lastDay.Valid() && lastDay.IsMidnight()
    ensures lastDay.date == LastDayResult(date.date)
  {
    ghost var (ny, nm) := FollowingMonth(date.date.year, date.date.month);
    ghost var (ay, am) := FollowingMonth(ny, nm);
    lastDay := date;
    lastDay := SetMonth(lastDay, lastDay.date.month + 1);
    NextMonthSameDay(date.date);
    ghost var moved := lastDay.date;
    assert moved.Valid();
    lastDay := SetDate(lastDay, 0);
    DayZero(moved);
    ghost var (py, pm) := PrecedingMonth(moved.year, moved.month);
    assert lastDay.date == LastDayOf(py, pm);
    lastDay := StartOfDay(lastDay);
    if date.date.day <= DaysInMonth(ny, nm) {
      assert moved == Civil(ny, nm, date.date.day);
      assert (py, pm) == (date.date.year, date.date.month);
    } else {
      assert moved == Civil(ay, am, date.date.day - DaysInMonth(ny, nm));
      assert (py, pm) == (ny, nm);
    }
  }

  /** `setMonth(m + 1)` on day `d` of a valid date: day `d` of the next month, or its overflow. */
  lemma NextMonthSameDay(c: Civil)
    requires c.Valid()
    ensures var (ny, nm) := FollowingMonth(c.year, c.month);
      var (ay, am) := FollowingMonth(ny, nm);
      MakeDay(c.year, c.month + 1, c.day)
        == if c.day <= DaysInMonth(ny, nm) then Civil(ny, nm, c.day)
           else Civil(ay, am, c.day - DaysInMonth(ny, nm))
  {
    var (ny, nm) := FollowingMonth(c.year, c.month);
    MonthCarry(c.year, c.month);
    assert c.month / 12 == 0 && c.month % 12 == c.month;
    assert MakeDay(c.year, c.month + 1, c.day) == CarryDays(ny, nm, c.day);
    if c.day > DaysInMonth(ny, nm) {
      var (ay, am) := FollowingMonth(ny, nm);
      var e := c.day - DaysInMonth(ny, nm);
      assert CarryDays(ay, am, e) == Civil(ay, am, e);
      assert CarryDays(ny, nm, c.day) == CarryDays(ay, am, e);
    }
  }

  /** `setDate(0)` on a valid date: the last day of the month before. */
  lemma DayZero(c: Civil)
    requires c.Valid()
    ensures var (py, pm) := PrecedingMonth(c.year, c.month);
      MakeDay(c.year, c.month, 0) == LastDayOf(py, pm)
  {
    MakeDayZero(c.year, c.month);
    assert c.month / 12 == 0 && c.month % 12 == c.month;
  }

  /** Whenever the day fits into the next month, the result is the last day of the argument's month. */
  lemma LastDayOfOwnMonth(c: Civil)
    requires c.Valid()
    ensures var (ny, nm) := FollowingMonth(c.year, c.month);
      LastDayResult(c) == LastDayOf(c.year, c.month) <==> c.day <= DaysInMonth(ny, nm)
  {
  }

  /** In December the month carries into January of the next year, and the result is December 31. */
  lemma DecemberCarriesYear(c: Civil)
    requires c.Valid() && c.month == 11
    ensures LastDayResult(c) == Civil(c.year, 11, 31)
  {
  }

  /** January 31 overflows past February: the result is the end of February. */
  lemma JanuaryOverflow()
    ensures LastDayResult(Civil(2023, 0, 31)) == Civil(2023, 1, 28)
    ensures LastDayResult(Civil(2024, 0, 31)) == Civil(2024, 1, 29)
    ensures LastDayResult(Civil(2024, 0, 29)) == Civil(2024, 0, 31)
    ensures LastDayResult(Civil(2024, 2, 31)) == Civil(2024, 3, 30)
  {
  }
}
