/**
  The month view of `features/calendar/calendar.component.ts`: a grid of
  weeks from the Sunday on or before the 1st of the month, the month
  navigation, and the "today" and "current month" tests. The current time is
  a parameter (`today`) instead of `new Date()`.
*/
module Calendar {
  import opened JsDate

  /** The 1st of the month `new Date(y, m, 1)` lands in, for `date`'s year `y` and month `m`. */
  function FirstOfMonth(date: DateTime): (c: Civil)
    ensures c.Valid() && c.day == 1
  {
    var y, m := MakeFullYear(date.date.year), date.date.month;
    Civil(y + m / 12, m % 12, 1)
  }

  /** The number of days of that month, and its last day. */
  function LengthOfMonth(date: DateTime): (n: int)
    ensures 28 <= n <= 31
  {
    var first := FirstOfMonth(date);
    DaysInMonth(first.year, first.month)
  }

  function LastOfMonth(date: DateTime): (c: Civil)
    ensures c.Valid()
  {
    var first := FirstOfMonth(date);
    Civil(first.year, first.month, LengthOfMonth(date))
  }

  /** The weekday of the 1st: how many cells of the first row precede it. */
  function Lead(date: DateTime): (w: int)
    ensures 0 <= w < 7
  {
    Weekday(FirstOfMonth(date))
  }

  /** The day number of the first grid cell: the Sunday on or before the 1st. */
  function GridStart(date: DateTime): int {
    DayNumber(FirstOfMonth(date)) - Lead(date)
  }

  /** `start` and `end` of `generateCalendar` are the month's first and last days at midnight. */
  lemma MonthBounds(date: DateTime)
    ensures NewDate(date.date.year, date.date.month, 1).date == FirstOfMonth(date)
    ensures NewDate(date.date.year, date.date.month + 1, 0).date == LastOfMonth(date)
  {
    var y, m := MakeFullYear(date.date.year), date.date.month;
    MakeDayFirst(y, m);
    MakeDayZero(y, m + 1);
    MonthCarry(y, m);
  }

  /** Seven valid midnights on consecutive days from day number `base`. */
  ghost predicate IsRow(row: seq<DateTime>, base: int) {
    |row| == 7 &&
    forall c :: 0 <= c < 7 ==>
      row[c].Valid() && row[c].IsMidnight() && DayNumber(row[c].date) == base + c
  }

  /**
    The grid `generateCalendar` builds for the month of `date`: row `r` holds
    the seven days from `GridStart + 7 * r`, and the last row is the first one
    that reaches the month's last day (the `Lead + LengthOfMonth - 1`-th cell).
  */
  ghost predicate IsMonthGrid(weeks: seq<seq<DateTime>>, date: DateTime) {
    var s := GridStart(date);
    && (forall r :: 0 <= r < |weeks| ==> IsRow(weeks[r], s + 7 * r))
    && 7 * (|weeks| - 1) <= Lead(date) + LengthOfMonth(date) - 1 < 7 * |weeks|
  }

  /** `generateCalendar`'s loop, which builds the weeks of `date`'s month. */
  method BuildWeeks(date: DateTime) returns (weeks: seq<seq<DateTime>>)
    ensures IsMonthGrid(weeks, date)
  {
    var start := NewDate(date.date.year, date.date.month, 1);
    var end := NewDate(date.date.year, date.date.month + 1, 0);
    MonthBounds(date);
    ghost var s := GridStart(date);
    ghost var cells := Lead(date) + LengthOfMonth(date);
    assert DayNumber(end.date) == s + cells - 1;
    weeks := [];
    var current := start;
    AddDays(current, -Weekday(current.date));
    current := SetDate(current, current.date.day - Weekday(current.date));
    assert DayNumber(current.date) == s;
    BackToSunday(start.date, current.date, 0);
    while TimeValue(current) <= TimeValue(end) || Weekday(current.date) != 0
      invariant current.Valid() && current.IsMidnight()
      invariant DayNumber(current.date) == s + 7 * |weeks|
      invariant Weekday(current.date) == 0
      invariant 7 * (|weeks| - 1) <= cells - 1
      invariant forall r :: 0 <= r < |weeks| ==> IsRow(weeks[r], s + 7 * r)
      decreases cells + 7 - 7 * |weeks|
    {
      MidnightOrder(current, end);
      ghost var head := current;
      var week: seq<DateTime> := [];
      for i := 0 to 7
        invariant |week| == i
        invariant current.Valid() && current.IsMidnight()
        invariant DayNumber(current.date) == s + 7 * |weeks| + i
        invariant forall c :: 0 <= c < i ==>
          week[c].Valid() && week[c].IsMidnight() && DayNumber(week[c].date) == s + 7 * |weeks| + c
      {
        week := week + [current];
        ghost var prev := current;
        current := SetDate(current, current.date.day + 1);
        AddDays(prev, 1);
        assert DayNumber(current.date) == DayNumber(prev.date) + 1;
      }
      WeekLater(head.date, current.date);
      weeks := weeks + [week];
    }
    MidnightOrder(current, end);
  }

  /**
    The shape of every month grid: 4 to 6 rows, each starting on a Sunday,
    consecutive across row ends; the first cell is the Sunday on or before the
    1st and the last row holds the month's last day.
  */
  lemma GridShape(weeks: seq<seq<DateTime>>, date: DateTime)
    requires IsMonthGrid(weeks, date)
    ensures 4 <= |weeks| <= 6
    ensures forall r :: 0 <= r < |weeks| ==> |weeks[r]| == 7 && Weekday(weeks[r][0].date) == 0
    ensures forall r :: 0 <= r < |weeks| - 1 ==>
      DayNumber(weeks[r + 1][0].date) == DayNumber(weeks[r][6].date) + 1
    ensures DayNumber(FirstOfMonth(date)) - 6 <= DayNumber(weeks[0][0].date) <= DayNumber(FirstOfMonth(date))
    ensures DayNumber(weeks[|weeks| - 1][0].date) <= DayNumber(LastOfMonth(date))
      <= DayNumber(weeks[|weeks| - 1][6].date)
  {
    var s := GridStart(date);
    forall r | 0 <= r < |weeks|
      ensures Weekday(weeks[r][0].date) == 0
    {
      assert IsRow(weeks[r], s + 7 * r);
      BackToSunday(FirstOfMonth(date), weeks[r][0].date, r);
    }
    assert IsRow(weeks[0], s);
    assert IsRow(weeks[|weeks| - 1], s + 7 * (|weeks| - 1));
  }

  /** Day `k` of the month sits in cell `Lead + k - 1`, counted row by row from the start. */
  lemma GridCoversMonth(weeks: seq<seq<DateTime>>, date: DateTime, k: int)
    requires IsMonthGrid(weeks, date)
    requires 1 <= k <= LengthOfMonth(date)
    ensures var p := Lead(date) + k - 1;
      p / 7 < |weeks| && weeks[p / 7][p % 7].date == Civil(FirstOfMonth(date).year, FirstOfMonth(date).month, k)
  {
    var first := FirstOfMonth(date);
    var p := Lead(date) + k - 1;
    var r, c := p / 7, p % 7;
    Columns(p);
    assert p < 7 * |weeks|;
    assert r < |weeks|;
    assert IsRow(weeks[r], GridStart(date) + 7 * r);
    var g := weeks[r][c].date;
    assert g.Valid() && DayNumber(g) == DayNumber(first) + k - 1;
    DayNumberInjective(g, Civil(first.year, first.month, k));
  }

  /** Different cells hold different dates, so every day of the month appears exactly once. */
  lemma GridDistinct(weeks: seq<seq<DateTime>>, date: DateTime, r1: int, c1: int, r2: int, c2: int)
    requires IsMonthGrid(weeks, date)
    requires 0 <= r1 < |weeks| && 0 <= c1 < 7 && 0 <= r2 < |weeks| && 0 <= c2 < 7
    requires (r1, c1) != (r2, c2)
    ensures weeks[r1][c1].date != weeks[r2][c2].date
  {
    var s := GridStart(date);
    assert IsRow(weeks[r1], s + 7 * r1) && IsRow(weeks[r2], s + 7 * r2);
    var d1, d2 := DayNumber(weeks[r1][c1].date), DayNumber(weeks[r2][c2].date);
    assert d1 == s + 7 * r1 + c1 && d2 == s + 7 * r2 + c2;
    if r1 < r2 {
      assert d1 < d2;
    } else if r2 < r1 {
      assert d2 < d1;
    }
  }

  /** `IsMonthGrid` determines the weeks: `generateCalendar` has exactly one possible result. */
  lemma GridUnique(w1: seq<seq<DateTime>>, w2: seq<seq<DateTime>>, date: DateTime)
    requires IsMonthGrid(w1, date) && IsMonthGrid(w2, date)
    ensures w1 == w2
  {
    var s := GridStart(date);
    assert |w1| == |w2|;
    forall r | 0 <= r < |w1|
      ensures w1[r] == w2[r]
    {
      assert IsRow(w1[r], s + 7 * r) && IsRow(w2[r], s + 7 * r);
      forall c | 0 <= c < 7
        ensures w1[r][c] == w2[r][c]
      {
        DayNumberInjective(w1[r][c].date, w2[r][c].date);
      }
    }
  }

  /** `isToday`: the same day, month and year as `today`, whatever the time of day. */
  function IsToday(date: DateTime, today: DateTime): (b: bool)
    ensures b <==> date.date == today.date
  {
    date.date.day == today.date.day && date.date.month == today.date.month
      && date.date.year == today.date.year
  }

  /**
    `isCurrentMonth`: the same month and year as `currentDate`; for valid
    dates, that is falling between the 1st and the last day of its month.
  */
  function IsCurrentMonth(date: DateTime, currentDate: DateTime): (b: bool)
    ensures date.Valid() && currentDate.Valid() ==>
      var (y, m) := (currentDate.date.year, currentDate.date.month);
      (b <==> DayNumber(Civil(y, m, 1)) <= DayNumber(date.date) < DayNumber(Civil(y, m, 1)) + DaysInMonth(y, m))
  {
    MonthSpan(date.date, currentDate.date.year, currentDate.date.month);
    date.date.month == currentDate.date.month && date.date.year == currentDate.date.year
  }

  /** A valid date lies in month `m` of year `y` exactly when its day number lies in that month's span. */
  lemma MonthSpan(c: Civil, y: int, m: int)
    ensures c.Valid() && 0 <= m < 12 ==>
      (c.year == y && c.month == m <==>
       DayNumber(Civil(y, m, 1)) <= DayNumber(c) < DayNumber(Civil(y, m, 1)) + DaysInMonth(y, m))
  {
    if c.Valid() && 0 <= m < 12 {
      DayNumberBounds(c);
      var first := DayNumber(Civil(y, m, 1));
      if first <= DayNumber(c) < first + DaysInMonth(y, m) {
        var k := DayNumber(c) - first + 1;
        DayNumberInjective(c, Civil(y, m, k));
      }
    }
  }

  /** For a valid date outside the years 0 to 99, the grid's month is the date's own. */
  lemma OwnMonth(date: DateTime)
    requires date.Valid() && !(0 <= date.date.year <= 99)
    ensures FirstOfMonth(date) == Civil(date.date.year, date.date.month, 1)
  {
  }

  /**
    For a valid `currentDate` outside the years 0 to 99, the grid cells of the
    current month are exactly the contiguous block of `LengthOfMonth` cells
    starting at cell `Lead`.
  */
  lemma CurrentMonthCells(weeks: seq<seq<DateTime>>, currentDate: DateTime, r: int, c: int)
    requires IsMonthGrid(weeks, currentDate)
    requires currentDate.Valid() && !(0 <= currentDate.date.year <= 99)
    requires 0 <= r < |weeks| && 0 <= c < 7
    ensures IsCurrentMonth(weeks[r][c], currentDate)
      <==> Lead(currentDate) <= 7 * r + c < Lead(currentDate) + LengthOfMonth(currentDate)
  {
    var first := FirstOfMonth(currentDate);
    OwnMonth(currentDate);
    var g := weeks[r][c].date;
    assert IsRow(weeks[r], GridStart(currentDate) + 7 * r);
    var p := 7 * r + c;
    assert DayNumber(g) == DayNumber(first) + p - Lead(currentDate);
    if Lead(currentDate) <= p < Lead(currentDate) + LengthOfMonth(currentDate) {
      DayNumberInjective(g, Civil(first.year, first.month, p - Lead(currentDate) + 1));
    } else if g.year == first.year && g.month == first.month {
      DayNumberBounds(g);
    }
  }

  /** At most one grid cell is today, and when today lies in the grid's month, exactly one is. */
  lemma TodayCell(weeks: seq<seq<DateTime>>, currentDate: DateTime, today: DateTime)
    requires IsMonthGrid(weeks, currentDate)
    requires currentDate.Valid() && !(0 <= currentDate.date.year <= 99)
    ensures forall r1, c1, r2, c2 ::
      (0 <= r1 < |weeks| && 0 <= c1 < 7 && 0 <= r2 < |weeks| && 0 <= c2 < 7
       && IsToday(weeks[r1][c1], today) && IsToday(weeks[r2][c2], today)) ==> r1 == r2 && c1 == c2
    ensures today.Valid() && IsCurrentMonth(today, currentDate) ==>
      exists r, c :: 0 <= r < |weeks| && 0 <= c < 7 && IsToday(weeks[r][c], today)
  {
    forall r1, c1, r2, c2 |
      0 <= r1 < |weeks| && 0 <= c1 < 7 && 0 <= r2 < |weeks| && 0 <= c2 < 7
      && IsToday(weeks[r1][c1], today) && IsToday(weeks[r2][c2], today)
      ensures r1 == r2 && c1 == c2
    {
      if (r1, c1) != (r2, c2) {
        GridDistinct(weeks, currentDate, r1, c1, r2, c2);
      }
    }
    if today.Valid() && IsCurrentMonth(today, currentDate) {
      OwnMonth(currentDate);
      GridCoversMonth(weeks, currentDate, today.date.day);
      var p := Lead(currentDate) + today.date.day - 1;
      assert IsToday(weeks[p / 7][p % 7], today);
    }
  }

  /**
    `nextMonth` and `prevMonth` move to the 1st of the following or the
    preceding month, carrying the year, for a valid date whose target year is
    not read as a two-digit year by `new Date`.
  */
  lemma MonthNavigation(date: DateTime)
    requires date.Valid() && !(0 <= date.date.year <= 99)
    ensures var (ny, nm) := FollowingMonth(date.date.year, date.date.month);
      NewDate(date.date.year, date.date.month + 1, 1).date == Civil(ny, nm, 1)
    ensures var (py, pm) := PrecedingMonth(date.date.year, date.date.month);
      NewDate(date.date.year, date.date.month - 1, 1).date == Civil(py, pm, 1)
  {
    var y, m := date.date.year, date.date.month;
    MakeDayFirst(y, m + 1);
    MakeDayFirst(y, m - 1);
    if m == 11 {
      assert (m + 1) / 12 == 1 && (m + 1) % 12 == 0;
    } else {
      assert (m + 1) / 12 == 0 && (m + 1) % 12 == m + 1;
    }
    if m == 0 {
      assert (m - 1) / 12 == -1 && (m - 1) % 12 == 11;
    } else {
      assert (m - 1) / 12 == 0 && (m - 1) % 12 == m - 1;
    }
  }

  /** `new Date(99, 10, 1)` is November 1999, so `prevMonth` from December of year 99 jumps to 1999. */
  lemma TwoDigitYear()
    ensures NewDate(99, 11 - 1, 1).date == Civil(1999, 10, 1)
  {
    MakeDayFirst(1999, 10);
  }

  /** The calendar component: the displayed month and its grid of weeks. */
  class CalendarComponent {
    var currentDate: DateTime
    var weeks: seq<seq<DateTime>>

    /** `currentDate` starts at the current time `now`, `weeks` empty until `ngOnInit`. */
    constructor (now: DateTime)
      ensures currentDate == now && weeks == []
    {
      currentDate := now;
      weeks := [];
    }

    /** `generateCalendar` (also what `ngOnInit` runs). */
    method GenerateCalendar()
      modifies this`weeks
      ensures IsMonthGrid(weeks, currentDate)
    {
      var grid := BuildWeeks(currentDate);
      weeks := grid;
    }

    method NextMonth()
      modifies this
      ensures currentDate == NewDate(old(currentDate).date.year, old(currentDate).date.month + 1, 1)
      ensures IsMonthGrid(weeks, currentDate)
    {
      var date := currentDate;
      currentDate := NewDate(date.date.year, date.date.month + 1, 1);
      GenerateCalendar();
    }

    method PrevMonth()
      modifies this
      ensures currentDate == NewDate(old(currentDate).date.year, old(currentDate).date.month - 1, 1)
      ensures IsMonthGrid(weeks, currentDate)
    {
      var date := currentDate;
      currentDate := NewDate(date.date.year, date.date.month - 1, 1);
      GenerateCalendar();
    }
  }
}
