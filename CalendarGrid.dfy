/**
  The appointment scheduling grid (`calendar-grid.component.ts`): which
  appointments occupy a cell, the colour class of a status, the highlight
  of the current hour and of today, and the single action a click on a
  cell triggers. The component's inputs are the record `Grid`; the
  rendering of a `Date` as text (`toISOString`), the part of it used as
  the cell's date key, and the current time are parameters.
*/
module CalendarGrid {
  import opened Wrappers
  import opened JsDate
  import opened DateText
  import opened Filtering
  import opened AppointmentStatus
  import Calendar
  import opened Doctors

  /** The fields of an appointment the grid reads; `doctor` may be missing. */
  datatype Appointment = Appointment(id: int, date: string, time: string, doctor: Option<Doctor>, status: string)

  /** The component's inputs `appointments`, `doctors` and `isWeekMode`. */
  datatype Grid = Grid(appointments: seq<Appointment>, doctors: seq<Doctor>, isWeekMode: bool)

  /** `s.slice(0, 2)`: the first two characters, or all of a shorter string. */
  function Prefix2(s: string): (r: string)
    ensures r <= s
    ensures |r| == if |s| < 2 then |s| else 2
  {
    if |s| <= 2 then s else s[..2]
  }

  /** `this.doctors()[doctorIndex]?.id`: undefined when the index lies outside the list. */
  function ColumnDoctorId(doctors: seq<Doctor>, doctorIndex: int): (r: Option<int>)
    ensures r.Some? <==> 0 <= doctorIndex < |doctors|
    ensures r.Some? ==> r.value == doctors[doctorIndex].id
  {
    if 0 <= doctorIndex < |doctors| then Some(doctors[doctorIndex].id) else None
  }

  /** `apt.doctor?.id`. */
  function DoctorIdOf(apt: Appointment): Option<int> {
    if apt.doctor.Some? then Some(apt.doctor.value.id) else None
  }

  /** The filter callback of `getAppointmentsForSlot`. */
  predicate InSlot(apt: Appointment, dateStr: string, time: string, doctorId: Option<int>, isWeekMode: bool) {
    && dateStr == apt.date
    && Prefix2(apt.time) == Prefix2(time)
    && (isWeekMode || DoctorIdOf(apt) == doctorId)
  }

  /**
    `getAppointmentsForSlot(date, time, doctorIndex)`: the appointments of
    the cell, in input order. `dateKey(date)` is the calendar-date part of
    `date.toISOString()`.
  */
  function AppointmentsForSlot(grid: Grid, dateKey: DateTime -> string, date: DateTime, time: string, doctorIndex: int)
    : (r: seq<Appointment>)
    ensures forall a :: a in r <==>
      && a in grid.appointments
      && a.date == dateKey(date)
      && Prefix2(a.time) == Prefix2(time)
      && (grid.isWeekMode || DoctorIdOf(a) == ColumnDoctorId(grid.doctors, doctorIndex))
  {
    var dateStr := dateKey(date);
    var doctorId := ColumnDoctorId(grid.doctors, doctorIndex);
    Filter(grid.appointments, apt => InSlot(apt, dateStr, time, doctorId, grid.isWeekMode))
  }

  /**
    The slot keeps the input order and every copy of a matching appointment,
    and no other sequence with these two properties exists.
  */
  lemma SlotIsStableFilter(grid: Grid, dateKey: DateTime -> string, date: DateTime, time: string, doctorIndex: int)
    ensures var r := AppointmentsForSlot(grid, dateKey, date, time, doctorIndex);
      var doctorId := ColumnDoctorId(grid.doctors, doctorIndex);
      && IsSubsequence(r, grid.appointments)
      && forall a :: multiset(r)[a] ==
           if InSlot(a, dateKey(date), time, doctorId, grid.isWeekMode) then multiset(grid.appointments)[a] else 0
    ensures forall r' ::
      var doctorId := ColumnDoctorId(grid.doctors, doctorIndex);
      IsSubsequence(r', grid.appointments)
      && (forall a :: multiset(r')[a] ==
            if InSlot(a, dateKey(date), time, doctorId, grid.isWeekMode) then multiset(grid.appointments)[a] else 0)
      ==> r' == AppointmentsForSlot(grid, dateKey, date, time, doctorIndex)
  {
    var dateStr := dateKey(date);
    var doctorId := ColumnDoctorId(grid.doctors, doctorIndex);
    var p := apt => InSlot(apt, dateStr, time, doctorId, grid.isWeekMode);
    FilterIsSubsequence(grid.appointments, p);
    forall r' |
      IsSubsequence(r', grid.appointments)
      && (forall a :: multiset(r')[a] ==
            if InSlot(a, dateStr, time, doctorId, grid.isWeekMode) then multiset(grid.appointments)[a] else 0)
      ensures r' == AppointmentsForSlot(grid, dateKey, date, time, doctorIndex)
    {
      FilterUnique(r', grid.appointments, p);
    }
  }

  /** Only the first two characters of the slot label matter: "09:00" and "09:30" name the same slot. */
  lemma SlotMinutesIgnored(grid: Grid, dateKey: DateTime -> string, date: DateTime, t1: string, t2: string, doctorIndex: int)
    requires Prefix2(t1) == Prefix2(t2)
    ensures AppointmentsForSlot(grid, dateKey, date, t1, doctorIndex)
         == AppointmentsForSlot(grid, dateKey, date, t2, doctorIndex)
  {
    var dateStr := dateKey(date);
    var doctorId := ColumnDoctorId(grid.doctors, doctorIndex);
    FilterCongruent(grid.appointments,
      apt => InSlot(apt, dateStr, t1, doctorId, grid.isWeekMode),
      apt => InSlot(apt, dateStr, t2, doctorId, grid.isWeekMode));
  }

  /**
    Two appointments of the same day and doctor whose times agree in their
    first two characters ("09:05" and "09:40") lie in exactly the same cells.
  */
  lemma SameHourSameCells(grid: Grid, a: Appointment, b: Appointment, dateKey: DateTime -> string,
                          date: DateTime, time: string, doctorIndex: int)
    requires a in grid.appointments && b in grid.appointments
    requires a.date == b.date && a.doctor == b.doctor && Prefix2(a.time) == Prefix2(b.time)
    ensures a in AppointmentsForSlot(grid, dateKey, date, time, doctorIndex)
        <==> b in AppointmentsForSlot(grid, dateKey, date, time, doctorIndex)
  {
  }

  /** In week mode the doctor list and the column index play no part. */
  lemma WeekModeIgnoresDoctors(appointments: seq<Appointment>, d1: seq<Doctor>, d2: seq<Doctor>,
                               dateKey: DateTime -> string, date: DateTime, time: string, i1: int, i2: int)
    ensures AppointmentsForSlot(Grid(appointments, d1, true), dateKey, date, time, i1)
         == AppointmentsForSlot(Grid(appointments, d2, true), dateKey, date, time, i2)
  {
    var dateStr := dateKey(date);
    FilterCongruent(appointments,
      apt => InSlot(apt, dateStr, time, ColumnDoctorId(d1, i1), true),
      apt => InSlot(apt, dateStr, time, ColumnDoctorId(d2, i2), true));
  }

  /** In day mode a column inside the doctor list holds that doctor's appointments. */
  lemma DayModeColumn(grid: Grid, dateKey: DateTime -> string, date: DateTime, time: string, doctorIndex: int)
    requires !grid.isWeekMode && 0 <= doctorIndex < |grid.doctors|
    ensures forall a :: a in AppointmentsForSlot(grid, dateKey, date, time, doctorIndex) <==>
      && a in grid.appointments && a.date == dateKey(date) && Prefix2(a.time) == Prefix2(time)
      && a.doctor.Some? && a.doctor.value.id == grid.doctors[doctorIndex].id
  {
  }

  /**
    In day mode a column index outside the doctor list compares against
    `undefined`, so it holds exactly the appointments of that date and hour
    that have no doctor.
  */
  lemma OutOfRangeColumn(grid: Grid, dateKey: DateTime -> string, date: DateTime, time: string, doctorIndex: int)
    requires !grid.isWeekMode && !(0 <= doctorIndex < |grid.doctors|)
    ensures forall a :: a in AppointmentsForSlot(grid, dateKey, date, time, doctorIndex) <==>
      && a in grid.appointments && a.date == dateKey(date) && Prefix2(a.time) == Prefix2(time)
      && a.doctor == None
  {
  }

  const GreenClass: string := "bg-green-100 border-green-200 text-green-800"
  const RedClass: string := "bg-red-100 border-red-200 text-red-800"
  const BlueClass: string := "bg-blue-100 border-blue-200 text-blue-800"
  const YellowClass: string := "bg-yellow-100 border-yellow-200 text-yellow-800"
  const PinkClass: string := "bg-pink-100 border-pink-200 text-pink-800"

  /** `getAppointmentColor`: the colour classes of a status; scheduled and unknown statuses are blue. */
  function AppointmentColor(status: string): (c: string)
    ensures c == BlueClass <==> Classify(status) == Info
  {
    if status == Completed then GreenClass
    else if status == Cancelled then RedClass
    else if status == Scheduled then BlueClass
    else if status == Temporary then YellowClass
    else if status == CancelledForever then PinkClass
    else BlueClass
  }

  /** Two statuses share a colour exactly when they share a category: five colours for five categories. */
  lemma ColorsFollowCategories(s1: string, s2: string)
    ensures AppointmentColor(s1) == AppointmentColor(s2) <==> Classify(s1) == Classify(s2)
  {
    assert GreenClass[3] == 'g' && RedClass[3] == 'r' && BlueClass[3] == 'b';
    assert YellowClass[3] == 'y' && PinkClass[3] == 'p';
  }

  /** Any value outside the enum gets the class of SCHEDULED. */
  lemma UnknownStatusIsScheduled(status: string)
    requires !IsKnownStatus(status)
    ensures AppointmentColor(status) == AppointmentColor(Scheduled)
  {
  }

  /** `now.getHours().toString().padStart(2, '0')`. */
  function HourLabel(hours: int): (text: string)
    requires 0 <= hours < 24
    ensures |text| == 2
  {
    TwoDigits(hours);
    PadStart(DecimalString(hours), 2, '0')
  }

  /**
    `isCurrentTime(time)` at the local time `now`: the label's first two
    characters are the two digits of the current hour.
  */
  function IsCurrentTime(time: string, now: DateTime): (b: bool)
    requires now.Valid()
    ensures b <==> |time| >= 2 && IsDigit(time[0]) && IsDigit(time[1]) && DecimalValue(time[..2]) == now.hours
  {
    CurrentHour(time, now.hours);
    Prefix2(time) == HourLabel(now.hours)
  }

  /** A label matches the padded hour exactly when its first two characters are digits reading as the hour. */
  lemma CurrentHour(time: string, hours: int)
    requires 0 <= hours < 24
    ensures Prefix2(time) == HourLabel(hours) <==>
      |time| >= 2 && IsDigit(time[0]) && IsDigit(time[1]) && DecimalValue(time[..2]) == hours
  {
    TwoDigits(hours);
    if |time| >= 2 {
      var p := time[..2];
      assert Prefix2(time) == p;
      TwoDigitValue(p);
      DigitPair(p[0], p[1], hours);
      assert p == [p[0], p[1]];
    }
  }

  /** `isToday(date)`: `date` and `now` print the same `toDateString()`, that is, they fall on the same day. */
  function IsToday(date: DateTime, now: DateTime): (b: bool)
    requires date.Valid() && now.Valid()
    ensures b <==> date.date == now.date
  {
    DateStringInjective(date.date, now.date);
    DateString(date.date) == DateString(now.date)
  }

  /**
    Comparing the printed dates is comparing calendar dates, so the grid's
    `isToday` agrees with the calendar component's field-by-field one.
  */
  lemma TodayIsSameDate(date: DateTime, now: DateTime)
    requires date.Valid() && now.Valid()
    ensures IsToday(date, now) <==> date.date == now.date
    ensures IsToday(date, now) <==> Calendar.IsToday(date, now)
  {
    DateStringInjective(date.date, now.date);
  }

  /** The object `timeSlotClick` emits; `doctor` is `None` when the key is absent from it. */
  datatype TimeSlotClickPayload = TimeSlotClickPayload(
    date: string, time: string, appointmentList: seq<Appointment>, doctor: Option<Option<Doctor>>)

  /** The one thing a click does: emit `appointmentClick`, emit `timeSlotClick`, or open the list dialog. */
  datatype Action =
    | AppointmentClick(appointment: Appointment)
    | TimeSlotClick(payload: TimeSlotClickPayload)
    | OpenList(appointments: seq<Appointment>)

  /**
    `addAppointment`: in day mode with a nonempty list, the first appointment
    is opened; otherwise a new appointment is requested for the slot, with
    the column's doctor only in day mode. `isoString` is `toISOString`.
  */
  function AddAppointment(isWeekMode: bool, isoString: DateTime -> string, date: DateTime, time: string,
                          appointmentList: seq<Appointment>, doctor: Option<Doctor>): (a: Action)
    ensures !a.OpenList?
    ensures a.AppointmentClick? <==> !isWeekMode && |appointmentList| > 0
    ensures a.AppointmentClick? ==> a.appointment == appointmentList[0]
    ensures a.TimeSlotClick? ==>
      && a.payload.date == isoString(date) && a.payload.time == time
      && a.payload.appointmentList == appointmentList
      && a.payload.doctor == if isWeekMode then None else Some(doctor)
  {
    if !isWeekMode && |appointmentList| > 0 then
      AppointmentClick(appointmentList[0])
    else
      TimeSlotClick(TimeSlotClickPayload(isoString(date), time, appointmentList,
        if !isWeekMode then Some(doctor) else None))
  }

  /**
    `handleSlotClick`: week mode hands over to `addAppointment`; day mode
    opens the list dialog on the cell's appointments, even when there are none.
  */
  function HandleSlotClick(isWeekMode: bool, isoString: DateTime -> string, date: DateTime, time: string,
                           appointmentsInSlot: seq<Appointment>, doctor: Option<Doctor>): (a: Action)
    ensures isWeekMode ==> a == AddAppointment(isWeekMode, isoString, date, time, appointmentsInSlot, doctor)
    ensures !isWeekMode ==> a == OpenList(appointmentsInSlot)
  {
    if isWeekMode then AddAppointment(isWeekMode, isoString, date, time, appointmentsInSlot, doctor)
    else OpenList(appointmentsInSlot)
  }

  /**
    A click on a cell never opens a single appointment directly: week mode
    always requests a new one with the whole, unchanged list and no doctor
    key, and day mode always opens the list.
  */
  lemma SlotClickOutcomes(isWeekMode: bool, isoString: DateTime -> string, date: DateTime, time: string,
                          appointmentsInSlot: seq<Appointment>, doctor: Option<Doctor>)
    ensures var a := HandleSlotClick(isWeekMode, isoString, date, time, appointmentsInSlot, doctor);
      && !a.AppointmentClick?
      && (a.OpenList? <==> !isWeekMode)
      && (isWeekMode ==> a == TimeSlotClick(TimeSlotClickPayload(isoString(date), time, appointmentsInSlot, None)))
  {
  }

  /** The appointment of the example below: 2024-05-01 at 09:15 with doctor 7, scheduled. */
  const Sample: Appointment := Appointment(1, "2024-05-01", "09:15", Some(Doctor(7)), Scheduled)

  /**
    Day mode, doctors [7]: the cell (2024-05-01, "09:00", column 0) holds the
    appointment, which is drawn blue, and a click opens the list with it.
    At "10:00" the cell is empty, and a click still opens the (empty) list.
  */
  lemma SampleDay(dateKey: DateTime -> string, isoString: DateTime -> string, date: DateTime)
    requires dateKey(date) == "2024-05-01"
    ensures var grid := Grid([Sample], [Doctor(7)], false);
      && AppointmentsForSlot(grid, dateKey, date, "09:00", 0) == [Sample]
      && AppointmentColor(Sample.status) == BlueClass
      && HandleSlotClick(false, isoString, date, "09:00", [Sample], Some(Doctor(7))) == OpenList([Sample])
      && AppointmentsForSlot(grid, dateKey, date, "10:00", 0) == []
      && HandleSlotClick(false, isoString, date, "10:00", [], Some(Doctor(7))) == OpenList([])
  {
    var grid := Grid([Sample], [Doctor(7)], false);
    var r := AppointmentsForSlot(grid, dateKey, date, "09:00", 0);
    assert Prefix2("09:15") == "09" == Prefix2("09:00");
    assert Sample in r;
    assert Prefix2("10:00") == "10";
    var e := AppointmentsForSlot(grid, dateKey, date, "10:00", 0);
    assert Sample !in e;
    HeadIn(e);
  }

  /**
    Beyond the end of the doctor list a day-mode column is not empty: an
    appointment of that date and hour without a doctor appears in it.
  */
  lemma SampleColumnBeyondDoctors(dateKey: DateTime -> string, date: DateTime)
    requires dateKey(date) == "2024-05-01"
    ensures var a := Sample.(doctor := None);
      AppointmentsForSlot(Grid([Sample, a], [Doctor(7)], false), dateKey, date, "09:00", 1) == [a]
  {
    var a := Sample.(doctor := None);
    var r := AppointmentsForSlot(Grid([Sample, a], [Doctor(7)], false), dateKey, date, "09:00", 1);
    assert Prefix2("09:15") == "09" == Prefix2("09:00");
    assert multiset(r)[a] == 1 && multiset(r)[Sample] == 0;
    assert |r| == 1 by {
      assert |multiset(r)| == |r|;
      assert multiset(r) == multiset{a};
    }
    HeadIn(r);
  }
}
