# Clinic front end: scheduling grid, calendar and payment rules in Dafny

This project models the decision logic of a clinic management front end: the
appointment scheduling grid, the month calendar, the date helpers, the doctor
list filter, the payment label tables and the add-payment dialog. Each piece is
modelled in the form it has in the code.

The modules follow the program's structure:

- `CalendarGrid`: the scheduling grid.
  - `AppointmentsForSlot` decides which appointments fill a cell (date, hour, and in day mode the doctor column).
  - `AppointmentColor` gives a status its colour class.
  - `IsCurrentTime` and `IsToday` drive the highlights.
  - `AddAppointment` and `HandleSlotClick` return the single action a click triggers, as an `Action` value.
- `AppointmentStatus` and `AppointmentList`:
  - `AppointmentStatus` holds the five appointment statuses and their presentation category.
  - `AppointmentList` holds the status icon table.
- `PaymentModel` and `Payments`:
  - `PaymentModel` holds the payment enums and their wire strings.
  - `Payments` holds the label and colour lookups with their fallbacks.
- `Calendar`: the month view.
  - `BuildWeeks` is the grid loop, proved against the predicate `IsMonthGrid`.
  - The class `CalendarComponent` holds `currentDate` and `weeks` and has the month navigation methods.
  - The `IsToday` and `IsCurrentMonth` tests.
- `DateUtils`: `getFirstDayOfMonth` and `getLastDayOfMonth`, as methods that change a local copy of the date step by step.
- `JsDate` and `DateText`:
  - `JsDate` is the calendar arithmetic of JavaScript `Date` in local time. That includes the normalisation of out-of-range days and months by `new Date(y, m, d)`, `setDate` and `setMonth` (MakeDay, ECMAScript-262 section 21.4.1), plus `getDay()` and the `<=` order.
  - `DateText` is `toString` on integers, `padStart` and `toDateString` (ECMAScript-262 section 21.4.4.41.2), each with a reader that proves the text determines the value.
- `Filtering`: `Array.prototype.filter`, with membership, counts, order and uniqueness.
- `Doctors`: the first-12 specialization prefix, the query built for a filter value, and the class `DoctorFilter`. That class holds the filter form and `prevSearchTerm`.
- `AddPaymentDialog`: the patient picker (class `PatientPicker`, with the paging accumulator), and the payment form (class `PaymentForm`, with the appointment-required rule and the payload that `onSubmit` builds).

Inputs the code reads from the environment are parameters:

- The current time (`now`/`today`).
- The cell date key (the date part of `toISOString()`).
- `toISOString` itself.
- The responses of the patient service.

Everything else is deterministic.

Three behaviours of the grid's click and column rules:

- In day mode a click opens the appointment list, even for an empty cell.
- A day-mode column outside the doctor list holds the appointments that have no doctor.
- In day mode, `addAppointment` with a nonempty list emits `appointmentClick` with the first appointment.

## Model

| member | source | states |
|---|---|---|
| CalendarGrid.AppointmentsForSlot | src/app/features/appointments/components/calendar-grid/calendar-grid.component.ts:49-61 | an appointment is in the cell iff it is in the input, its date equals the cell's date key, its time's first two characters equal the slot's, and (day mode only) its doctor id equals the column doctor's id, undefined for a column outside the list |
| CalendarGrid.ColumnDoctorId | src/app/features/appointments/components/calendar-grid/calendar-grid.component.ts:51 | `doctors()[doctorIndex]?.id` is defined iff the index is inside the list, and is then that doctor's id |
| CalendarGrid.Prefix2 | src/app/features/appointments/components/calendar-grid/calendar-grid.component.ts:55 | `slice(0, 2)` is a prefix of the string, of length two or the whole shorter string |
| CalendarGrid.SlotIsStableFilter | src/app/features/appointments/components/calendar-grid/calendar-grid.component.ts:53-60 | the cell is a subsequence of the appointments (input order kept), keeps every copy of a matching appointment and none of the others, and is the only sequence with both properties |
| Filtering.Filter | src/app/features/appointments/components/calendar-grid/calendar-grid.component.ts:53-60 | `filter` keeps at most the input's elements; an element is in the result iff it is in the input and passes the test, and a passing element keeps all its copies |
| CalendarGrid.SlotMinutesIgnored | src/app/features/appointments/components/calendar-grid/calendar-grid.component.ts:55 | slot labels with the same first two characters give the same cell contents |
| CalendarGrid.SameHourSameCells | src/app/features/appointments/components/calendar-grid/calendar-grid.component.ts:54-58 | two appointments of the same date and doctor whose times share the first two characters are in exactly the same cells |
| CalendarGrid.WeekModeIgnoresDoctors | src/app/features/appointments/components/calendar-grid/calendar-grid.component.ts:56-58 | in week mode the cell depends neither on the doctor list nor on the column index |
| CalendarGrid.DayModeColumn | src/app/features/appointments/components/calendar-grid/calendar-grid.component.ts:51-58 | in day mode a column inside the doctor list holds exactly the date- and hour-matching appointments of that doctor |
| CalendarGrid.OutOfRangeColumn | src/app/features/appointments/components/calendar-grid/calendar-grid.component.ts:51-57 | in day mode a column outside the doctor list holds exactly the date- and hour-matching appointments with no doctor |
| CalendarGrid.SampleColumnBeyondDoctors | src/app/features/appointments/components/calendar-grid/calendar-grid.component.ts:51-57 | an example: the second column with one doctor is not empty but holds the doctorless appointment |
| CalendarGrid.AppointmentColor | src/app/features/appointments/components/calendar-grid/calendar-grid.component.ts:64-79 | the blue class is given exactly to SCHEDULED and to every value outside the enum |
| CalendarGrid.ColorsFollowCategories | src/app/features/appointments/components/calendar-grid/calendar-grid.component.ts:64-79 | two statuses get the same class iff they have the same category: five distinct classes for the five statuses |
| CalendarGrid.UnknownStatusIsScheduled | src/app/features/appointments/components/calendar-grid/calendar-grid.component.ts:76-77 | any value outside the enum gets the SCHEDULED class |
| CalendarGrid.HourLabel | src/app/features/appointments/components/calendar-grid/calendar-grid.component.ts:83 | the padded hour of a valid time is two characters long |
| CalendarGrid.IsCurrentTime | src/app/features/appointments/components/calendar-grid/calendar-grid.component.ts:81-85 | `isCurrentTime` holds iff the label's first two characters are digits reading as the current hour of `now` |
| CalendarGrid.CurrentHour | src/app/features/appointments/components/calendar-grid/calendar-grid.component.ts:83-84 | a label equals the padded hour iff its first two characters are digits reading as that hour |
| CalendarGrid.IsToday | src/app/features/appointments/components/calendar-grid/calendar-grid.component.ts:141-144 | comparing the `toDateString()` texts of `date` and `now` holds iff they are the same calendar date |
| CalendarGrid.TodayIsSameDate | src/app/features/appointments/components/calendar-grid/calendar-grid.component.ts:141-144 | equal `toDateString()` texts hold iff the calendar dates are equal, so the grid's `isToday` agrees with the calendar's field-by-field test |
| CalendarGrid.AddAppointment | src/app/features/appointments/components/calendar-grid/calendar-grid.component.ts:87-104 | never opens the list; emits `appointmentClick` iff in day mode with a nonempty list, with its first element; otherwise emits `timeSlotClick` with the ISO date, the time, the list unchanged, and the doctor key only in day mode |
| CalendarGrid.HandleSlotClick | src/app/features/appointments/components/calendar-grid/calendar-grid.component.ts:127-139 | week mode delegates to `addAppointment`; day mode opens the list with the cell's appointments |
| CalendarGrid.SlotClickOutcomes | src/app/features/appointments/components/calendar-grid/calendar-grid.component.ts:87-138 | a slot click never emits `appointmentClick`; it opens the list iff in day mode, even for an empty cell; in week mode it emits `timeSlotClick` with the whole list and no doctor key |
| CalendarGrid.SampleDay | src/app/features/appointments/components/calendar-grid/calendar-grid.component.ts:49-138 | an example day: a 09:15 appointment fills the 09:00 cell of its doctor, is drawn blue, and a click opens the list; the empty 10:00 cell also opens the (empty) list |
| AppointmentStatus.Classify | src/app/features/appointments/components/appointment-list/appointment-list.component.ts:104-117 | each named status has its own category, and the scheduled category covers SCHEDULED and every unknown value |
| AppointmentList.StatusIcon | src/app/features/appointments/components/appointment-list/appointment-list.component.ts:104-117 | the clock icon is given exactly to SCHEDULED and to every value outside the enum |
| AppointmentList.NamedStatusIcons | src/app/features/appointments/components/appointment-list/appointment-list.component.ts:105-115 | COMPLETED, CANCELLED, TEMPORARY and CANCELLED_FOREVER map to CheckCircle, XCircle, AlertCircle and Ban; SCHEDULED maps to Clock |
| AppointmentList.IconsFollowCategories | src/app/features/appointments/components/appointment-list/appointment-list.component.ts:104-117 | two statuses share an icon iff they share a category: the four named icons are pairwise distinct and differ from the default |
| PaymentModel.ParseStatus | src/app/core/models/payment.model.ts:15-19 | a string read as a payment status is that status's wire value |
| PaymentModel.StatusRoundTrip | src/app/core/models/payment.model.ts:15-19 | every status reads back from its wire value, and a string reads as nothing iff it is no status's wire value |
| PaymentModel.ParseMethod | src/app/core/models/payment.model.ts:21-26 | a string read as a payment method is that method's wire value |
| PaymentModel.MethodRoundTrip | src/app/core/models/payment.model.ts:21-26 | every method reads back from its wire value, and a string reads as nothing iff it is no method's wire value |
| PaymentModel.ParseKind | src/app/core/models/payment.model.ts:28-34 | a string read as a payment kind is that kind's wire value |
| PaymentModel.KindRoundTrip | src/app/core/models/payment.model.ts:28-34 | every kind reads back from its wire value, and a string reads as nothing iff it is no kind's wire value |
| Payments.Lookup | src/app/features/patient-medical-card/components/payments/payments.component.ts:55-73 | `table[key] \|\| fallback` is the entry for a key with a nonempty entry and the fallback for any other key |
| Payments.PaymentMethodLabel | src/app/features/patient-medical-card/components/payments/payments.component.ts:48-56 | each known method gets its Russian label; any other string is its own label |
| Payments.PaymentStatusLabel | src/app/features/patient-medical-card/components/payments/payments.component.ts:58-65 | each known status gets its Russian label; any other string is its own label |
| Payments.PaymentStatusColor | src/app/features/patient-medical-card/components/payments/payments.component.ts:67-74 | each known status gets its colour class; any other string gets gray |
| Payments.MethodLabelsDistinct | src/app/features/patient-medical-card/components/payments/payments.component.ts:48-56 | different methods get different labels, and no known method is labelled by its wire string |
| Payments.StatusLookupsDistinct | src/app/features/patient-medical-card/components/payments/payments.component.ts:58-74 | different statuses get different labels and different colours, and no known status is gray |
| Payments.LookupTables | src/app/features/patient-medical-card/components/payments/payments.component.ts:48-74 | the fixed label and colour values, including the fallbacks for an unknown status and for the empty string |
| Calendar.FirstOfMonth | src/app/features/calendar/calendar.component.ts:41 | the grid's month begins on a valid 1st |
| Calendar.LengthOfMonth | src/app/features/calendar/calendar.component.ts:42 | a month has 28 to 31 days |
| Calendar.LastOfMonth | src/app/features/calendar/calendar.component.ts:42 | the month's last day is a valid date |
| Calendar.Lead | src/app/features/calendar/calendar.component.ts:46 | `getDay()` of the 1st is between 0 and 6 |
| Calendar.MonthBounds | src/app/features/calendar/calendar.component.ts:41-42 | `start` is the 1st of the month and `end`, day 0 of the next month, is the month's last day, with the month carry and the two-digit-year rule of `new Date` |
| Calendar.BuildWeeks | src/app/features/calendar/calendar.component.ts:39-56 | the loop builds the month grid: row `r` the seven consecutive midnights from the Sunday on or before the 1st plus `7r` days, ending with the first row that reaches the month's last day |
| Calendar.GridShape | src/app/features/calendar/calendar.component.ts:42-55 | 4 to 6 rows of 7 dates, each row starting on a Sunday, consecutive across row ends, the first cell at most 6 days before the 1st, the last row holding the last day |
| Calendar.GridCoversMonth | src/app/features/calendar/calendar.component.ts:39-57 | day `k` of the month is in cell `Lead + k - 1`, so every day of the month appears |
| Calendar.GridDistinct | src/app/features/calendar/calendar.component.ts:48-55 | different cells hold different dates, so no day appears twice |
| Calendar.GridUnique | src/app/features/calendar/calendar.component.ts:39-58 | the grid of a month is unique |
| Calendar.IsToday | src/app/features/calendar/calendar.component.ts:60-67 | the day, month and year comparison holds iff the calendar dates are equal, whatever the time of day |
| Calendar.IsCurrentMonth | src/app/features/calendar/calendar.component.ts:69-75 | for valid dates, the month and year comparison holds iff the date falls between the 1st and the last day of `currentDate`'s month |
| Calendar.MonthSpan | src/app/features/calendar/calendar.component.ts:69-75 | a valid date has a given month and year iff its day number lies in that month's span of days |
| Calendar.OwnMonth | src/app/features/calendar/calendar.component.ts:41 | for a valid date outside the years 0 to 99 the grid shows the date's own month |
| Calendar.CurrentMonthCells | src/app/features/calendar/calendar.component.ts:69-75 | `isCurrentMonth` holds exactly on the contiguous block of the month's cells, starting at cell `Lead` |
| Calendar.TodayCell | src/app/features/calendar/calendar.component.ts:60-67 | at most one cell is today, and exactly one when today lies in the displayed month |
| Calendar.MonthNavigation | src/app/features/calendar/calendar.component.ts:27-37 | `new Date(y, m + 1, 1)` and `new Date(y, m - 1, 1)` are the 1st of the following and the preceding month, carrying the year |
| Calendar.TwoDigitYear | src/app/features/calendar/calendar.component.ts:35 | `new Date(99, 10, 1)` is November 1999: navigating in year 99 jumps to 1999 |
| Calendar.CalendarComponent.constructor | src/app/features/calendar/calendar.component.ts:20-21 | `currentDate` starts at the current time and `weeks` is empty |
| Calendar.CalendarComponent.GenerateCalendar | src/app/features/calendar/calendar.component.ts:39-58 | `weeks` becomes the month grid of `currentDate` |
| Calendar.CalendarComponent.NextMonth | src/app/features/calendar/calendar.component.ts:27-31 | `currentDate` becomes `new Date(year, month + 1, 1)` and `weeks` its grid |
| Calendar.CalendarComponent.PrevMonth | src/app/features/calendar/calendar.component.ts:33-37 | `currentDate` becomes `new Date(year, month - 1, 1)` and `weeks` its grid |
| DateUtils.GetFirstDayOfMonth | src/app/core/utils/date.utils.ts:1-6 | same year and month, day 1, at 00:00:00.000 |
| DateUtils.GetLastDayOfMonth | src/app/core/utils/date.utils.ts:8-14 | `setMonth`, `setDate(0)` and `setHours` give, at midnight, the last day of the month, or of the next month when the day overflows it |
| DateUtils.LastDayOf | src/app/core/utils/date.utils.ts:11 | the last day of a month is a valid date |
| DateUtils.LastDayResult | src/app/core/utils/date.utils.ts:10-11 | the result is always a valid last day of some month |
| DateUtils.NextMonthSameDay | src/app/core/utils/date.utils.ts:10 | `setMonth(m + 1)` keeps the day in the next month when it fits and overflows into the month after otherwise |
| DateUtils.DayZero | src/app/core/utils/date.utils.ts:11 | `setDate(0)` is the last day of the month before |
| DateUtils.LastDayOfOwnMonth | src/app/core/utils/date.utils.ts:10-11 | the result is the last day of the input's month iff the input's day fits into the following month |
| DateUtils.DecemberCarriesYear | src/app/core/utils/date.utils.ts:10-11 | for December the month carries into the next year and the result is December 31 |
| DateUtils.JanuaryOverflow | src/app/core/utils/date.utils.ts:10-11 | January 31 gives the end of February (28th or 29th); January 29, 2024 gives January 31; March 31 gives April 30 |
| JsDate.DaysInMonth | src/app/core/utils/date.utils.ts:11 | a month has 28 to 31 days, and 29 exactly for February of a leap year |
| JsDate.CarryDays | src/app/features/calendar/calendar.component.ts:46-52 | normalising a day of a month gives a valid date with the same day number |
| JsDate.MakeDay | src/app/core/utils/date.utils.ts:10-11 | the normalised date is valid and has the day number of the month-carried date |
| JsDate.MakeDayUnique | src/app/core/utils/date.utils.ts:10-11 | the normalised date is the only valid date with that day number |
| JsDate.MakeDayFirst | src/app/features/calendar/calendar.component.ts:29-41 | day 1 of any month, however far out of range, is the 1st of the carried month |
| JsDate.MakeDayZero | src/app/features/calendar/calendar.component.ts:42 | day 0 of any month is the last day of the month before the carried month |
| JsDate.MonthCarry | src/app/core/utils/date.utils.ts:10 | carrying months by floor division commutes with stepping to the next month |
| JsDate.DayNumberInjective | src/app/features/calendar/calendar.component.ts:48-53 | valid dates with equal day numbers are equal |
| JsDate.DayNumberOrder | src/app/features/calendar/calendar.component.ts:48 | day numbers of valid dates follow the (year, month, day) order |
| JsDate.MidnightOrder | src/app/features/calendar/calendar.component.ts:48 | `<=` on two midnights compares their day numbers |
| JsDate.MakeFullYear | src/app/features/calendar/calendar.component.ts:29-42 | `new Date` reads a year from 0 to 99 as 1900 to 1999 and any other year as itself |
| JsDate.NewDate | src/app/features/calendar/calendar.component.ts:29-42 | `new Date(y, m, d)` is the valid local midnight of the normalised date |
| JsDate.SetDate | src/app/features/calendar/calendar.component.ts:46-52 | `setDate(d)` gives a valid date `d - 1` days after the 1st of the month (so 0 is the day before the 1st), with the time of day kept |
| JsDate.SetMonth | src/app/core/utils/date.utils.ts:10 | `setMonth(m)` carries `m` into the year by floor division and counts the kept day from the 1st of that month, giving a valid date with the time of day kept |
| JsDate.Weekday | src/app/features/calendar/calendar.component.ts:46 | `getDay()` lies in 0..6, with 0 for Sunday |
| JsDate.EpochIsThursday | src/app/features/calendar/calendar.component.ts:46 | `getDay()` of 1970-01-01 is 4, a Thursday, as JavaScript reports it |
| JsDate.StartOfDay | src/app/core/utils/date.utils.ts:4-12 | `setHours(0, 0, 0, 0)` keeps the date and sets midnight |
| JsDate.AddDays | src/app/features/calendar/calendar.component.ts:46-52 | `setDate(getDate() + k)` moves a valid date `k` days and keeps the time of day |
| JsDate.BackToSunday | src/app/features/calendar/calendar.component.ts:46 | going back `getDay()` days and then on by whole weeks lands on a Sunday |
| JsDate.WeekLater | src/app/features/calendar/calendar.component.ts:48-53 | seven days after a Sunday is a Sunday |
| DateText.DecimalRoundTrip | src/app/features/appointments/components/calendar-grid/calendar-grid.component.ts:83 | the decimal text of a non-negative integer reads back as the integer |
| DateText.PadStart | src/app/features/appointments/components/calendar-grid/calendar-grid.component.ts:83 | `padStart` gives the target length (or the string's own), ends with the string and starts with fill characters |
| DateText.PaddedRoundTrip | src/app/features/appointments/components/calendar-grid/calendar-grid.component.ts:83 | a zero-padded decimal text reads back as its number |
| DateText.TwoDigits | src/app/features/appointments/components/calendar-grid/calendar-grid.component.ts:83 | an hour padded to two characters is its tens digit followed by its units digit |
| DateText.MonthIndex | src/app/features/appointments/components/calendar-grid/calendar-grid.component.ts:143 | reading a month name gives its index, or 12 for anything else |
| DateText.DateString | src/app/features/appointments/components/calendar-grid/calendar-grid.component.ts:143 | `toDateString()` is at least 15 characters: the weekday name, the month name, the two-digit day and the year, separated by single spaces |
| DateText.YearRoundTrip | src/app/features/appointments/components/calendar-grid/calendar-grid.component.ts:143 | the year field reads back as the year, negative years included |
| DateText.DateStringRoundTrip | src/app/features/appointments/components/calendar-grid/calendar-grid.component.ts:143 | `toDateString()` of a valid date reads back as that date |
| DateText.DateStringInjective | src/app/features/appointments/components/calendar-grid/calendar-grid.component.ts:143 | two valid dates print the same `toDateString()` iff they are the same date |
| Doctors.VisibleSpecializations | src/app/features/doctor/doctor.component.ts:122-128 | the result is a prefix of the list: the whole list when show-all is on or it has at most 12 items, else exactly 12 items |
| Doctors.CollapsedShowsFirstTwelve | src/app/features/doctor/doctor.component.ts:122-128 | collapsed, item `i` is shown iff `i < 12`, and shown items are the list's ones; with show-all everything is shown |
| Doctors.QueryOf | src/app/features/doctor/doctor.component.ts:143-156 | search and limit are copied; `specializationId` is present iff nonzero; the page is 1 when the search changed and the form's page otherwise |
| Doctors.ClearedQuery | src/app/features/doctor/doctor.component.ts:238-240 | after `clearFilter` the query has no specialization and an empty search, and it is on page 1 unless the previous search was empty too |
| Doctors.DoctorFilter.constructor | src/app/features/doctor/doctor.component.ts:86-107 | the form starts at search "", page 1, limit 10, no specialization; loading; empty data |
| Doctors.DoctorFilter.RequestDoctors | src/app/features/doctor/doctor.component.ts:143-157 | sets loading, returns the query for the current value and the previous search, and patches the form's page to the query's page |
| Doctors.DoctorFilter.ReceiveDoctors | src/app/features/doctor/doctor.component.ts:160-164 | clears loading, records the current search as the previous one, and stores the response |
| Doctors.DoctorFilter.ClearFilter | src/app/features/doctor/doctor.component.ts:238-240 | sets the specialization to 0 and the search to "", and changes nothing else |
| Doctors.DoctorFilter.LimitChange | src/app/features/doctor/doctor.component.ts:241-250 | sets the limit and resets the page to 1, and changes nothing else |
| AddPaymentDialog.ConcatAppend | src/app/features/finances/components/payment/dialogs/add-payment-dialog/add-payment-dialog.component.ts:166 | appending a page of patients appends its items after the items already there, in order |
| AddPaymentDialog.ResetIsIncomplete | src/app/features/finances/components/payment/dialogs/add-payment-dialog/add-payment-dialog.component.ts:135-149 | right after a reset the list is never complete, so a reset load always sends a request |
| AddPaymentDialog.FullPagesCount | src/app/features/finances/components/payment/dialogs/add-payment-dialog/add-payment-dialog.component.ts:163-171 | after `k` full pages of `n` patients the list holds `k * n` patients |
| AddPaymentDialog.PatientPicker.constructor | src/app/features/finances/components/payment/dialogs/add-payment-dialog/add-payment-dialog.component.ts:62-91 | page 1, not loading, empty search, empty list with limit 10 |
| AddPaymentDialog.PatientPicker.LoadPatients | src/app/features/finances/components/payment/dialogs/add-payment-dialog/add-payment-dialog.component.ts:133-158 | no request while loading; a reset returns to page 1 with an empty list keeping the limit; no request iff the list is complete; otherwise the request for `currentPage` with the search text and limit, and loading set |
| AddPaymentDialog.PatientPicker.SearchChanged | src/app/features/finances/components/payment/dialogs/add-payment-dialog/add-payment-dialog.component.ts:97-102 | the search text becomes the value or ""; loading is set afterwards; while a request is in flight nothing else changes and none is sent; otherwise the list restarts empty with the limit kept, at page 1, and page 1 is requested with the new text |
| AddPaymentDialog.PatientPicker.ReceivePatients | src/app/features/finances/components/payment/dialogs/add-payment-dialog/add-payment-dialog.component.ts:163-171 | the response's items go after the existing ones, the totals are copied, `page` records the page received and `currentPage` goes up by one; the items stay the concatenation of the pages received |
| AddPaymentDialog.PatientPicker.FinishLoading | src/app/features/finances/components/payment/dialogs/add-payment-dialog/add-payment-dialog.component.ts:160 | loading is cleared, the picker invariant is kept and nothing else changes |
| AddPaymentDialog.ToNumber | src/app/features/finances/components/payment/dialogs/add-payment-dialog/add-payment-dialog.component.ts:186-187 | `Number` of a number is itself, and a text it reads as finite is empty or all digits |
| AddPaymentDialog.NumberOfDecimal | src/app/features/finances/components/payment/dialogs/add-payment-dialog/add-payment-dialog.component.ts:186-187 | `Number` reads the decimal text of an id back as the id |
| AddPaymentDialog.BuildPayload | src/app/features/finances/components/payment/dialogs/add-payment-dialog/add-payment-dialog.component.ts:176-191 | no payload iff the form is invalid; otherwise amount and kind as entered, the patient as a number, the appointment null iff falsy and a number otherwise, and the selected method and status |
| AddPaymentDialog.PrepaymentPayload | src/app/features/finances/components/payment/dialogs/add-payment-dialog/add-payment-dialog.component.ts:121-191 | a prepayment form is submitted iff it has an amount, and then with a null appointment |
| AddPaymentDialog.RequiredAppointmentIsSent | src/app/features/finances/components/payment/dialogs/add-payment-dialog/add-payment-dialog.component.ts:176-187 | with the appointment required, a payload has a null appointment iff the appointment is the number 0 |
| AddPaymentDialog.PaymentForm.constructor | src/app/features/finances/components/payment/dialogs/add-payment-dialog/add-payment-dialog.component.ts:72-83 | the controls' initial values, the appointment required, cash and pending selected |
| AddPaymentDialog.PaymentForm.SetPaymentKind | src/app/features/finances/components/payment/dialogs/add-payment-dialog/add-payment-dialog.component.ts:117-130 | a prepayment drops the appointment requirement and clears it to null; any other kind makes it required and keeps its value; nothing else changes |
| AddPaymentDialog.PaymentForm.Submit | src/app/features/finances/components/payment/dialogs/add-payment-dialog/add-payment-dialog.component.ts:175-191 | the payload is the one built from the form's values; an invalid form is only marked touched, a valid one sets loading; the controls do not change |

## Left out

- HTTP calls, the rxjs pipelines (`debounceTime`, `switchMap`, `startWith`, `finalize` scheduling, `rxResource`), `MatDialog.open`, toasts, Transloco and the router. These are foreign library calls and asynchronous plumbing. The model keeps the decision each one is fed: a request value, a response method, an `Action` value.
- Time zones and daylight saving. Local time has 24-hour days, and `toISOString` (UTC) is not derived from local fields. The slot date key and `toISOString` are function parameters.
- The ambient clock. `new Date()` in `isCurrentTime`, `isToday`, the calendar's initial `currentDate` and the default arguments of the date helpers is a parameter (`now`, `today`, or the argument itself).
- `Date` object identity and aliasing. Dates are values, so the helpers' copy of their argument (`new Date(date)`) is a local value, and the argument cannot change.
- Dates outside the ECMAScript time range (±8.64e15 ms) and invalid dates (`NaN` time values). The model's dates are unbounded, and `toDateString` is modelled only for valid dates.
- `Payments.Lookup`: a key such as `"constructor"` gives an inherited `Object.prototype` member in JavaScript. The model treats every key outside the table as missing.
- `AddPaymentDialog.ToNumber`: `null`, `""`, numbers and strings of decimal digits are read as unbounded integers. A digit string beyond 2^53 is not rounded to the nearest double as `Number()` does. Whitespace, signs, fractions, exponents and hexadecimal text are read as `NaN`.
- JavaScript numbers are unbounded `int`s in the model: ids, hours, `currentPage`, `page`, `total`, `limit` and `totalPages`. The rounding and the loss of precision of IEEE 754 doubles beyond 2^53 are not modelled.
- `CalendarGrid.Prefix2`: it takes the first two Unicode scalar values. JavaScript `slice(0, 2)` takes two UTF-16 code units, and the two differ for a character outside the Basic Multilingual Plane (an emoji, say) at the start of a time label.
- The `AppointmentStatus` enum declaration is not part of this model. Its values are taken to be the member names (`"SCHEDULED"`, `"COMPLETED"`, `"CANCELLED"`, `"TEMPORARY"`, `"CANCELLED_FOREVER"`).
- `pageChange`, the page read from the route in `ngOnInit`, `syncQueryParams`, `deleteDoctor` and `openDialog` in the doctor component. They are router and dialog plumbing.
- The patient-appointments subscription in the add-payment dialog, and what happens after `createPayment` answers (toast, closing the dialog, resetting `isLoading`). They are service calls.
- The `lang` fields, the stub handlers `onSlotClick` and `handleClick`, `openDetails`, `openList` and the template bindings. They hold no logic beyond assignment.
- `getHours()` and the other local time fields are taken as the fields of a `DateTime` value, not derived from a time value.
