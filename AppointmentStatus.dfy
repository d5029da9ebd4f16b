/**
  The five lifecycle statuses of an appointment and the presentation
  category each one stands for. The colour table of the calendar grid and
  the icon table of the appointment list both switch on these statuses; the
  category is the common reading of the two tables, against which both are
  checked.
*/
module AppointmentStatus {

  /** The values of the `AppointmentStatus` enum, which arrive as strings. */
  const Scheduled: string := "SCHEDULED"
  const Completed: string := "COMPLETED"
  const Cancelled: string := "CANCELLED"
  const Temporary: string := "TEMPORARY"
  const CancelledForever: string := "CANCELLED_FOREVER"

  predicate IsKnownStatus(s: string) {
    s == Scheduled || s == Completed || s == Cancelled || s == Temporary || s == CancelledForever
  }

  /** How a status is presented: unknown values fall back to the scheduled look. */
  datatype Category = Success | Danger | Info | Warning | Blocked

  function Classify(s: string): (c: Category)
    ensures c == Info <==> s == Scheduled || !IsKnownStatus(s)
    ensures c == Success <==> s == Completed
    ensures c == Danger <==> s == Cancelled
    ensures c == Warning <==> s == Temporary
    ensures c == Blocked <==> s == CancelledForever
  {
    if s == Completed then Success
    else if s == Cancelled then Danger
    else if s == Temporary then Warning
    else if s == CancelledForever then Blocked
    else Info
  }
}
