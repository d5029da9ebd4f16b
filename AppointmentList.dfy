/**
  The status icon of `appointment-list.component.ts`: a Lucide icon for
  each status, with the clock for SCHEDULED and for anything unknown.
*/
module AppointmentList {
  import opened AppointmentStatus

  datatype Icon = CheckCircle | XCircle | AlertCircle | Ban | Clock

  /** `getStatusIcon`. */
  function StatusIcon(status: string): (icon: Icon)
    ensures icon == Clock <==> Classify(status) == Info
  {
    if status == Completed then CheckCircle
    else if status == Cancelled then XCircle
    else if status == Temporary then AlertCircle
    else if status == CancelledForever then Ban
    else Clock
  }

  /** The four named statuses get four different icons, none of them the clock. */
  lemma NamedStatusIcons()
    ensures StatusIcon(Completed) == CheckCircle && StatusIcon(Cancelled) == XCircle
    ensures StatusIcon(Temporary) == AlertCircle && StatusIcon(CancelledForever) == Ban
    ensures StatusIcon(Scheduled) == Clock
  {
  }

  /** Two statuses share an icon exactly when they share a category. */
  lemma IconsFollowCategories(s1: string, s2: string)
    ensures StatusIcon(s1) == StatusIcon(s2) <==> Classify(s1) == Classify(s2)
  {
  }
}
