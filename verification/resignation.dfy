/** The last working day computed by `createResignationRequest`: the request
    instant moved forward by the 90-day notice period. */
module Resignation {
  import opened Js

  const NoticePeriodDays := 90
  const MsPerDay := 86_400_000

  /** The day number since the epoch (UTC) of an instant. */
  function DayOf(ms: int): (day: int) { ms / MsPerDay }

  /** The milliseconds elapsed since midnight (UTC) of an instant. */
  function TimeOfDay(ms: int): (elapsed: int) { ms % MsPerDay }

  /** `request` is `new Date(request_date).getTime()`, None when it is NaN;
      NaN propagates into an invalid date. */
  function LastWorkingDay(request: Option<int>): (lwd: Option<int>)
    ensures lwd.Some? <==> request.Some?
    ensures lwd.Some? ==> DayOf(lwd.value) == DayOf(request.value) + NoticePeriodDays
    ensures lwd.Some? ==> TimeOfDay(lwd.value) == TimeOfDay(request.value)
  {
    match request
    case None => None
    case Some(t) => Some(t + NoticePeriodDays * 24 * 60 * 60 * 1000)
  }
}
