/** The trailing window of days that the backfill, the aggregation and the
    dashboard table all build with the same countdown loop. */
module Calendar {
  import opened Basics

  /** The `days` full days before `today`, oldest first; `today` itself is
      not part of the window. */
  function DaysBefore(today: Day, days: nat): (dates: seq<Day>)
    ensures |dates| == days
    ensures forall k :: 0 <= k < days ==> dates[k] == today - (days - k)
  {
    seq(days, k => today - days + k)
  }

  /** The window is strictly increasing, lies entirely before `today`, and
      its newest day is yesterday. */
  lemma WindowShape(today: Day, days: nat)
    ensures forall j, k :: 0 <= j < k < days ==> DaysBefore(today, days)[j] < DaysBefore(today, days)[k]
    ensures forall k :: 0 <= k < days ==> DaysBefore(today, days)[k] < today
    ensures days > 0 ==> DaysBefore(today, days)[0] == today - days
    ensures days > 0 ==> DaysBefore(today, days)[days - 1] == today - 1
  {
  }

  /** The countdown loop `for (i = days; i >= 1; i--) push(today - i)`. */
  method PastDays(today: Day, days: nat) returns (dates: seq<Day>)
    ensures dates == DaysBefore(today, days)
    ensures forall j, k :: 0 <= j < k < |dates| ==> dates[j] < dates[k]
    ensures forall k :: 0 <= k < |dates| ==> dates[k] < today
    ensures days > 0 ==> dates[days - 1] == today - 1
  {
    dates := [];
    var i := days;
    while i >= 1
      invariant 0 <= i <= days
      invariant |dates| == days - i
      invariant forall k :: 0 <= k < |dates| ==> dates[k] == today - days + k
    {
      dates := dates + [today - i];
      i := i - 1;
    }
    WindowShape(today, days);
  }
}
