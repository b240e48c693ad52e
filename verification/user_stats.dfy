/**
  The statistics card: total focus time and average session length in hours
  and minutes, the number of completed sessions, and a hint for a user who
  has none yet.
 */
module UserStats {
  import opened Wrappers
  import opened Seqs
  import opened Text
  import opened Http
  import opened Db
  import opened Routes

  const HOUR_UNIT: string := "\U{5C0F}\U{65F6}"
  const MINUTE_UNIT: string := "\U{5206}\U{949F}"

  /** `Math.floor(seconds / 3600)` and `Math.floor((seconds % 3600) / 60)`, with JavaScript's `%`. */
  function HoursMinutes(seconds: int): (hm: (int, int))
    ensures seconds >= 0 ==> hm.0 >= 0 && 0 <= hm.1 < 60
    ensures seconds >= 0 ==> hm.0 * 3600 + hm.1 * 60 <= seconds < hm.0 * 3600 + hm.1 * 60 + 60
    ensures hm.0 > 0 <==> seconds >= 3600
  {
    (seconds / 3600, JsRem(seconds, 3600) / 60)
  }

  /** `formatTime`: `<h>小时<m>分钟` when there is at least an hour, else `<m>分钟`. */
  function FormatHm(seconds: int): (r: string)
    ensures |r| >= 2 && r[|r| - 2..] == MINUTE_UNIT
  {
    var hm := HoursMinutes(seconds);
    if hm.0 > 0 then IntToString(hm.0) + HOUR_UNIT + IntToString(hm.1) + MINUTE_UNIT
    else IntToString(hm.1) + MINUTE_UNIT
  }

  /** The hour unit is shown exactly for an hour or more, and the label always ends in minutes. */
  lemma {:induction false} HourUnitIffHour(seconds: int)
    ensures (HOUR_UNIT[0] in FormatHm(seconds)) <==> seconds >= 3600
    ensures |FormatHm(seconds)| >= 2 && FormatHm(seconds)[|FormatHm(seconds)| - 2..] == MINUTE_UNIT
  {
    var hm := HoursMinutes(seconds);
    var r := FormatHm(seconds);
    var m := IntToString(hm.1);
    assert forall c :: c in m ==> c == '-' || IsDigit(c);
    if hm.0 > 0 {
      var h := IntToString(hm.0);
      assert r == h + HOUR_UNIT + m + MINUTE_UNIT;
      assert r[|h|] == HOUR_UNIT[0];
    } else {
      assert r == m + MINUTE_UNIT;
      assert HOUR_UNIT[0] !in m + MINUTE_UNIT;
    }
  }

  datatype StatsView =
    | Hidden
    | LoadFailed
    | Shown(totalTime: string, completedCount: nat, averageTime: string, firstSessionHint: bool)

  /**
    What the card renders: nothing without a database user or while loading,
    a failure note when the statistics did not load. The average is shown
    from its whole seconds.
   */
  function Render(dbUserId: Option<string>, loading: bool, stats: Option<Stats>): (v: StatsView)
    ensures v.Hidden? <==> !Truthy(dbUserId) || loading
    ensures v.LoadFailed? <==> Truthy(dbUserId) && !loading && stats.None?
    ensures v.Shown? ==>
              && v.completedCount == stats.value.totalSessions
              && v.totalTime == FormatHm(stats.value.totalFocusTime)
              && v.averageTime == FormatHm(stats.value.averageSessionTime.Floor)
              && (v.firstSessionHint <==> stats.value.totalSessions == 0)
  {
    if !Truthy(dbUserId) || loading then Hidden
    else match stats
      case None => LoadFailed
      case Some(s) =>
        Shown(FormatHm(s.totalFocusTime), s.totalSessions, FormatHm(s.averageSessionTime.Floor), s.totalSessions == 0)
  }

  /** Once the statistics have loaded, the first-session hint shows exactly for a user with no completed session. */
  lemma HintIffNothingCompleted(st: Store, userId: string)
    requires userId != ""
    ensures var reply := GetStatsRoute(st, Some(userId), NoFault);
            && reply.Json?
            && var v := Render(Some(userId), false, Some(reply.body));
            && v.Shown?
            && (v.firstSessionHint <==> forall s :: s in st.sessions ==> s.userId != userId || !s.completed)
  {
    var done := CompletedOf(st, userId);
    if |done| > 0 {
      assert done[0] in done;
    }
  }
}
