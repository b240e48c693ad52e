/**
  The focus-history panel: it loads the user's ten latest sessions, shows the
  first five unless expanded, labels each start with a day bucket and each
  duration as `m:ss`.
 */
module SessionHistory {
  import opened Wrappers
  import opened Seqs
  import opened Text
  import opened Http
  import opened Db
  import opened Routes

  /** How many sessions the panel asks for. */
  const HISTORY_LIMIT: nat := 10
  /** How many it shows before "show all". */
  const PREVIEW_COUNT: nat := 5
  /** One day in milliseconds. */
  const DAY_MS: int := 1000 * 60 * 60 * 24

  /** `formatDuration`: unpadded whole minutes, a colon, seconds padded to two places (JavaScript `%`). */
  function FormatDuration(seconds: int): (r: string)
    ensures seconds >= 0 ==> |r| >= 4 && r[|r| - 3] == ':'
  {
    var secs := PadStart(IntToString(JsRem(seconds, 60)), 2, '0');
    assert seconds >= 0 ==> |secs| == 2;
    IntToString(seconds / 60) + ":" + secs
  }

  /** For a non-negative duration the label reads back as minutes and seconds that recombine to it. */
  lemma {:induction false} FormatDurationRoundTrip(seconds: int)
    requires seconds >= 0
    ensures var p := ParseClock(FormatDuration(seconds));
            && p.Some?
            && p.value.1 < 60
            && p.value.0 * 60 + p.value.1 == seconds
  {
    var m := NatToString(seconds / 60);
    var s := NatToString(seconds % 60);
    NatToStringRoundTrip(seconds / 60);
    NatToStringRoundTrip(seconds % 60);
    ZeroPadValue(s, 2);
    ParseClockOf(m, PadStart(s, 2, '0'));
  }

  /** The day bucket a start time falls in, `days = floor(diff / one day)` ago. */
  datatype DayBucket = Today | Yesterday | DaysAgo(days: int) | CalendarDate

  /** `formatDate`'s choice, for `diff` milliseconds between the start and now. */
  function Bucket(diff: int): (b: DayBucket)
    ensures b == Today <==> 0 <= diff < DAY_MS
    ensures b == Yesterday <==> DAY_MS <= diff < 2 * DAY_MS
    ensures b.DaysAgo? <==> diff < 7 * DAY_MS && !(0 <= diff < 2 * DAY_MS)
    ensures b.DaysAgo? ==> b.days * DAY_MS <= diff < b.days * DAY_MS + DAY_MS && b.days < 7
    ensures b == CalendarDate <==> diff >= 7 * DAY_MS
  {
    var days := diff / DAY_MS;
    if days == 0 then Today
    else if days == 1 then Yesterday
    else if days < 7 then DaysAgo(days)
    else CalendarDate
  }

  /** The `N天前` label of the few-days bucket. */
  function DaysAgoLabel(days: int): (r: string)
    ensures days >= 0 ==> r == NatToString(days) + "\U{5929}\U{524D}"
  {
    IntToString(days) + "\U{5929}\U{524D}"
  }

  /** The sessions on show: all of them when expanded, else the first five. */
  function Displayed<T>(sessions: seq<T>, showAll: bool): (r: seq<T>)
    ensures showAll ==> r == sessions
    ensures !showAll ==> |r| == (if |sessions| < PREVIEW_COUNT then |sessions| else PREVIEW_COUNT)
    ensures r == sessions[..|r|]
  {
    if showAll then sessions else Take(sessions, PREVIEW_COUNT)
  }

  datatype Row = Row(when: DayBucket, duration: string, completed: bool)

  /** The header button: collapse when expanded, else "show all (n)". */
  datatype Toggle = Collapse | ShowAll(count: nat)

  datatype View =
    | Hidden
    | NoSessions
    | Listed(rows: seq<Row>, toggle: Option<Toggle>)

  function RowOf(s: Session, now: int): Row
  {
    Row(Bucket(now - s.startTime), FormatDuration(s.duration), s.completed)
  }

  /** What the panel renders at `now`. */
  function Render(dbUserId: Option<string>, loading: bool, sessions: seq<Session>, showAll: bool, now: int): (v: View)
    ensures v.Hidden? <==> !Truthy(dbUserId) || loading
    ensures v.NoSessions? <==> Truthy(dbUserId) && !loading && |sessions| == 0
    ensures v.Listed? ==>
              && |v.rows| == |Displayed(sessions, showAll)|
              && (forall i :: 0 <= i < |v.rows| ==> v.rows[i] == RowOf(sessions[i], now))
              && (v.toggle.Some? <==> |sessions| > PREVIEW_COUNT)
              && (v.toggle.Some? ==> v.toggle.value == if showAll then Collapse else ShowAll(|sessions|))
  {
    if !Truthy(dbUserId) || loading then Hidden
    else if |sessions| == 0 then NoSessions
    else
      var shown := Displayed(sessions, showAll);
      Listed(seq(|shown|, i requires 0 <= i < |shown| => RowOf(shown[i], now)),
             if |sessions| > PREVIEW_COUNT then Some(if showAll then Collapse else ShowAll(|sessions|)) else None)
  }

  /**
    The panel's request (`?userId=…&limit=10`) answers the user's ten newest
    sessions, and the collapsed panel shows the five newest of all of them.
   */
  lemma CollapsedShowsNewest(st: Store, userId: string)
    requires userId != ""
    ensures var reply := GetSessions(st, Some(userId), None, Some("10"), NoFault);
            && reply.Json?
            && IsNewestFirstPage(reply.body, SessionsOfUser(st, userId), StartTime, HISTORY_LIMIT)
            && IsNewestFirstPage(Displayed(reply.body, false), SessionsOfUser(st, userId), StartTime, PREVIEW_COUNT)
  {
    assert NatToString(10) == "10";
    ParseIntPrefixRoundTrip(10, "");
    assert "10" + "" == "10";
    var reply := GetSessions(st, Some(userId), None, Some("10"), NoFault);
    PageOfPage(reply.body, SessionsOfUser(st, userId), StartTime, HISTORY_LIMIT, PREVIEW_COUNT);
  }
}
