/**
  The focus timer widget: the 100 ms tick that counts the interval down and
  completes it, the start/pause and reset buttons, and the `MM:SS` display.
 */
module FocusTimer {
  import opened Wrappers
  import opened Text
  import opened ClientStore

  /** `Math.max(0, Math.floor(ms / 1000))`. */
  function DisplaySeconds(ms: int): (s: nat)
    ensures ms < 0 ==> s == 0
    ensures ms >= 0 ==> s * 1000 <= ms < s * 1000 + 1000
  {
    if ms / 1000 < 0 then 0 else ms / 1000
  }

  /** `formatTime`: minutes and seconds, each zero-padded to two digits at least. */
  function FormatTime(ms: int): (r: string)
    ensures |r| >= 5 && r[|r| - 3] == ':'
  {
    var total := DisplaySeconds(ms);
    var minutes := PadStart(NatToString(total / 60), 2, '0');
    var seconds := PadStart(NatToString(total % 60), 2, '0');
    assert |seconds| == 2;
    minutes + ":" + seconds
  }

  /** Negative times, and anything under a second, show as `00:00`. */
  lemma FormatTimeClamps(ms: int)
    requires ms < 1000
    ensures FormatTime(ms) == "00:00"
  {
    assert DisplaySeconds(ms) == 0;
    assert NatToString(0) == "0";
    assert PadStart("0", 2, '0') == "00";
  }

  /**
    The display reads back as (minutes, seconds) with seconds in 0..59, and
    together they make the whole seconds left, clamped at zero.
   */
  lemma {:induction false} FormatTimeRoundTrip(ms: int)
    ensures var p := ParseClock(FormatTime(ms));
            && p.Some?
            && p.value.1 < 60
            && p.value.0 * 60 + p.value.1 == DisplaySeconds(ms)
  {
    var total := DisplaySeconds(ms);
    var m := NatToString(total / 60);
    var s := NatToString(total % 60);
    NatToStringRoundTrip(total / 60);
    NatToStringRoundTrip(total % 60);
    ZeroPadValue(m, 2);
    ZeroPadValue(s, 2);
    ParseClockOf(PadStart(m, 2, '0'), PadStart(s, 2, '0'));
  }

  /** The widget: the shared client state and the local completion flag. */
  datatype Timer = Timer(app: AppState, isComplete: bool)

  /** The tick runs only while focused with a truthy start time. */
  predicate Ticking(t: Timer)
  {
    t.app.isFocused && t.app.focusStartTime.Some? && t.app.focusStartTime.value != 0
  }

  /**
    One tick at `now`: the remaining time is the interval less the time since
    the start. When nothing remains the interval completes: the flag is set,
    the remaining time is zeroed and the interval ended (which refills it).
    `closed` is what closing the session answered.
   */
  function Tick(t: Timer, now: int, closed: bool): (r: (Timer, seq<Call>))
    ensures !Ticking(t) ==> r == (t, [])
    ensures Ticking(t) && t.app.focusDuration - (now - t.app.focusStartTime.value) > 0 ==>
              r == (t.(app := t.app.(remainingTime := t.app.focusDuration - (now - t.app.focusStartTime.value))), [])
    ensures Ticking(t) && t.app.focusDuration - (now - t.app.focusStartTime.value) <= 0 ==>
              && r.0.isComplete && !r.0.app.isFocused && r.0.app.focusStartTime.None?
              && r.0.app.remainingTime == t.app.focusDuration
              && r.0.app.totalFocusTime == t.app.totalFocusTime + (now - t.app.focusStartTime.value)
              && r.1 == EndFocus(t.app.(remainingTime := 0), now, closed).1
  {
    if !Ticking(t) then (t, [])
    else
      var remaining := t.app.focusDuration - (now - t.app.focusStartTime.value);
      if remaining <= 0 then
        var ended := EndFocus(t.app.(remainingTime := 0), now, closed);
        (Timer(ended.0, true), ended.1)
      else (t.(app := t.app.(remainingTime := remaining)), [])
  }

  /**
    `handleStartPause`: a completed interval is first cleared and refilled;
    then a focused timer pauses and an idle one starts.
   */
  function StartPause(t: Timer, now: int, started: Option<string>, closed: bool): (r: (Timer, seq<Call>))
    ensures !r.0.isComplete
    ensures r.0.app.isFocused == !t.app.isFocused
    ensures t.app.isFocused ==> r.0.app.remainingTime == (if t.isComplete then t.app.focusDuration else t.app.remainingTime)
    ensures !t.app.isFocused ==> r.0.app.remainingTime == t.app.focusDuration && r.0.app.focusStartTime == Some(now)
  {
    var app := if t.isComplete then t.app.(remainingTime := t.app.focusDuration) else t.app;
    var stepped := if app.isFocused then PauseFocus(app, now, closed) else StartFocus(app, now, started);
    (Timer(stepped.0, false), stepped.1)
  }

  /** `handleReset`: ends the interval, clears the flag and refills the remaining time. */
  function Reset(t: Timer, now: int, closed: bool): (r: (Timer, seq<Call>))
    ensures !r.0.isComplete && !r.0.app.isFocused && r.0.app.focusStartTime.None?
    ensures r.0.app.remainingTime == t.app.focusDuration
    ensures r.0.app.totalFocusTime == t.app.totalFocusTime + Elapsed(t.app, now)
  {
    var ended := EndFocus(t.app, now, closed);
    (Timer(ended.0.(remainingTime := ended.0.focusDuration), false), ended.1)
  }

  /** The reset button is disabled when idle with a full interval left. */
  predicate ResetDisabled(t: Timer)
  {
    !t.app.isFocused && t.app.remainingTime == t.app.focusDuration
  }

  /**
    The button is disabled exactly when pressing it would leave the flag and
    the remaining time as they are.
   */
  lemma ResetDisabledIffNoOp(t: Timer, now: int, closed: bool)
    ensures var r := Reset(t, now, closed).0;
            ResetDisabled(t) <==> r.app.isFocused == t.app.isFocused && r.app.remainingTime == t.app.remainingTime
  {
  }

  /** After a reset, or after an interval completes, there is nothing left to reset. */
  lemma ResetDisablesReset(t: Timer, now: int, closed: bool)
    ensures ResetDisabled(Reset(t, now, closed).0)
    ensures Ticking(t) && now - t.app.focusStartTime.value >= t.app.focusDuration ==> ResetDisabled(Tick(t, now, closed).0)
  {
  }

  /**
    While the interval runs and the clock has not gone back past its start,
    a tick keeps the remaining time within (0, focusDuration].
   */
  lemma TickRemainingBounded(t: Timer, now: int, closed: bool)
    requires Ticking(t) && now >= t.app.focusStartTime.value
    ensures var r := Tick(t, now, closed).0;
            r.isComplete || 0 < r.app.remainingTime <= t.app.focusDuration
  {
  }
}
