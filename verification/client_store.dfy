/**
  The client's focus state machine: joining and leaving a room, starting,
  pausing and ending a focus interval. Each action returns the state after it
  and the requests it sent, in order. What the network answered is an input:
  whether a fire-and-forget request was delivered, and what the session
  endpoints returned.
 */
module ClientStore {
  import opened Wrappers
  import opened Http
  import opened Presence

  /** Twenty-five minutes in milliseconds. */
  const FOCUS_DURATION_MS: int := 25 * 60 * 1000

  datatype AppState = AppState(
    userId: string,
    userName: string,
    userColor: string,
    dbUserId: Option<string>,
    roomId: Option<string>,
    focusDuration: int,
    isFocused: bool,
    focusStartTime: Option<int>,
    remainingTime: int,
    totalFocusTime: int,
    currentSessionId: Option<string>)

  /** A request the client sends. */
  datatype Call =
    | PostStatus(body: StatusBody)
    | DeleteStatus(roomId: string, userId: string)
    | OpenSession(sessionUserId: string, sessionRoomId: Option<string>)
    | CloseSession(sessionId: string)

  /** The store before any action; the colour is drawn at random by the caller. */
  function Initial(color: string): (s: AppState)
    ensures s.focusDuration == s.remainingTime == FOCUS_DURATION_MS
    ensures !s.isFocused && s.focusStartTime.None? && s.totalFocusTime == 0
    ensures s.dbUserId.None? && s.roomId.None? && s.currentSessionId.None?
    ensures s.userColor == color
    ensures s.userId == "" && s.userName == ""
  {
    AppState("", "", color, None, None, FOCUS_DURATION_MS, false, None, FOCUS_DURATION_MS, 0, None)
  }

  /** The client-side pairing: focused exactly when a start time is recorded. */
  predicate Paired(s: AppState)
  {
    s.isFocused <==> s.focusStartTime.Some?
  }

  /** Both the room and the database user are known, so status is synced. */
  predicate Syncing(s: AppState)
  {
    Truthy(s.roomId) && Truthy(s.dbUserId)
  }

  /** A status write for the presence route; the total goes out in whole seconds, rounded down. */
  function StatusOf(s: AppState, roomId: string, userName: string, focusing: bool, start: Option<int>, totalMs: int)
    : (b: StatusBody)
    requires Truthy(s.dbUserId)
    ensures b.roomId == Some(roomId) && b.userId == s.dbUserId
    ensures b.isFocusing == Some(focusing) && b.focusStartTime == start
    ensures b.totalFocusTime.Some? && b.totalFocusTime.value * 1000 <= totalMs < b.totalFocusTime.value * 1000 + 1000
  {
    StatusBody(Some(roomId), s.dbUserId, Some(userName), Some(s.userColor), Some(focusing), start, Some(totalMs / 1000))
  }

  /** The status write an action sends when it syncs, or nothing. */
  function Sync(s: AppState, focusing: bool, start: Option<int>, totalMs: int): (calls: seq<Call>)
    ensures |calls| == if Syncing(s) then 1 else 0
    ensures Syncing(s) ==> calls == [PostStatus(StatusOf(s, s.roomId.value, s.userName, focusing, start, totalMs))]
  {
    if Syncing(s) then [PostStatus(StatusOf(s, s.roomId.value, s.userName, focusing, start, totalMs))] else []
  }

  /**
    `joinRoom`: without a database user nothing happens. Otherwise an idle
    status is posted for `roomId`; once the request is delivered (whatever the
    HTTP status) the room and name are taken and the user id becomes the
    database id.
   */
  function JoinRoom(s: AppState, roomId: string, userName: string, delivered: bool): (r: (AppState, seq<Call>))
    ensures !Truthy(s.dbUserId) ==> r == (s, [])
    ensures Truthy(s.dbUserId) ==> r.1 == [PostStatus(StatusOf(s, roomId, userName, false, None, s.totalFocusTime))]
    ensures Truthy(s.dbUserId) && delivered ==>
              r.0 == s.(roomId := Some(roomId), userName := userName, userId := s.dbUserId.value)
    ensures !delivered ==> r.0 == s
  {
    if !Truthy(s.dbUserId) then (s, [])
    else
      var call := PostStatus(StatusOf(s, roomId, userName, false, None, s.totalFocusTime));
      if delivered then (s.(roomId := Some(roomId), userName := userName, userId := s.dbUserId.value), [call])
      else (s, [call])
  }

  /** `leaveRoom`: only with both ids set; the presence row is soft-left and, once delivered, the room forgotten. */
  function LeaveRoom(s: AppState, delivered: bool): (r: (AppState, seq<Call>))
    ensures !Syncing(s) ==> r == (s, [])
    ensures Syncing(s) ==> r.1 == [DeleteStatus(s.roomId.value, s.dbUserId.value)]
    ensures Syncing(s) && delivered ==> r.0 == s.(roomId := None)
    ensures !delivered ==> r.0 == s
  {
    if !Syncing(s) then (s, [])
    else
      var call := DeleteStatus(s.roomId.value, s.dbUserId.value);
      (if delivered then s.(roomId := None) else s, [call])
  }

  /**
    `startFocus` at `now`: focused from `now` with a full interval. With a
    database user a session is opened (in the room when there is one), and the
    id it returns, if it succeeded, replaces `currentSessionId`; an open
    session is not closed first.
   */
  function StartFocus(s: AppState, now: int, started: Option<string>): (r: (AppState, seq<Call>))
    ensures r.0.isFocused && r.0.focusStartTime == Some(now) && r.0.remainingTime == s.focusDuration
    ensures r.0.totalFocusTime == s.totalFocusTime && r.0.roomId == s.roomId && r.0.dbUserId == s.dbUserId
    ensures r.0.focusDuration == s.focusDuration
    ensures r.0.currentSessionId == if Truthy(s.dbUserId) && started.Some? then started else s.currentSessionId
    ensures r.1 == (if Truthy(s.dbUserId)
                    then [OpenSession(s.dbUserId.value, if Truthy(s.roomId) then s.roomId else None)]
                    else [])
                   + Sync(s, true, Some(now), s.totalFocusTime)
  {
    var focused := s.(isFocused := true, focusStartTime := Some(now), remainingTime := s.focusDuration);
    if Truthy(s.dbUserId) then
      var openCall := OpenSession(s.dbUserId.value, if Truthy(s.roomId) then s.roomId else None);
      (if started.Some? then focused.(currentSessionId := started) else focused,
       [openCall] + Sync(s, true, Some(now), s.totalFocusTime))
    else (focused, Sync(s, true, Some(now), s.totalFocusTime))
  }

  /** The time a stop adds: `now - focusStartTime` when the start time is truthy, else nothing. */
  function Elapsed(s: AppState, now: int): (ms: int)
    ensures s.focusStartTime.None? || s.focusStartTime == Some(0) ==> ms == 0
    ensures s.focusStartTime.Some? && s.focusStartTime.value != 0 ==> ms == now - s.focusStartTime.value
  {
    if s.focusStartTime.Some? && s.focusStartTime.value != 0 then now - s.focusStartTime.value else 0
  }

  /**
    The common part of `pauseFocus` and `endFocus` at `now`: idle, the elapsed
    time added to the total, the current session closed (and forgotten only if
    closing succeeded), the idle status synced with the new total.
   */
  function Stop(s: AppState, now: int, closed: bool, resetRemaining: bool): (r: (AppState, seq<Call>))
    ensures !r.0.isFocused && r.0.focusStartTime.None?
    ensures r.0.totalFocusTime == s.totalFocusTime + Elapsed(s, now)
    ensures r.0.remainingTime == if resetRemaining then s.focusDuration else s.remainingTime
    ensures r.0.focusDuration == s.focusDuration && r.0.roomId == s.roomId && r.0.dbUserId == s.dbUserId
    ensures r.0.currentSessionId == if Truthy(s.currentSessionId) && closed then None else s.currentSessionId
    ensures r.1 == (if Truthy(s.currentSessionId) then [CloseSession(s.currentSessionId.value)] else [])
                   + Sync(s, false, None, s.totalFocusTime + Elapsed(s, now))
  {
    var total := s.totalFocusTime + Elapsed(s, now);
    var idle := s.(isFocused := false, focusStartTime := None, totalFocusTime := total,
                   remainingTime := if resetRemaining then s.focusDuration else s.remainingTime);
    if Truthy(s.currentSessionId) then
      (if closed then idle.(currentSessionId := None) else idle,
       [CloseSession(s.currentSessionId.value)] + Sync(s, false, None, total))
    else (idle, Sync(s, false, None, total))
  }

  /** `pauseFocus`: stops and keeps the remaining time. */
  function PauseFocus(s: AppState, now: int, closed: bool): (r: (AppState, seq<Call>))
    ensures r.0.remainingTime == s.remainingTime
    ensures !r.0.isFocused && r.0.totalFocusTime == s.totalFocusTime + Elapsed(s, now)
  {
    Stop(s, now, closed, false)
  }

  /** `endFocus`: stops and refills the remaining time to a full interval. */
  function EndFocus(s: AppState, now: int, closed: bool): (r: (AppState, seq<Call>))
    ensures r.0.remainingTime == s.focusDuration
    ensures !r.0.isFocused && r.0.totalFocusTime == s.totalFocusTime + Elapsed(s, now)
  {
    Stop(s, now, closed, true)
  }

  /** The setters and `updateRemainingTime`. */
  datatype Setter =
    | SetUserId(id: string)
    | SetUserName(name: string)
    | SetRoomId(roomId: string)
    | SetDbUserId(dbUserId: Option<string>)
    | SetCurrentSessionId(sessionId: Option<string>)
    | UpdateRemainingTime(time: int)

  function ApplySetter(s: AppState, setter: Setter): (r: AppState)
    ensures r.isFocused == s.isFocused && r.focusStartTime == s.focusStartTime
    ensures r.totalFocusTime == s.totalFocusTime && r.focusDuration == s.focusDuration
  {
    match setter
    case SetUserId(id) => s.(userId := id)
    case SetUserName(name) => s.(userName := name)
    case SetRoomId(roomId) => s.(roomId := Some(roomId))
    case SetDbUserId(dbUserId) => s.(dbUserId := dbUserId)
    case SetCurrentSessionId(sessionId) => s.(currentSessionId := sessionId)
    case UpdateRemainingTime(time) => s.(remainingTime := time)
  }

  /** One client action together with what the network answered it. */
  datatype Action =
    | Join(roomId: string, userName: string, delivered: bool)
    | Leave(delivered: bool)
    | Start(now: int, started: Option<string>)
    | Pause(now: int, closed: bool)
    | End(now: int, closed: bool)
    | Set(setter: Setter)

  function Step(s: AppState, a: Action): (r: (AppState, seq<Call>))
  {
    match a
    case Join(roomId, userName, delivered) => JoinRoom(s, roomId, userName, delivered)
    case Leave(delivered) => LeaveRoom(s, delivered)
    case Start(now, started) => StartFocus(s, now, started)
    case Pause(now, closed) => PauseFocus(s, now, closed)
    case End(now, closed) => EndFocus(s, now, closed)
    case Set(setter) => (ApplySetter(s, setter), [])
  }

  /** The state after a run of actions, and every request sent along the way. */
  function Run(s: AppState, actions: seq<Action>): (AppState, seq<Call>)
    decreases |actions|
  {
    if |actions| == 0 then (s, [])
    else
      var first := Step(s, actions[0]);
      var rest := Run(first.0, actions[1..]);
      (rest.0, first.1 + rest.1)
  }

  // ------------------------------------------------------------------ laws

  /** Every action leaves the client paired, whatever the network answered. */
  lemma StepKeepsPairing(s: AppState, a: Action)
    requires Paired(s)
    ensures Paired(Step(s, a).0)
  {
  }

  /** Every state a run reaches from the initial state is paired. */
  lemma {:induction false} RunKeepsPairing(s: AppState, actions: seq<Action>)
    requires Paired(s)
    ensures Paired(Run(s, actions).0)
    decreases |actions|
  {
    if |actions| > 0 {
      StepKeepsPairing(s, actions[0]);
      RunKeepsPairing(Step(s, actions[0]).0, actions[1..]);
    }
  }

  /** A status body that says focusing carries a start time, and one that says idle carries none. */
  predicate StatusPaired(c: Call)
  {
    c.PostStatus? ==> (c.body.isFocusing == Some(true) <==> c.body.focusStartTime.Some?)
  }

  lemma StepSendsPairedStatus(s: AppState, a: Action)
    ensures forall c :: c in Step(s, a).1 ==> StatusPaired(c)
  {
  }

  /** Every status the client ever posts pairs `isFocusing` with `focusStartTime`. */
  lemma {:induction false} RunSendsPairedStatus(s: AppState, actions: seq<Action>)
    ensures forall c :: c in Run(s, actions).1 ==> StatusPaired(c)
    decreases |actions|
  {
    if |actions| > 0 {
      StepSendsPairedStatus(s, actions[0]);
      RunSendsPairedStatus(Step(s, actions[0]).0, actions[1..]);
    }
  }

  /** Starting at `t1` and pausing at `t2` adds `t2 - t1` to the total (the start time 0 is falsy and adds nothing). */
  lemma StartThenPause(s: AppState, t1: int, t2: int, started: Option<string>, closed: bool)
    ensures var after := PauseFocus(StartFocus(s, t1, started).0, t2, closed).0;
            after.totalFocusTime == s.totalFocusTime + (if t1 != 0 then t2 - t1 else 0)
  {
  }

  /** The time an action happens at, for the actions that read the clock. */
  function TimeOf(a: Action): Option<int>
  {
    match a
    case Start(now, _) => Some(now)
    case Pause(now, _) => Some(now)
    case End(now, _) => Some(now)
    case _ => None
  }

  /** The clock never runs backwards over the run, nor behind the recorded start time. */
  predicate ClockMonotone(s: AppState, actions: seq<Action>)
  {
    && (forall i, j :: 0 <= i < j < |actions| && TimeOf(actions[i]).Some? && TimeOf(actions[j]).Some? ==>
          TimeOf(actions[i]).value <= TimeOf(actions[j]).value)
    && (forall i :: 0 <= i < |actions| && TimeOf(actions[i]).Some? && s.focusStartTime.Some? ==>
          s.focusStartTime.value <= TimeOf(actions[i]).value)
  }

  /** On a clock that does not run backwards, the accumulated focus time never shrinks. */
  lemma {:induction false} RunTotalNonDecreasing(s: AppState, actions: seq<Action>)
    requires ClockMonotone(s, actions)
    ensures Run(s, actions).0.totalFocusTime >= s.totalFocusTime
    decreases |actions|
  {
    if |actions| > 0 {
      var a := actions[0];
      var next := Step(s, a).0;
      assert next.totalFocusTime >= s.totalFocusTime by {
        if TimeOf(a).Some? && s.focusStartTime.Some? {
          assert s.focusStartTime.value <= TimeOf(actions[0]).value;
        }
      }
      assert ClockMonotone(next, actions[1..]) by {
        forall i | 0 <= i < |actions[1..]| && TimeOf(actions[1..][i]).Some? && next.focusStartTime.Some?
          ensures next.focusStartTime.value <= TimeOf(actions[1..][i]).value
        {
          assert actions[1..][i] == actions[i + 1];
          if TimeOf(a).None? {
            assert next.focusStartTime == s.focusStartTime;
          }
        }
      }
      RunTotalNonDecreasing(next, actions[1..]);
    }
  }
}
