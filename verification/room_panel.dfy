/**
  The room panel: the join form's input rules and the aggregates the panel
  shows for a room (total minutes, online and focusing counts, per-user
  minutes), computed from the users of the polled presence snapshot.
 */
module RoomPanel {
  import opened Wrappers
  import opened Seqs
  import opened Text
  import opened Http
  import opened Presence
  import Db
  import ClientStore

  /** Length of a room code generated when the room field is left blank (`nanoid(10)`). */
  const ROOM_CODE_LENGTH: nat := 10

  predicate IsUrlAlphabet(c: char)
  {
    || ('A' <= c <= 'Z') || ('a' <= c <= 'z') || ('0' <= c <= '9') || c == '_' || c == '-'
  }

  /** What `nanoid(10)` produces: ten characters of the URL-safe alphabet. */
  predicate IsFreshCode(code: string)
  {
    |code| == ROOM_CODE_LENGTH && forall i :: 0 <= i < |code| ==> IsUrlAlphabet(code[i])
  }

  /** The panel mounts on its join screen exactly when the store holds no (truthy) room. */
  predicate InitiallyJoining(app: ClientStore.AppState)
  {
    !Truthy(app.roomId)
  }

  /**
    The panel opens on its join screen in a fresh store, and no longer does once
    a join with a database user has been delivered; without one, `joinRoom`
    leaves the screen as it was.
   */
  lemma JoinScreenOfStore(color: string, app: ClientStore.AppState, room: string, name: string, delivered: bool)
    ensures InitiallyJoining(ClientStore.Initial(color))
    ensures room != "" && Truthy(app.dbUserId) && delivered ==>
              !InitiallyJoining(ClientStore.JoinRoom(app, room, name, delivered).0)
    ensures !Truthy(app.dbUserId) || !delivered ==>
              InitiallyJoining(ClientStore.JoinRoom(app, room, name, delivered).0) == InitiallyJoining(app)
  {
  }

  /** The room to join: the trimmed room field, or a fresh code when that is blank. */
  function RoomCode(inputRoom: string, freshCode: string): (r: string)
    requires IsFreshCode(freshCode)
    ensures |r| > 0
    ensures |Trim(inputRoom)| > 0 ==> r == Trim(inputRoom)
    ensures |Trim(inputRoom)| == 0 ==> r == freshCode
  {
    var typed := Trim(inputRoom);
    if |typed| > 0 then typed else freshCode
  }

  /**
    What pressing "enter" does. `Refused` is the alert for a blank name: no user
    is created and the store is not asked to join. Otherwise the panel asks the
    user route for `(name, color)`, records the returned id when the request
    succeeded, calls the store's `joinRoom(room, name)` and leaves the join
    screen.
   */
  datatype JoinAttempt =
    | Refused
    | Attempted(name: string, color: string, room: string, app: ClientStore.AppState, calls: seq<ClientStore.Call>)

  /**
    `created` is the id the user route answered with, `None` when that request
    failed; `freshCode` is the generated room code; `delivered` is whether the
    store's own status request succeeded.
   */
  function HandleJoinRoom(app: ClientStore.AppState, inputName: string, inputRoom: string, freshCode: string,
                          created: Option<string>, delivered: bool): (r: JoinAttempt)
    requires IsFreshCode(freshCode)
    ensures r.Refused? <==> forall i :: 0 <= i < |inputName| ==> IsJsWhitespace(inputName[i])
    ensures r.Attempted? ==>
              && |r.name| > 0 && !IsJsWhitespace(r.name[0]) && !IsJsWhitespace(r.name[|r.name| - 1])
              && r.color == app.userColor
              && |r.room| > 0
    ensures r.Attempted? ==> r.name == Trim(inputName) && r.room == RoomCode(inputRoom, freshCode)
  {
    var name := Trim(inputName);
    if |name| == 0 then Refused
    else
      Attempt(app, name, RoomCode(inputRoom, freshCode), created, delivered)
  }

  /** Joining `room` under `name` once the user has (possibly) been created. */
  function Attempt(app: ClientStore.AppState, name: string, room: string, created: Option<string>,
                   delivered: bool): (r: JoinAttempt)
    ensures r.Attempted? && r.name == name && r.room == room && r.color == app.userColor
  {
    var joined := ClientStore.JoinRoom(WithCreatedId(app, created), room, name, delivered);
    Attempted(name, app.userColor, room, joined.0, joined.1)
  }

  /** The store after `setDbUserId`, which only happens when creating the user succeeded. */
  function WithCreatedId(app: ClientStore.AppState, created: Option<string>): ClientStore.AppState
  {
    if created.Some? then app.(dbUserId := created) else app
  }

  lemma WithCreatedIdTruthy(app: ClientStore.AppState, created: Option<string>)
    requires Truthy(created) || (created.None? && Truthy(app.dbUserId))
    ensures Truthy(WithCreatedId(app, created).dbUserId)
  {
  }

  /**
    The store's `joinRoom` runs whether or not creating the user succeeded: with
    a user id (just created, or already held when creating failed) it sends one presence update for the
    chosen room, and when that is delivered the store holds that room, the
    trimmed name and the created id.
   */
  lemma JoinReachesStore(app: ClientStore.AppState, inputName: string, inputRoom: string, freshCode: string,
                         created: Option<string>, delivered: bool)
    requires IsFreshCode(freshCode)
    requires exists i :: 0 <= i < |inputName| && !IsJsWhitespace(inputName[i])
    ensures
      var r := HandleJoinRoom(app, inputName, inputRoom, freshCode, created, delivered);
      && r.Attempted?
      && (Truthy(created) || (created.None? && Truthy(app.dbUserId)) ==>
            |r.calls| == 1 && r.calls[0].PostStatus? && r.calls[0].body.roomId == Some(r.room))
      && (Truthy(created) && delivered ==>
            && r.app.roomId == Some(r.room)
            && r.app.userName == r.name
            && r.app.dbUserId == created
            && r.app.userId == created.value)
  {
    var name := Trim(inputName);
    assert |name| > 0;
    var room := RoomCode(inputRoom, freshCode);
    var withId := WithCreatedId(app, created);
    var joined := ClientStore.JoinRoom(withId, room, name, delivered);
    assert HandleJoinRoom(app, inputName, inputRoom, freshCode, created, delivered)
        == Attempted(name, app.userColor, room, joined.0, joined.1);
    if Truthy(created) || (created.None? && Truthy(app.dbUserId)) {
      WithCreatedIdTruthy(app, created);
      var b := ClientStore.StatusOf(withId, room, name, false, None, withId.totalFocusTime);
      assert joined.1 == [ClientStore.PostStatus(b)];
    }
  }

  /** The users the panel sees: none without a room or before the first snapshot arrives. */
  function VisibleUsers(roomId: Option<string>, data: Option<Snapshot>): (r: seq<PresenceUser>)
    ensures !Truthy(roomId) || data.None? ==> r == []
    ensures Truthy(roomId) && data.Some? ==> r == data.value.users
  {
    if !Truthy(roomId) then []
    else match data
      case None => []
      case Some(d) => d.users
  }

  /**
    After a successful poll of room `code`, the panel shows exactly the
    projected live rows of that room, newest first, and nobody for an unknown
    room; every user shown comes from a row of the room seen within the window.
   */
  lemma VisibleUsersOfPoll(st: Db.Store, code: string, now: int, fault: Fault)
    requires code != "" && Get(st, Some(code), now, fault).Json?
    ensures var users := VisibleUsers(Some(code), Some(Get(st, Some(code), now, fault).body));
            && (Db.FindRoom(st, code).None? ==> users == [])
            && (Db.FindRoom(st, code).Some? ==>
                  var room := Db.FindRoom(st, code).value;
                  && users == ProjectAll(st.users, LiveMembers(st, room.id, now))
                  && forall u :: u in users ==>
                       exists m :: m in st.members && m.roomId == room.id && IsLive(m, now) && u.id == m.userId)
  {
    var r := Get(st, Some(code), now, fault);
    assert !Fails(fault, 0);
    if Db.FindRoom(st, code).Some? {
      var room := Db.FindRoom(st, code).value;
      assert !Fails(fault, 1);
      forall u | u in ProjectAll(st.users, LiveMembers(st, room.id, now))
        ensures exists m :: m in st.members && m.roomId == room.id && IsLive(m, now) && u.id == m.userId
      {
        ListedIsLive(st, room.id, now, u);
      }
    }
  }


  function TotalSeconds(u: PresenceUser): int { u.totalFocusTime }

  predicate IsFocused(u: PresenceUser) { u.isFocused }

  predicate IsIdle(u: PresenceUser) { !u.isFocused }

  /** The room's total focus, in whole minutes: the floor of the summed seconds over 60. */
  function TotalMinutes(users: seq<PresenceUser>): (r: int)
    ensures 60 * r <= Sum(users, TotalSeconds) < 60 * r + 60
  {
    Sum(users, TotalSeconds) / 60
  }

  /** One member's focus in whole minutes. */
  function UserMinutes(u: PresenceUser): (r: int)
    ensures 60 * r <= u.totalFocusTime < 60 * r + 60
  {
    u.totalFocusTime / 60
  }

  /** The "online" count: everybody listed, focusing or not. */
  function OnlineCount(users: seq<PresenceUser>): (r: nat)
    ensures r == FocusingCount(users) + |Filter(users, IsIdle)|
  {
    FilterPartition(users, IsFocused, IsIdle);
    |users|
  }

  /** The "focusing" count: the listed users whose flag is set. */
  function FocusingCount(users: seq<PresenceUser>): (r: nat)
    ensures forall u :: u in users && u.isFocused ==> r > 0
    ensures r <= |users|
  {
    |Filter(users, IsFocused)|
  }

  lemma {:induction false} MinuteFloors(users: seq<PresenceUser>)
    ensures 60 * Sum(users, UserMinutes) <= Sum(users, TotalSeconds)
    ensures Sum(users, TotalSeconds) <= 60 * Sum(users, UserMinutes) + 59 * |users|
  {
    if |users| > 0 {
      MinuteFloors(users[1..]);
      var u := users[0];
      assert 60 * UserMinutes(u) <= TotalSeconds(u) <= 60 * UserMinutes(u) + 59;
    }
  }

  /**
    The per-member minutes never add up to more than the room total, and fall
    short of it by less than one minute per member (each floor drops under a
    minute).
   */
  lemma MinutesAddUp(users: seq<PresenceUser>)
    ensures Sum(users, UserMinutes) <= TotalMinutes(users)
    ensures TotalMinutes(users) - Sum(users, UserMinutes) <= (59 * |users|) / 60
    ensures |users| > 0 ==> TotalMinutes(users) - Sum(users, UserMinutes) < |users|
  {
    MinuteFloors(users);
    var s := Sum(users, TotalSeconds);
    var f := Sum(users, UserMinutes);
    var n := |users|;
    assert s - 60 * f <= 59 * n;
    assert (s - 60 * f) / 60 == s / 60 - f;
    assert (s - 60 * f) / 60 <= (59 * n) / 60;
  }

  /**
    At most everybody online is focusing; exactly everybody is when every user
    is focused, and nobody is when no user is.
   */
  lemma FocusingCountBounds(users: seq<PresenceUser>)
    ensures FocusingCount(users) <= OnlineCount(users)
    ensures FocusingCount(users) == OnlineCount(users) <==> forall i :: 0 <= i < |users| ==> users[i].isFocused
    ensures FocusingCount(users) == 0 <==> forall i :: 0 <= i < |users| ==> !users[i].isFocused
  {
    var f := Filter(users, IsFocused);
    if forall i :: 0 <= i < |users| ==> IsFocused(users[i]) {
      FilterAll(users, IsFocused);
    }
    if |f| == |users| {
      FilterKeepsAll(users, IsFocused);
    }
    if |f| > 0 {
      assert f[0] in users;
    }
    if exists i :: 0 <= i < |users| && users[i].isFocused {
      var i :| 0 <= i < |users| && users[i].isFocused;
      assert users[i] in f;
    }
  }
}
