/**
  The presence table behind the poll-mode synchronisation channel: POST
  upserts a member's status and stamps `lastActiveAt = now`, GET lists the
  members seen within the last five minutes, newest first, and DELETE is a
  soft leave that moves `lastActiveAt` to the epoch and keeps the row.

  The request's room field carries the room CODE; rows are keyed by the
  room's internal id. `now` is the server clock in milliseconds.
 */
module Presence {
  import opened Wrappers
  import opened Seqs
  import opened Http
  import opened Db

  /** The liveness window: five minutes in milliseconds. */
  const LIVENESS_WINDOW_MS: int := 5 * 60 * 1000

  /** Every member is drawn at size 1 by the presence route. */
  const PLANET_SIZE: int := 1

  /** The soft-leave sentinel: `new Date(0)`. */
  const EPOCH: int := 0

  /** A status write, as the client sends it; absent fields are `None`. */
  datatype StatusBody = StatusBody(
    roomId: Option<string>,
    userId: Option<string>,
    userName: Option<string>,
    color: Option<string>,
    isFocusing: Option<bool>,
    focusStartTime: Option<int>,
    totalFocusTime: Option<int>)

  /** One member of the live list, in the shape the client renders. */
  datatype PresenceUser = PresenceUser(
    id: Id,
    name: string,
    color: string,
    planetSize: int,
    isFocused: bool,
    focusStartTime: Option<int>,
    totalFocusTime: int)

  datatype Snapshot = Snapshot(users: seq<PresenceUser>, roomId: string, timestamp: int)

  /** `x ? new Date(x) : null` and `getTime() || null`: a zero time reads as no time. */
  function TruthyTime(t: Option<int>): (r: Option<int>)
    ensures r.Some? <==> t.Some? && t.value != 0
    ensures r.Some? ==> r == t
  {
    if t.Some? && t.value != 0 then t else None
  }

  /** The update POST applies: `isFocusing || false`, truthy start time or null, `totalFocusTime || 0`, seen now. */
  function StatusUpdate(body: StatusBody, now: int): MemberUpdate
  {
    SetStatus(body.isFocusing.GetOr(false), TruthyTime(body.focusStartTime), body.totalFocusTime.GetOr(0), now)
  }

  /**
    POST: with both ids present, ensures the room (store call 0) and upserts the
    member row (store call 1). A missing id answers 400 and writes nothing.
   */
  function Post(st: Store, body: StatusBody, now: int, freshRoomId: Id, fault: Fault): (r: (Store, Reply<Ack>))
    ensures !Truthy(body.roomId) || !Truthy(body.userId) ==> r.0 == st && r.1 == Error(BAD_REQUEST)
    ensures r.1.Status() == OK <==> Truthy(body.roomId) && Truthy(body.userId) && !Fails(fault, 0) && !Fails(fault, 1)
    ensures r.1.Status() in {OK, BAD_REQUEST, SERVER_ERROR}
    ensures r.0.users == st.users && r.0.sessions == st.sessions
    ensures r.1.Status() == OK ==>
              var room := FindRoom(r.0, body.roomId.value);
              && room.Some?
              && (FindRoom(st, body.roomId.value).Some? ==> room == FindRoom(st, body.roomId.value))
    ensures r.1.Status() == OK ==>
              var room := FindRoom(r.0, body.roomId.value).value;
              var i := FindMember(r.0.members, body.userId.value, room.id);
              && i.Some?
              && r.0.members[i.value].isFocusing == body.isFocusing.GetOr(false)
              && r.0.members[i.value].focusStartTime == TruthyTime(body.focusStartTime)
              && r.0.members[i.value].totalFocusTime == body.totalFocusTime.GetOr(0)
              && r.0.members[i.value].lastActiveAt == now
    ensures UniqueBy(st.members, MemberKey) ==> UniqueBy(r.0.members, MemberKey)
    ensures Fails(fault, 0) || r.1.Status() == BAD_REQUEST ==> r.0 == st
    ensures r.1.Status() == SERVER_ERROR ==> r.0.members == st.members
    ensures !Truthy(body.roomId) || FindRoom(st, body.roomId.value).Some? ==> r.0.rooms == st.rooms
    ensures r.1.Status() == OK ==>
              forall j ::
                (0 <= j < |st.members|
                 && MemberKey(st.members[j]) != (body.userId.value, FindRoom(r.0, body.roomId.value).value.id)) ==>
                j < |r.0.members| && r.0.members[j] == st.members[j]
    ensures Truthy(body.roomId) && Truthy(body.userId) && !Fails(fault, 0) && FindRoom(st, body.roomId.value).None? ==>
              r.0.rooms == st.rooms + [Room(freshRoomId, body.roomId.value, Some(DefaultRoomName(body.roomId.value)))]
    ensures r.1.Status() == OK ==> |st.members| <= |r.0.members| <= |st.members| + 1
  {
    if !Truthy(body.roomId) || !Truthy(body.userId) then (st, Error(BAD_REQUEST))
    else if Fails(fault, 0) then (st, Error(SERVER_ERROR))
    else
      var code := body.roomId.value;
      var created := CreateRoom(st, code, Some(DefaultRoomName(code)), freshRoomId);
      if Fails(fault, 1) then (created.store, Error(SERVER_ERROR))
      else
        var upd := StatusUpdate(body, now);
        var ms := UpsertMember(created.store.members, body.userId.value, created.value.id, now, upd);
        UpsertSetsStatus(created.store.members, body.userId.value, created.value.id, now, upd);
        var after := created.store.(members := ms);
        assert FindRoom(after, code) == Some(created.value) by {
          assert after.rooms == created.store.rooms;
        }
        (after, Json(OK, Acknowledged))
  }

  /** Seen at or after `now - 5 min` (the query's `gte`). */
  predicate IsLive(m: Member, now: int): (b: bool)
    ensures b <==> now - m.lastActiveAt <= 5 * 60 * 1000
  {
    m.lastActiveAt >= now - LIVENESS_WINDOW_MS
  }

  function LastActiveAt(m: Member): int { m.lastActiveAt }

  /**
    The rows of room `roomId` seen within the window, newest first: exactly the
    live rows of that room, each as often as in the table.
   */
  function LiveMembers(st: Store, roomId: Id, now: int): (r: seq<Member>)
    ensures SortedDesc(r, LastActiveAt)
    ensures forall m :: m in r <==> m in st.members && m.roomId == roomId && IsLive(m, now)
    ensures forall m :: multiset(r)[m] == if m.roomId == roomId && IsLive(m, now) then multiset(st.members)[m] else 0
  {
    var p := (m: Member) => m.roomId == roomId && IsLive(m, now);
    var live := Filter(st.members, p);
    FilterMultiset(st.members, p);
    var r := SortDesc(live, LastActiveAt);
    assert forall m :: m in r <==> m in multiset(live);
    r
  }

  /** The client's view of a row: the user's name and colour joined in, `isFocusing` as `isFocused`. */
  function Project(users: seq<User>, m: Member): (u: PresenceUser)
    ensures u.id == m.userId && u.isFocused == m.isFocusing && u.planetSize == PLANET_SIZE
    ensures u.focusStartTime == TruthyTime(m.focusStartTime) && u.totalFocusTime == m.totalFocusTime
    ensures forall j ::
              (0 <= j < |users| && users[j].id == m.userId && forall k :: 0 <= k < j ==> users[k].id != m.userId) ==>
              u.name == users[j].name && u.color == users[j].color
    ensures (forall x :: x in users ==> x.id != m.userId) ==> u.name == "" && u.color == ""
  {
    var who := FirstIndex(users, (x: User) => x.id == m.userId);
    var name := if who.Some? then users[who.value].name else "";
    var color := if who.Some? then users[who.value].color else "";
    PresenceUser(m.userId, name, color, PLANET_SIZE, m.isFocusing, TruthyTime(m.focusStartTime), m.totalFocusTime)
  }

  function ProjectAll(users: seq<User>, ms: seq<Member>): (r: seq<PresenceUser>)
    ensures |r| == |ms|
    ensures forall i :: 0 <= i < |ms| ==> r[i] == Project(users, ms[i])
  {
    seq(|ms|, i requires 0 <= i < |ms| => Project(users, ms[i]))
  }

  /**
    GET: 400 without a room code; an empty list for an unknown room (store call
    0 finds the room); otherwise the projected live rows (store call 1). GET
    returns no store: it never writes.
   */
  function Get(st: Store, roomId: Option<string>, now: int, fault: Fault): (r: Reply<Snapshot>)
    ensures !Truthy(roomId) ==> r == Error(BAD_REQUEST)
    ensures r.Status() in {OK, BAD_REQUEST, SERVER_ERROR}
    ensures r.Json? ==> r.status == OK && r.body.roomId == roomId.value && r.body.timestamp == now
    ensures Truthy(roomId) && !Fails(fault, 0) && FindRoom(st, roomId.value).None? ==> r == Json(OK, Snapshot([], roomId.value, now))
    ensures Truthy(roomId) && !Fails(fault, 0) && !Fails(fault, 1) && FindRoom(st, roomId.value).Some? ==>
              r.Json? && r.body.users == ProjectAll(st.users, LiveMembers(st, FindRoom(st, roomId.value).value.id, now))
  {
    if !Truthy(roomId) then Error(BAD_REQUEST)
    else if Fails(fault, 0) then Error(SERVER_ERROR)
    else match FindRoom(st, roomId.value)
      case None => Json(OK, Snapshot([], roomId.value, now))
      case Some(room) =>
        if Fails(fault, 1) then Error(SERVER_ERROR)
        else Json(OK, Snapshot(ProjectAll(st.users, LiveMembers(st, room.id, now)), roomId.value, now))
  }

  /** The soft leave of one row: idle, no start time, last seen at the epoch. */
  function SoftLeave(m: Member): Member
  {
    m.(lastActiveAt := EPOCH, isFocusing := false, focusStartTime := None)
  }

  function SoftLeaveRows(ms: seq<Member>, userId: Id, roomId: Id): (r: seq<Member>)
    ensures |r| == |ms|
    ensures forall i :: 0 <= i < |ms| ==> MemberKey(r[i]) == MemberKey(ms[i])
    ensures forall i :: 0 <= i < |ms| && MemberKey(ms[i]) == (userId, roomId) ==> r[i] == SoftLeave(ms[i])
    ensures forall i :: 0 <= i < |ms| && MemberKey(ms[i]) != (userId, roomId) ==> r[i] == ms[i]
  {
    seq(|ms|, i requires 0 <= i < |ms| => if MemberKey(ms[i]) == (userId, roomId) then SoftLeave(ms[i]) else ms[i])
  }

  /**
    DELETE: 400 without both ids; success without a write for an unknown room
    (store call 0 finds the room); otherwise the user's row in the room is
    soft-left (store call 1) and kept.
   */
  function Delete(st: Store, roomId: Option<string>, userId: Option<string>, fault: Fault): (r: (Store, Reply<Ack>))
    ensures !Truthy(roomId) || !Truthy(userId) ==> r == (st, Error(BAD_REQUEST))
    ensures r.1.Status() in {OK, BAD_REQUEST, SERVER_ERROR}
    ensures r.1.Status() == OK <==>
              Truthy(roomId) && Truthy(userId) && !Fails(fault, 0) && (FindRoom(st, roomId.value).None? || !Fails(fault, 1))
    ensures r.0.users == st.users && r.0.rooms == st.rooms && r.0.sessions == st.sessions
    ensures |r.0.members| == |st.members|
    ensures r.1.Status() != OK || FindRoom(st, roomId.value).None? ==> r.0 == st
    ensures r.1.Status() == OK && FindRoom(st, roomId.value).Some? ==>
              r.0.members == SoftLeaveRows(st.members, userId.value, FindRoom(st, roomId.value).value.id)
  {
    if !Truthy(roomId) || !Truthy(userId) then (st, Error(BAD_REQUEST))
    else if Fails(fault, 0) then (st, Error(SERVER_ERROR))
    else match FindRoom(st, roomId.value)
      case None => (st, Json(OK, Acknowledged))
      case Some(room) =>
        if Fails(fault, 1) then (st, Error(SERVER_ERROR))
        else (st.(members := SoftLeaveRows(st.members, userId.value, room.id)), Json(OK, Acknowledged))
  }

  // ------------------------------------------------------------------ laws

  /** A second DELETE of the same user and room changes nothing more. */
  lemma DeleteIdempotent(st: Store, roomId: Option<string>, userId: Option<string>, fault: Fault)
    requires Delete(st, roomId, userId, fault).1.Status() == OK
    ensures Delete(Delete(st, roomId, userId, fault).0, roomId, userId, NoFault) == Delete(st, roomId, userId, fault)
  {
    var once := Delete(st, roomId, userId, fault).0;
    assert FindRoom(once, roomId.value) == FindRoom(st, roomId.value);
    if FindRoom(st, roomId.value).Some? {
      var room := FindRoom(st, roomId.value).value;
      var twice := SoftLeaveRows(once.members, userId.value, room.id);
      assert twice == once.members by {
        forall i | 0 <= i < |twice| ensures twice[i] == once.members[i] {
          if MemberKey(st.members[i]) == (userId.value, room.id) {
            assert once.members[i] == SoftLeave(st.members[i]);
          }
        }
      }
    }
  }

  /** A soft-left row of the user in the room reads as last seen at the epoch. */
  lemma SoftLeftAtEpoch(ms: seq<Member>, userId: Id, roomId: Id, m: Member)
    requires m in SoftLeaveRows(ms, userId, roomId) && MemberKey(m) == (userId, roomId)
    ensures m.lastActiveAt == EPOCH && !m.isFocusing
  {
    var r := SoftLeaveRows(ms, userId, roomId);
    var i :| 0 <= i < |r| && r[i] == m;
    assert MemberKey(ms[i]) == MemberKey(r[i]);
  }

  /** Every live row of the room shows up, projected, in the GET body. */
  lemma LiveListed(st: Store, roomId: Id, m: Member, now: int)
    requires m in st.members && m.roomId == roomId && IsLive(m, now)
    ensures Project(st.users, m) in ProjectAll(st.users, LiveMembers(st, roomId, now))
  {
    var live := LiveMembers(st, roomId, now);
    assert m in live;
    var k :| 0 <= k < |live| && live[k] == m;
    assert ProjectAll(st.users, live)[k] == Project(st.users, m);
  }

  /** Every user the GET body lists comes from a live row of the room. */
  lemma ListedIsLive(st: Store, roomId: Id, now: int, u: PresenceUser)
    requires u in ProjectAll(st.users, LiveMembers(st, roomId, now))
    ensures exists m :: m in st.members && m.roomId == roomId && IsLive(m, now) && u.id == m.userId
  {
    var live := LiveMembers(st, roomId, now);
    var users := ProjectAll(st.users, live);
    var k :| 0 <= k < |users| && users[k] == u;
    assert live[k] in live;
  }

  /**
    Once a DELETE has gone through, the user is missing from every GET of that
    room made more than five minutes after the epoch, until the next POST.
   */
  lemma DeletedNotListed(st: Store, roomId: Option<string>, userId: Option<string>, fault: Fault, now: int)
    requires Delete(st, roomId, userId, fault).1.Status() == OK
    requires now > LIVENESS_WINDOW_MS
    ensures var snap := Get(Delete(st, roomId, userId, fault).0, roomId, now, NoFault);
            snap.Json? && forall u :: u in snap.body.users ==> u.id != userId.value
  {
    var after := Delete(st, roomId, userId, fault).0;
    var found := FindRoom(st, roomId.value);
    assert FindRoom(after, roomId.value) == found;
    if found.Some? {
      var room := found.value;
      assert after.members == SoftLeaveRows(st.members, userId.value, room.id);
      var users := ProjectAll(after.users, LiveMembers(after, room.id, now));
      forall u | u in users ensures u.id != userId.value {
        ListedIsLive(after, room.id, now, u);
        var m :| m in after.members && m.roomId == room.id && IsLive(m, now) && u.id == m.userId;
        if m.userId == userId.value {
          SoftLeftAtEpoch(st.members, userId.value, room.id, m);
        }
      }
    }
  }

  /** A GET lists the row of a user that was seen within the window, with its status. */
  lemma SeenRowListed(st: Store, code: string, userId: Id, t: int)
    requires code != "" && FindRoom(st, code).Some?
    requires FindMember(st.members, userId, FindRoom(st, code).value.id).Some?
    requires IsLive(st.members[FindMember(st.members, userId, FindRoom(st, code).value.id).value], t)
    ensures var m := st.members[FindMember(st.members, userId, FindRoom(st, code).value.id).value];
            var snap := Get(st, Some(code), t, NoFault);
            && snap.Json?
            && exists u :: u in snap.body.users && u.id == userId
                 && u.isFocused == m.isFocusing
                 && u.focusStartTime == TruthyTime(m.focusStartTime)
                 && u.totalFocusTime == m.totalFocusTime
  {
    var room := FindRoom(st, code).value;
    var m := st.members[FindMember(st.members, userId, room.id).value];
    var snap := Get(st, Some(code), t, NoFault);
    assert snap.Json? && snap.body.users == ProjectAll(st.users, LiveMembers(st, room.id, t));
    LiveListed(st, room.id, m, t);
    var u := Project(st.users, m);
    assert u in snap.body.users && u.id == userId;
  }

  /**
    After a POST, a GET of the same room at most five minutes later lists the
    user with the status that was posted.
   */
  lemma PostThenListed(st: Store, body: StatusBody, t0: int, freshRoomId: Id, fault: Fault, t: int)
    requires Post(st, body, t0, freshRoomId, fault).1.Status() == OK
    requires t <= t0 + LIVENESS_WINDOW_MS
    ensures var snap := Get(Post(st, body, t0, freshRoomId, fault).0, body.roomId, t, NoFault);
            && snap.Json?
            && exists u :: u in snap.body.users && u.id == body.userId.value
                 && u.isFocused == body.isFocusing.GetOr(false)
                 && u.focusStartTime == TruthyTime(body.focusStartTime)
                 && u.totalFocusTime == body.totalFocusTime.GetOr(0)
  {
    var after := Post(st, body, t0, freshRoomId, fault).0;
    SeenRowListed(after, body.roomId.value, body.userId.value, t);
  }

  /** The window is closed at its old end: a row seen exactly five minutes ago is still live. */
  lemma WindowBoundary(st: Store, roomId: Id, m: Member, now: int)
    requires m in st.members && m.roomId == roomId
    ensures m.lastActiveAt == now - LIVENESS_WINDOW_MS ==> m in LiveMembers(st, roomId, now)
    ensures m.lastActiveAt < now - LIVENESS_WINDOW_MS ==> m !in LiveMembers(st, roomId, now)
  {
  }
}
