/**
  The durable store of users, rooms, room members and focus sessions, with the
  operations of the data-access layer: user upsert keyed by email, idempotent
  room creation, join (upsert) and leave (hard delete) of members, opening and
  closing focus sessions, per-user statistics and newest-first listings.

  Each table is a sequence of rows in insertion order; the unique keys of the
  schema are the invariant `Wf`. Fresh ids, the clock and the guest key are
  parameters.
 */
module Db {
  import opened Wrappers
  import opened Seqs

  type Id = string

  datatype User = User(id: Id, name: string, color: string, email: Option<string>)

  datatype Room = Room(id: Id, roomCode: string, name: Option<string>)

  /** A presence row; `lastActiveAt` is the liveness clock, times are milliseconds. */
  datatype Member = Member(
    userId: Id,
    roomId: Id,
    isFocusing: bool,
    focusStartTime: Option<int>,
    totalFocusTime: int,
    lastActiveAt: int,
    joinedAt: int)

  /** A focus interval; `duration` is in whole seconds, set when the session is closed. */
  datatype Session = Session(
    id: Id,
    userId: Id,
    roomId: Option<Id>,
    startTime: int,
    endTime: Option<int>,
    duration: int,
    completed: bool)

  datatype Store = Store(users: seq<User>, rooms: seq<Room>, members: seq<Member>, sessions: seq<Session>)

  /** A store after a write, with the row the write returns. */
  datatype Written<+T> = Written(store: Store, value: T)

  /** The store refused a write: a unique column already holds the value. */
  datatype StoreError = UniqueViolation

  function UserId(u: User): Id { u.id }
  function RoomCode(r: Room): string { r.roomCode }
  function RoomId(r: Room): Id { r.id }
  function MemberKey(m: Member): (Id, Id) { (m.userId, m.roomId) }
  function SessionId(s: Session): Id { s.id }
  function StartTime(s: Session): int { s.startTime }
  function Duration(s: Session): int { s.duration }

  /** Emails are unique among the users that have one. */
  predicate EmailsUnique(users: seq<User>)
  {
    forall i, j :: 0 <= i < j < |users| && users[i].email.Some? ==> users[i].email != users[j].email
  }

  /** The unique keys of the schema. */
  predicate Wf(st: Store)
  {
    && UniqueBy(st.users, UserId)
    && EmailsUnique(st.users)
    && UniqueBy(st.rooms, RoomCode)
    && UniqueBy(st.rooms, RoomId)
    && UniqueBy(st.members, MemberKey)
    && UniqueBy(st.sessions, SessionId)
  }

  predicate UsedUserId(st: Store, id: Id) { exists i :: 0 <= i < |st.users| && st.users[i].id == id }
  predicate UsedRoomId(st: Store, id: Id) { exists i :: 0 <= i < |st.rooms| && st.rooms[i].id == id }
  predicate UsedSessionId(st: Store, id: Id) { exists i :: 0 <= i < |st.sessions| && st.sessions[i].id == id }

  // ---------------------------------------------------------------- users

  /** Where the user whose email is `key` sits, if any. */
  function UserWithEmail(users: seq<User>, key: string): Option<nat>
  {
    FirstIndex(users, (u: User) => u.email == Some(key))
  }

  /** The key `createOrGetUser` upserts on: the email when it is truthy, else a `guest_<time>` key. */
  function UpsertKey(email: Option<string>, guestKey: string): string
  {
    if email.Some? && email.value != "" then email.value else guestKey
  }

  /**
    `userDb.createOrGetUser`: updates name and colour of the user whose email is
    the upsert key, or creates a user with the given (possibly absent) email.
    Creating a second user with the empty-string email violates the unique email
    column.
   */
  function CreateOrGetUser(st: Store, name: string, color: string, email: Option<string>,
                           guestKey: string, freshId: Id): (r: Result<Written<User>, StoreError>)
    ensures r.Success? ==> r.value.value.name == name && r.value.value.color == color
    ensures r.Success? ==> r.value.value in r.value.store.users
    ensures r.Success? ==> r.value.store.rooms == st.rooms && r.value.store.members == st.members
                           && r.value.store.sessions == st.sessions
    ensures email.Some? && email.value != "" ==> r.Success? && r.value.value.email == email
    ensures UserWithEmail(st.users, UpsertKey(email, guestKey)).Some? ==>
              var i := UserWithEmail(st.users, UpsertKey(email, guestKey)).value;
              && r.Success?
              && r.value.value.id == st.users[i].id
              && r.value.value.email == st.users[i].email
              && r.value.store.users == st.users[i := r.value.value]
    ensures UserWithEmail(st.users, UpsertKey(email, guestKey)).None? && r.Success? ==>
              && r.value.value == User(freshId, name, color, email)
              && r.value.store.users == st.users + [r.value.value]
    ensures r.Failure? ==> email == Some("") && exists j :: 0 <= j < |st.users| && st.users[j].email == Some("")
  {
    var key := UpsertKey(email, guestKey);
    match UserWithEmail(st.users, key)
    case Some(i) =>
      var u := st.users[i].(name := name, color := color);
      assert st.users[i := u][i] == u;
      Success(Written(st.(users := st.users[i := u]), u))
    case None =>
      if email.Some? && exists j :: 0 <= j < |st.users| && st.users[j].email == email then
        Failure(UniqueViolation)
      else
        var u := User(freshId, name, color, email);
        Success(Written(st.(users := st.users + [u]), u))
  }

  /** The user with id `id`, if any. */
  function FindUser(st: Store, id: Id): (r: Option<User>)
    ensures r.Some? <==> UsedUserId(st, id)
    ensures r.Some? ==> r.value.id == id && r.value in st.users
  {
    match FirstIndex(st.users, (u: User) => u.id == id)
    case None => None
    case Some(i) => Some(st.users[i])
  }

  /** A user with their ten most recent sessions (`userDb.getUserById`). */
  datatype UserDetail = UserDetail(user: User, focusSessions: seq<Session>)

  const USER_DETAIL_SESSIONS: nat := 10

  function GetUserById(st: Store, id: Id): (r: Option<UserDetail>)
    ensures r.Some? <==> UsedUserId(st, id)
    ensures r.Some? ==> r.value.user.id == id && r.value.user in st.users
    ensures r.Some? ==> IsNewestFirstPage(r.value.focusSessions, SessionsOfUser(st, id), StartTime, USER_DETAIL_SESSIONS)
  {
    match FindUser(st, id)
    case None => None
    case Some(u) => Some(UserDetail(u, UserSessions(st, id, USER_DETAIL_SESSIONS)))
  }

  // ---------------------------------------------------------------- statistics

  datatype Stats = Stats(totalFocusTime: int, totalSessions: nat, averageSessionTime: real)

  /** The user's completed sessions, the only ones statistics look at. */
  function CompletedOf(st: Store, userId: Id): seq<Session>
  {
    Filter(st.sessions, (s: Session) => s.userId == userId && s.completed)
  }

  /**
    `userDb.getUserStats`: total seconds and count of the user's completed
    sessions, and their mean (0 when there are none). The mean is an exact
    rational here.
   */
  function GetUserStats(st: Store, userId: Id): (r: Stats)
    ensures r.totalSessions == |CompletedOf(st, userId)|
    ensures r.totalFocusTime == Sum(CompletedOf(st, userId), Duration)
    ensures r.totalSessions == 0 ==> r.totalFocusTime == 0 && r.averageSessionTime == 0.0
    ensures r.totalSessions > 0 ==> r.averageSessionTime == Mean(r.totalFocusTime, r.totalSessions)
  {
    var done := CompletedOf(st, userId);
    var total := Sum(done, Duration);
    var count := |done|;
    if count > 0 then Stats(total, count, Mean(total, count))
    else Stats(total, count, 0.0)
  }

  /** The exact mean of `count` values adding up to `total`. */
  function Mean(total: int, count: nat): (m: real)
    requires count > 0
    ensures m * count as real == total as real
  {
    MeanTimesCount(total as real, count as real);
    total as real / count as real
  }

  lemma MeanTimesCount(total: real, count: real)
    requires count > 0.0
    ensures (total / count) * count == total
  {
  }

  // ---------------------------------------------------------------- rooms

  function FindRoom(st: Store, code: string): (r: Option<Room>)
    ensures r.Some? <==> exists i :: 0 <= i < |st.rooms| && st.rooms[i].roomCode == code
    ensures r.Some? ==> r.value.roomCode == code && r.value in st.rooms
  {
    match FirstIndex(st.rooms, (rm: Room) => rm.roomCode == code)
    case None => None
    case Some(i) => Some(st.rooms[i])
  }

  /**
    `roomDb.createRoom`, an upsert on the room code whose update is empty: an
    existing room is returned untouched, otherwise a room is created.
   */
  function CreateRoom(st: Store, code: string, name: Option<string>, freshId: Id): (w: Written<Room>)
    ensures w.value.roomCode == code
    ensures FindRoom(w.store, code) == Some(w.value)
    ensures w.store.users == st.users && w.store.members == st.members && w.store.sessions == st.sessions
    ensures FindRoom(st, code).Some? ==> w.store == st && w.value == FindRoom(st, code).value
    ensures FindRoom(st, code).None? ==>
              w.value.id == freshId && w.value.name == name && w.store.rooms == st.rooms + [w.value]
  {
    match FindRoom(st, code)
    case Some(room) => Written(st, room)
    case None =>
      var room := Room(freshId, code, name);
      var st' := st.(rooms := st.rooms + [room]);
      FirstIndexAt(st'.rooms, (rm: Room) => rm.roomCode == code, |st.rooms|);
      Written(st', room)
  }

  /** The name the presence route and the push server give a room they create: "房间 " and the code's first six characters. */
  function DefaultRoomName(code: string): (name: string)
    ensures |name| == 3 + (if |code| < 6 then |code| else 6)
    ensures name[3..] == code[..|name| - 3]
  {
    "\U{623F}\U{95F4} " + code[..if |code| < 6 then |code| else 6]
  }

  /** A room with its member rows (`roomDb.getRoom`). */
  datatype RoomDetail = RoomDetail(room: Room, members: seq<Member>)

  function GetRoom(st: Store, code: string): (r: Option<RoomDetail>)
    ensures r.Some? <==> FindRoom(st, code).Some?
    ensures r.Some? ==> r.value.room == FindRoom(st, code).value
    ensures r.Some? ==> forall m :: m in r.value.members <==> m in st.members && m.roomId == r.value.room.id
  {
    match FindRoom(st, code)
    case None => None
    case Some(room) => Some(RoomDetail(room, Filter(st.members, (m: Member) => m.roomId == room.id)))
  }

  // ---------------------------------------------------------------- members

  /** The three ways a member upsert changes an existing row. */
  datatype MemberUpdate =
    | Keep
    | TouchJoined(at: int)
    | SetStatus(isFocusing: bool, focusStartTime: Option<int>, totalFocusTime: int, lastActiveAt: int)

  function ApplyUpdate(m: Member, u: MemberUpdate): (r: Member)
    ensures MemberKey(r) == MemberKey(m)
  {
    match u
    case Keep => m
    case TouchJoined(at) => m.(joinedAt := at)
    case SetStatus(f, t, total, seen) =>
      m.(isFocusing := f, focusStartTime := t, totalFocusTime := total, lastActiveAt := seen)
  }

  /** A row created with the schema's defaults: idle, no focus time, seen and joined `now`. */
  function NewMember(userId: Id, roomId: Id, now: int): Member
  {
    Member(userId, roomId, false, None, 0, now, now)
  }

  /** The position of the row with key (userId, roomId), if there is one. */
  function FindMember(ms: seq<Member>, userId: Id, roomId: Id): (r: Option<nat>)
    ensures r.Some? ==> r.value < |ms| && ms[r.value].userId == userId && ms[r.value].roomId == roomId
    ensures r.None? <==> forall j :: 0 <= j < |ms| ==> MemberKey(ms[j]) != (userId, roomId)
  {
    FirstIndex(ms, (m: Member) => MemberKey(m) == (userId, roomId))
  }

  /**
    An upsert on the compound key (userId, roomId): the existing row gets `upd`,
    otherwise a default row with `upd` applied is appended.
   */
  function UpsertMember(ms: seq<Member>, userId: Id, roomId: Id, now: int, upd: MemberUpdate): (r: seq<Member>)
    ensures UniqueBy(ms, MemberKey) ==> UniqueBy(r, MemberKey)
    ensures FindMember(r, userId, roomId).Some?
    ensures FindMember(ms, userId, roomId).Some? ==>
              var i := FindMember(ms, userId, roomId).value;
              |r| == |ms| && FindMember(r, userId, roomId) == Some(i) && r[i] == ApplyUpdate(ms[i], upd)
    ensures FindMember(ms, userId, roomId).None? ==>
              |r| == |ms| + 1 && FindMember(r, userId, roomId) == Some(|ms|)
              && r[|ms|] == ApplyUpdate(NewMember(userId, roomId, now), upd)
    ensures forall j :: 0 <= j < |ms| && MemberKey(ms[j]) != (userId, roomId) ==> r[j] == ms[j]
  {
    match FindMember(ms, userId, roomId)
    case Some(i) =>
      var r := ms[i := ApplyUpdate(ms[i], upd)];
      assert forall j :: 0 <= j < |r| ==> MemberKey(r[j]) == MemberKey(ms[j]);
      FirstIndexAt(r, (m: Member) => MemberKey(m) == (userId, roomId), i);
      r
    case None =>
      var r := ms + [ApplyUpdate(NewMember(userId, roomId, now), upd)];
      FirstIndexAt(r, (m: Member) => MemberKey(m) == (userId, roomId), |ms|);
      r
  }

  /** After an upsert with a status update, the row for the key carries exactly that status. */
  lemma UpsertSetsStatus(ms: seq<Member>, userId: Id, roomId: Id, now: int, upd: MemberUpdate)
    requires upd.SetStatus?
    ensures var r := UpsertMember(ms, userId, roomId, now, upd);
            var i := FindMember(r, userId, roomId).value;
            && r[i].isFocusing == upd.isFocusing && r[i].focusStartTime == upd.focusStartTime
            && r[i].totalFocusTime == upd.totalFocusTime && r[i].lastActiveAt == upd.lastActiveAt
  {
    var r := UpsertMember(ms, userId, roomId, now, upd);
    match FindMember(ms, userId, roomId)
    case Some(j) =>
      assert r[j] == ApplyUpdate(ms[j], upd);
    case None =>
      assert r[|ms|] == ApplyUpdate(NewMember(userId, roomId, now), upd);
  }

  /**
    `roomDb.joinRoom`: makes sure the room exists, then upserts the member row
    with an empty update, so re-joining leaves an existing row as it was.
   */
  function JoinRoom(st: Store, userId: Id, code: string, freshRoomId: Id, now: int): (w: Written<Member>)
    ensures FindRoom(w.store, code).Some?
    ensures w.value.userId == userId && w.value.roomId == FindRoom(w.store, code).value.id
    ensures w.value in w.store.members
    ensures FindRoom(st, code).Some? && FindMember(st.members, userId, FindRoom(st, code).value.id).Some? ==>
              w.store == st
    ensures w.store.users == st.users && w.store.sessions == st.sessions
    ensures FindRoom(st, code).Some? ==> w.store.rooms == st.rooms
    ensures FindRoom(st, code).None? ==> w.store.rooms == st.rooms + [Room(freshRoomId, code, None)]
    ensures forall j ::
              (0 <= j < |st.members| && MemberKey(st.members[j]) != (userId, FindRoom(w.store, code).value.id)) ==>
              j < |w.store.members| && w.store.members[j] == st.members[j]
    ensures FindMember(st.members, userId, FindRoom(w.store, code).value.id).None? ==>
              w.store.members == st.members + [NewMember(userId, FindRoom(w.store, code).value.id, now)]
              && w.value == NewMember(userId, FindRoom(w.store, code).value.id, now)
  {
    var created := CreateRoom(st, code, None, freshRoomId);
    var room := created.value;
    var ms := UpsertMember(created.store.members, userId, room.id, now, Keep);
    var i := FindMember(ms, userId, room.id).value;
    var after := created.store.(members := ms);
    assert FindRoom(after, code) == Some(room) by {
      assert after.rooms == created.store.rooms;
    }
    assert ms[i] in after.members;
    Written(after, ms[i])
  }

  /**
    `roomDb.leaveRoom`: `None` (the source's `null`) for an unknown room code;
    otherwise deletes the user's rows in that room and returns how many went.
   */
  function LeaveRoom(st: Store, userId: Id, code: string): (r: Option<Written<nat>>)
    ensures r.None? <==> FindRoom(st, code).None?
    ensures r.Some? ==>
              var roomId := FindRoom(st, code).value.id;
              && r.value.store.users == st.users && r.value.store.rooms == st.rooms
              && r.value.store.sessions == st.sessions
              && FindMember(r.value.store.members, userId, roomId).None?
              && (forall m :: m in r.value.store.members <==> m in st.members && MemberKey(m) != (userId, roomId))
              && r.value.value == |st.members| - |r.value.store.members|
              && (UniqueBy(st.members, MemberKey) ==> r.value.value <= 1)
  {
    match FindRoom(st, code)
    case None => None
    case Some(room) =>
      var kept := Filter(st.members, (m: Member) => MemberKey(m) != (userId, room.id));
      FilterSplitsCount(st.members, userId, room.id);
      AtMostOneWithKey(st.members, userId, room.id);
      Some(Written(st.(members := kept), |st.members| - |kept|))
  }

  /** The rows with a key and the rows without it together make up the table. */
  lemma {:induction false} FilterSplitsCount(ms: seq<Member>, userId: Id, roomId: Id)
    ensures |Filter(ms, (m: Member) => MemberKey(m) != (userId, roomId))|
          + |Filter(ms, (m: Member) => MemberKey(m) == (userId, roomId))| == |ms|
  {
    if |ms| > 0 {
      FilterSplitsCount(ms[1..], userId, roomId);
    }
  }

  /** With unique keys, at most one row carries a given key. */
  lemma {:induction false} AtMostOneWithKey(ms: seq<Member>, userId: Id, roomId: Id)
    ensures UniqueBy(ms, MemberKey) ==> |Filter(ms, (m: Member) => MemberKey(m) == (userId, roomId))| <= 1
  {
    if |ms| > 0 && UniqueBy(ms, MemberKey) {
      var p := (m: Member) => MemberKey(m) == (userId, roomId);
      var t := ms[1..];
      assert ms == [ms[0]] + t;
      AtMostOneWithKey(t, userId, roomId);
      if p(ms[0]) {
        assert forall j :: 0 <= j < |t| ==> t[j] == ms[j + 1] && !p(t[j]);
        FilterNone(t, p);
      }
    }
  }

  // ---------------------------------------------------------------- sessions

  /**
    `sessionDb.startSession`: appends an open session started `now`. Sessions the
    user already has open are neither checked nor closed.
   */
  function StartSession(st: Store, userId: Id, roomId: Option<Id>, now: int, freshId: Id): (w: Written<Session>)
    ensures w.value.id == freshId && w.value.userId == userId && w.value.roomId == roomId
    ensures w.value.startTime == now && w.value.endTime.None? && !w.value.completed
    ensures w.store.sessions == st.sessions + [w.value]
    ensures w.store.users == st.users && w.store.rooms == st.rooms && w.store.members == st.members
  {
    var s := Session(freshId, userId, roomId, now, None, 0, false);
    Written(st.(sessions := st.sessions + [s]), s)
  }

  function FindSession(st: Store, sessionId: Id): (r: Option<nat>)
    ensures r.Some? ==> r.value < |st.sessions| && st.sessions[r.value].id == sessionId
    ensures r.None? <==> !UsedSessionId(st, sessionId)
  {
    FirstIndex(st.sessions, (s: Session) => s.id == sessionId)
  }

  /** Whole seconds elapsed between two millisecond times, rounded down (`Math.floor(ms / 1000)`). */
  function WholeSeconds(ms: int): (s: int)
    ensures s * 1000 <= ms < s * 1000 + 1000
  {
    ms / 1000
  }

  /**
    `sessionDb.endSession`: `None` for an unknown id; otherwise closes the session
    at `now` with its duration in whole seconds. There is no already-closed
    guard: closing again recomputes the end time and the duration.
   */
  function EndSession(st: Store, sessionId: Id, now: int): (r: Option<Written<Session>>)
    ensures r.None? <==> !UsedSessionId(st, sessionId)
    ensures r.Some? ==>
              var i := FindSession(st, sessionId).value;
              var s := r.value.value;
              && s.id == sessionId && s.userId == st.sessions[i].userId && s.roomId == st.sessions[i].roomId
              && s.startTime == st.sessions[i].startTime
              && s.endTime == Some(now) && s.completed
              && s.duration * 1000 <= now - s.startTime < s.duration * 1000 + 1000
              && r.value.store == st.(sessions := st.sessions[i := s])
  {
    match FindSession(st, sessionId)
    case None => None
    case Some(i) =>
      var prior := st.sessions[i];
      var s := prior.(endTime := Some(now), duration := WholeSeconds(now - prior.startTime), completed := true);
      Some(Written(st.(sessions := st.sessions[i := s]), s))
  }

  function SessionsOfUser(st: Store, userId: Id): seq<Session>
  {
    Filter(st.sessions, (s: Session) => s.userId == userId)
  }

  function SessionsOfRoom(st: Store, roomId: Id): seq<Session>
  {
    Filter(st.sessions, (s: Session) => s.roomId == Some(roomId))
  }

  /** `sessionDb.getUserSessions`: the user's `limit` most recently started sessions, newest first. */
  function UserSessions(st: Store, userId: Id, limit: nat): (r: seq<Session>)
    ensures IsNewestFirstPage(r, SessionsOfUser(st, userId), StartTime, limit)
    ensures forall s :: s in r ==> s in st.sessions && s.userId == userId
  {
    var r := NewestFirst(SessionsOfUser(st, userId), StartTime, limit);
    assert forall s :: s in r ==> s in multiset(SessionsOfUser(st, userId));
    r
  }

  /** `sessionDb.getRoomSessions`: the room's `limit` most recently started sessions, newest first. */
  function RoomSessions(st: Store, roomId: Id, limit: nat): (r: seq<Session>)
    ensures IsNewestFirstPage(r, SessionsOfRoom(st, roomId), StartTime, limit)
    ensures forall s :: s in r ==> s in st.sessions && s.roomId == Some(roomId)
  {
    var r := NewestFirst(SessionsOfRoom(st, roomId), StartTime, limit);
    assert forall s :: s in r ==> s in multiset(SessionsOfRoom(st, roomId));
    r
  }
}
