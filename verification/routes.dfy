/**
  The request-validation layer of the JSON API: each handler checks its
  required fields (a falsy field answers 400), calls the data-access layer,
  maps a missing record to 404 and a created one to 201, and turns any store
  exception into 500. Handlers return the store after the request together
  with the reply.
 */
module Routes {
  import opened Wrappers
  import opened Seqs
  import opened Text
  import opened Http
  import opened Db

  /** The page size of a session listing when the query gives none. */
  const DEFAULT_SESSION_LIMIT: nat := 20

  // ---------------------------------------------------------- /api/sessions

  /** POST: opens a session for `userId`, in `roomId` when one is given (store call 0). */
  function PostSession(st: Store, userId: Option<string>, roomId: Option<string>, now: int, freshId: Id, fault: Fault)
    : (r: (Store, Reply<Session>))
    ensures !Truthy(userId) || Fails(fault, 0) ==> r.0 == st && r.1.Error?
    ensures r.1.Status() == BAD_REQUEST <==> !Truthy(userId)
    ensures r.1.Status() == CREATED <==> Truthy(userId) && !Fails(fault, 0)
    ensures r.1.Status() in {CREATED, BAD_REQUEST, SERVER_ERROR}
    ensures r.1.Json? ==>
              && Truthy(userId)
              && r.1.body.userId == userId.value && r.1.body.roomId == roomId
              && r.1.body.startTime == now && r.1.body.endTime.None? && !r.1.body.completed
              && r.0.sessions == st.sessions + [r.1.body]
              && r.0.users == st.users && r.0.rooms == st.rooms && r.0.members == st.members
  {
    if !Truthy(userId) then (st, Error(BAD_REQUEST))
    else if Fails(fault, 0) then (st, Error(SERVER_ERROR))
    else
      var w := StartSession(st, userId.value, roomId, now, freshId);
      (w.store, Json(CREATED, w.value))
  }

  /** PATCH: closes session `sessionId` at `now` (store call 0 reads it, call 1 writes it). */
  function PatchSession(st: Store, sessionId: Option<string>, now: int, fault: Fault): (r: (Store, Reply<Session>))
    ensures r.1.Status() == BAD_REQUEST <==> !Truthy(sessionId)
    ensures r.1.Status() == NOT_FOUND <==> Truthy(sessionId) && !Fails(fault, 0) && !UsedSessionId(st, sessionId.value)
    ensures r.1.Status() == OK <==>
              Truthy(sessionId) && !Fails(fault, 0) && UsedSessionId(st, sessionId.value) && !Fails(fault, 1)
    ensures r.1.Status() in {OK, BAD_REQUEST, NOT_FOUND, SERVER_ERROR}
    ensures r.1.Status() != OK ==> r.0 == st
    ensures r.1.Json? ==>
              && Truthy(sessionId) && UsedSessionId(st, sessionId.value)
              && r.1.body.id == sessionId.value && r.1.body.completed && r.1.body.endTime == Some(now)
              && r.1.body.duration * 1000 <= now - r.1.body.startTime < r.1.body.duration * 1000 + 1000
              && r.0 == st.(sessions := st.sessions[FindSession(st, sessionId.value).value := r.1.body])
  {
    if !Truthy(sessionId) then (st, Error(BAD_REQUEST))
    else if Fails(fault, 0) then (st, Error(SERVER_ERROR))
    else match EndSession(st, sessionId.value, now)
      case None => (st, Error(NOT_FOUND))
      case Some(w) =>
        if Fails(fault, 1) then (st, Error(SERVER_ERROR))
        else (w.store, Json(OK, w.value))
  }

  /** `parseInt(limit || '20')`: an absent or empty parameter is the default page size. */
  function SessionLimit(raw: Option<string>): (r: Option<nat>)
    ensures raw.None? || raw == Some("") ==> r == Some(DEFAULT_SESSION_LIMIT)
    ensures raw.Some? && raw.value != "" ==> r == ParseIntPrefix(raw.value)
  {
    if !Truthy(raw) then
      ParseIntPrefixRoundTrip(DEFAULT_SESSION_LIMIT, "");
      assert NatToString(DEFAULT_SESSION_LIMIT) + "" == "20";
      ParseIntPrefix("20")
    else ParseIntPrefix(raw.value)
  }

  /** `?limit=0x10` asks for sixteen sessions, and `?limit=0x` is not a number, so the listing answers 500. */
  lemma SessionLimitHex(st: Store, userId: string)
    requires userId != ""
    ensures SessionLimit(Some("0x10")) == Some(16)
    ensures GetSessions(st, Some(userId), None, Some("0x"), NoFault) == Error(SERVER_ERROR)
  {
    ParseIntPrefixHex();
  }

  /**
    GET: the newest sessions of `userId` when it is given, else of room
    `roomId`, else 400. The listing is store call 0; a limit that does not
    parse as a number is refused by the store and answers 500.
   */
  function GetSessions(st: Store, userId: Option<string>, roomId: Option<string>, limit: Option<string>, fault: Fault)
    : (r: Reply<seq<Session>>)
    ensures r.Status() == BAD_REQUEST <==> !Truthy(userId) && !Truthy(roomId)
    ensures r.Status() in {OK, BAD_REQUEST, SERVER_ERROR}
    ensures r.Status() == OK <==> (Truthy(userId) || Truthy(roomId)) && SessionLimit(limit).Some? && !Fails(fault, 0)
    ensures r.Json? && Truthy(userId) ==>
              SessionLimit(limit).Some?
              && IsNewestFirstPage(r.body, SessionsOfUser(st, userId.value), StartTime, SessionLimit(limit).value)
    ensures r.Json? && !Truthy(userId) ==>
              Truthy(roomId) && SessionLimit(limit).Some?
              && IsNewestFirstPage(r.body, SessionsOfRoom(st, roomId.value), StartTime, SessionLimit(limit).value)
  {
    if !Truthy(userId) && !Truthy(roomId) then Error(BAD_REQUEST)
    else match SessionLimit(limit)
      case None => Error(SERVER_ERROR)
      case Some(n) =>
        if Fails(fault, 0) then Error(SERVER_ERROR)
        else if Truthy(userId) then Json(OK, UserSessions(st, userId.value, n))
        else Json(OK, RoomSessions(st, roomId.value, n))
  }

  // ------------------------------------------------------------- /api/rooms

  /** GET: the room with code `roomCode` and its member rows (store call 0), 404 when unknown. */
  function GetRoomRoute(st: Store, roomCode: Option<string>, fault: Fault): (r: Reply<RoomDetail>)
    ensures r.Status() == BAD_REQUEST <==> !Truthy(roomCode)
    ensures r.Status() == NOT_FOUND <==> Truthy(roomCode) && !Fails(fault, 0) && FindRoom(st, roomCode.value).None?
    ensures r.Status() == OK <==> Truthy(roomCode) && !Fails(fault, 0) && FindRoom(st, roomCode.value).Some?
    ensures r.Status() in {OK, BAD_REQUEST, NOT_FOUND, SERVER_ERROR}
    ensures r.Json? ==>
              && Truthy(roomCode)
              && r.body.room.roomCode == roomCode.value && r.body.room in st.rooms
              && forall m :: m in r.body.members <==> m in st.members && m.roomId == r.body.room.id
  {
    if !Truthy(roomCode) then Error(BAD_REQUEST)
    else if Fails(fault, 0) then Error(SERVER_ERROR)
    else match GetRoom(st, roomCode.value)
      case None => Error(NOT_FOUND)
      case Some(detail) => Json(OK, detail)
  }

  /** POST: creates room `roomCode` named `name`, or returns the existing one unchanged (store call 0). */
  function PostRoom(st: Store, roomCode: Option<string>, name: Option<string>, freshId: Id, fault: Fault)
    : (r: (Store, Reply<Room>))
    ensures r.1.Status() == BAD_REQUEST <==> !Truthy(roomCode)
    ensures r.1.Status() == CREATED <==> Truthy(roomCode) && !Fails(fault, 0)
    ensures r.1.Status() in {CREATED, BAD_REQUEST, SERVER_ERROR}
    ensures r.1.Error? ==> r.0 == st
    ensures r.1.Json? ==> Truthy(roomCode) && r.1.body.roomCode == roomCode.value && FindRoom(r.0, roomCode.value) == Some(r.1.body)
    ensures r.1.Json? && Truthy(roomCode) && FindRoom(st, roomCode.value).Some? ==> r.0 == st && r.1.body == FindRoom(st, roomCode.value).value
    ensures r.1.Json? && Truthy(roomCode) && FindRoom(st, roomCode.value).None? ==> r.1.body == Room(freshId, roomCode.value, name)
  {
    if !Truthy(roomCode) then (st, Error(BAD_REQUEST))
    else if Fails(fault, 0) then (st, Error(SERVER_ERROR))
    else
      var w := CreateRoom(st, roomCode.value, name, freshId);
      (w.store, Json(CREATED, w.value))
  }

  // ------------------------------------------------------------- /api/users

  /** GET: the user with id `id` and their ten latest sessions (store call 0), 404 when unknown. */
  function GetUserRoute(st: Store, id: Option<string>, fault: Fault): (r: Reply<UserDetail>)
    ensures r.Status() == BAD_REQUEST <==> !Truthy(id)
    ensures r.Status() == NOT_FOUND <==> Truthy(id) && !Fails(fault, 0) && !UsedUserId(st, id.value)
    ensures r.Status() == OK <==> Truthy(id) && !Fails(fault, 0) && UsedUserId(st, id.value)
    ensures r.Status() in {OK, BAD_REQUEST, NOT_FOUND, SERVER_ERROR}
    ensures r.Json? ==>
              && Truthy(id)
              && r.body.user.id == id.value && r.body.user in st.users
              && IsNewestFirstPage(r.body.focusSessions, SessionsOfUser(st, id.value), StartTime, USER_DETAIL_SESSIONS)
  {
    if !Truthy(id) then Error(BAD_REQUEST)
    else if Fails(fault, 0) then Error(SERVER_ERROR)
    else match GetUserById(st, id.value)
      case None => Error(NOT_FOUND)
      case Some(detail) => Json(OK, detail)
  }

  /** The upsert key used when no email is given: `guest_` and the request time. */
  function GuestKey(now: int): (k: string)
    ensures |k| > 6 && k[..6] == "guest_"
  {
    "guest_" + IntToString(now)
  }

  /**
    POST: creates a user, or renames and recolours the one with the given email
    (store call 0). A falsy name or colour answers 400; a unique-email violation
    is a store exception and answers 500.
   */
  function PostUser(st: Store, name: Option<string>, color: Option<string>, email: Option<string>,
                    now: int, freshId: Id, fault: Fault): (r: (Store, Reply<User>))
    ensures r.1.Status() == BAD_REQUEST <==> !Truthy(name) || !Truthy(color)
    ensures r.1.Status() in {CREATED, BAD_REQUEST, SERVER_ERROR}
    ensures r.1.Error? ==> r.0 == st
    ensures Truthy(name) && Truthy(color) && !Fails(fault, 0) && Truthy(email) ==> r.1.Status() == CREATED
    ensures r.1.Json? ==>
              && r.1.status == CREATED && Truthy(name) && Truthy(color)
              && r.1.body.name == name.value && r.1.body.color == color.value && r.1.body in r.0.users
              && r.0.rooms == st.rooms && r.0.members == st.members && r.0.sessions == st.sessions
    ensures r.1.Json? && Truthy(email) ==> r.1.body.email == email
  {
    if !Truthy(name) || !Truthy(color) then (st, Error(BAD_REQUEST))
    else if Fails(fault, 0) then (st, Error(SERVER_ERROR))
    else match CreateOrGetUser(st, name.value, color.value, email, GuestKey(now), freshId)
      case Failure(_) => (st, Error(SERVER_ERROR))
      case Success(w) => (w.store, Json(CREATED, w.value))
  }

  // ------------------------------------------------------------- /api/stats

  /** GET: the statistics of `userId`, passed through unchanged (store call 0). */
  function GetStatsRoute(st: Store, userId: Option<string>, fault: Fault): (r: Reply<Stats>)
    ensures r.Status() == BAD_REQUEST <==> !Truthy(userId)
    ensures r.Status() == OK <==> Truthy(userId) && !Fails(fault, 0)
    ensures r.Status() in {OK, BAD_REQUEST, SERVER_ERROR}
    ensures r.Json? ==>
              && Truthy(userId)
              && r.body.totalSessions == |CompletedOf(st, userId.value)|
              && r.body.totalFocusTime == Sum(CompletedOf(st, userId.value), Duration)
    ensures r.Json? ==> r.body == GetUserStats(st, userId.value)
  {
    if !Truthy(userId) then Error(BAD_REQUEST)
    else if Fails(fault, 0) then Error(SERVER_ERROR)
    else Json(OK, GetUserStats(st, userId.value))
  }
}
