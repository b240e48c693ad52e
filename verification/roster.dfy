/**
  The push server's in-memory roster: room id -> (socket id -> user), changed
  by the `join-room`, `update-status` and `disconnect` handlers. Each handler
  returns the roster after it and the broadcasts it made, in order. Only
  `join-room` touches the durable store, and a store failure there is caught
  and ignored.
 */
module Roster {
  import opened Wrappers
  import opened Seqs
  import opened Http
  import opened Db
  import opened OrderedMaps

  type SocketId = string
  type RoomKey = string

  /** The colour a joining user gets when the payload has none. */
  const DEFAULT_COLOR: string := "#4ECDC4"

  /** A user as the roster holds and broadcasts it. */
  datatype RosterUser = RosterUser(
    id: SocketId,
    name: Option<string>,
    planetSize: int,
    isFocused: bool,
    focusStartTime: Option<int>,
    totalFocusTime: int,
    color: string)

  type RoomRoster = seq<Entry<SocketId, RosterUser>>
  type Rooms = seq<Entry<RoomKey, RoomRoster>>

  /** Who receives a broadcast: the whole room, or the room without the sending socket. */
  datatype Audience = Everyone | AllBut(socket: SocketId)

  datatype Message =
    | RoomUsers(users: seq<RosterUser>)
    | UserJoined(user: RosterUser)
    | UserUpdated(user: RosterUser)
    | UserLeft(socket: SocketId)

  datatype Event = Emit(room: RoomKey, audience: Audience, message: Message)

  /** What a handler leaves behind. */
  datatype Outcome = Outcome(rooms: Rooms, store: Store, events: seq<Event>)

  datatype JoinPayload = JoinPayload(
    roomId: RoomKey,
    userName: Option<string>,
    color: Option<string>,
    totalFocusTime: Option<int>,
    dbUserId: Option<string>)

  /** Room ids are unique, every room holds at least one socket, and socket ids are unique within a room. */
  predicate RosterWf(rooms: Rooms)
  {
    && KeysUnique(rooms)
    && forall e :: e in rooms ==> |e.value| > 0 && KeysUnique(e.value)
  }

  /** The user `join-room` creates: idle, drawn at size 1, with the payload's total and colour or their defaults. */
  function Newcomer(socket: SocketId, p: JoinPayload): (u: RosterUser)
    ensures u.id == socket && u.name == p.userName && u.planetSize == 1
    ensures !u.isFocused && u.focusStartTime.None?
    ensures u.totalFocusTime == p.totalFocusTime.GetOr(0)
    ensures u.color == if Truthy(p.color) then p.color.value else DEFAULT_COLOR
  {
    RosterUser(socket, p.userName, 1, false, None, p.totalFocusTime.GetOr(0),
               if Truthy(p.color) then p.color.value else DEFAULT_COLOR)
  }

  /** The roster side of `join-room`: create the room if absent, then set the socket's entry. */
  function JoinRoster(rooms: Rooms, socket: SocketId, p: JoinPayload): (r: Rooms)
    ensures Get(r, p.roomId).Some?
    ensures Get(Get(r, p.roomId).value, socket) == Some(Newcomer(socket, p))
    ensures forall s :: s != socket ==> Get(Get(r, p.roomId).value, s) == Get(Get(rooms, p.roomId).GetOr([]), s)
    ensures forall k :: k != p.roomId ==> Get(r, k) == Get(rooms, k)
    ensures HasKey(rooms, p.roomId) ==> Keys(r) == Keys(rooms)
    ensures !HasKey(rooms, p.roomId) ==> Keys(r) == Keys(rooms) + [p.roomId]
  {
    var roster := Get(rooms, p.roomId).GetOr([]);
    Put(rooms, p.roomId, Put(roster, socket, Newcomer(socket, p)))
  }

  /**
    The store side of `join-room`, only when `dbUserId` is truthy: ensure the
    room (store call 0), then upsert the member row touching `joinedAt` (store
    call 1). A failing call ends the attempt; earlier writes stay.
   */
  function RecordMembership(st: Store, code: RoomKey, dbUserId: Option<string>, now: int, freshRoomId: Id, fault: Fault)
    : (r: Store)
    ensures !Truthy(dbUserId) || Fails(fault, 0) ==> r == st
    ensures r.users == st.users && r.sessions == st.sessions
    ensures Truthy(dbUserId) && !Fails(fault, 0) ==> FindRoom(r, code).Some?
    ensures Truthy(dbUserId) && !Fails(fault, 0) && !Fails(fault, 1) ==>
              var i := FindMember(r.members, dbUserId.value, FindRoom(r, code).value.id);
              i.Some? && r.members[i.value].joinedAt == now
    ensures UniqueBy(st.members, MemberKey) ==> UniqueBy(r.members, MemberKey)
    ensures FindRoom(st, code).Some? ==> r.rooms == st.rooms
    ensures Truthy(dbUserId) && !Fails(fault, 0) && FindRoom(st, code).None? ==>
              r.rooms == st.rooms + [Room(freshRoomId, code, Some(DefaultRoomName(code)))]
    ensures Truthy(dbUserId) && !Fails(fault, 0) ==>
              forall j ::
                (0 <= j < |st.members| && MemberKey(st.members[j]) != (dbUserId.value, FindRoom(r, code).value.id)) ==>
                j < |r.members| && r.members[j] == st.members[j]
    ensures Truthy(dbUserId) && !Fails(fault, 0) && !Fails(fault, 1) ==>
              var rid := FindRoom(r, code).value.id;
              match FindMember(st.members, dbUserId.value, rid)
              case Some(i) => |r.members| == |st.members| && r.members[i] == st.members[i].(joinedAt := now)
              case None => r.members == st.members + [NewMember(dbUserId.value, rid, now)]
    ensures Truthy(dbUserId) && !Fails(fault, 0) && Fails(fault, 1) ==> r.members == st.members
  {
    if !Truthy(dbUserId) || Fails(fault, 0) then st
    else
      var created := CreateRoom(st, code, Some(DefaultRoomName(code)), freshRoomId);
      if Fails(fault, 1) then created.store
      else
        var ms := UpsertMember(created.store.members, dbUserId.value, created.value.id, now, TouchJoined(now));
        created.store.(members := ms)
  }

  /**
    `join-room`: the socket enters the room's roster whatever happens to the
    store; the room then hears its whole roster, and everyone else in it hears
    of the newcomer.
   */
  function JoinRoom(rooms: Rooms, st: Store, socket: SocketId, p: JoinPayload, now: int, freshRoomId: Id, fault: Fault)
    : (r: Outcome)
    ensures r.rooms == JoinRoster(rooms, socket, p)
    ensures r.store == RecordMembership(st, p.roomId, p.dbUserId, now, freshRoomId, fault)
    ensures r.events == [Emit(p.roomId, Everyone, RoomUsers(Values(Get(r.rooms, p.roomId).value))),
                         Emit(p.roomId, AllBut(socket), UserJoined(Newcomer(socket, p)))]
  {
    var after := JoinRoster(rooms, socket, p);
    var roster := Get(after, p.roomId).value;
    Outcome(after, RecordMembership(st, p.roomId, p.dbUserId, now, freshRoomId, fault),
            [Emit(p.roomId, Everyone, RoomUsers(Values(roster))),
             Emit(p.roomId, AllBut(socket), UserJoined(Newcomer(socket, p)))])
  }

  function HoldsSocket(socket: SocketId): Entry<RoomKey, RoomRoster> -> bool
  {
    (e: Entry<RoomKey, RoomRoster>) => HasKey(e.value, socket)
  }

  /** The position of the first room, in insertion order, whose roster holds `socket`. */
  function RoomOf(rooms: Rooms, socket: SocketId): (r: Option<nat>)
    ensures r.Some? ==> r.value < |rooms| && HasKey(rooms[r.value].value, socket)
    ensures r.Some? ==> forall j :: 0 <= j < r.value ==> !HasKey(rooms[j].value, socket)
    ensures r.None? <==> forall j :: 0 <= j < |rooms| ==> !HasKey(rooms[j].value, socket)
  {
    FirstIndex(rooms, HoldsSocket(socket))
  }

  /**
    `update-status`: the socket's entry in the first room holding it becomes
    the payload, verbatim, and the rest of that room hears of it. A socket in
    no room (or found under the falsy room id "") changes nothing and is not
    heard.
   */
  function UpdateStatus(rooms: Rooms, socket: SocketId, data: RosterUser): (r: (Rooms, seq<Event>))
    ensures RoomOf(rooms, socket).None? ==> r == (rooms, [])
    ensures RoomOf(rooms, socket).Some? && rooms[RoomOf(rooms, socket).value].key == "" ==> r == (rooms, [])
    ensures RoomOf(rooms, socket).Some? && rooms[RoomOf(rooms, socket).value].key != "" ==>
              var e := rooms[RoomOf(rooms, socket).value];
              && r.1 == [Emit(e.key, AllBut(socket), UserUpdated(data))]
              && Keys(r.0) == Keys(rooms)
              && (KeysUnique(rooms) ==>
                    && Get(r.0, e.key) == Some(Put(e.value, socket, data))
                    && forall k :: k != e.key ==> Get(r.0, k) == Get(rooms, k))
  {
    match RoomOf(rooms, socket)
    case None => (rooms, [])
    case Some(i) =>
      var e := rooms[i];
      if e.key == "" then (rooms, [])
      else
        assert HasKey(rooms, e.key);
        (Put(rooms, e.key, Put(e.value, socket, data)), [Emit(e.key, AllBut(socket), UserUpdated(data))])
  }

  /**
    `disconnect`: the socket leaves the first room holding it, the rest of that
    room hears of it, and a room left empty is dropped. Later rooms that also
    hold the socket keep it.
   */
  function Disconnect(rooms: Rooms, socket: SocketId): (r: (Rooms, seq<Event>))
    ensures RoomOf(rooms, socket).None? ==> r == (rooms, [])
    ensures RoomOf(rooms, socket).Some? ==>
              var e := rooms[RoomOf(rooms, socket).value];
              var left := Remove(e.value, socket);
              && r.1 == [Emit(e.key, AllBut(socket), UserLeft(socket))]
              && (KeysUnique(rooms) ==>
                    && Get(r.0, e.key) == (if |left| == 0 then None else Some(left))
                    && (forall k :: k != e.key ==> Get(r.0, k) == Get(rooms, k))
                    && (|left| > 0 ==> Keys(r.0) == Keys(rooms))
                    && (|left| == 0 ==>
                          r.0 == rooms[..RoomOf(rooms, socket).value] + rooms[RoomOf(rooms, socket).value + 1..]))
  {
    match RoomOf(rooms, socket)
    case None => (rooms, [])
    case Some(i) =>
      var e := rooms[i];
      var left := Remove(e.value, socket);
      var after := if |left| == 0 then Remove(rooms, e.key) else Put(rooms, e.key, left);
      (after, [Emit(e.key, AllBut(socket), UserLeft(socket))])
  }

  // ------------------------------------------------------------------ laws

  /** `join-room` keeps every room non-empty and every key unique. */
  lemma JoinKeepsWf(rooms: Rooms, socket: SocketId, p: JoinPayload)
    requires RosterWf(rooms)
    ensures RosterWf(JoinRoster(rooms, socket, p))
  {
    var roster := Get(rooms, p.roomId).GetOr([]);
    var grown := Put(roster, socket, Newcomer(socket, p));
    assert KeysUnique(roster) by {
      if HasKey(rooms, p.roomId) {
        assert Entry(p.roomId, roster) in rooms;
      }
    }
    assert HasKey(grown, socket);
  }

  /** `update-status` keeps every room non-empty and every key unique. */
  lemma UpdateKeepsWf(rooms: Rooms, socket: SocketId, data: RosterUser)
    requires RosterWf(rooms)
    ensures RosterWf(UpdateStatus(rooms, socket, data).0)
  {
    match RoomOf(rooms, socket)
    case None =>
    case Some(i) =>
      var e := rooms[i];
      if e.key != "" {
        assert e in rooms;
        assert HasKey(Put(e.value, socket, data), socket);
      }
  }

  /** `disconnect` keeps every room non-empty and every key unique: a room it empties is dropped. */
  lemma DisconnectKeepsWf(rooms: Rooms, socket: SocketId)
    requires RosterWf(rooms)
    ensures RosterWf(Disconnect(rooms, socket).0)
  {
    match RoomOf(rooms, socket)
    case None =>
    case Some(i) =>
      var e := rooms[i];
      assert e in rooms;
      assert HasKey(rooms, e.key);
  }

  /**
    A socket that was in no room and joins one, then disconnects, leaves the
    roster exactly as it found it: it is taken out of the room it joined, and
    a room it created is dropped again.
   */
  lemma JoinThenDisconnect(rooms: Rooms, socket: SocketId, p: JoinPayload)
    requires RosterWf(rooms) && RoomOf(rooms, socket).None?
    ensures Disconnect(JoinRoster(rooms, socket, p), socket).0 == rooms
  {
    match Find(rooms, p.roomId)
    case None => JoinNewThenDisconnect(rooms, socket, p);
    case Some(i) => JoinExistingThenDisconnect(rooms, socket, p, i);
  }

  /** The joined room was created by the join: disconnecting drops it again. */
  lemma JoinNewThenDisconnect(rooms: Rooms, socket: SocketId, p: JoinPayload)
    requires RosterWf(rooms) && RoomOf(rooms, socket).None? && Find(rooms, p.roomId).None?
    ensures Disconnect(JoinRoster(rooms, socket, p), socket).0 == rooms
  {
    var u := Newcomer(socket, p);
    var after := JoinRoster(rooms, socket, p);
    var grown := Put([], socket, u);
    assert after == rooms + [Entry(p.roomId, grown)];
    FirstIndexAt(after, HoldsSocket(socket), |rooms|);
    assert Remove(grown, socket) == [] by { PutThenRemove([], socket, u); }
    assert Disconnect(after, socket).0 == Remove(after, p.roomId);
    PutThenRemove(rooms, p.roomId, grown);
  }

  /** The joined room existed: disconnecting takes the socket out of it again. */
  lemma JoinExistingThenDisconnect(rooms: Rooms, socket: SocketId, p: JoinPayload, i: nat)
    requires RosterWf(rooms) && RoomOf(rooms, socket).None? && Find(rooms, p.roomId) == Some(i)
    ensures Disconnect(JoinRoster(rooms, socket, p), socket).0 == rooms
  {
    var u := Newcomer(socket, p);
    var after := JoinRoster(rooms, socket, p);
    var roster := rooms[i].value;
    assert Get(rooms, p.roomId) == Some(roster);
    assert !HasKey(roster, socket);
    var grown := Put(roster, socket, u);
    assert after == rooms[i := Entry(p.roomId, grown)];
    assert HasKey(grown, socket);
    FirstIndexAt(after, HoldsSocket(socket), i);
    PutThenRemove(roster, socket, u);
    assert rooms[i] in rooms;
    assert |roster| > 0;
    assert Disconnect(after, socket).0 == Put(after, p.roomId, roster);
    assert Find(after, p.roomId) == Some(i) by { FindAt(after, p.roomId, i); }
    assert after[i := Entry(p.roomId, roster)] == rooms;
  }
}
