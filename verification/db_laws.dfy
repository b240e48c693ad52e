/**
  Laws of the durable store that relate several operations: the unique keys
  survive every write, joining and room creation are idempotent, and the
  statistics move exactly by the sessions that get closed.
 */
module StoreLaws {
  import opened Wrappers
  import opened Seqs
  import opened Db

  /** Creating or updating a user keeps ids and emails unique (the new id is fresh). */
  lemma CreateOrGetUserKeepsWf(st: Store, name: string, color: string, email: Option<string>,
                               guestKey: string, freshId: Id)
    requires Wf(st) && !UsedUserId(st, freshId)
    ensures var r := CreateOrGetUser(st, name, color, email, guestKey, freshId);
            r.Success? ==> Wf(r.value.store)
  {
    var r := CreateOrGetUser(st, name, color, email, guestKey, freshId);
    if r.Success? {
      var users := r.value.store.users;
      var key := UpsertKey(email, guestKey);
      match UserWithEmail(st.users, key)
      case Some(i) =>
        assert forall j :: 0 <= j < |users| ==> users[j].id == st.users[j].id && users[j].email == st.users[j].email;
      case None =>
        assert users == st.users + [User(freshId, name, color, email)];
        assert email.Some? ==> forall j :: 0 <= j < |st.users| ==> st.users[j].email != email;
    }
  }

  /** Re-creating a room with any name and any fresh id returns the same room and writes nothing. */
  lemma CreateRoomIdempotent(st: Store, code: string, name1: Option<string>, name2: Option<string>, id1: Id, id2: Id)
    ensures var w1 := CreateRoom(st, code, name1, id1);
            var w2 := CreateRoom(w1.store, code, name2, id2);
            w2.store == w1.store && w2.value == w1.value
  {
  }

  /** Creating a room keeps every unique key: a new room has a fresh id and an unused code. */
  lemma CreateRoomKeepsWf(st: Store, code: string, name: Option<string>, freshRoomId: Id)
    requires Wf(st) && !UsedRoomId(st, freshRoomId)
    ensures Wf(CreateRoom(st, code, name, freshRoomId).store)
  {
    if FindRoom(st, code).None? {
      var created := CreateRoom(st, code, name, freshRoomId);
      assert created.store.rooms == st.rooms + [Room(freshRoomId, code, name)];
      assert forall i :: 0 <= i < |st.rooms| ==> st.rooms[i].roomCode != code;
    }
  }

  /** Joining keeps every unique key (the room id, if one is created, is fresh). */
  lemma JoinRoomKeepsWf(st: Store, userId: Id, code: string, freshRoomId: Id, now: int)
    requires Wf(st) && !UsedRoomId(st, freshRoomId)
    ensures Wf(JoinRoom(st, userId, code, freshRoomId, now).store)
  {
    var created := CreateRoom(st, code, None, freshRoomId);
    CreateRoomKeepsWf(st, code, None, freshRoomId);
    var ms := UpsertMember(created.store.members, userId, created.value.id, now, Keep);
    assert JoinRoom(st, userId, code, freshRoomId, now).store == created.store.(members := ms);
  }

  /** Joining twice is joining once: the second join finds the room and the row and changes nothing. */
  lemma JoinRoomIdempotent(st: Store, userId: Id, code: string, id1: Id, id2: Id, now1: int, now2: int)
    ensures var w1 := JoinRoom(st, userId, code, id1, now1);
            JoinRoom(w1.store, userId, code, id2, now2).store == w1.store
  {
    var w1 := JoinRoom(st, userId, code, id1, now1);
    var room := FindRoom(w1.store, code).value;
    var k :| 0 <= k < |w1.store.members| && w1.store.members[k] == w1.value;
    assert MemberKey(w1.store.members[k]) == (userId, room.id);
  }

  /** Opening a session and closing another keeps the unique keys (the session id is fresh). */
  lemma SessionWritesKeepWf(st: Store, userId: Id, roomId: Option<Id>, now: int, freshId: Id, sessionId: Id)
    requires Wf(st) && !UsedSessionId(st, freshId)
    ensures Wf(StartSession(st, userId, roomId, now, freshId).store)
    ensures EndSession(st, sessionId, now).Some? ==> Wf(EndSession(st, sessionId, now).value.store)
  {
    var w := StartSession(st, userId, roomId, now, freshId);
    assert w.store.sessions == st.sessions + [w.value];
    var e := EndSession(st, sessionId, now);
    if e.Some? {
      var i := FindSession(st, sessionId).value;
      assert forall j :: 0 <= j < |st.sessions| ==> e.value.store.sessions[j].id == st.sessions[j].id;
    }
  }

  /** Starting a session does not move any user's statistics: they only count completed sessions. */
  lemma StartSessionKeepsStats(st: Store, userId: Id, roomId: Option<Id>, now: int, freshId: Id, who: Id)
    ensures GetUserStats(StartSession(st, userId, roomId, now, freshId).store, who) == GetUserStats(st, who)
  {
    var w := StartSession(st, userId, roomId, now, freshId);
    FilterAppend(st.sessions, [w.value], (s: Session) => s.userId == who && s.completed);
    assert Filter([w.value], (s: Session) => s.userId == who && s.completed) == [];
    assert CompletedOf(w.store, who) == CompletedOf(st, who);
  }

  /**
    Closing an open session of `who` adds exactly one session and its duration to
    `who`'s statistics, and leaves every other user's statistics as they were.
   */
  lemma EndSessionAddsToStats(st: Store, sessionId: Id, now: int, who: Id)
    requires UsedSessionId(st, sessionId)
    requires !st.sessions[FindSession(st, sessionId).value].completed
    ensures var i := FindSession(st, sessionId).value;
            var closed := EndSession(st, sessionId, now).value;
            var before := GetUserStats(st, who);
            var after := GetUserStats(closed.store, who);
            if st.sessions[i].userId == who then
              after.totalSessions == before.totalSessions + 1
              && after.totalFocusTime == before.totalFocusTime + closed.value.duration
            else after == before
  {
    var i := FindSession(st, sessionId).value;
    var closed := EndSession(st, sessionId, now).value;
    var p := (s: Session) => s.userId == who && s.completed;
    assert CompletedOf(st, who) == Filter(st.sessions, p);
    assert CompletedOf(closed.store, who) == Filter(st.sessions[i := closed.value], p);
    FilterReplace(st.sessions, i, closed.value, p, Duration);
  }

  /**
    Closing is not idempotent: closing an already closed session again moves its
    end time and recomputes its duration from the original start.
   */
  lemma EndSessionAgainRecomputes(st: Store, sessionId: Id, t1: int, t2: int)
    requires UsedSessionId(st, sessionId)
    ensures var first := EndSession(st, sessionId, t1).value;
            var second := EndSession(first.store, sessionId, t2);
            && second.Some?
            && second.value.value.endTime == Some(t2)
            && second.value.value.startTime == first.value.startTime
            && second.value.value.duration == (t2 - first.value.startTime) / 1000
  {
    var i := FindSession(st, sessionId).value;
    var first := EndSession(st, sessionId, t1).value;
    assert first.store.sessions[i].id == sessionId;
    FirstIndexAt(first.store.sessions, (s: Session) => s.id == sessionId, i);
  }
}
