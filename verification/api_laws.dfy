/**
  Laws that follow a client through several requests of the JSON API.
 */
module ApiLaws {
  import opened Wrappers
  import opened Seqs
  import opened Http
  import opened Db
  import opened StoreLaws
  import opened Routes
  import Presence

  /**
    Opening a session and closing it again adds one completed session and its
    whole seconds to the user's statistics (the new session's id is fresh).
   */
  lemma StartThenCloseCounts(st: Store, userId: string, roomId: Option<string>, t0: int, t1: int, freshId: Id)
    requires userId != "" && freshId != "" && !UsedSessionId(st, freshId)
    ensures var posted := PostSession(st, Some(userId), roomId, t0, freshId, NoFault);
            var closed := PatchSession(posted.0, Some(freshId), t1, NoFault);
            var before := GetStatsRoute(st, Some(userId), NoFault);
            var after := GetStatsRoute(closed.0, Some(userId), NoFault);
            && posted.1.Status() == CREATED && closed.1.Status() == OK
            && before.Json? && after.Json?
            && after.body.totalSessions == before.body.totalSessions + 1
            && after.body.totalFocusTime == before.body.totalFocusTime + (t1 - t0) / 1000
  {
    var posted := PostSession(st, Some(userId), roomId, t0, freshId, NoFault);
    var mid := posted.0;
    assert mid.sessions == st.sessions + [posted.1.body];
    StartSessionKeepsStats(st, userId, roomId, t0, freshId, userId);
    assert mid.sessions[|st.sessions|].id == freshId;
    assert FindSession(mid, freshId) == Some(|st.sessions|) by {
      FirstIndexAt(mid.sessions, (s: Session) => s.id == freshId, |st.sessions|);
    }
    EndSessionAddsToStats(mid, freshId, t1, userId);
  }

  /** Posting the same room code twice answers 201 both times with the same room, and the second post writes nothing. */
  lemma PostRoomTwice(st: Store, code: string, name1: Option<string>, name2: Option<string>, id1: Id, id2: Id)
    requires code != ""
    ensures var first := PostRoom(st, Some(code), name1, id1, NoFault);
            var second := PostRoom(first.0, Some(code), name2, id2, NoFault);
            && first.1.Status() == CREATED && second.1.Status() == CREATED
            && second.0 == first.0 && second.1 == first.1
  {
    CreateRoomIdempotent(st, code, name1, name2, id1, id2);
  }

  /**
    An unknown room code is an error for the room route (404) and an empty
    room for the presence route (200 with no users).
   */
  lemma UnknownRoomCode(st: Store, code: string, now: int)
    requires code != "" && FindRoom(st, code).None?
    ensures GetRoomRoute(st, Some(code), NoFault) == Error(NOT_FOUND)
    ensures Presence.Get(st, Some(code), now, NoFault) == Json(OK, Presence.Snapshot([], code, now))
  {
  }

  /** A user with no completed session gets zero totals and a zero average, not 404. */
  lemma StatsWithoutSessions(st: Store, userId: string)
    requires userId != ""
    requires forall i :: 0 <= i < |st.sessions| ==> st.sessions[i].userId != userId || !st.sessions[i].completed
    ensures GetStatsRoute(st, Some(userId), NoFault) == Json(OK, Stats(0, 0, 0.0))
  {
  }
}
