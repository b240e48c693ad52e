/**
  The poll-mode synchronisation path end to end: the status bodies the client
  store posts, as the presence route stores them.
 */
module Sync {
  import opened Wrappers
  import opened Http
  import opened Db
  import opened Presence
  import opened ClientStore

  /** The presence row a successful status POST leaves for the posting user. */
  function PostedRow(st: Store, body: StatusBody, now: int, freshRoomId: Id, fault: Fault): (m: Member)
    requires Post(st, body, now, freshRoomId, fault).1.Status() == OK
    ensures m.isFocusing == body.isFocusing.GetOr(false)
    ensures m.focusStartTime == TruthyTime(body.focusStartTime)
    ensures m.lastActiveAt == now
  {
    var after := Post(st, body, now, freshRoomId, fault).0;
    var room := FindRoom(after, body.roomId.value).value;
    after.members[FindMember(after.members, body.userId.value, room.id).value]
  }

  /**
    Whatever the client did before, a status it posted lands as a paired row
    (focusing exactly when a start time is stored), unless the start time it
    sent was the epoch itself, which the route reads as no start time.
   */
  lemma ClientStatusPairedOnServer(s: AppState, actions: seq<Action>, c: Call,
                                   st: Store, now: int, freshRoomId: Id, fault: Fault)
    requires c in Run(s, actions).1 && c.PostStatus? && c.body.focusStartTime != Some(0)
    requires Post(st, c.body, now, freshRoomId, fault).1.Status() == OK
    ensures var m := PostedRow(st, c.body, now, freshRoomId, fault);
            m.isFocusing <==> m.focusStartTime.Some?
  {
    RunSendsPairedStatus(s, actions);
    assert StatusPaired(c);
    assert c.body.isFocusing.Some? by {
      ClientBodiesSayFocusing(s, actions);
    }
  }

  /** Every status the client posts states `isFocusing` explicitly. */
  lemma {:induction false} ClientBodiesSayFocusing(s: AppState, actions: seq<Action>)
    ensures forall c :: c in Run(s, actions).1 && c.PostStatus? ==> c.body.isFocusing.Some?
    decreases |actions|
  {
    if |actions| > 0 {
      ClientBodiesSayFocusing(Step(s, actions[0]).0, actions[1..]);
    }
  }

  /**
    A focus interval started at the epoch reaches the server as focusing with
    no start time: the route's truthiness test drops the start time 0.
   */
  lemma EpochStartUnpaired(s: AppState, started: Option<string>, st: Store, now: int, freshRoomId: Id)
    requires Syncing(s)
    ensures var calls := StartFocus(s, 0, started).1;
            && |calls| > 0 && calls[|calls| - 1].PostStatus?
            && var body := calls[|calls| - 1].body;
            && Post(st, body, now, freshRoomId, NoFault).1.Status() == OK
            && var m := PostedRow(st, body, now, freshRoomId, NoFault);
            m.isFocusing && m.focusStartTime.None?
  {
  }
}
