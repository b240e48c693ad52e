# Focus planet: a Dafny model

Focus planet is a shared focus timer. People join a room, start and pause
25-minute focus intervals, and see who else in the room is focusing. This
project models the application's logic as pure functions over immutable
data and proves what that logic promises.

The model covers:

- **The durable store** (`Db`, `StoreLaws`). Users, rooms, room members and
  focus sessions are tables of rows. The schema's unique keys are the
  invariant `Db.Wf`. The module has the operations of the data-access layer:
  - the user upsert keyed by email, with a `guest_<time>` key when there is
    no email;
  - idempotent room creation;
  - join as an upsert and leave as a hard delete;
  - opening and closing sessions, with the duration in whole seconds;
  - per-user statistics;
  - newest-first, limited session listings.
- **The presence table** (`Presence`). This is the poll-mode channel.
  - POST upserts a member's status and stamps `lastActiveAt = now`.
  - GET lists the members seen in the last five minutes, newest first.
  - DELETE is a soft leave: it moves `lastActiveAt` to the epoch and keeps
    the row.
- **The JSON API's validation layer** (`Routes`, `ApiLaws`). Each handler
  maps its required-field checks and the store's answers to the statuses
  400, 404, 201, 200 and 500.
- **The push server's in-memory roster** (`Roster`). It is a map from room
  to a map from socket to user, kept in insertion order as JavaScript `Map`s
  are (`OrderedMaps`). It is changed by the `join-room`, `update-status` and
  `disconnect` handlers, and each handler returns the broadcasts it made.
- **The client's focus state machine** (`ClientStore`, `Sync`): join, leave,
  start, pause and end. Every action returns the requests it sent, so the
  status bodies it posts can be followed into the presence table.
- **The views' display arithmetic**:
  - the timer's tick, completion and `MM:SS` display (`FocusTimer`);
  - the history panel's `m:ss` durations, day buckets and five-row preview
    (`SessionHistory`);
  - the statistics card's hours and minutes (`UserStats`);
  - the room panel's join rules and room aggregates (`RoomPanel`).

Some inputs come from outside the program and are passed in as parameters:
the clock (`now`, in milliseconds), fresh ids, the generated room code and
the random colour. Network outcomes are inputs too: whether a request was
delivered, and what a session endpoint returned.

A store failure is a `Fault`. `FailsAt(k)` makes the k-th store call of a
handler throw, and that handler answers 500. Writes made before the failing
call stay in place.

JavaScript's semantics are written out where they matter:

- truthiness of strings (`Http.Truthy`) and of times (`Presence.TruthyTime`,
  where `0` reads as no time);
- `parseInt` (`Text.ParseIntPrefix`);
- `trim` (`Text.Trim`);
- `padStart`;
- the truncating `%` (`Text.JsRem`).

The shared utilities are `Seqs` (filter, sum, newest-first pages),
`OrderedMaps`, `Text`, `Http` and `Wrappers`.

Two behaviours of the code are worth noting:

- `endSession` has no already-closed guard. Closing a session twice
  recomputes its end time and duration (`StoreLaws.EndSessionAgainRecomputes`).
- When the timer completes an interval, it zeroes the remaining time and then
  calls `endFocus`. `endFocus` refills the remaining time to a full interval,
  so the completed timer shows a full interval (`FocusTimer.Tick`).

## Model

| member | source | states |
|---|---|---|
| Db.CreateOrGetUser | lib/db.ts:6-19 | The user whose email is the upsert key gets the new name and colour and keeps its id and email. Otherwise a user with the fresh id and the given email is appended. A truthy email always succeeds. The only failure is a second user with the empty-string email. No other table changes. |
| Db.FindUser | lib/db.ts:22-24 | Finds a user exactly when the id is in use, and returns that user. |
| Db.GetUserById | lib/db.ts:22-32 | Found exactly when the id is in use. The user comes with the ten newest of their sessions, newest first, and no left-out session of theirs is newer. |
| Db.GetUserStats | lib/db.ts:35-48 | Only the user's completed sessions count. The total is the sum of their durations and the count is their number. The average times the count is the total; with no such session all three are 0. |
| Db.Mean | lib/db.ts:46 | The exact mean: multiplied by the count it gives back the total. |
| Db.FindRoom | lib/db.ts:66-68 | Finds a room exactly when some room has the code, and returns a room with that code. |
| Db.CreateRoom | lib/db.ts:54-63 | An existing code returns its room and writes nothing. A new code appends a room with the fresh id and the given name. Either way the code then finds the returned room, and no other table changes. |
| Db.DefaultRoomName | app/api/room-status/route.ts:147 | The room name is the three-character prefix followed by the first six characters of the code, or the whole code when it is shorter. |
| Db.GetRoom | lib/db.ts:66-77 | Found exactly when the code is known. The members returned are exactly the member rows of that room. |
| Db.FindMember | app/api/room-status/route.ts:153-160 | Finds the row with key (user, room), and finds nothing exactly when no row has that key. |
| Db.UpsertMember | app/api/room-status/route.ts:153-174 | Keeps the (user, room) key unique, and afterwards a row with that key exists. An existing row gets the update in place. A new key appends a default row with the update applied. Rows with other keys are unchanged. |
| Db.UpsertSetsStatus | app/api/room-status/route.ts:160-173 | After a status upsert, the key's row carries exactly the posted focus flag, start time, total and last-seen time. |
| Db.JoinRoom | lib/db.ts:80-96 | Afterwards the room exists and the returned row, for the user in that room, is in the table. Users and sessions are untouched. An existing room is kept as is; an unknown code appends a room with the fresh id, the code and no name. Every other member row keeps its place and contents. A user new to the room gets an appended row with the schema defaults, and that row is returned. Re-joining a room whose row exists writes nothing. |
| Db.LeaveRoom | lib/db.ts:99-112 | An unknown code gives `None` and no write. Otherwise exactly the user's rows in that room are deleted, the count deleted is returned (at most one with unique keys), and the other tables are unchanged. |
| Db.StartSession | lib/db.ts:118-126 | Appends an open, uncompleted session started now with the fresh id, and touches nothing else. |
| Db.FindSession | lib/db.ts:130-134 | Finds the position of a session with the id, and finds nothing exactly when the id is unused. |
| Db.WholeSeconds | lib/db.ts:137 | The whole seconds are the largest `s` with `s * 1000` not above the milliseconds. |
| Db.EndSession | lib/db.ts:129-147 | An unknown id gives `None`. Otherwise only that session changes: its end is now, it is completed, and its duration is the whole seconds since its unchanged start. |
| Db.UserSessions | lib/db.ts:150-156 | A newest-first page of at most `limit` of the user's sessions; no left-out session of the user is newer. |
| Db.RoomSessions | lib/db.ts:159-168 | A newest-first page of at most `limit` of the room's sessions; no left-out session of the room is newer. |
| StoreLaws.CreateOrGetUserKeepsWf | lib/db.ts:6-19 | With a fresh id, a user upsert keeps ids and emails unique. |
| StoreLaws.CreateRoomIdempotent | lib/db.ts:54-63 | Creating the same code again, with any name and id, returns the same room and writes nothing. |
| StoreLaws.CreateRoomKeepsWf | lib/db.ts:54-63 | With a fresh id, room creation keeps every unique key. |
| StoreLaws.JoinRoomKeepsWf | lib/db.ts:80-96 | With a fresh room id, joining keeps every unique key, including the (user, room) key of members. |
| StoreLaws.JoinRoomIdempotent | lib/db.ts:80-96 | Joining twice leaves the store as joining once. |
| StoreLaws.SessionWritesKeepWf | lib/db.ts:118-147 | Opening a session with a fresh id, and closing any session, keep session ids unique. |
| StoreLaws.StartSessionKeepsStats | lib/db.ts:35-48 | Opening a session moves no user's statistics. |
| StoreLaws.EndSessionAddsToStats | lib/db.ts:35-48 | Closing an open session of a user adds one session and its duration to that user's totals. Every other user's statistics stay as they were. |
| StoreLaws.EndSessionAgainRecomputes | lib/db.ts:129-147 | Closing an already closed session succeeds again: the end moves to the new time and the duration is recomputed from the original start. |
| Presence.Post | app/api/room-status/route.ts:122-185 | Without a truthy room code or user id it answers 400 and writes nothing. It answers 200 exactly when both are truthy and neither store call fails, and otherwise 500. A failure of the first store call writes nothing, and a 500 never touches the member rows. A room that already existed is kept and the room table then does not change. An unknown code, once the first call succeeds, appends exactly one room: the fresh id, the code and the name `房间 ` followed by the code's first six characters. After success the user's row in that room has the posted focus flag (default false), the truthy start time or none, the posted total (default 0) and `lastActiveAt = now`. Every other row keeps its place and contents, and at most one row is added. Member keys stay unique. |
| Presence.LiveMembers | app/api/room-status/route.ts:74-93 | Newest first by `lastActiveAt`. Holds exactly the room's rows seen at or after `now` minus five minutes, each as often as in the table. |
| Presence.Project | app/api/room-status/route.ts:96-104 | A listed user has the row's user id, `isFocused` from `isFocusing`, planet size 1, the truthy start time and the row's total. The name and colour are those of the first user with the row's user id, or empty when no user has it. |
| Presence.ProjectAll | app/api/room-status/route.ts:96-104 | Every live row is projected, in order. |
| Presence.Get | app/api/room-status/route.ts:52-119 | It answers 400 without a room code. An unknown room gives 200 with an empty list. Otherwise the projected live rows of that room are listed. There is no store in the result, so GET never writes. |
| Presence.SoftLeaveRows | app/api/room-status/route.ts:28-38 | Only the user's row in the room changes: it is idle, has no start time and was last seen at the epoch. Every other row is kept as it was. |
| Presence.Delete | app/api/room-status/route.ts:5-49 | It answers 400 without both ids. An unknown room succeeds and writes nothing. Otherwise success soft-leaves the user's row, keeps every row, and leaves the other tables alone. A failure writes nothing. |
| Presence.DeleteIdempotent | app/api/room-status/route.ts:28-40 | A second DELETE of the same user and room answers the same and writes nothing more. |
| Presence.SoftLeftAtEpoch | app/api/room-status/route.ts:31-36 | A soft-left row of the user reads as idle and last seen at the epoch. |
| Presence.LiveListed | app/api/room-status/route.ts:74-104 | Every live row of the room appears in the GET body. |
| Presence.ListedIsLive | app/api/room-status/route.ts:74-104 | Every listed user comes from a live row of the room. |
| Presence.DeletedNotListed | app/api/room-status/route.ts:28-82 | After a successful DELETE, GETs of that room made more than five minutes after the epoch do not list the user. |
| Presence.SeenRowListed | app/api/room-status/route.ts:74-104 | A GET lists a user whose row was seen within the window, with the row's status. |
| Presence.PostThenListed | app/api/room-status/route.ts:74-174 | After a successful POST, a GET of the room within five minutes lists the user with the posted status. |
| Presence.WindowBoundary | app/api/room-status/route.ts:74-82 | The window of `Presence.IsLive` includes its old end: a row seen exactly five minutes ago is live, and one seen earlier is not. |
| Routes.PostSession | app/api/sessions/route.ts:5-21 | It answers 400 exactly without a user id, and 201 exactly when the id is present and the store does not fail. 201 carries an open session of that user in the given room, started now, appended to the table. An error writes nothing. |
| Routes.PatchSession | app/api/sessions/route.ts:24-44 | It answers 400 without a session id. An unknown id gives 404. Otherwise it answers 200, unless a store call fails, with the session closed now and its duration in whole seconds. Any non-200 answer writes nothing. |
| Routes.SessionLimit | app/api/sessions/route.ts:52 | An absent or empty limit means 20; any other limit is what `parseInt` reads from it. |
| Routes.SessionLimitHex | app/api/sessions/route.ts:52 | `limit=0x10` asks for sixteen sessions, and `limit=0x` is not a number, so the listing answers 500. |
| Routes.GetSessions | app/api/sessions/route.ts:47-67 | It answers 400 exactly when neither id is given. A user id takes priority over a room id. A 200 carries a newest-first page of that user's (else that room's) sessions of the parsed size. |
| Routes.GetRoomRoute | app/api/rooms/route.ts:5-25 | It answers 400 without a code. An unknown code gives 404 and a known one gives 200 with the room and exactly its member rows. Any other outcome is 500. |
| Routes.PostRoom | app/api/rooms/route.ts:28-44 | It answers 400 without a code, and 201 otherwise unless the store fails. An existing room is returned unchanged with no write. A new room has the fresh id, the code and the name. |
| Routes.GetUserRoute | app/api/users/route.ts:5-25 | It answers 400 without an id. An unknown id gives 404. A known id gives 200 with the user and their ten newest sessions. |
| Routes.GuestKey | lib/db.ts:8 | The guest key starts with `guest_` and has more after it. |
| Routes.PostUser | app/api/users/route.ts:28-44 | It answers 400 exactly when the name or colour is falsy, and then nothing is written. A 201 carries a user with that name and colour, stored, with the email kept when it is truthy. With a truthy email and no store failure it always answers 201. |
| Routes.GetStatsRoute | app/api/stats/route.ts:5-21 | It answers 400 exactly without a user id and 200 exactly when the store does not fail. The 200 carries the store's stats for that user, unchanged: the count and total of the user's completed sessions and their mean. |
| ApiLaws.StartThenCloseCounts | app/api/sessions/route.ts:5-44 | Opening a session and closing it adds one completed session and its whole seconds to the user's statistics route. |
| ApiLaws.PostRoomTwice | app/api/rooms/route.ts:37-39 | Posting a room code twice answers 201 both times with the same room, and the second post writes nothing. |
| ApiLaws.UnknownRoomCode | app/api/rooms/route.ts:16-18 | An unknown code is 404 for the room route but an empty 200 for the presence route. |
| ApiLaws.StatsWithoutSessions | app/api/stats/route.ts:14-16 | A user with no completed session gets zero totals and a zero average, not 404. |
| Roster.Newcomer | server.js:50-58 | The joining user is idle with no start time, size 1, the payload's total (default 0) and its truthy colour (default `#4ECDC4`). |
| Roster.JoinRoster | server.js:60-65 | Afterwards the room exists and maps the socket to the newcomer. The room's other sockets and all other rooms are unchanged. A new room is added last. |
| Roster.RecordMembership | server.js:68-99 | Without a truthy database id, or when the first store call fails, nothing is written. Otherwise the room then exists: a known room leaves the room table as is, and an unknown code appends a room with the fresh id and the name `房间 ` followed by the code's first six characters. Every other member row keeps its place and contents. Unless the second call fails, an existing row of the user in the room changes only `joinedAt` to now, and a missing one is appended with the schema defaults. When the second call fails, the member rows are untouched. Member keys stay unique. |
| Roster.JoinRoom | server.js:44-107 | The roster update happens whatever the store does. The room then hears its whole current roster, and everyone but the socket hears of the newcomer. |
| Roster.RoomOf | server.js:111-117 | Finds the first room, in insertion order, that holds the socket; finds none exactly when no room does. |
| Roster.UpdateStatus | server.js:109-126 | A socket in no room changes nothing and emits nothing. Otherwise the socket's entry in its first room becomes the payload verbatim, the rest of that room hears of it, and every other room is unchanged. |
| Roster.Disconnect | server.js:128-148 | A socket in no room changes nothing. Otherwise it leaves its first room only, and that room hears `user-left`. A room left empty is dropped from its place in the map, and the other rooms keep their order. Otherwise the keys and their order are unchanged. Every other room is unchanged. |
| Roster.JoinKeepsWf | server.js:60-65 | `join-room` keeps every room non-empty and every key unique. |
| Roster.UpdateKeepsWf | server.js:119-122 | `update-status` keeps every room non-empty and every key unique. |
| Roster.DisconnectKeepsWf | server.js:132-145 | `disconnect` keeps every room non-empty, because a room it empties is deleted. |
| Roster.JoinThenDisconnect | server.js:61-142 | A socket in no room that joins a room and disconnects leaves the roster exactly as it found it. |
| ClientStore.Initial | lib/store.ts:48-59 | The initial state has a full 25-minute interval, is idle with no start time and no total, has no ids, and has an empty user id and name. |
| ClientStore.StatusOf | lib/store.ts:85-93 | A status body names the room and the database user. Its total is the whole seconds of the milliseconds, rounded down. |
| ClientStore.JoinRoom | lib/store.ts:72-101 | Without a database user nothing happens. Otherwise an idle status is posted, and once it is delivered the room, name and user id are taken. An undelivered post changes nothing. |
| ClientStore.LeaveRoom | lib/store.ts:104-120 | Only with both ids set is a DELETE sent. Once delivered, the room is forgotten. |
| ClientStore.StartFocus | lib/store.ts:123-165 | The client is focused from now with a full interval. With a database user a session is opened, and a returned id replaces the current one without closing it. Then the focusing status is synced. |
| ClientStore.Stop | lib/store.ts:168-270 | The client is idle with the elapsed time added. The current session is closed, and forgotten only if closing succeeded. The idle status is synced with the new total. |
| ClientStore.PauseFocus | lib/store.ts:168-217 | A pause keeps the remaining time and adds the elapsed time to the total. |
| ClientStore.EndFocus | lib/store.ts:220-270 | Ending refills the remaining time to a full interval and adds the elapsed time to the total. |
| ClientStore.ApplySetter | lib/store.ts:61-69 | No setter touches the focus flag, start time, total or interval length. |
| ClientStore.StepKeepsPairing | lib/store.ts:123-270 | Every action keeps the client focused exactly when a start time is recorded. |
| ClientStore.RunKeepsPairing | lib/store.ts:123-270 | Every state reached from a paired state is paired. |
| ClientStore.StepSendsPairedStatus | lib/store.ts:145-269 | Every status an action posts through `ClientStore.Sync` pairs focusing with a start time and idle with none. |
| ClientStore.RunSendsPairedStatus | lib/store.ts:123-270 | Every status posted over any run of actions is paired. |
| ClientStore.StartThenPause | lib/store.ts:123-183 | Starting at `t1` and pausing at `t2` adds `t2 - t1` to the total, the time `ClientStore.Elapsed` measures; a start at time 0 is falsy and adds nothing. |
| ClientStore.RunTotalNonDecreasing | lib/store.ts:168-236 | On a clock that never runs backwards, the accumulated focus time never shrinks. |
| Sync.PostedRow | app/api/room-status/route.ts:153-174 | The row a successful POST leaves has the posted focus flag, the truthy start time and `lastActiveAt = now`. |
| Sync.ClientStatusPairedOnServer | lib/store.ts:145-269 | Any status the client posts lands as a paired row, unless its start time was the epoch. |
| Sync.ClientBodiesSayFocusing | lib/store.ts:82-269 | Every status the client posts states its focus flag explicitly. |
| Sync.EpochStartUnpaired | app/api/room-status/route.ts:161 | An interval started at time 0 reaches the server as focusing with no start time, because `Presence.TruthyTime` reads a zero time as none. |
| FocusTimer.DisplaySeconds | components/FocusTimer.tsx:44 | Negative times show as 0 seconds; otherwise the value is the whole seconds, rounded down. |
| FocusTimer.FormatTime | components/FocusTimer.tsx:43-48 | The display has at least five characters with the colon third from the end. |
| FocusTimer.FormatTimeClamps | components/FocusTimer.tsx:44 | Anything under one second, negatives included, shows `00:00`. |
| FocusTimer.FormatTimeRoundTrip | components/FocusTimer.tsx:43-48 | The display reads back as minutes and two-digit seconds below 60 that recombine to the clamped whole seconds. |
| FocusTimer.Tick | components/FocusTimer.tsx:21-41 | No tick runs unless focused with a truthy start. While time remains, the remaining time is the interval less the time since the start. Otherwise the interval completes: the flag is set, the client is idle, the total grows by the elapsed time, and ending refills the interval. |
| FocusTimer.StartPause | components/FocusTimer.tsx:77-88 | The completion flag is cleared and the focus flag flips. Starting sets a full interval from now. Pausing keeps the remaining time, refilled first if the interval had completed. |
| FocusTimer.Reset | components/FocusTimer.tsx:90-94 | A reset leaves the timer idle and not complete, with a full interval and the elapsed time added. |
| FocusTimer.ResetDisablesReset | components/FocusTimer.tsx:90-94 | After a reset, or after an interval completes, the reset button is disabled. |
| FocusTimer.ResetDisabledIffNoOp | components/FocusTimer.tsx:173 | The reset button is disabled exactly when a reset would change neither the focus flag nor the remaining time. |
| FocusTimer.TickRemainingBounded | components/FocusTimer.tsx:25-37 | While the interval runs forward in time, a tick keeps the remaining time within (0, interval], or completes. |
| SessionHistory.FormatDuration | components/SessionHistory.tsx:62-66 | A non-negative duration shows with the colon third from the end. |
| SessionHistory.FormatDurationRoundTrip | components/SessionHistory.tsx:62-66 | The label reads back as unpadded minutes and two-digit seconds below 60 that recombine to the duration. |
| SessionHistory.Bucket | components/SessionHistory.tsx:45-60 | Less than a day ago is today and one to two days is yesterday. Below seven days it is the whole number of days ago. A future time falls here too. Everything older is a calendar date. |
| SessionHistory.DaysAgoLabel | components/SessionHistory.tsx:56 | The label is the day count followed by the "days ago" suffix. |
| SessionHistory.Displayed | components/SessionHistory.tsx:72 | Expanded shows all sessions; collapsed shows the first `min(5, n)`. Always a prefix. |
| SessionHistory.Render | components/SessionHistory.tsx:68-124 | Hidden exactly without a database user or while loading. Empty exactly when there are no sessions. Otherwise one row per displayed session, in order, and the toggle appears exactly when more than five are loaded. |
| SessionHistory.CollapsedShowsNewest | components/SessionHistory.tsx:36-72 | The panel's request returns the user's ten newest sessions, and the collapsed view shows their five newest overall. |
| UserStats.HoursMinutes | components/UserStats.tsx:41-42 | Minutes lie in 0..59. Hours and minutes cover the seconds to within one minute. Hours are positive exactly from one hour on. |
| UserStats.HourUnitIffHour | components/UserStats.tsx:40-48 | The hour unit appears exactly for an hour or more, and the label always ends in minutes. |
| UserStats.FormatHm | components/UserStats.tsx:40-48 | Every label ends with the minute unit. |
| UserStats.Render | components/UserStats.tsx:50-105 | Hidden exactly without a database user or while loading. A failure note shows exactly when the statistics are missing. Otherwise it shows the count, the total and the average, and the hint exactly when no session has been completed. |
| UserStats.HintIffNothingCompleted | components/UserStats.tsx:101-105 | With loaded statistics, the first-session hint shows exactly when the user has no completed session. |
| RoomPanel.JoinScreenOfStore | components/RoomPanel.tsx:13 | The join screen (`useState(!roomId)`, `RoomPanel.InitiallyJoining`) shows in a fresh store. It no longer shows after a delivered join with a database user and a non-empty room. Without a database user, or when the post is not delivered, joining leaves it as it was. |
| RoomPanel.RoomCode | components/RoomPanel.tsx:35 | The room is the trimmed input when that is non-empty, else the fresh code; it is never empty. |
| RoomPanel.HandleJoinRoom | components/RoomPanel.tsx:29-59 | A join is refused exactly when the name is all whitespace. Otherwise it goes ahead with the trimmed input name, which is non-empty, the client's colour, and the typed room code or the fresh one when none was typed. |
| RoomPanel.WithCreatedIdTruthy | components/RoomPanel.tsx:39-50 | A truthy created id, or a failed creation with a truthy id already held, leaves the client with a truthy database id. |
| RoomPanel.JoinReachesStore | components/RoomPanel.tsx:39-53 | The store's join runs whether or not creating the user failed. With a usable id it posts one status for the chosen room. When that post is delivered after a successful creation, the client holds the room, the name and the new id. |
| RoomPanel.VisibleUsersOfPoll | lib/store.ts:284-312 | After a successful poll the panel shows exactly the room's projected live rows, newest first, and nobody for an unknown room. Every user shown comes from a row of the room seen within the window. |
| RoomPanel.MinuteFloors | components/RoomPanel.tsx:70-74 | Sixty times the summed per-user minutes is at most the summed seconds, and short of it by at most 59 per user. |
| RoomPanel.MinutesAddUp | components/RoomPanel.tsx:70-74 | The per-user minutes never add up to more than the room total, and fall short of it by less than one minute per user. |
| RoomPanel.TotalMinutes | components/RoomPanel.tsx:70-74 | The room total in minutes is the floor of the summed seconds over 60. |
| RoomPanel.UserMinutes | components/RoomPanel.tsx:199 | One user's minutes are the floor of their seconds over 60. |
| RoomPanel.OnlineCount | components/RoomPanel.tsx:140 | Everybody listed is online: the focusing users plus the idle ones. |
| RoomPanel.FocusingCount | components/RoomPanel.tsx:177 | The focusing count is at most the number listed, and is positive whenever a listed user is focused. |
| RoomPanel.FocusingCountBounds | components/RoomPanel.tsx:140-177 | The focusing count is at most the online count. It equals it exactly when everyone is focused, and is zero exactly when nobody is. |
| Seqs.NewestFirst | lib/db.ts:151-155 | `orderBy desc` then `take`: the result has the right size, comes from the pool, is newest first, and nothing left out is newer. |
| Seqs.PageOfPage | components/SessionHistory.tsx:36-72 | The first `n` of the `limit` newest are the `n` newest, for `n` up to `limit`. |
| OrderedMaps.Put | server.js:61-65 | `Map.set`: the key then maps to the value and other keys keep theirs. A present key stays in place, and a new key is appended. |
| OrderedMaps.Remove | server.js:132-142 | `Map.delete`: the key is gone and every other key keeps its value. The entry is cut out from where it stood, so the remaining keys keep their insertion order. |
| OrderedMaps.PutThenRemove | server.js:61-142 | Setting a new key and deleting it again restores the map. |
| Text.ParseIntPrefixRoundTrip | app/api/sessions/route.ts:52 | `parseInt` reads back the decimal rendering of a number, whatever non-digits follow it, except a zero followed by `x` or `X`, which starts a hexadecimal number. |
| Text.ParseIntPrefix | app/api/sessions/route.ts:52 | `parseInt` yields a number exactly when the string starts with a decimal digit, or, after a `0x`/`0X` prefix, with a hexadecimal digit. |
| Text.ParseIntPrefixHexDigits | app/api/sessions/route.ts:52 | After `0x`, `parseInt` reads the hexadecimal digits in base 16, whatever non-hex character follows. |
| Text.ParseIntPrefixHex | app/api/sessions/route.ts:52 | `0x10` reads as 16 and `0X1f;` as 31, and a bare `0x` or `0xg` is not a number. |
| Text.Trim | components/RoomPanel.tsx:30-36 | `trim` is a contiguous piece of the input with only whitespace cut from either end. It is empty exactly for an all-whitespace string, and otherwise starts and ends with a non-whitespace character. |
| Text.JsRem | components/SessionHistory.tsx:64 | JavaScript's `%` is a remainder of truncated division: `a == q * b + r` for some `q`. It agrees with the mathematical remainder for a non-negative dividend and is non-positive for a negative one. |
| Text.PadStart | components/FocusTimer.tsx:47 | `padStart` reaches the requested width, keeps the string as its suffix, and fills only the added positions. |

## Left out

- Prisma, `fetch`, SWR and Socket.IO are not modelled. Each table is a sequence of rows, each request is a function, and each network outcome is an explicit input.
- The schema is not part of this model. The unique keys (user id, email, room code, room id, the member key (user, room), session id) are the invariant `Db.Wf`, and the schema's defaults are written into `Db.NewMember` and `Db.StartSession`.
- Foreign keys are not modelled. A presence row whose user is missing projects with an empty name and colour.
- The SWR hook `useRoomUsers` is modelled only by `RoomPanel.VisibleUsers`. Its polling interval, deduplication and retries are library behaviour, and so is keeping the last data after a failed poll.
- RoomPanel.VisibleUsersOfPoll: the client puts the room code into the poll URL, and `ClientStore.LeaveRoom` into the DELETE URL, without `encodeURIComponent`, and the server reads it back with `searchParams.get`. A code containing `+`, `&`, `#` or `%` therefore reaches those two routes as a different code, while the status POST carries it unchanged in a JSON body. The model passes the code through unchanged, so it covers only codes without URL-reserved characters, such as the generated `nanoid` codes (`RoomPanel.IsFreshCode`).
- Async interleavings are not modelled. Every action is one sequential transition, so races between the awaits in the client store and concurrent upserts are out of scope.
- Malformed JSON request bodies are not modelled. A body that fails to parse is a 500 in the source, and the model starts from parsed fields.
- Routes.SessionLimit: `parseInt` is modelled for a limit that starts with a decimal digit or with `0x`/`0X`. A signed, space-led or non-numeric limit is treated as refused by the store (500); the source would pass `NaN` or a negative number to the query. Values beyond 2^53 are exact here, where JavaScript would round them.
- Db.RoomSessions: the `user` relation included with each room session is not modelled.
- Db.GetRoom: the `user` relation included with each member row is not modelled.
- Text.Trim: strings are sequences of characters. JavaScript counts UTF-16 code units in `slice` and `length`, which differs only for characters outside the Basic Multilingual Plane.
- `components/Planet.tsx`, `components/Universe.tsx` and `components/ShareCard.tsx` are not modelled. They are floating-point geometry and rendering, and an image export.
- The page, layout, error-boundary and loading-screen components, the thin fetch wrappers of `lib/api.ts`, and the database seed script are not modelled.
- The timer's `getProgress` (a floating-point percentage) and the completion sound (Web Audio) are not modelled.
- Locale date and time strings of the history panel are not modelled. Only the day-bucket choice is.
- `nanoid`, the random colour and `Date.now` are not modelled. They are parameters: the fresh code (`RoomPanel.IsFreshCode`), `ClientStore.Initial`'s colour, and `now`.
- UserStats.Render: the average is shown from `averageSessionTime.Floor`. That equals the source's `Math.floor` on the quotient, but the intermediate floating-point division is not modelled.
- Db.GetUserStats: the average is an exact rational, not a JavaScript double.
- Roster.UpdateStatus: a socket found in a room whose id is the empty string changes nothing, because the source tests the found room id for truthiness.
- The room panel's copy-link button, the `?room=` prefill from the URL, and the `pushState` after joining are not modelled. They are browser I/O.
- The HTTP server bootstrap of `server.js` and its shutdown handler are not modelled.
- `disconnect` does not touch the durable store. Its outcome has no store component, which states that in the types.
