# Matchmaking state of a chat-pairing server, in Dafny

This project models the in-memory state a one-on-one chat server keeps while it
pairs anonymous clients, and proves properties of that state. The server is
written in TypeScript. Four pieces are modelled:

- **Pairing rule** (`src/User.ts`): `isPairableWith`, built from the gender check
  and the location check over two preference records. Modelled as pure functions
  in module `Users` (`GenderCheck`, `LocationCheck`, `IsPairable`), with lemmas for
  the rule table, its symmetry and the outcomes the test files pin.
- **Session record** (`src/User.ts`): class `Users.User`. Its fields `status`,
  `time`, `disconnectReason`, `roomId` and `userData` change in place through
  `SetTime`, `SetStatus`, `SetCurrentRoomId`, `Disconnect`, `Recover` and the
  other setters. What the socket is told is kept as a ghost log `emitted`.
- **Room table** (`src/Room.ts`): class `Rooms.Room` over `rooms: seq<SingleRoom>`.
  Each operation's effect on the table is a function (`Removed`, `Added`,
  `NonEmptyRooms`). The lemmas prove the table invariant `TableValid`: room ids
  are distinct, and each user id occurs in at most one room, at most once. They
  also give the exact effect of a join. The capacity guard of `addUserToRoom`
  can never fire.
- **Waiting queue** (`src/Queue.ts`, class `Queues.Queue`) and **connected-user
  registry** (`src/Server.ts`, class `Server.SocketServer`): duplicate-free lists
  with a guarded add and a filtering remove.

Module `SeqUtil` models the JavaScript array operations the code relies on:
`filter` as `Filter`, `find` as `FindIndex` (the index of the first hit),
`filter(x => x !== y)` as `Without`. Module `Wrappers` holds `Option`, which
stands for `null`/`undefined`.

Abstractions:
- The uuid of a new room is the parameter `freshId` of `GenerateRoom`. It must
  differ from every existing id, as a version-4 uuid does.
- The clock (`Date.now`) is the parameter `now` of `Recover`.
- The handshake stamp `socket?.handshake?.issued` is a constructor parameter.
- A callback `cb?.()` becomes a returned `fired: bool`, which says whether it
  would run.
- `destroyRoom`'s `cleanup` becomes the returned list of ids it is called with.
- The server's `usersChanged` broadcast is the ghost log `usersChanged`.

Behaviour of the code worth knowing, which the model reproduces:
- `addUserToRoom` enforces no member limit. The guard at `src/Room.ts:44` tests
  `room === undefined` and `room?.users?.length < 2` together. When the room is
  absent the second part is `undefined < 2`, which is false, so the guard never
  holds. `Rooms.JoinFullRoom` shows a third member joining.
- `addToQueue` does not change any status.
- Four location tests expect `true` where the code returns `false`. The model
  follows the code, and `Users.LocationTestsTheCodeFails` states the code's answers.
  - `src/tests/location.test.ts:60-86` and `205-231`: one side accepts any
    county (`mapPref` 0) and the other lists counties, and both locations are
    non-null. Lines 160-161 handle a side with `mapPref` 0 only when the other
    side's location is `null`. Line 165 then fails, because the `mapPref` 0 side
    lists no counties.
  - `src/tests/location.test.ts:321-348` and `350-377`: `<budapest, mapPref 1,
    [gyms]>` is paired with `<null/undefined, mapPref 1, [budapest]>`. Neither
    side accepts any county, so lines 160-161 do not apply. Line 165 fails,
    because `['gyms'].includes(null)` is false.

## Model

| member | source | states |
|---|---|---|
| `SeqUtil.Filter` | src/Room.ts:74 | `filter` keeps exactly the elements satisfying the predicate and never grows the list |
| `SeqUtil.FindIndex` | src/Room.ts:63 | `find` yields the first position satisfying the predicate, or none when no element does |
| `SeqUtil.Without` | src/Queue.ts:33 | `filter(id => id !== x)` removes every occurrence of `x`, keeps every other element and its multiplicity, and is the identity when `x` is absent |
| `Users.LocationOf` | src/User.ts:116-120 | `getLocation` gives the county exactly when the location is a string; `null` and `undefined` both give none |
| `Users.GenderCheck` | src/User.ts:140-148 | the gender check passes iff the partner accepts my gender (or anyone) and I accept the partner's gender (or anyone) |
| `Users.LocationCheck` | src/User.ts:152-168 | the early-return chain of the location check in source order; its meaning is stated by the lemmas below |
| `Users.IsPairable` | src/User.ts:170-185 | a pair passes when both the gender and the location check pass; symmetry and the test outcomes are the lemmas below |
| `Users.LocationCheckCases` | src/User.ts:152-168 | the location check passes iff both accept any county, or a line-160/161 wildcard case holds, or each side's county is in the other's list; the early `false` on two null locations is subsumed |
| `Users.BothAnyCountyPair` | src/User.ts:158 | with both `mapPref` 0 the location check passes whatever the locations and lists |
| `Users.BothNullLocationsReject` | src/User.ts:158-163 | two null locations fail the location check unless both `mapPref` are 0 |
| `Users.GenderCheckSymmetric` | src/User.ts:144-145 | the gender check gives the same answer from either side |
| `Users.IsPairableSymmetric` | src/User.ts:170-185 | `a.isPairableWith(b) == b.isPairableWith(a)` for all preference records |
| `Users.UndefinedIsNull` | src/User.ts:116-120 | an `undefined` location pairs exactly like a `null` one, on either side |
| `Users.GenderTestCases` | src/tests/gender.test.ts:8-209 | the outcomes of the gender tests and of the two cases in src/tests/user.test.ts:14-59 |
| `Users.LocationTestCases` | src/tests/location.test.ts:31-319 | the outcomes of the location tests that the code meets |
| `Users.LocationTestsTheCodeFails` | src/tests/location.test.ts:60-377 | the code answers `false` on the four location tests that expect `true` |
| `Users.ApplyTimeArg` | src/User.ts:79-80 | an `undefined` argument of `setTime` keeps the field; any other, `null` included, replaces it |
| `Users.MoveTo` | src/User.ts:127-136 | after `setCurrentRoomId(r)`, `current == r`, and `last` is the old `current` if there was one, else `r` |
| `Users.LeaveThenEnter` | src/User.ts:127-132 | setting the room to `null` and then to `r` leaves `current == last == r` |
| `Users.Emitted` | src/User.ts:112 | `socket?.emit` records an event only when a socket is present |
| `Users.User.constructor` | src/User.ts:56-76 | a new session is IDLE, without preferences, reason or rooms; `join` is the handshake stamp, absent without a socket |
| `Users.User.SetTime` | src/User.ts:78-81 | each time field follows its argument as `ApplyTimeArg` says; nothing else changes |
| `Users.User.SetSocket` | src/User.ts:107-109 | replaces the socket and nothing else |
| `Users.User.SetStatus` | src/User.ts:111-114 | emits the new status on the socket and sets it; nothing else changes |
| `Users.User.UpdateUserData` | src/User.ts:122-125 | emits the new preferences on the socket and stores them; nothing else changes |
| `Users.User.SetCurrentRoomId` | src/User.ts:127-132 | emits the new id and moves the room reference as `MoveTo` says; nothing else changes |
| `Users.User.SetLastRoomId` | src/User.ts:134-136 | sets `last` only |
| `Users.User.Disconnect` | src/User.ts:188-194 | sets `leave` to the time, the reason to the given one or `"Unknown"`, the status to DISCONNECTED; leaves room reference, preferences and `join` untouched |
| `Users.User.Recover` | src/User.ts:196-201 | sets `join` to the clock, clears `leave` and the reason, sets IDLE; leaves room reference and preferences untouched |
| `Rooms.IndexById` | src/Room.ts:62-64 | the first room whose id equals the given one; an absent id matches nothing |
| `Rooms.IndexContaining` | src/Room.ts:54 | the first room whose members include the user |
| `Rooms.RemoveTarget` | src/Room.ts:54-55 | removal acts on the room with the given id, else on the first room holding the user, and on none only when neither exists |
| `Rooms.Removed` | src/Room.ts:53-60 | removal keeps the table's length and ids and changes no room but the target |
| `Rooms.RemovedFromTarget` | src/Room.ts:58 | the target room loses every occurrence of the user and keeps the other members in order |
| `Rooms.RemovedCount` | src/Room.ts:53-60 | removal lowers only the user's own occurrence count, by its count in the target room |
| `Rooms.Added` | src/Room.ts:42-51 | a join keeps the table's length and ids |
| `Rooms.AddedCount` | src/Room.ts:42-60 | after a join the user occurs exactly once if the room exists and nowhere if it does not; other users' counts are unchanged |
| `Rooms.AddedExact` | src/Room.ts:42-60 | after a join every room holds its old members without the user, in order, and only the target room gains the user, at its end |
| `Rooms.JoinUnknownRoom` | src/Room.ts:42-51 | joining an unknown room id leaves the user in no room |
| `Rooms.JoinFullRoom` | src/Room.ts:44-49 | a room with two members takes a third |
| `Rooms.CapacityGuard` | src/Room.ts:44 | the early-return condition of `addUserToRoom`, with `undefined < 2` read as false |
| `Rooms.CapacityGuardNeverFires` | src/Room.ts:44 | the early return of `addUserToRoom` is never taken |
| `Rooms.AddedValid` | src/Room.ts:46-49 | a join keeps the table invariant |
| `Rooms.RemovedValid` | src/Room.ts:53-60 | a removal keeps the table invariant |
| `Rooms.GeneratedValid` | src/Room.ts:32-40 | adding an empty room with a fresh id keeps the table invariant |
| `Rooms.NonEmptyRooms` | src/Room.ts:74 | the purged table holds exactly the input's rooms with members |
| `Rooms.NonEmptyConcat` | src/Room.ts:74 | purging keeps the surviving rooms in their original order |
| `Rooms.NonEmptyIdempotent` | src/Room.ts:73-78 | purging twice is purging once |
| `Rooms.NonEmptyCount` | src/Room.ts:73-78 | purging changes nobody's membership |
| `Rooms.NonEmptyValid` | src/Room.ts:73-78 | purging keeps the table invariant |
| `Rooms.FirstOther` | src/Room.ts:70 | the first member different from the user, or none when every member is the user |
| `Rooms.Room.constructor` | src/Room.ts:18 | the table starts empty and valid |
| `Rooms.Room.GenerateRoom` | src/Room.ts:32-40 | appends one empty room with the fresh id, returns that id, leaves the other rooms alone and keeps the invariant |
| `Rooms.Room.GetRoomById` | src/Room.ts:62-64 | a room of the table with that id, or none exactly when no room has it |
| `Rooms.Room.RemoveUserFromRoom` | src/Room.ts:53-60 | with no target nothing changes, the user's room reference included; otherwise the table becomes `Removed`, `current` becomes `null` and the callback runs |
| `Rooms.Room.AddUserToRoom` | src/Room.ts:42-51 | the guard of line 44 is evaluated and never taken; the table becomes `Added`; a user who was in a room ends with `current == last == roomId`; the socket is told `null` when the user left a room, then `roomId`; the callback always runs; the invariant is kept |
| `Rooms.Room.GetPartner` | src/Room.ts:66-71 | none when the current room is unknown; otherwise a member of that room other than the user, none only when every member is the user |
| `Rooms.Room.DeleteEmptyRooms` | src/Room.ts:73-78 | the table becomes `NonEmptyRooms` of the old one and stays valid |
| `Rooms.Room.DestroyRoom` | src/Room.ts:80-87 | `cleanup` is called once per member, in order, and not at all for an unknown room; the table is not changed |
| `Rooms.Room.IsUserInRoom` | src/Room.ts:89-94 | false for an unknown room; true only if a room with that id holds the user, and iff so when ids are distinct |
| `Queues.QueueAdd` | src/Queue.ts:22-28 | adding a present id changes nothing; adding an absent one appends it at the tail |
| `Queues.QueueRemove` | src/Queue.ts:30-37 | removing drops every occurrence, keeps every other id, and changes nothing when the id is absent |
| `Queues.QueueAddNoDup` | src/Queue.ts:22-28 | adding keeps the queue duplicate-free |
| `Queues.QueueRemoveNoDup` | src/Queue.ts:30-37 | removing keeps the queue duplicate-free |
| `Queues.RunNoDup` | src/Queue.ts:22-37 | any sequence of adds and removes keeps a duplicate-free queue duplicate-free |
| `Queues.AddThenRemove` | src/Queue.ts:22-37 | adding a fresh id and removing it restores the queue exactly |
| `Queues.AddRemoveScenario` | src/tests/queue.test.ts:13-23 | one add to an empty queue gives length 1, and removing it gives the empty queue |
| `Queues.Queue.constructor` | src/Queue.ts:10 | the queue starts empty |
| `Queues.Queue.AddToQueue` | src/Queue.ts:22-28 | the queue becomes `QueueAdd`; the callback runs iff the id was absent |
| `Queues.Queue.RemoveFromQueue` | src/Queue.ts:30-37 | the queue becomes `QueueRemove`; the callback runs iff the id was present |
| `Queues.Queue.GetQueue` | src/Queue.ts:39 | returns the current list |
| `Server.Registered` | src/Server.ts:32 | the `find` by id returns a session, i.e. some registered session has that id |
| `Server.WithoutId` | src/Server.ts:40 | the registry filtered to the sessions whose id differs from the given one |
| `Server.IdsWithoutId` | src/Server.ts:40 | filtering the sessions by id is removing that id from the id list, others in order |
| `Server.SocketServer.constructor` | src/Server.ts:19 | the registry starts empty |
| `Server.SocketServer.AddToConnectedUsers` | src/Server.ts:31-37 | a session whose id is registered is not added; a new one is appended; the count broadcast is the new length; ids stay distinct |
| `Server.SocketServer.RemoveFromConnectedUsers` | src/Server.ts:39-45 | no session with the id remains, the others keep their order, an unregistered id changes nothing, the count broadcast is the new length |

## Left out

- Transport and bootstrap are not modelled: the socket.io server in the `SocketServer` constructor, `onConnect`, `getAuthToken`, `User.leaveAllSocketRoom`, and `src/index.ts`, `src/routes/chatRoutes.ts`, `src/controllers/chatController.ts` are wiring to external libraries.
- `src/RedisServer.ts` (a Redis client) and `src/utils/isValidToken.ts` (a uuid-library check) are thin library wrappers.
- `src/utils/getRandomTopic.ts` is not modelled: it needs a random-number helper and a topics file that are not part of this model, and its rejection loop has no termination guarantee.
- Partner search, the message log, the cleanup sweeper and reconnection orchestration do not occur in the modelled files.
- Socket emits are recorded only as a ghost log. Console logging is dropped.
- The getters (`getId`, `getTime`, `getRoomId`, `getUserData`, `getSocket`, `getCurrentStatus`) are plain field reads.
- `userDisconnectCallbackFC` is never set by the shown code, and the third `User` constructor argument at `src/Server.ts:55` is ignored, so neither is modelled.
- The unused `strict` parameter of `isPairableWith` is not modelled.
- `Users.IsPairable` takes the two preference records rather than the two users. The code reads `userData` on both sides unguarded, and line 172 is a no-op statement, so a missing record throws. The model therefore has no case for absent preferences.
- `src/enums.ts` is not part of this model. `Gender` (MALE, FEMALE, ALL) and `Status` (IDLE, IN_QUEUE, IN_CHAT, DISCONNECTED) take their values from the uses and tests.
- County lists are lists of strings, so `includes(null)` is false. A list holding `null` is not modelled.
- A time field holding `null` and one holding `undefined` are both `None`. Only `setTime`'s arguments tell the two apart.
- `Date.now()` in the field initialiser at `src/User.ts:63` is overwritten by the constructor and does not appear.
- The room table is a sequence of values. Callers holding a room object returned by `getRoomById` or `getRoomList`, and aliasing that object, are not modelled.
- The singletons (`getInstance`, the static `rooms` and `queue` fields) are ordinary objects.
- `getQueue()` returns the live queue array, and `connectedUsers` is a public field. Later `push`es would change what a caller holds. `Queues.Queue.GetQueue` returns a copy of the sequence, and the model does not capture this aliasing.
- Callbacks are reduced to whether they run (`fired`) or the ids they get (`DestroyRoom`). Their own effects are the caller's.
- `Users.GenderTestCases`, `Users.LocationTestCases` and `Queues.AddRemoveScenario` check the tests' preference records and ids, not the test harness. The queue test passes `User` objects where ids are expected, and the model uses ids.
