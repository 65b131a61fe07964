/**
 * The room table (src/Room.ts): a list of `{id, users}` records that the
 * server creates, joins, leaves, purges and queries.
 */
module Rooms {
  import opened Wrappers
  import opened SeqUtil
  import opened Users

  datatype SingleRoom = SingleRoom(id: string, users: seq<string>)

  /** `rooms.find(room => room.id === roomId)` as a position; an absent (`undefined`/`null`) id matches nothing. */
  function IndexById(rooms: seq<SingleRoom>, roomId: Option<string>): (r: Option<nat>)
    ensures r.Some? ==> r.value < |rooms| && roomId == Some(rooms[r.value].id)
    ensures r.Some? ==> forall k :: 0 <= k < r.value ==> Some(rooms[k].id) != roomId
    ensures r.None? ==> forall k :: 0 <= k < |rooms| ==> Some(rooms[k].id) != roomId
  {
    match roomId
    case None => None
    case Some(id) => FindIndex(rooms, (rm: SingleRoom) => rm.id == id)
  }

  /** `rooms.find(room => room.users.includes(userId))` as a position. */
  function IndexContaining(rooms: seq<SingleRoom>, userId: string): (r: Option<nat>)
    ensures r.Some? ==> r.value < |rooms| && userId in rooms[r.value].users
    ensures r.Some? ==> forall k :: 0 <= k < r.value ==> userId !in rooms[k].users
    ensures r.None? ==> forall k :: 0 <= k < |rooms| ==> userId !in rooms[k].users
  {
    FindIndex(rooms, (rm: SingleRoom) => userId in rm.users)
  }

  /** The room `removeUserFromRoom` acts on: the one with the given id, else the first one holding the user. */
  function RemoveTarget(rooms: seq<SingleRoom>, userId: string, roomId: Option<string>): (r: Option<nat>)
    ensures r.None? <==> IndexById(rooms, roomId).None? && IndexContaining(rooms, userId).None?
    ensures r.Some? ==> r.value < |rooms|
  {
    match IndexById(rooms, roomId)
    case Some(i) => Some(i)
    case None => IndexContaining(rooms, userId)
  }

  /** The table after `removeUserFromRoom(user, roomId)`. */
  function Removed(rooms: seq<SingleRoom>, userId: string, roomId: Option<string>): (r: seq<SingleRoom>)
    ensures |r| == |rooms|
    ensures forall k :: 0 <= k < |rooms| ==> r[k].id == rooms[k].id
    ensures forall k :: 0 <= k < |rooms| && RemoveTarget(rooms, userId, roomId) != Some(k) ==> r[k] == rooms[k]
  {
    match RemoveTarget(rooms, userId, roomId)
    case None => rooms
    case Some(i) => rooms[i := rooms[i].(users := Without(rooms[i].users, userId))]
  }

  /** The table after `addUserToRoom(user, roomId)`: out of the first room holding the user, then onto the target. */
  function Added(rooms: seq<SingleRoom>, userId: string, roomId: string): (r: seq<SingleRoom>)
    ensures |r| == |rooms|
    ensures forall k :: 0 <= k < |rooms| ==> r[k].id == rooms[k].id
  {
    var cleared := Removed(rooms, userId, None);
    match IndexById(rooms, Some(roomId))
    case None => cleared
    case Some(t) => cleared[t := cleared[t].(users := cleared[t].users + [userId])]
  }

  /** The early return of `addUserToRoom`, `room === undefined && room?.users?.length < 2`:
      on an absent room the optional chain yields `undefined`, and `undefined < 2` is false. */
  function CapacityGuard(room: Option<SingleRoom>): bool {
    room.None? && match room
      case Some(r) => |r.users| < 2
      case None => false
  }

  /** The capacity guard never fires, so rooms have no member limit. */
  lemma CapacityGuardNeverFires(room: Option<SingleRoom>)
    ensures !CapacityGuard(room)
  {
  }

  predicate IsOccupied(room: SingleRoom) {
    |room.users| != 0
  }

  /** The table after `deleteEmptyRooms`. */
  function NonEmptyRooms(rooms: seq<SingleRoom>): (r: seq<SingleRoom>)
    ensures forall k :: 0 <= k < |r| ==> r[k] in rooms && |r[k].users| != 0
    ensures forall k :: 0 <= k < |rooms| && |rooms[k].users| != 0 ==> rooms[k] in r
  {
    Filter(rooms, IsOccupied)
  }

  /** The other member of a room: `users.find(id => id !== userId)`. */
  function FirstOther(users: seq<string>, userId: string): (r: Option<string>)
    ensures r.None? <==> forall k :: 0 <= k < |users| ==> users[k] == userId
    ensures r.Some? ==> r.value != userId && r.value in users
    ensures r.Some? ==> exists k :: 0 <= k < |users| && users[k] == r.value && forall j :: 0 <= j < k ==> users[j] == userId
  {
    match FindIndex(users, (u: string) => u != userId)
    case None => None
    case Some(k) => Some(users[k])
  }

  /** How often `u` occurs as a member, over all rooms. */
  ghost function Count(rooms: seq<SingleRoom>, u: string): nat {
    if rooms == [] then 0 else multiset(rooms[0].users)[u] + Count(rooms[1..], u)
  }

  ghost predicate UniqueIds(rooms: seq<SingleRoom>) {
    forall i, j :: 0 <= i < j < |rooms| ==> rooms[i].id != rooms[j].id
  }

  /** The table invariant: room ids are distinct, and each user id occurs in at most one room, at most once. */
  ghost predicate TableValid(rooms: seq<SingleRoom>) {
    UniqueIds(rooms) && forall u :: Count(rooms, u) <= 1
  }

  lemma {:induction false} CountAt(rooms: seq<SingleRoom>, i: nat, u: string)
    requires i < |rooms|
    ensures Count(rooms, u) >= multiset(rooms[i].users)[u]
  {
    if i > 0 {
      CountAt(rooms[1..], i - 1, u);
    }
  }

  lemma {:induction false} CountPair(rooms: seq<SingleRoom>, i: nat, j: nat, u: string)
    requires i < j < |rooms|
    ensures Count(rooms, u) >= multiset(rooms[i].users)[u] + multiset(rooms[j].users)[u]
  {
    if i == 0 {
      CountAt(rooms[1..], j - 1, u);
    } else {
      CountPair(rooms[1..], i - 1, j - 1, u);
    }
  }

  /** Replacing one room changes the count by exactly that room's difference. */
  lemma {:induction false} CountUpdate(rooms: seq<SingleRoom>, i: nat, room: SingleRoom, u: string)
    requires i < |rooms|
    ensures Count(rooms[i := room], u)
         == Count(rooms, u) - multiset(rooms[i].users)[u] + multiset(room.users)[u]
  {
    if i == 0 {
      assert rooms[i := room][1..] == rooms[1..];
    } else {
      assert rooms[i := room][1..] == rooms[1..][i - 1 := room];
      CountUpdate(rooms[1..], i - 1, room, u);
    }
  }

  /** A user with no occurrence is in no room. */
  lemma CountZero(rooms: seq<SingleRoom>, u: string)
    requires Count(rooms, u) == 0
    ensures forall k :: 0 <= k < |rooms| ==> u !in rooms[k].users
  {
    forall k | 0 <= k < |rooms| ensures u !in rooms[k].users {
      CountAt(rooms, k, u);
    }
  }

  /** Removal takes every occurrence of the user out of the target room and touches no other user. */
  lemma RemovedCount(rooms: seq<SingleRoom>, userId: string, roomId: Option<string>, u: string)
    ensures Count(Removed(rooms, userId, roomId), u)
         == match RemoveTarget(rooms, userId, roomId)
            case Some(i) => if u == userId then Count(rooms, u) - multiset(rooms[i].users)[u] else Count(rooms, u)
            case None => Count(rooms, u)
  {
    match RemoveTarget(rooms, userId, roomId)
    case None =>
    case Some(i) =>
      CountUpdate(rooms, i, rooms[i].(users := Without(rooms[i].users, userId)), u);
  }

  /** After `addUserToRoom` the user occurs exactly once if the room exists and nowhere otherwise;
      every other user's occurrences are unchanged. */
  lemma AddedCount(rooms: seq<SingleRoom>, userId: string, roomId: string, u: string)
    requires Count(rooms, userId) <= 1
    ensures u == userId ==> Count(Added(rooms, userId, roomId), u) == if IndexById(rooms, Some(roomId)).Some? then 1 else 0
    ensures u != userId ==> Count(Added(rooms, userId, roomId), u) == Count(rooms, u)
  {
    var cleared := Removed(rooms, userId, None);
    RemovedCount(rooms, userId, None, u);
    assert Count(cleared, userId) == 0 by {
      RemovedCount(rooms, userId, None, userId);
      match IndexContaining(rooms, userId)
      case None =>
        if Count(rooms, userId) != 0 {
          assert Count(rooms, userId) == 1;
          CountNonZero(rooms, userId);
        }
      case Some(c) =>
        CountAt(rooms, c, userId);
    }
    match IndexById(rooms, Some(roomId))
    case None =>
    case Some(t) =>
      CountUpdate(cleared, t, cleared[t].(users := cleared[t].users + [userId]), u);
  }

  /** A user with an occurrence is in some room. */
  lemma {:induction false} CountNonZero(rooms: seq<SingleRoom>, u: string)
    requires Count(rooms, u) > 0
    ensures exists k :: 0 <= k < |rooms| && u in rooms[k].users
  {
    if multiset(rooms[0].users)[u] > 0 {
      assert u in rooms[0].users;
    } else {
      CountNonZero(rooms[1..], u);
      var k :| 0 <= k < |rooms[1..]| && u in rooms[1..][k].users;
      assert rooms[k + 1] == rooms[1..][k];
    }
  }

  /** The exact effect of `addUserToRoom` on a table where the user is in at most one room:
      each room loses the user, the other members keep their order, and only the target gains
      the user, at its end. */
  lemma AddedExact(rooms: seq<SingleRoom>, userId: string, roomId: string, k: nat)
    requires Count(rooms, userId) <= 1
    requires k < |rooms|
    ensures Added(rooms, userId, roomId)[k].users
         == Without(rooms[k].users, userId) + (if IndexById(rooms, Some(roomId)) == Some(k) then [userId] else [])
  {
    var cleared := Removed(rooms, userId, None);
    assert cleared[k].users == Without(rooms[k].users, userId) by {
      match IndexContaining(rooms, userId)
      case None =>
      case Some(c) =>
        if c != k {
          if c < k { CountPair(rooms, c, k, userId); } else { CountPair(rooms, k, c, userId); }
          assert userId !in rooms[k].users;
        }
    }
  }

  /** Joining an unknown room id still takes the user out of its previous room, and no room gains it. */
  lemma JoinUnknownRoom(rooms: seq<SingleRoom>, userId: string, roomId: string)
    requires Count(rooms, userId) <= 1
    requires forall k :: 0 <= k < |rooms| ==> rooms[k].id != roomId
    ensures forall k :: 0 <= k < |rooms| ==> userId !in Added(rooms, userId, roomId)[k].users
  {
    AddedCount(rooms, userId, roomId, userId);
    CountZero(Added(rooms, userId, roomId), userId);
  }

  /** A room that already has two members still takes a third. */
  lemma JoinFullRoom()
    ensures Added([SingleRoom("r", ["a", "b"])], "c", "r") == [SingleRoom("r", ["a", "b", "c"])]
  {
    var rooms := [SingleRoom("r", ["a", "b"])];
    assert IndexById(rooms, Some("r")) == Some(0);
    assert "c" !in rooms[0].users;
    assert IndexContaining(rooms, "c").None?;
    assert Removed(rooms, "c", None) == rooms;
    assert ["a", "b"] + ["c"] == ["a", "b", "c"];
  }

  /** Removal from the target room takes out every occurrence of the user and keeps the other members in order. */
  lemma RemovedFromTarget(rooms: seq<SingleRoom>, userId: string, roomId: Option<string>)
    requires RemoveTarget(rooms, userId, roomId).Some?
    ensures var i := RemoveTarget(rooms, userId, roomId).value;
            Removed(rooms, userId, roomId)[i].users == Without(rooms[i].users, userId)
            && userId !in Removed(rooms, userId, roomId)[i].users
  {
  }

  /** `addUserToRoom` keeps the table invariant. */
  lemma AddedValid(rooms: seq<SingleRoom>, userId: string, roomId: string)
    requires TableValid(rooms)
    ensures TableValid(Added(rooms, userId, roomId))
  {
    forall u ensures Count(Added(rooms, userId, roomId), u) <= 1 {
      AddedCount(rooms, userId, roomId, u);
    }
  }

  /** `removeUserFromRoom` keeps the table invariant, and the user is then in no room. */
  lemma RemovedValid(rooms: seq<SingleRoom>, userId: string, roomId: Option<string>)
    requires TableValid(rooms)
    ensures TableValid(Removed(rooms, userId, roomId))
  {
    forall u ensures Count(Removed(rooms, userId, roomId), u) <= 1 {
      RemovedCount(rooms, userId, roomId, u);
    }
  }

  /** `generateRoom` with a fresh id keeps the table invariant. */
  lemma GeneratedValid(rooms: seq<SingleRoom>, freshId: string)
    requires TableValid(rooms)
    requires forall k :: 0 <= k < |rooms| ==> rooms[k].id != freshId
    ensures TableValid(rooms + [SingleRoom(freshId, [])])
  {
    var r := rooms + [SingleRoom(freshId, [])];
    forall u ensures Count(r, u) <= 1 {
      CountAppendEmpty(rooms, freshId, u);
    }
  }

  lemma {:induction false} CountAppendEmpty(rooms: seq<SingleRoom>, id: string, u: string)
    ensures Count(rooms + [SingleRoom(id, [])], u) == Count(rooms, u)
  {
    if rooms == [] {
      assert rooms + [SingleRoom(id, [])] == [SingleRoom(id, [])];
    } else {
      assert (rooms + [SingleRoom(id, [])])[1..] == rooms[1..] + [SingleRoom(id, [])];
      CountAppendEmpty(rooms[1..], id, u);
    }
  }

  /** Purging empty rooms changes nobody's membership. */
  lemma {:induction false} NonEmptyCount(rooms: seq<SingleRoom>, u: string)
    ensures Count(NonEmptyRooms(rooms), u) == Count(rooms, u)
  {
    if rooms != [] {
      NonEmptyCount(rooms[1..], u);
      if IsOccupied(rooms[0]) {
        assert NonEmptyRooms(rooms) == [rooms[0]] + NonEmptyRooms(rooms[1..]);
        assert ([rooms[0]] + NonEmptyRooms(rooms[1..]))[1..] == NonEmptyRooms(rooms[1..]);
      } else {
        assert rooms[0].users == [];
      }
    }
  }

  /** Purging empty rooms keeps room ids distinct. */
  lemma {:induction false} NonEmptyUniqueIds(rooms: seq<SingleRoom>)
    requires UniqueIds(rooms)
    ensures UniqueIds(NonEmptyRooms(rooms))
  {
    if rooms != [] {
      assert UniqueIds(rooms[1..]) by {
        forall i, j | 0 <= i < j < |rooms[1..]| ensures rooms[1..][i].id != rooms[1..][j].id {
          assert rooms[1..][i] == rooms[i + 1] && rooms[1..][j] == rooms[j + 1];
        }
      }
      NonEmptyUniqueIds(rooms[1..]);
      if IsOccupied(rooms[0]) {
        var t := NonEmptyRooms(rooms[1..]);
        var r := [rooms[0]] + t;
        assert NonEmptyRooms(rooms) == r;
        forall i, j | 0 <= i < j < |r| ensures r[i].id != r[j].id {
          if i == 0 {
            assert r[j] == t[j - 1] && t[j - 1] in rooms[1..];
            var m :| 0 <= m < |rooms[1..]| && rooms[1..][m] == t[j - 1];
            assert rooms[m + 1] == t[j - 1];
          } else {
            assert r[i] == t[i - 1] && r[j] == t[j - 1];
          }
        }
      }
    }
  }

  /** `deleteEmptyRooms` keeps the table invariant. */
  lemma NonEmptyValid(rooms: seq<SingleRoom>)
    requires TableValid(rooms)
    ensures TableValid(NonEmptyRooms(rooms))
  {
    NonEmptyUniqueIds(rooms);
    forall u ensures Count(NonEmptyRooms(rooms), u) <= 1 {
      NonEmptyCount(rooms, u);
    }
  }

  /** Purging twice is purging once. */
  lemma NonEmptyIdempotent(rooms: seq<SingleRoom>)
    ensures NonEmptyRooms(NonEmptyRooms(rooms)) == NonEmptyRooms(rooms)
  {
    FilterIdempotent(rooms, IsOccupied);
  }

  /** Purging keeps the order of the surviving rooms: it distributes over concatenation. */
  lemma NonEmptyConcat(a: seq<SingleRoom>, b: seq<SingleRoom>)
    ensures NonEmptyRooms(a + b) == NonEmptyRooms(a) + NonEmptyRooms(b)
  {
    FilterConcat(a, b, IsOccupied);
  }

  /** The room manager; the source keeps the table in a static field of a singleton. */
  class Room {
    var rooms: seq<SingleRoom>

    ghost predicate Valid()
      reads this
    {
      TableValid(rooms)
    }

    constructor ()
      ensures rooms == [] && Valid()
    {
      rooms := [];
    }

    /** `generateRoom`: `freshId` stands for the uuid drawn by the source. */
    method GenerateRoom(freshId: string) returns (roomId: string)
      requires forall k :: 0 <= k < |rooms| ==> rooms[k].id != freshId
      modifies this
      ensures roomId == freshId
      ensures rooms == old(rooms) + [SingleRoom(freshId, [])]
      ensures old(Valid()) ==> Valid()
    {
      ghost var before := rooms;
      rooms := rooms + [SingleRoom(freshId, [])];
      roomId := freshId;
      if TableValid(before) {
        GeneratedValid(before, freshId);
      }
    }

    /** `getRoomById`. */
    function GetRoomById(roomId: string): (r: Option<SingleRoom>)
      reads this
      ensures r.Some? ==> r.value in rooms && r.value.id == roomId
      ensures r.None? <==> forall k :: 0 <= k < |rooms| ==> rooms[k].id != roomId
    {
      match IndexById(rooms, Some(roomId))
      case Some(i) => Some(rooms[i])
      case None => None
    }

    /** `removeUserFromRoom(user, roomId?)`; `fired` says whether the callback runs. */
    method RemoveUserFromRoom(user: User, roomId: Option<string>) returns (fired: bool)
      modifies this, user
      ensures fired == RemoveTarget(old(rooms), user.id, roomId).Some?
      ensures rooms == Removed(old(rooms), user.id, roomId)
      ensures user.roomId == if fired then MoveTo(old(user.roomId), None) else old(user.roomId)
      ensures user.emitted == if fired then Emitted(old(user.emitted), user.socket, UserRoomIdChanged(None)) else old(user.emitted)
      ensures user.socket == old(user.socket) && user.status == old(user.status) && user.userData == old(user.userData)
      ensures user.time == old(user.time) && user.disconnectReason == old(user.disconnectReason)
      ensures old(Valid()) ==> Valid()
    {
      ghost var before := rooms;
      var target := RemoveTarget(rooms, user.id, roomId);
      if target.None? {
        return false;
      }
      var i := target.value;
      user.SetCurrentRoomId(None);
      rooms := rooms[i := rooms[i].(users := Without(rooms[i].users, user.id))];
      fired := true;
      if TableValid(before) {
        RemovedValid(before, user.id, roomId);
      }
    }

    /** `addUserToRoom(user, roomId)`; the early return of line 44 is never taken, so the callback always runs. */
    method AddUserToRoom(user: User, roomId: string) returns (fired: bool)
      modifies this, user
      ensures fired
      ensures rooms == Added(old(rooms), user.id, roomId)
      ensures IndexContaining(old(rooms), user.id).Some? ==> user.roomId == RoomRef(Some(roomId), Some(roomId))
      ensures IndexContaining(old(rooms), user.id).None? ==> user.roomId == MoveTo(old(user.roomId), Some(roomId))
      ensures user.emitted
           == Emitted(if IndexContaining(old(rooms), user.id).Some?
                      then Emitted(old(user.emitted), old(user.socket), UserRoomIdChanged(None))
                      else old(user.emitted),
                      old(user.socket), UserRoomIdChanged(Some(roomId)))
      ensures user.socket == old(user.socket) && user.status == old(user.status) && user.userData == old(user.userData)
      ensures user.time == old(user.time) && user.disconnectReason == old(user.disconnectReason)
      ensures old(Valid()) ==> Valid()
    {
      ghost var before := rooms;
      var target := IndexById(rooms, Some(roomId));
      CapacityGuardNeverFires(GetRoomById(roomId));
      if CapacityGuard(GetRoomById(roomId)) {
        return false;
      }
      var removed := RemoveUserFromRoom(user, None);
      user.SetCurrentRoomId(Some(roomId));
      if target.Some? {
        var t := target.value;
        rooms := rooms[t := rooms[t].(users := rooms[t].users + [user.id])];
      }
      fired := true;
      if TableValid(before) {
        AddedValid(before, user.id, roomId);
      }
    }

    /** `getPartner`: the first other member of the user's current room, if that room exists. */
    function GetPartner(user: User): (r: Option<string>)
      reads this, user
      ensures IndexById(rooms, user.roomId.current).None? ==> r.None?
      ensures r.Some? ==> r.value != user.id
      ensures r.Some? ==> exists k :: 0 <= k < |rooms| && Some(rooms[k].id) == user.roomId.current && r.value in rooms[k].users
      ensures forall k :: 0 <= k < |rooms| && Some(rooms[k].id) == user.roomId.current && UniqueIds(rooms) ==>
                (r.None? <==> forall j :: 0 <= j < |rooms[k].users| ==> rooms[k].users[j] == user.id)
    {
      match IndexById(rooms, user.roomId.current)
      case None => None
      case Some(i) => FirstOther(rooms[i].users, user.id)
    }

    /** `deleteEmptyRooms`. */
    method DeleteEmptyRooms()
      modifies this
      ensures rooms == NonEmptyRooms(old(rooms))
      ensures old(Valid()) ==> Valid()
    {
      ghost var before := rooms;
      rooms := NonEmptyRooms(rooms);
      if TableValid(before) {
        NonEmptyValid(before);
      }
    }

    /** `destroyRoom(roomId, cleanup)`: the member ids `cleanup` is called with, in order;
        `hasCleanup` is false when no callback is passed. The table itself is not changed. */
    method DestroyRoom(roomId: string, hasCleanup: bool) returns (calls: seq<string>)
      ensures GetRoomById(roomId).None? || !hasCleanup ==> calls == []
      ensures GetRoomById(roomId).Some? && hasCleanup ==> calls == GetRoomById(roomId).value.users
    {
      calls := [];
      var room := GetRoomById(roomId);
      if room.None? {
        return;
      }
      var members := room.value.users;
      for i := 0 to |members|
        invariant calls == if hasCleanup then members[..i] else []
      {
        if hasCleanup {
          calls := calls + [members[i]];
        }
      }
    }

    /** `isUserInRoom`. */
    function IsUserInRoom(user: User, roomId: string): (r: bool)
      reads this
      ensures r ==> exists k :: 0 <= k < |rooms| && rooms[k].id == roomId && user.id in rooms[k].users
      ensures (forall k :: 0 <= k < |rooms| ==> rooms[k].id != roomId) ==> !r
      ensures UniqueIds(rooms) ==>
                (r <==> exists k :: 0 <= k < |rooms| && rooms[k].id == roomId && user.id in rooms[k].users)
    {
      match IndexById(rooms, Some(roomId))
      case Some(i) => user.id in rooms[i].users
      case None => false
    }
  }
}
