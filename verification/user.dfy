/**
 * One connected client (src/User.ts): its preference record, the pairing
 * rule between two preference records, and the session fields that the
 * server updates in place.
 */
module Users {
  import opened Wrappers

  datatype Gender = Male | Female | All

  datatype Status = Idle | InQueue | InChat | Disconnected

  /** The stored `location`: a county name, `null`, or `undefined`. */
  datatype Location = County(name: string) | NullLocation | UndefinedLocation

  /** The client-submitted preferences; `mapPref` 0 means any county, 1 the listed ones. */
  datatype UserData = UserData(
    location: Location,
    ownGender: Gender,
    partnerGender: Gender,
    counties: seq<string>,
    mapPref: int,
    interests: seq<string>,
    valid: bool)

  /** `getLocation`: the county name when the location is a string, otherwise `null`. */
  function LocationOf(d: UserData): (r: Option<string>)
    ensures r.Some? <==> d.location.County?
    ensures r.Some? ==> r.value == d.location.name
  {
    match d.location
    case County(name) => Some(name)
    case _ => None
  }

  /** `counties.includes(location)` on a list of strings: `null` is never included. */
  predicate Includes(counties: seq<string>, location: Option<string>) {
    location.Some? && location.value in counties
  }

  /** A side whose wish is `wanted` accepts a partner of gender `actual`. */
  predicate Accepts(wanted: Gender, actual: Gender) {
    wanted == All || wanted == actual
  }

  /** `#genderCheck`: the two early returns of the searcher `me` against the partner's genders. */
  function GenderCheck(me: UserData, partnerOwn: Gender, partnerPreference: Gender): (r: bool)
    ensures r <==> Accepts(partnerPreference, me.ownGender) && Accepts(me.partnerGender, partnerOwn)
  {
    if me.ownGender != partnerPreference && partnerPreference != All then false
    else if me.partnerGender != partnerOwn && me.partnerGender != All then false
    else true
  }

  /** `#locationCheck`: the chain of early returns, in source order. */
  function LocationCheck(me: UserData, partnerLocation: Option<string>,
                         partnerCounties: seq<string>, partnerMapPref: int): bool
  {
    var myLocation := LocationOf(me);
    if me.mapPref == 0 && partnerMapPref == 0 then true
    else if me.mapPref == 0 && partnerLocation.None? && Includes(partnerCounties, myLocation) then true
    else if partnerMapPref == 0 && myLocation.None? && Includes(me.counties, partnerLocation) then true
    else if myLocation.None? && partnerLocation.None? then false
    else if Includes(partnerCounties, myLocation) && Includes(me.counties, partnerLocation) then true
    else false
  }

  /** `isPairableWith`: both the gender and the location check pass. */
  function IsPairable(me: UserData, partner: UserData): bool {
    GenderCheck(me, partner.ownGender, partner.partnerGender)
    && LocationCheck(me, LocationOf(partner), partner.counties, partner.mapPref)
  }

  /** The wildcard case of line 160: I accept any county, the partner is everywhere and lists my county. */
  predicate AnyMeetsEverywhere(me: UserData, partner: UserData) {
    me.mapPref == 0 && LocationOf(partner).None? && Includes(partner.counties, LocationOf(me))
  }

  /** The location rule as one disjunction: the early return on two null locations is subsumed. */
  lemma LocationCheckCases(me: UserData, partner: UserData)
    ensures LocationCheck(me, LocationOf(partner), partner.counties, partner.mapPref)
        <==> ((me.mapPref == 0 && partner.mapPref == 0)
              || AnyMeetsEverywhere(me, partner)
              || AnyMeetsEverywhere(partner, me)
              || (Includes(partner.counties, LocationOf(me)) && Includes(me.counties, LocationOf(partner))))
  {
  }

  /** When both sides accept any county the locations and lists do not matter. */
  lemma BothAnyCountyPair(me: UserData, partner: UserData)
    requires me.mapPref == 0 && partner.mapPref == 0
    ensures LocationCheck(me, LocationOf(partner), partner.counties, partner.mapPref)
  {
  }

  /** Two sides without a county never pass unless both accept any county. */
  lemma BothNullLocationsReject(me: UserData, partner: UserData)
    requires LocationOf(me).None? && LocationOf(partner).None?
    requires !(me.mapPref == 0 && partner.mapPref == 0)
    ensures !LocationCheck(me, LocationOf(partner), partner.counties, partner.mapPref)
  {
  }

  /** The gender check is the same from either side. */
  lemma GenderCheckSymmetric(a: UserData, b: UserData)
    ensures GenderCheck(a, b.ownGender, b.partnerGender) == GenderCheck(b, a.ownGender, a.partnerGender)
  {
  }

  /** Pairing is symmetric: lines 144/145 and 160/161 mirror each other, 158 and 165 are symmetric. */
  lemma IsPairableSymmetric(a: UserData, b: UserData)
    ensures IsPairable(a, b) == IsPairable(b, a)
  {
    GenderCheckSymmetric(a, b);
    LocationCheckCases(a, b);
    LocationCheckCases(b, a);
  }

  /** `undefined` and `null` locations behave alike in pairing. */
  lemma UndefinedIsNull(a: UserData, b: UserData)
    requires a.location.NullLocation?
    ensures IsPairable(a.(location := UndefinedLocation), b) == IsPairable(a, b)
    ensures IsPairable(b, a.(location := UndefinedLocation)) == IsPairable(b, a)
  {
  }

  function Prefs(location: Location, own: Gender, wanted: Gender, counties: seq<string>, mapPref: int): UserData {
    UserData(location, own, wanted, counties, mapPref, [], true)
  }

  /** The outcomes the gender and user tests expect (all with no location and `mapPref` 0). */
  lemma GenderTestCases()
    ensures !IsPairable(Prefs(UndefinedLocation, Female, Female, [], 0), Prefs(UndefinedLocation, Female, Male, [], 0))
    ensures !IsPairable(Prefs(UndefinedLocation, Female, Male, [], 0), Prefs(UndefinedLocation, Female, Male, [], 0))
    ensures !IsPairable(Prefs(UndefinedLocation, Male, Female, [], 0), Prefs(UndefinedLocation, Female, Female, [], 0))
    ensures IsPairable(Prefs(UndefinedLocation, Male, Female, [], 0), Prefs(UndefinedLocation, Female, Male, [], 0))
    ensures IsPairable(Prefs(UndefinedLocation, Male, Female, [], 0), Prefs(UndefinedLocation, Female, All, [], 0))
    ensures !IsPairable(Prefs(UndefinedLocation, Male, Female, [], 0), Prefs(UndefinedLocation, Male, All, [], 0))
    ensures IsPairable(Prefs(UndefinedLocation, Male, All, [], 0), Prefs(UndefinedLocation, Male, All, [], 0))
    ensures !IsPairable(Prefs(UndefinedLocation, Female, Female, [], 0), Prefs(UndefinedLocation, Male, Female, [], 0))
    ensures IsPairable(Prefs(UndefinedLocation, Female, Male, [], 0), Prefs(UndefinedLocation, Male, Female, [], 0))
  {
  }

  /** The location tests whose expectation the code meets (both sides female, seeking anyone). */
  lemma LocationTestCases()
    ensures IsPairable(Prefs(County("gyms"), Female, All, [], 0), Prefs(County("budapest"), Female, All, [], 0))
    ensures !IsPairable(Prefs(County("gyms"), Female, All, ["budapest"], 1), Prefs(County("baz"), Female, All, [], 0))
    ensures !IsPairable(Prefs(County("gyms"), Female, All, ["budapest"], 1), Prefs(County("budapest"), Female, All, ["baz"], 1))
    ensures !IsPairable(Prefs(County("gyms"), Female, All, [], 0), Prefs(County("budapest"), Female, All, ["baz"], 1))
    ensures IsPairable(Prefs(County("gyms"), Female, All, ["budapest"], 1), Prefs(County("budapest"), Female, All, ["gyms"], 1))
    ensures !IsPairable(Prefs(County("gyms"), Female, All, [], 0), Prefs(NullLocation, Female, All, ["budapest"], 1))
    ensures IsPairable(Prefs(County("budapest"), Female, All, [], 0), Prefs(NullLocation, Female, All, ["budapest"], 1))
    ensures !IsPairable(Prefs(County("budapest"), Female, All, ["gyms"], 1), Prefs(NullLocation, Female, All, ["baz"], 1))
  {
  }

  /** The location tests that expect `true` where the code answers `false`. */
  lemma LocationTestsTheCodeFails()
    ensures !IsPairable(Prefs(County("gyms"), Female, All, ["budapest"], 1), Prefs(County("budapest"), Female, All, [], 0))
    ensures !IsPairable(Prefs(County("gyms"), Female, All, [], 0), Prefs(County("budapest"), Female, All, ["gyms"], 1))
    ensures !IsPairable(Prefs(County("budapest"), Female, All, ["gyms"], 1), Prefs(NullLocation, Female, All, ["budapest"], 1))
    ensures !IsPairable(Prefs(County("budapest"), Female, All, ["gyms"], 1), Prefs(UndefinedLocation, Female, All, ["budapest"], 1))
  {
  }

  /** An opaque handle standing for the client's socket.io connection. */
  type SocketId = nat

  /** What the user's socket is told (`socket?.emit`), recorded in order. */
  datatype Emit =
    | UserStatusChanged(status: Status)
    | UserDataChanged(data: UserData)
    | UserRoomIdChanged(roomId: Option<string>)

  datatype Time = Time(join: Option<int>, leave: Option<int>)

  datatype RoomRef = RoomRef(current: Option<string>, last: Option<string>)

  /** An argument of `setTime`: `undefined` keeps the field, anything else (including `null`) overwrites it. */
  datatype TimeArg = Keep | Put(value: Option<int>)

  function ApplyTimeArg(arg: TimeArg, old_: Option<int>): (r: Option<int>)
    ensures arg.Keep? ==> r == old_
    ensures arg.Put? ==> r == arg.value
  {
    match arg
    case Keep => old_
    case Put(v) => v
  }

  /** `setCurrentRoomId` on the room reference alone: `last` takes the old `current`, or the new id if there was none. */
  function MoveTo(ref: RoomRef, roomId: Option<string>): (r: RoomRef)
    ensures r.current == roomId
    ensures ref.current.Some? ==> r.last == ref.current
    ensures ref.current.None? ==> r.last == roomId
  {
    RoomRef(roomId, if ref.current.Some? then ref.current else roomId)
  }

  /** Leaving a room and then entering `r` leaves both `current` and `last` at `r`, whatever came before. */
  lemma LeaveThenEnter(ref: RoomRef, r: string)
    ensures MoveTo(MoveTo(ref, None), Some(r)) == RoomRef(Some(r), Some(r))
  {
  }

  /** The socket's emit log after one more event: only a present socket records it. */
  function Emitted(log: seq<Emit>, socket: Option<SocketId>, e: Emit): (r: seq<Emit>)
    ensures socket.Some? ==> r == log + [e]
    ensures socket.None? ==> r == log
  {
    if socket.Some? then log + [e] else log
  }

  class User {
    const id: string
    var socket: Option<SocketId>
    var status: Status
    var userData: Option<UserData>
    var time: Time
    var disconnectReason: Option<string>
    var roomId: RoomRef
    ghost var emitted: seq<Emit>

    /** A fresh session; `issued` is the socket handshake's `issued` stamp, read only when a socket is given. */
    constructor (id: string, socket: Option<SocketId>, issued: Option<int>)
      ensures this.id == id && this.socket == socket
      ensures status == Idle && userData.None? && disconnectReason.None?
      ensures time == Time(if socket.Some? then issued else None, None)
      ensures roomId == RoomRef(None, None)
      ensures emitted == []
    {
      this.id := id;
      this.socket := socket;
      status := Idle;
      userData := None;
      time := Time(if socket.Some? then issued else None, None);
      disconnectReason := None;
      roomId := RoomRef(None, None);
      emitted := [];
    }

    method SetTime(join: TimeArg, leave: TimeArg)
      modifies this
      ensures time == Time(ApplyTimeArg(join, old(time).join), ApplyTimeArg(leave, old(time).leave))
      ensures socket == old(socket) && status == old(status) && userData == old(userData)
      ensures disconnectReason == old(disconnectReason) && roomId == old(roomId) && emitted == old(emitted)
    {
      time := Time(ApplyTimeArg(join, time.join), ApplyTimeArg(leave, time.leave));
    }

    method SetSocket(socket: Option<SocketId>)
      modifies this
      ensures this.socket == socket
      ensures status == old(status) && userData == old(userData) && time == old(time)
      ensures disconnectReason == old(disconnectReason) && roomId == old(roomId) && emitted == old(emitted)
    {
      this.socket := socket;
    }

    method SetStatus(status: Status)
      modifies this
      ensures this.status == status
      ensures emitted == Emitted(old(emitted), socket, UserStatusChanged(status))
      ensures socket == old(socket) && userData == old(userData) && time == old(time)
      ensures disconnectReason == old(disconnectReason) && roomId == old(roomId)
    {
      emitted := Emitted(emitted, socket, UserStatusChanged(status));
      this.status := status;
    }

    method UpdateUserData(data: UserData)
      modifies this
      ensures userData == Some(data)
      ensures emitted == Emitted(old(emitted), socket, UserDataChanged(data))
      ensures socket == old(socket) && status == old(status) && time == old(time)
      ensures disconnectReason == old(disconnectReason) && roomId == old(roomId)
    {
      emitted := Emitted(emitted, socket, UserDataChanged(data));
      userData := Some(data);
    }

    method SetCurrentRoomId(roomId: Option<string>)
      modifies this
      ensures this.roomId == MoveTo(old(this.roomId), roomId)
      ensures emitted == Emitted(old(emitted), socket, UserRoomIdChanged(roomId))
      ensures socket == old(socket) && status == old(status) && userData == old(userData)
      ensures time == old(time) && disconnectReason == old(disconnectReason)
    {
      emitted := Emitted(emitted, socket, UserRoomIdChanged(roomId));
      SetLastRoomId(if this.roomId.current.Some? then this.roomId.current else roomId);
      this.roomId := this.roomId.(current := roomId);
    }

    method SetLastRoomId(roomId: Option<string>)
      modifies this
      ensures this.roomId == old(this.roomId).(last := roomId)
      ensures socket == old(socket) && status == old(status) && userData == old(userData)
      ensures time == old(time) && disconnectReason == old(disconnectReason) && emitted == old(emitted)
    {
      this.roomId := this.roomId.(last := roomId);
    }

    /** Marks the session disconnected at `time`; the room reference and the preferences survive. */
    method Disconnect(time: int, reason: Option<string>)
      modifies this
      ensures this.time == old(this.time).(leave := Some(time))
      ensures disconnectReason == Some(reason.GetOr("Unknown"))
      ensures status == Disconnected
      ensures socket == old(socket) && userData == old(userData) && roomId == old(roomId) && emitted == old(emitted)
    {
      this.time := this.time.(leave := Some(time));
      disconnectReason := Some(reason.GetOr("Unknown"));
      status := Disconnected;
    }

    /** Brings a disconnected session back at clock reading `now`. */
    method Recover(now: int)
      modifies this
      ensures time == Time(Some(now), None)
      ensures disconnectReason.None? && status == Idle
      ensures socket == old(socket) && userData == old(userData) && roomId == old(roomId) && emitted == old(emitted)
    {
      time := Time(Some(now), None);
      disconnectReason := None;
      status := Idle;
    }
  }
}
