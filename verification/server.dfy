/**
 * The connected-user registry of the socket server (src/Server.ts):
 * a list of sessions, unique by id, whose size is broadcast after every change.
 */
module Server {
  import opened SeqUtil
  import opened Users

  /** The ids of a list of sessions, in order. */
  function Ids(users: seq<User>): (r: seq<string>)
    ensures |r| == |users|
    ensures forall k :: 0 <= k < |users| ==> r[k] == users[k].id
  {
    if users == [] then [] else [users[0].id] + Ids(users[1..])
  }

  /** `connectedUsers.find(u => u.id === id)` is truthy. */
  predicate Registered(users: seq<User>, id: string) {
    exists k :: 0 <= k < |users| && users[k].id == id
  }

  /** `connectedUsers.filter(u => u.getId() !== id)`. */
  function WithoutId(users: seq<User>, id: string): (r: seq<User>)
  {
    Filter(users, (u: User) => u.id != id)
  }

  /** Filtering the sessions by id is filtering their ids: the entry is gone and the others keep their order. */
  lemma {:induction false} IdsWithoutId(users: seq<User>, id: string)
    ensures Ids(WithoutId(users, id)) == Without(Ids(users), id)
  {
    if users == [] {
      assert Ids(users) == [];
    } else {
      var rest := users[1..];
      IdsWithoutId(rest, id);
      WithoutCons(users[0].id, Ids(rest), id);
      assert Ids(users) == [users[0].id] + Ids(rest);
      if users[0].id != id {
        assert WithoutId(users, id) == [users[0]] + WithoutId(rest, id);
        assert Ids([users[0]] + WithoutId(rest, id)) == [users[0].id] + Ids(WithoutId(rest, id));
      } else {
        assert WithoutId(users, id) == WithoutId(rest, id);
      }
    }
  }

  class SocketServer {
    var connectedUsers: seq<User>
    /** The counts sent with each `usersChanged` broadcast, in order. */
    ghost var usersChanged: seq<nat>

    /** No two registered sessions share an id. */
    ghost predicate Valid()
      reads this
    {
      NoDup(Ids(connectedUsers))
    }

    constructor ()
      ensures connectedUsers == [] && usersChanged == [] && Valid()
    {
      connectedUsers := [];
      usersChanged := [];
    }

    /** `addToConnectedUsers(user)`: registers a session whose id is new, then broadcasts the count. */
    method AddToConnectedUsers(user: User)
      modifies this
      ensures Registered(old(connectedUsers), user.id) ==> connectedUsers == old(connectedUsers)
      ensures !Registered(old(connectedUsers), user.id) ==> connectedUsers == old(connectedUsers) + [user]
      ensures usersChanged == old(usersChanged) + [|connectedUsers|]
      ensures old(Valid()) ==> Valid()
    {
      if !Registered(connectedUsers, user.id) {
        ghost var before := connectedUsers;
        connectedUsers := connectedUsers + [user];
        assert Ids(connectedUsers) == Ids(before) + [user.id];
      }
      usersChanged := usersChanged + [|connectedUsers|];
    }

    /** `removeFromConnectedUsers(id)`: drops every session with that id, then broadcasts the count. */
    method RemoveFromConnectedUsers(id: string)
      modifies this
      ensures connectedUsers == WithoutId(old(connectedUsers), id)
      ensures Ids(connectedUsers) == Without(Ids(old(connectedUsers)), id)
      ensures !Registered(connectedUsers, id)
      ensures !Registered(old(connectedUsers), id) ==> connectedUsers == old(connectedUsers)
      ensures usersChanged == old(usersChanged) + [|connectedUsers|]
      ensures old(Valid()) ==> Valid()
    {
      ghost var before := connectedUsers;
      connectedUsers := WithoutId(connectedUsers, id);
      IdsWithoutId(before, id);
      if NoDup(Ids(before)) {
        WithoutNoDup(Ids(before), id);
      }
      if !Registered(before, id) {
        FilterKeepsAll(before, (u: User) => u.id != id);
      }
      usersChanged := usersChanged + [|connectedUsers|];
    }
  }
}
