/** lobbysvr/lobbyUserManager: the manager's maps changed in place, its critical sections one method each. */
module Lobby {
  import opened Bytes
  import opened Buffers
  import opened Registry

  class LobbyUserManager {
    var users: map<Ident, Ident>       // m_users
    var nodeToUser: map<u32, Ident>    // m_nodeToUserMap
    var tags: map<Ident, UserId>       // the tags of the connections that are not null
    var live: map<UserId, User>        // the Users on the heap
    var freed: seq<UserId>
    var nextUser: UserId

    function View(): Store
      reads this
    {
      Store(users, nodeToUser, tags, live, freed, nextUser)
    }

    constructor ()
      ensures View() == Nobody.store
    {
      users, nodeToUser, tags, live, freed, nextUser := map[], map[], map[], map[], [], 0;
    }

    /** addUser without interruption; its two halves are what other threads may come between. */
    method AddUser(id: Ident) returns (added: bool)
      modifies this
      ensures added <==> id !in old(tags) && id !in old(users)
      ensures View() == if id in old(tags) then old(View()) else Register(CreateUser(old(View()), id), id)
      ensures old(Consistent(View())) ==>
                && Consistent(View()) && SameElsewhere(old(View()), View(), id)
                && (added ==> id in users && HasOwnUser(View(), id) && tags[id] !in old(live) && tags[id] !in freed)
      ensures added ==> id in tags && tags[id] in live && live[tags[id]] == User(id, 0)
    {
      ghost var before := View();
      if Consistent(before) && id !in tags {
        CreateUserInv(before, id);
        RegisterInv(CreateUser(before, id), id);
      }
      added := HangUser(id);
      if added {
        added := EnterUser(id);
      }
    }

    /** Before the lock. */
    method HangUser(id: Ident) returns (hung: bool)
      modifies this
      ensures hung <==> id !in old(tags)
      ensures hung ==> id in tags && tags[id] in live && live[tags[id]] == User(id, 0)
      ensures View() == CreateUser(old(View()), id)
    {
      if id in tags {
        return false;
      }
      live := live[nextUser := User(id, 0)];
      tags := tags[id := nextUser];
      nextUser := nextUser + 1;
      return true;
    }

    /** Under the lock. */
    method EnterUser(id: Ident) returns (entered: bool)
      modifies this
      ensures entered <==> id !in old(users)
      ensures View() == Register(old(View()), id)
    {
      entered := id !in users;
      if entered {
        users := users[id := id];
      }
    }

    /** The first half of deleteUser: the User the tag names, if it names one. */
    method TaggedUser(id: Ident) returns (user: Option<UserId>)
      ensures user == if id in tags then Some(tags[id]) else None
    {
      if id in tags {
        return Some(tags[id]);
      }
      return None;
    }

    /** The second half, under the lock; both of its ends delete the User and clear the tag. */
    method RemoveUser(id: Ident, user: UserId) returns (registered: bool)
      requires user in live
      modifies this
      ensures registered <==> old(live[user].conn) in old(users)
      ensures View() == Unregister(old(View()), id, user)
    {
      nodeToUser := nodeToUser - {live[user].userIDX};
      var identity := live[user].conn;
      if identity !in users {
        registered := false;
      } else {
        users := users - {identity};
        registered := true;
      }
      live := live - {user};
      freed := freed + [user];
      tags := tags - {id};
    }

    /** deleteUser without interruption: whatever was there before, the connection is neither registered nor tagged
        afterwards, and a User of its own is deleted, once. */
    method DeleteUser(id: Ident)
      requires id in tags ==> tags[id] in live
      modifies this
      ensures View() == if id in old(tags) then Unregister(old(View()), id, old(tags[id])) else old(View())
      ensures old(Consistent(View())) ==>
                && Consistent(View()) && SameElsewhere(old(View()), View(), id) && id !in users && id !in tags
                && freed == old(freed) + (if id in old(tags) then [old(tags[id])] else [])
                && (id in old(tags) ==> old(tags[id]) !in live && old(tags[id]) !in old(freed))
      ensures old(Consistent(View()) && NothingDangles(View())) ==> NothingDangles(View())
    {
      ghost var before := View();
      if Consistent(before) && id in tags {
        UnregisterInv(before, id);
        if NothingDangles(before) {
          UnregisterKeepsEntries(before, id);
        }
      }
      var user := TaggedUser(id);
      if user.Some? {
        var _ := RemoveUser(id, user.value);
      }
    }

    /** The codes of processUser and the User its callback runs on: with a consistent registry only 0 and -1, and the
        connection's own live User. */
    method ProcessUser(identity: Ident, held: set<Ident>) returns (code: int, user: Option<UserId>)
      ensures code == match Lookup(View(), held, identity)
                      case NotRegistered => -1
                      case Expired => -2
                      case NoUser => -3
                      case Callback(_) => 0
      ensures user == match Lookup(View(), held, identity) case Callback(found) => Some(found) case _ => None
      ensures Consistent(View()) ==>
                && (code == if identity in users then 0 else -1)
                && (code == 0 ==> user.Some? && user.value in live && live[user.value].conn == identity)
    {
      if Consistent(View()) {
        ConsistentLookup(View(), held, identity);
      }
      if identity !in users {
        return -1, None;
      }
      var targetConn := users[identity];
      if !Alive(View(), held, targetConn) {
        return -2, None;
      }
      if targetConn !in tags {
        return -3, None;
      }
      return 0, Some(tags[targetConn]);
    }

    method UserLogined(identity: Ident, userIDX: u32) returns (ok: bool)
      modifies this
      ensures ok && View() == Login(old(View()), identity, userIDX)
    {
      if userIDX !in nodeToUser {
        nodeToUser := nodeToUser[userIDX := identity];
      }
      return true;
    }

    method UserLogout(userIDX: u32) returns (ok: bool)
      modifies this
      ensures ok && View() == Logout(old(View()), userIDX)
    {
      nodeToUser := nodeToUser - {userIDX};
      return true;
    }

    /** The User sendPacketFromBroker_byUserIDX sends to, nobody else running between its lock and its send. */
    method ReceiverByUserIDX(userIDX: u32, held: set<Ident>) returns (user: Option<UserId>)
      ensures user == match LookupByUserIDX(View(), held, userIDX) case Callback(found) => Some(found) case _ => None
      ensures Consistent(View()) && NothingDangles(View()) ==>
                && (user.Some? <==> userIDX in nodeToUser)
                && (user.Some? ==> user.value in live && live[user.value].userIDX == userIDX)
    {
      if Consistent(View()) && NothingDangles(View()) && userIDX in nodeToUser {
        FoundInSoundStore(View(), held, userIDX);
      }
      if userIDX !in nodeToUser {
        return None;
      }
      var identity := nodeToUser[userIDX];
      if identity !in users {
        return None;
      }
      var conn := users[identity];
      if Alive(View(), held, conn) && conn in tags {
        return Some(tags[conn]);
      }
      return None;
    }

    /** sendPacketFromBroker_All: the identities it sends to, in the order of the map, and their Users. */
    method ReceiversOfAll(held: set<Ident>) returns (ids: seq<Ident>, to: seq<UserId>)
      ensures IsBroadcast(View(), held, ids, to)
    {
      ids, to := [], [];
      var rest := users.Keys;
      while rest != {}
        invariant SentBefore(View(), held, rest, ids, to)
        decreases rest
      {
        LeastExists(rest);
        var id :| id in rest && IsLeast(rest, id);
        SendNext(View(), held, rest, ids, to, id);
        rest := rest - {id};
        var conn := users[id];
        if Alive(View(), held, conn) && conn in tags {
          ids, to := ids + [id], to + [tags[conn]];
        }
      }
    }
  }

  /** Registered or not, the connection is tagged with a live User that holds it. */
  predicate HasOwnUser(s: Store, id: Ident) {
    id in s.tags && s.tags[id] in s.live && s.live[s.tags[id]].conn == id
  }

  predicate IsLeast(s: set<Ident>, id: Ident) {
    id in s && forall other | other in s :: id <= other
  }

  lemma {:induction false} LeastExists(s: set<Ident>)
    requires s != {}
    ensures exists id :: IsLeast(s, id)
    decreases s
  {
    var x :| x in s;
    if s == {x} {
      assert IsLeast(s, x);
    } else {
      assert s - {x} != {};
      LeastExists(s - {x});
      var id :| IsLeast(s - {x}, id);
      forall other | other in s ensures (if x < id then x else id) <= other {
        assert other == x || other in s - {x};
      }
      assert IsLeast(s, if x < id then x else id);
    }
  }

  /** The loop of sendPacketFromBroker_All with `rest` still to visit. */
  ghost predicate SentBefore(s: Store, held: set<Ident>, rest: set<Ident>, ids: seq<Ident>, to: seq<UserId>) {
    && rest <= s.users.Keys && Ascending(ids) && |ids| == |to|
    && (forall i | 0 <= i < |ids| :: ids[i] in s.users && Lookup(s, held, ids[i]) == Callback(to[i]))
    && (forall i | 0 <= i < |ids| :: AllAbove(rest, ids[i]))
    && (forall id | id in s.users && Lookup(s, held, id).Callback? :: id in ids || id in rest)
  }

  predicate AllAbove(rest: set<Ident>, id: Ident) {
    forall other | other in rest :: id < other
  }

  lemma SendNext(s: Store, held: set<Ident>, rest: set<Ident>, ids: seq<Ident>, to: seq<UserId>, id: Ident)
    requires SentBefore(s, held, rest, ids, to) && IsLeast(rest, id)
    ensures match Lookup(s, held, id)
            case Callback(user) => SentBefore(s, held, rest - {id}, ids + [id], to + [user])
            case _ => SentBefore(s, held, rest - {id}, ids, to)
  {
    if Lookup(s, held, id).Callback? {
      var ids' := ids + [id];
      forall i | 0 <= i < |ids'| ensures AllAbove(rest - {id}, ids'[i]) {
        assert i < |ids| ==> AllAbove(rest, ids[i]);
      }
      assert forall i | 0 <= i < |ids| :: AllAbove(rest, ids[i]);
      assert Ascending(ids');
      assert forall x :: x in ids ==> x in ids';
      assert id in ids';
    } else {
      assert forall i | 0 <= i < |ids| :: AllAbove(rest, ids[i]);
    }
  }

  predicate Ascending(ids: seq<Ident>) {
    forall i, j | 0 <= i < j < |ids| :: ids[i] < ids[j]
  }

  /** Every entry whose look-up finds a User is reached once, in ascending order of identity, and nothing else. */
  ghost predicate IsBroadcast(s: Store, held: set<Ident>, ids: seq<Ident>, to: seq<UserId>) {
    && Ascending(ids) && |ids| == |to|
    && (forall i | 0 <= i < |ids| :: ids[i] in s.users && Lookup(s, held, ids[i]) == Callback(to[i]))
    && (forall id | id in s.users && Lookup(s, held, id).Callback? :: id in ids)
  }

  /** In every history a broadcast reaches each registered connection exactly once, each time through its own live
      User. */
  lemma BroadcastReachesEveryone(es: seq<Event>, w: World, held: set<Ident>, ids: seq<Ident>, to: seq<UserId>)
    requires Reaches(es, w) && IsBroadcast(w.store, held, ids, to)
    ensures |ids| == |to| && Ascending(ids) && (forall id :: id in ids <==> id in w.store.users)
    ensures forall i | 0 <= i < |to| :: to[i] in w.store.live && w.store.live[to[i]].conn == ids[i]
    ensures forall i, j | 0 <= i < j < |to| :: to[i] != to[j]
  {
    forall id | id in w.store.users
      ensures Lookup(w.store, held, id).Callback? && Lookup(w.store, held, id).user in w.store.live
              && w.store.live[Lookup(w.store, held, id).user].conn == id
    {
      LookupsAreSafe(es, w, held, id);
    }
  }
}
