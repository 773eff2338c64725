/** lobbysvr/lobbyUserManager over the connections of Lifecycle: who is registered, who is live, who is freed, over all
    interleavings of accepting, closing and looking up. */
module Registry {
  import opened Bytes
  import opened Framing
  import LC = Lifecycle

  type Ident = nat     // Connection::getIdentity
  type UserId = nat    // a chase_lobbysvr::User object, numbered as created

  /** A live User: the strong reference _conn and m_userIDX. */
  datatype User = User(conn: Ident, userIDX: u32)

  /** What the LobbyUserManager, the tags of the connections and the heap of Users hold. */
  datatype Store = Store(
    users: map<Ident, Ident>,          // m_users: identity to weak connection reference
    nodeToUser: map<u32, Ident>,       // m_nodeToUserMap
    tags: map<Ident, UserId>,          // connections whose tag is not null
    live: map<UserId, User>,
    freed: seq<UserId>,                // every delete, in order
    nextUser: UserId)

  // ---- The critical sections ----

  /** addUser before the lock: nothing if the tag is set, else a new User hung on the connection. */
  function CreateUser(s: Store, id: Ident): Store {
    if id in s.tags then s
    else s.(live := s.live[s.nextUser := User(id, 0)], tags := s.tags[id := s.nextUser], nextUser := s.nextUser + 1)
  }

  /** addUser under the lock: emplace. */
  function Register(s: Store, id: Ident): Store {
    if id in s.users then s else s.(users := s.users[id := id])
  }

  /** deleteUser under the lock, for the user its tag named before. A User that is not live any more is deleted all the
      same: what the source reads from it to erase the entries is undefined, the second delete is recorded. */
  function Unregister(s: Store, id: Ident, user: UserId): Store {
    var erased := if user in s.live
                  then s.(nodeToUser := s.nodeToUser - {s.live[user].userIDX}, users := s.users - {s.live[user].conn})
                  else s;
    erased.(live := s.live - {user}, freed := s.freed + [user], tags := s.tags - {id})
  }

  function Login(s: Store, id: Ident, userIDX: u32): Store {
    if userIDX in s.nodeToUser then s else s.(nodeToUser := s.nodeToUser[userIDX := id])
  }

  function Logout(s: Store, userIDX: u32): Store {
    s.(nodeToUser := s.nodeToUser - {userIDX})
  }

  function SetUserIDX(s: Store, user: UserId, userIDX: u32): Store
    requires user in s.live
  {
    s.(live := s.live[user := s.live[user].(userIDX := userIDX)])
  }

  // ---- Look-ups ----

  datatype Found =
    | NotRegistered           // -1
    | Expired                 // -2: the weak reference is dead
    | NoUser                  // -3: the tag is null
    | Callback(user: UserId)  // the callback runs on this User

  /** A connection object lives while something refers to it strongly: a live User, or `held`, whatever else does. */
  predicate Alive(s: Store, held: set<Ident>, id: Ident) {
    id in held || exists user | user in s.live :: s.live[user].conn == id
  }

  /** processUser and processUser2 */
  function Lookup(s: Store, held: set<Ident>, identity: Ident): Found {
    if identity !in s.users then NotRegistered
    else
      var conn := s.users[identity];
      if !Alive(s, held, conn) then Expired
      else if conn !in s.tags then NoUser
      else Callback(s.tags[conn])
  }

  /** sendPacketFromBroker_byUserIDX, as far as the lock covers it. */
  function LookupByUserIDX(s: Store, held: set<Ident>, userIDX: u32): Found {
    if userIDX !in s.nodeToUser then NotRegistered else Lookup(s, held, s.nodeToUser[userIDX])
  }

  // ---- The world ----

  /** How far the callbacks of a connection have come. */
  datatype Phase =
    | Accepting              // created, onAccept still to come
    | Adding(user: UserId)   // in addUser, before the lock
    | Serving                // onAccept is over: start_accept, then the connection's own life
    | Leaving                // onClose has been called: deleteUser begins
    | Deleting(user: UserId) // in deleteUser, before the lock, with the user the tag named
    | Gone                   // onClose is over

  datatype Session = Session(conn: LC.Conn, phase: Phase)

  datatype World = World(sessions: map<Ident, Session>, store: Store, nextIdent: Ident)

  const Nobody := World(map[], Store(map[], map[], map[], map[], [], 0), 1)

  datatype Event =
    | Accepts(parser: seq<byte> -> Result, keepAlive: bool)
    | AddBegins(id: Ident)
    | AddCommits(id: Ident)
    | Connection(id: Ident, event: LC.Event)
    | DeleteBegins(id: Ident)
    | DeleteCommits(id: Ident)
    | LogsIn(id: Ident, userIDX: u32)
    | LogsOut(userIDX: u32)
    | SetsUserIDX(user: UserId, userIDX: u32)

  /** accept_handler calls start_accept after onAccept; the strand that runs onClose runs nothing else meanwhile. */
  predicate Enabled(w: World, e: Event) {
    match e
    case Accepts(_, _) => true
    case AddBegins(id) => id in w.sessions && w.sessions[id].phase == Accepting
    case AddCommits(id) => id in w.sessions && w.sessions[id].phase.Adding?
    case Connection(id, event) =>
      && id in w.sessions && LC.Enabled(w.sessions[id].conn, event)
      && (event.Starts? ==> w.sessions[id].phase == Serving)
      && (event.RunsTask? ==> !w.sessions[id].phase.Leaving? && !w.sessions[id].phase.Deleting?)
    case DeleteBegins(id) => id in w.sessions && w.sessions[id].phase == Leaving
    case DeleteCommits(id) => id in w.sessions && w.sessions[id].phase.Deleting?
    case SetsUserIDX(user, _) => user in w.store.live
    case LogsIn(_, _) | LogsOut(_) => true
  }

  function InPhase(w: World, id: Ident, phase: Phase): World
    requires id in w.sessions
  {
    w.(sessions := w.sessions[id := w.sessions[id].(phase := phase)])
  }

  function Happen(w: World, e: Event): World
    requires Enabled(w, e)
  {
    match e
    case Accepts(parser, keepAlive) =>
      w.(sessions := w.sessions[w.nextIdent := Session(LC.Created(parser, keepAlive), Accepting)],
         nextIdent := w.nextIdent + 1)
    case AddBegins(id) =>
      if id in w.store.tags then InPhase(w, id, Serving)
      else InPhase(w, id, Adding(w.store.nextUser)).(store := CreateUser(w.store, id))
    case AddCommits(id) => InPhase(w, id, Serving).(store := Register(w.store, id))
    case Connection(id, event) => ConnectionSteps(w, id, event)
    case DeleteBegins(id) =>
      InPhase(w, id, if id in w.store.tags then Deleting(w.store.tags[id]) else Gone)
    case DeleteCommits(id) =>
      InPhase(w, id, Gone).(store := Unregister(w.store, id, w.sessions[id].phase.user))
    case LogsIn(id, userIDX) => w.(store := Login(w.store, id, userIDX))
    case LogsOut(userIDX) => w.(store := Logout(w.store, userIDX))
    case SetsUserIDX(user, userIDX) => w.(store := SetUserIDX(w.store, user, userIDX))
  }

  /** A step of one connection; the step that calls onClose begins its deleteUser. */
  function ConnectionSteps(w: World, id: Ident, event: LC.Event): World
    requires id in w.sessions && LC.Enabled(w.sessions[id].conn, event)
  {
    var before := w.sessions[id];
    var conn := LC.Advance(before.conn, event);
    w.(sessions := w.sessions[id := Session(conn, if conn.closes > before.conn.closes then Leaving else before.phase)])
  }

  predicate IsHistory(w: World, es: seq<Event>)
    decreases |es|
  {
    es == [] || (Enabled(w, es[0]) && IsHistory(Happen(w, es[0]), es[1..]))
  }

  function Later(w: World, es: seq<Event>): World
    requires IsHistory(w, es)
    decreases |es|
  {
    if es == [] then w else Later(Happen(w, es[0]), es[1..])
  }

  // ---- The invariant ----

  /** Tags and live Users name each other; keys of m_users are the identities of their connections; no User was deleted
      twice or is live after its delete. */
  ghost predicate StoreInv(s: Store) {
    && (forall id | id in s.users :: s.users[id] == id)
    && (forall id | id in s.tags :: s.tags[id] in s.live && s.live[s.tags[id]].conn == id)
    && (forall user | user in s.live :: user < s.nextUser && s.live[user].conn in s.tags
                                        && s.tags[s.live[user].conn] == user)
    && (forall user | user in s.freed :: user < s.nextUser && user !in s.live)
    && (forall i, j | 0 <= i < j < |s.freed| :: s.freed[i] != s.freed[j])
  }

  /** A connection is registered from addUser's lock to deleteUser's, tagged from addUser's setTag to deleteUser's. */
  ghost predicate PhaseInv(s: Store, id: Ident, phase: Phase) {
    && (id in s.users <==> phase.Serving? || phase.Leaving? || phase.Deleting?)
    && (id in s.tags <==> phase != Accepting && phase != Gone)
    && (phase.Adding? || phase.Deleting? ==> s.tags[id] == phase.user)
  }

  /** onClose belongs to connections that were started, and comes once. */
  ghost predicate CloseInv(session: Session) {
    && (session.phase.Accepting? || session.phase.Adding? ==> !session.conn.started)
    && session.conn.closes == if session.phase.Leaving? || session.phase.Deleting? || session.phase == Gone then 1 else 0
  }

  ghost predicate LinkInv(w: World) {
    && StoreInv(w.store)
    && (forall id | id in w.sessions :: id < w.nextIdent)
    && (forall id | id in w.sessions :: PhaseInv(w.store, id, w.sessions[id].phase))
    && (forall id | id in w.sessions :: CloseInv(w.sessions[id]))
    && (forall id | id in w.store.users || id in w.store.tags :: id in w.sessions)
  }

  ghost predicate ConnsInv(w: World) {
    forall id | id in w.sessions :: LC.Inv(w.sessions[id].conn)
  }

  ghost predicate Inv(w: World) {
    LinkInv(w) && ConnsInv(w)
  }

  lemma AcceptsInv(w: World, e: Event)
    requires LinkInv(w) && e.Accepts?
    ensures LinkInv(Happen(w, e))
  {
  }

  /** One connection's part of the store changes. */
  ghost predicate SameElsewhere(s: Store, s': Store, id: Ident) {
    forall other: Ident | other != id ::
      && (other in s'.users <==> other in s.users)
      && (other in s'.tags <==> other in s.tags)
      && (other in s.tags ==> s'.tags[other] == s.tags[other])
  }

  lemma StoreChanges(w: World, id: Ident, s': Store, phase: Phase)
    requires LinkInv(w) && id in w.sessions
    requires StoreInv(s') && SameElsewhere(w.store, s', id) && PhaseInv(s', id, phase)
    requires CloseInv(w.sessions[id].(phase := phase))
    ensures LinkInv(InPhase(w, id, phase).(store := s'))
  {
    var w' := InPhase(w, id, phase).(store := s');
    forall other | other in w'.sessions
      ensures PhaseInv(s', other, w'.sessions[other].phase) && CloseInv(w'.sessions[other])
    {
      if other != id {
        assert PhaseInv(w.store, other, w.sessions[other].phase) && CloseInv(w.sessions[other]);
        PhaseElsewhere(w.store, s', id, other, w.sessions[other].phase);
      }
    }
  }

  lemma PhaseElsewhere(s: Store, s': Store, id: Ident, other: Ident, phase: Phase)
    requires SameElsewhere(s, s', id) && other != id && PhaseInv(s, other, phase)
    ensures PhaseInv(s', other, phase)
  {
  }

  lemma CreateUserInv(s: Store, id: Ident)
    requires StoreInv(s) && id !in s.tags
    ensures StoreInv(CreateUser(s, id)) && SameElsewhere(s, CreateUser(s, id), id)
    ensures CreateUser(s, id).users == s.users && id in CreateUser(s, id).tags
    ensures CreateUser(s, id).tags[id] == s.nextUser
  {
  }

  lemma AddBeginsInv(w: World, id: Ident)
    requires LinkInv(w) && Enabled(w, AddBegins(id))
    ensures LinkInv(Happen(w, AddBegins(id)))
  {
    assert PhaseInv(w.store, id, Accepting) && CloseInv(w.sessions[id]);
    CreateUserInv(w.store, id);
    StoreChanges(w, id, CreateUser(w.store, id), Adding(w.store.nextUser));
  }

  lemma RegisterInv(s: Store, id: Ident)
    requires StoreInv(s)
    ensures StoreInv(Register(s, id)) && SameElsewhere(s, Register(s, id), id)
    ensures Register(s, id).tags == s.tags && id in Register(s, id).users
  {
  }

  lemma AddCommitsInv(w: World, id: Ident)
    requires LinkInv(w) && Enabled(w, AddCommits(id))
    ensures LinkInv(Happen(w, AddCommits(id)))
  {
    assert PhaseInv(w.store, id, w.sessions[id].phase) && CloseInv(w.sessions[id]);
    RegisterInv(w.store, id);
    StoreChanges(w, id, Register(w.store, id), Serving);
  }

  /** At most one onClose per connection is what keeps a second deleteUser away. */
  lemma ConnectionInv(w: World, id: Ident, event: LC.Event)
    requires LinkInv(w) && Enabled(w, Connection(id, event))
    requires w.sessions[id].conn.closes <= LC.Advance(w.sessions[id].conn, event).closes <= 1
    requires LC.Advance(w.sessions[id].conn, event).started <==> w.sessions[id].conn.started || event.Starts?
    requires LC.Advance(w.sessions[id].conn, event).closes == 1 ==> LC.Advance(w.sessions[id].conn, event).started
    ensures LinkInv(Happen(w, Connection(id, event)))
  {
    var session := w.sessions[id];
    assert PhaseInv(w.store, id, session.phase) && CloseInv(session);
    var conn := LC.Advance(session.conn, event);
    ConnectionLink(w, id, session, Session(conn, if conn.closes > session.conn.closes then Leaving else session.phase));
  }

  lemma ConnectionLink(w: World, id: Ident, before: Session, after: Session)
    requires LinkInv(w) && id in w.sessions && w.sessions[id] == before && CloseInv(after)
    requires after.phase == before.phase || (before.phase == Serving && after.phase == Leaving)
    ensures LinkInv(w.(sessions := w.sessions[id := after]))
  {
  }

  lemma DeleteBeginsInv(w: World, id: Ident)
    requires LinkInv(w) && Enabled(w, DeleteBegins(id))
    ensures LinkInv(Happen(w, DeleteBegins(id)))
  {
    assert PhaseInv(w.store, id, Leaving) && CloseInv(w.sessions[id]);
    StoreChanges(w, id, w.store, Deleting(w.store.tags[id]));
  }

  lemma UnregisterInv(s: Store, id: Ident)
    requires StoreInv(s) && id in s.tags
    ensures StoreInv(Unregister(s, id, s.tags[id])) && SameElsewhere(s, Unregister(s, id, s.tags[id]), id)
    ensures Unregister(s, id, s.tags[id]).users == s.users - {id}
    ensures Unregister(s, id, s.tags[id]).tags == s.tags - {id}
  {
  }

  lemma DeleteCommitsInv(w: World, id: Ident)
    requires LinkInv(w) && Enabled(w, DeleteCommits(id))
    ensures LinkInv(Happen(w, DeleteCommits(id)))
  {
    assert PhaseInv(w.store, id, w.sessions[id].phase) && CloseInv(w.sessions[id]);
    UnregisterInv(w.store, id);
    StoreChanges(w, id, Unregister(w.store, id, w.store.tags[id]), Gone);
  }

  /** Accounts come and go without touching who is registered. */
  lemma AccountsInv(w: World, s': Store)
    requires LinkInv(w) && StoreInv(s') && s'.users == w.store.users && s'.tags == w.store.tags
    ensures LinkInv(w.(store := s'))
  {
    forall id | id in w.sessions ensures PhaseInv(s', id, w.sessions[id].phase) {
      assert PhaseInv(w.store, id, w.sessions[id].phase);
    }
  }

  lemma SetUserIDXInv(s: Store, user: UserId, userIDX: u32)
    requires StoreInv(s) && user in s.live
    ensures StoreInv(SetUserIDX(s, user, userIDX))
  {
  }

  lemma ConnsKept(w: World, e: Event)
    requires ConnsInv(w) && Enabled(w, e)
    ensures ConnsInv(Happen(w, e))
  {
    if e.Accepts? {
      LC.CreatedInv(e.parser, e.keepAlive);
    } else if e.Connection? {
      LC.StepInv(w.sessions[e.id].conn, e.event);
    }
  }

  lemma LinkKept(w: World, e: Event)
    requires LinkInv(w) && Enabled(w, e)
    requires e.Connection? ==> LC.Inv(w.sessions[e.id].conn)
    ensures LinkInv(Happen(w, e))
  {
    match e
    case Accepts(_, _) => AcceptsInv(w, e);
    case AddBegins(id) => AddBeginsInv(w, id);
    case AddCommits(id) => AddCommitsInv(w, id);
    case Connection(id, event) =>
      LC.StepFacts(w.sessions[id].conn, event);
      ConnectionInv(w, id, event);
    case DeleteBegins(id) => DeleteBeginsInv(w, id);
    case DeleteCommits(id) => DeleteCommitsInv(w, id);
    case LogsIn(id, userIDX) => AccountsInv(w, Login(w.store, id, userIDX));
    case LogsOut(userIDX) => AccountsInv(w, Logout(w.store, userIDX));
    case SetsUserIDX(user, userIDX) =>
      SetUserIDXInv(w.store, user, userIDX);
      AccountsInv(w, SetUserIDX(w.store, user, userIDX));
  }

  lemma HappenInv(w: World, e: Event)
    requires Inv(w) && Enabled(w, e)
    ensures Inv(Happen(w, e))
  {
    LinkKept(w, e);
    ConnsKept(w, e);
  }

  lemma {:induction false} HistoryInv(w: World, es: seq<Event>)
    requires Inv(w) && IsHistory(w, es)
    ensures Inv(Later(w, es))
    decreases |es|
  {
    if es != [] {
      HappenInv(w, es[0]);
      HistoryInv(Happen(w, es[0]), es[1..]);
    }
  }

  // ---- Every history ----

  ghost predicate Reaches(es: seq<Event>, w: World) {
    IsHistory(Nobody, es) && w == Later(Nobody, es)
  }

  lemma ReachedInv(es: seq<Event>, w: World)
    requires Reaches(es, w)
    ensures Inv(w)
  {
    HistoryInv(Nobody, es);
  }

  /** A look-up returns -1 or runs its callback on the live User of the connection it names, whatever else refers to
      the connections: -2 and -3 are never returned. */
  lemma LookupsAreSafe(es: seq<Event>, w: World, held: set<Ident>, identity: Ident)
    requires Reaches(es, w)
    ensures Lookup(w.store, held, identity) == NotRegistered <==> identity !in w.store.users
    ensures identity in w.store.users ==>
              exists user | user in w.store.live ::
                w.store.live[user].conn == identity && Lookup(w.store, held, identity) == Callback(user)
  {
    ReachedInv(es, w);
    if identity in w.store.users {
      assert PhaseInv(w.store, identity, w.sessions[identity].phase);
      assert w.store.tags[identity] in w.store.live;
    }
  }

  /** No User is deleted twice, none is live once deleted, and the User a running deleteUser is about to delete is the
      live one its connection is tagged with. */
  lemma FreedAtMostOnce(es: seq<Event>, w: World, user: UserId)
    requires Reaches(es, w)
    ensures multiset(w.store.freed)[user] <= 1
    ensures user in w.store.freed ==> user !in w.store.live
    ensures forall id | id in w.sessions && w.sessions[id].phase == Deleting(user) ::
              user in w.store.live && w.store.live[user].conn == id
  {
    ReachedInv(es, w);
    NoRepeats(w.store.freed, user);
    forall id | id in w.sessions && w.sessions[id].phase == Deleting(user)
      ensures user in w.store.live && w.store.live[user].conn == id
    {
      assert PhaseInv(w.store, id, w.sessions[id].phase);
    }
  }

  lemma {:induction false} NoRepeats(s: seq<UserId>, x: UserId)
    requires forall i, j | 0 <= i < j < |s| :: s[i] != s[j]
    ensures multiset(s)[x] <= 1
  {
    if s != [] {
      var n := |s| - 1;
      assert s == s[..n] + [s[n]];
      NoRepeats(s[..n], x);
      if s[n] == x {
        assert x !in s[..n];
      }
    }
  }

  /** Once onClose is over its connection is not registered, has no tag, and never gets either back. */
  lemma {:induction false} GoneForGood(w: World, es: seq<Event>, id: Ident)
    requires Inv(w) && IsHistory(w, es) && id in w.sessions && w.sessions[id].phase == Gone
    ensures id in Later(w, es).sessions && Later(w, es).sessions[id].phase == Gone
    ensures id !in Later(w, es).store.users && id !in Later(w, es).store.tags
    decreases |es|
  {
    assert PhaseInv(w.store, id, Gone);
    if es != [] {
      HappenInv(w, es[0]);
      GoneStays(w, es[0], id);
      GoneForGood(Happen(w, es[0]), es[1..], id);
    }
  }

  lemma GoneStays(w: World, e: Event, id: Ident)
    requires LinkInv(w) && Enabled(w, e) && id in w.sessions && w.sessions[id].phase == Gone
    requires LC.Inv(w.sessions[id].conn)
    ensures id in Happen(w, e).sessions && Happen(w, e).sessions[id].phase == Gone
  {
    assert CloseInv(w.sessions[id]);
    if e.Connection? && e.id == id {
      LC.StepFacts(w.sessions[id].conn, e.event);
    }
  }

  // ---- What the store alone has to keep ----

  /** Every registered connection is tagged, so with StoreInv it has its live User. */
  ghost predicate Consistent(s: Store) {
    StoreInv(s) && forall id | id in s.users :: id in s.tags
  }

  lemma ReachedIsConsistent(es: seq<Event>, w: World)
    requires Reaches(es, w)
    ensures Consistent(w.store)
  {
    ReachedInv(es, w);
    forall id | id in w.store.users ensures id in w.store.tags {
      assert PhaseInv(w.store, id, w.sessions[id].phase);
    }
  }

  /** In a consistent store a look-up finds the connection's own live User exactly if it is registered, and else returns
      -1: -2 and -3 need an inconsistent one. */
  lemma ConsistentLookup(s: Store, held: set<Ident>, identity: Ident)
    requires Consistent(s)
    ensures match Lookup(s, held, identity)
            case NotRegistered => identity !in s.users
            case Callback(user) => identity in s.users && user in s.live && s.live[user].conn == identity
            case _ => false
  {
    if identity in s.users {
      assert s.tags[identity] in s.live;
    }
  }

  // ---- m_nodeToUserMap ----

  /** Every entry leads to a registered connection whose User has that userIDX. */
  ghost predicate NothingDangles(s: Store) {
    forall userIDX | userIDX in s.nodeToUser :: HasUserIDX(s, s.nodeToUser[userIDX], userIDX)
  }

  ghost predicate HasUserIDX(s: Store, id: Ident, userIDX: u32) {
    id in s.users && id in s.tags && s.tags[id] in s.live && s.live[s.tags[id]].userIDX == userIDX
  }

  /** What userLogined and the writers of m_userIDX have to respect. */
  ghost predicate Sound(w: World, e: Event) {
    match e
    case LogsIn(id, userIDX) => userIDX in w.store.nodeToUser || HasUserIDX(w.store, id, userIDX)
    case SetsUserIDX(user, userIDX) => user in w.store.live ==> MayWrite(w.store, user, userIDX)
    case _ => true
  }

  /** Nothing is mapped to the User's connection, or what is written is what is there. */
  ghost predicate MayWrite(s: Store, user: UserId, userIDX: u32)
    requires user in s.live
  {
    s.live[user].conn !in s.nodeToUser.Values || s.live[user].userIDX == userIDX
  }

  ghost predicate SoundHistory(w: World, es: seq<Event>)
    requires IsHistory(w, es)
    decreases |es|
  {
    es == [] || (Sound(w, es[0]) && SoundHistory(Happen(w, es[0]), es[1..]))
  }

  /** A registered connection is not the one being added, and keeps its User and userIDX unless it is the one being
      deleted or careless writing changes them. */
  lemma EntryKept(s: Store, s': Store, userIDX: u32)
    requires NothingDangles(s) && userIDX in s'.nodeToUser
    requires userIDX in s.nodeToUser && s'.nodeToUser[userIDX] == s.nodeToUser[userIDX]
    requires HasUserIDX(s, s.nodeToUser[userIDX], userIDX) ==> HasUserIDX(s', s.nodeToUser[userIDX], userIDX)
    ensures HasUserIDX(s', s'.nodeToUser[userIDX], userIDX)
  {
  }

  lemma CreateUserKeepsEntries(s: Store, id: Ident)
    requires StoreInv(s) && NothingDangles(s)
    ensures NothingDangles(CreateUser(s, id))
  {
    var s' := CreateUser(s, id);
    forall userIDX | userIDX in s'.nodeToUser ensures HasUserIDX(s', s'.nodeToUser[userIDX], userIDX) {
      EntryKept(s, s', userIDX);
    }
  }

  lemma RegisterKeepsEntries(s: Store, id: Ident)
    requires NothingDangles(s)
    ensures NothingDangles(Register(s, id))
  {
    var s' := Register(s, id);
    forall userIDX | userIDX in s'.nodeToUser ensures HasUserIDX(s', s'.nodeToUser[userIDX], userIDX) {
      EntryKept(s, s', userIDX);
    }
  }

  lemma UnregisterKeepsEntries(s: Store, id: Ident)
    requires StoreInv(s) && NothingDangles(s) && id in s.tags
    ensures NothingDangles(Unregister(s, id, s.tags[id]))
  {
    var s' := Unregister(s, id, s.tags[id]);
    forall userIDX | userIDX in s'.nodeToUser ensures HasUserIDX(s', s'.nodeToUser[userIDX], userIDX) {
      assert HasUserIDX(s, s.nodeToUser[userIDX], userIDX);
      EntryKept(s, s', userIDX);
    }
  }

  lemma LogoutKeepsEntries(s: Store, gone: u32)
    requires NothingDangles(s)
    ensures NothingDangles(Logout(s, gone))
  {
    var s' := Logout(s, gone);
    forall userIDX | userIDX in s'.nodeToUser ensures HasUserIDX(s', s'.nodeToUser[userIDX], userIDX) {
      EntryKept(s, s', userIDX);
    }
  }

  lemma WhenWriteIsSound(s: Store, user: UserId, to: u32)
    requires StoreInv(s) && NothingDangles(s) && user in s.live
    ensures NothingDangles(SetUserIDX(s, user, to)) <==> MayWrite(s, user, to)
  {
    var s' := SetUserIDX(s, user, to);
    if MayWrite(s, user, to) {
      forall userIDX | userIDX in s'.nodeToUser ensures HasUserIDX(s', s'.nodeToUser[userIDX], userIDX) {
        assert HasUserIDX(s, s.nodeToUser[userIDX], userIDX) && s.nodeToUser[userIDX] in s.nodeToUser.Values;
        EntryKept(s, s', userIDX);
      }
    } else {
      var userIDX :| userIDX in s.nodeToUser && s.nodeToUser[userIDX] == s.live[user].conn;
      assert HasUserIDX(s, s.nodeToUser[userIDX], userIDX);
      assert !HasUserIDX(s', s'.nodeToUser[userIDX], userIDX);
    }
  }

  /** A step keeps m_nodeToUserMap sound exactly if it respects its demand; accepting, closing and logging out have
      none. */
  lemma WhenStepIsSound(w: World, e: Event)
    requires LinkInv(w) && Enabled(w, e) && NothingDangles(w.store)
    ensures NothingDangles(Happen(w, e).store) <==> Sound(w, e)
  {
    match e
    case AddBegins(id) => CreateUserKeepsEntries(w.store, id);
    case AddCommits(id) => RegisterKeepsEntries(w.store, id);
    case DeleteCommits(id) =>
      assert PhaseInv(w.store, id, w.sessions[id].phase);
      UnregisterKeepsEntries(w.store, id);
    case LogsIn(id, userIDX) => WhenLoginIsSound(w.store, id, userIDX);
    case LogsOut(userIDX) => LogoutKeepsEntries(w.store, userIDX);
    case SetsUserIDX(user, userIDX) => WhenWriteIsSound(w.store, user, userIDX);
    case Accepts(_, _) | Connection(_, _) | DeleteBegins(_) =>
  }

  /** Nothing dangles, now or after any step of the history. */
  ghost predicate NeverDangles(w: World, es: seq<Event>)
    requires IsHistory(w, es)
    decreases |es|
  {
    NothingDangles(w.store) && (es == [] || NeverDangles(Happen(w, es[0]), es[1..]))
  }

  lemma {:induction false} SoundnessFrom(w: World, es: seq<Event>)
    requires Inv(w) && NothingDangles(w.store) && IsHistory(w, es)
    ensures NeverDangles(w, es) <==> SoundHistory(w, es)
    ensures NeverDangles(w, es) ==> NothingDangles(Later(w, es).store)
    decreases |es|
  {
    if es != [] {
      HappenInv(w, es[0]);
      WhenStepIsSound(w, es[0]);
      if Sound(w, es[0]) {
        SoundnessFrom(Happen(w, es[0]), es[1..]);
      }
    }
  }

  /** Across duplicate logins, logouts and closes m_nodeToUserMap never dangles in exactly the histories whose logins
      and writes of m_userIDX are sound. */
  lemma WhenNothingEverDangles(es: seq<Event>)
    requires IsHistory(Nobody, es)
    ensures NeverDangles(Nobody, es) <==> SoundHistory(Nobody, es)
  {
    SoundnessFrom(Nobody, es);
  }

  /** Across duplicate logins, logouts and closes a look-up by userIDX that finds an entry runs on a live User with that
      userIDX. */
  lemma LookupsByUserIDXAreSafe(es: seq<Event>, w: World, held: set<Ident>, userIDX: u32)
    requires Reaches(es, w) && SoundHistory(Nobody, es)
    ensures var found := LookupByUserIDX(w.store, held, userIDX);
            if userIDX in w.store.nodeToUser
            then found.Callback? && found.user in w.store.live && w.store.live[found.user].userIDX == userIDX
            else found == NotRegistered
  {
    ReachedInv(es, w);
    SoundnessFrom(Nobody, es);
    if userIDX in w.store.nodeToUser {
      assert HasUserIDX(w.store, w.store.nodeToUser[userIDX], userIDX);
      LookupsAreSafe(es, w, held, w.store.nodeToUser[userIDX]);
    }
  }

  /** One userLogined keeps the map sound exactly if the userIDX is taken already, and then nothing changes, or it names
      a registered connection whose User has it. */
  lemma WhenLoginIsSound(s: Store, id: Ident, userIDX: u32)
    requires NothingDangles(s)
    ensures NothingDangles(Login(s, id, userIDX)) <==> userIDX in s.nodeToUser || HasUserIDX(s, id, userIDX)
  {
    var s' := Login(s, id, userIDX);
    if userIDX !in s.nodeToUser {
      assert s'.nodeToUser[userIDX] == id;
      if HasUserIDX(s, id, userIDX) {
        forall n | n in s'.nodeToUser ensures HasUserIDX(s', s'.nodeToUser[n], n) {
          assert n != userIDX ==> HasUserIDX(s, s.nodeToUser[n], n);
        }
      } else {
        assert !HasUserIDX(s', s'.nodeToUser[userIDX], userIDX);
      }
    }
  }

  /** A close takes the entry of its userIDX with it, whoever the entry leads to: another user's entry survives a close
      exactly if the userIDX differ. After a duplicate login the first user's is lost when the second leaves. */
  lemma CloseTakesTheEntry(w: World, id: Ident, other: Ident, userIDX: u32)
    requires LinkInv(w) && Enabled(w, DeleteCommits(id)) && other != id
    requires userIDX in w.store.nodeToUser && w.store.nodeToUser[userIDX] == other && other in w.store.users
    ensures var s := Happen(w, DeleteCommits(id)).store;
            && other in s.users
            && w.sessions[id].phase.user in w.store.live
            && (userIDX in s.nodeToUser && s.nodeToUser[userIDX] == other
                <==> w.store.live[w.sessions[id].phase.user].userIDX != userIDX)
  {
    assert PhaseInv(w.store, id, w.sessions[id].phase);
    EntryOfUnregister(w.store, id, other, userIDX);
  }

  lemma EntryOfUnregister(s: Store, id: Ident, other: Ident, userIDX: u32)
    requires StoreInv(s) && id in s.tags && other != id && other in s.users
    requires userIDX in s.nodeToUser && s.nodeToUser[userIDX] == other
    ensures var s' := Unregister(s, id, s.tags[id]);
            && other in s'.users
            && (userIDX in s'.nodeToUser && s'.nodeToUser[userIDX] == other
                <==> s.live[s.tags[id]].userIDX != userIDX)
  {
    assert s.live[s.tags[id]].conn == id;
  }

  /** The two ways an entry goes: a logout under its userIDX, and the close of a connection whose User has it. */
  predicate TakesEntry(w: World, e: Event, userIDX: u32)
    requires Enabled(w, e)
  {
    match e
    case LogsOut(gone) => gone == userIDX
    case DeleteCommits(id) =>
      var user := w.sessions[id].phase.user;
      user in w.store.live && w.store.live[user].userIDX == userIDX
    case _ => false
  }

  /** An entry stays as it is, whatever happens, through exactly the other steps: nothing overwrites it. */
  lemma EntryStays(w: World, e: Event, userIDX: u32)
    requires Enabled(w, e) && userIDX in w.store.nodeToUser
    ensures var after := Happen(w, e).store.nodeToUser;
            && (userIDX in after <==> !TakesEntry(w, e, userIDX))
            && (userIDX in after ==> after[userIDX] == w.store.nodeToUser[userIDX])
  {
  }

  /** Only a userLogined enters a userIDX, under the identity it names. */
  lemma EntryComes(w: World, e: Event, userIDX: u32)
    requires Enabled(w, e) && userIDX !in w.store.nodeToUser
    ensures var after := Happen(w, e).store.nodeToUser;
            userIDX in after <==> e.LogsIn? && e.userIDX == userIDX && after == w.store.nodeToUser[userIDX := e.id]
  {
  }

  predicate NothingTakes(w: World, es: seq<Event>, userIDX: u32)
    requires IsHistory(w, es)
    decreases |es|
  {
    es == [] || (!TakesEntry(w, es[0], userIDX) && NothingTakes(Happen(w, es[0]), es[1..], userIDX))
  }

  /** A sound login keeps its user reachable: until a logout under the userIDX or a close that takes it, every look-up
      finds the User of the connection that logged in. */
  lemma {:induction false} LoggedInStaysReachable(w: World, es: seq<Event>, held: set<Ident>, userIDX: u32)
    requires Inv(w) && NothingDangles(w.store) && userIDX in w.store.nodeToUser
    requires IsHistory(w, es) && SoundHistory(w, es) && NothingTakes(w, es, userIDX)
    ensures var s := Later(w, es).store; var id := w.store.nodeToUser[userIDX];
            id in s.tags && LookupByUserIDX(s, held, userIDX) == Callback(s.tags[id])
            && s.tags[id] in s.live && s.live[s.tags[id]].userIDX == userIDX
    decreases |es|
  {
    if es == [] {
      FoundInSoundStore(w.store, held, userIDX);
    } else {
      HappenInv(w, es[0]);
      WhenStepIsSound(w, es[0]);
      EntryStays(w, es[0], userIDX);
      LoggedInStaysReachable(Happen(w, es[0]), es[1..], held, userIDX);
    }
  }

  lemma FoundInSoundStore(s: Store, held: set<Ident>, userIDX: u32)
    requires StoreInv(s) && NothingDangles(s) && userIDX in s.nodeToUser
    ensures var id := s.nodeToUser[userIDX];
            && id in s.tags && LookupByUserIDX(s, held, userIDX) == Callback(s.tags[id])
            && s.tags[id] in s.live && s.live[s.tags[id]].userIDX == userIDX
  {
    assert HasUserIDX(s, s.nodeToUser[userIDX], userIDX);
  }

  /** The login at k enters the userIDX, or finds it entered, and nothing takes it afterwards. */
  predicate LoginLasts(w: World, es: seq<Event>, k: nat, userIDX: u32)
    requires IsHistory(w, es) && k < |es|
    decreases |es|
  {
    if k == 0 then es[0].LogsIn? && es[0].userIDX == userIDX && NothingTakes(Happen(w, es[0]), es[1..], userIDX)
    else LoginLasts(Happen(w, es[0]), es[1..], k - 1, userIDX)
  }

  ghost predicate SomeLoginLasts(w: World, es: seq<Event>, userIDX: u32)
    requires IsHistory(w, es)
  {
    exists k :: 0 <= k < |es| && LoginLasts(w, es, k, userIDX)
  }

  lemma SomeLoginCons(w: World, es: seq<Event>, userIDX: u32)
    requires es != [] && IsHistory(w, es)
    ensures SomeLoginLasts(w, es, userIDX)
            <==> LoginLasts(w, es, 0, userIDX) || SomeLoginLasts(Happen(w, es[0]), es[1..], userIDX)
  {
    var w', more := Happen(w, es[0]), es[1..];
    if SomeLoginLasts(w', more, userIDX) {
      var k :| 0 <= k < |more| && LoginLasts(w', more, k, userIDX);
      assert LoginLasts(w, es, k + 1, userIDX);
    }
    if SomeLoginLasts(w, es, userIDX) {
      var k :| 0 <= k < |es| && LoginLasts(w, es, k, userIDX);
      assert k > 0 ==> LoginLasts(w', more, k - 1, userIDX);
    }
  }

  lemma {:induction false} MappedFrom(w: World, es: seq<Event>, userIDX: u32)
    requires IsHistory(w, es)
    ensures userIDX in Later(w, es).store.nodeToUser
            <==> (userIDX in w.store.nodeToUser && NothingTakes(w, es, userIDX)) || SomeLoginLasts(w, es, userIDX)
    decreases |es|
  {
    if es != [] {
      if userIDX in w.store.nodeToUser {
        EntryStays(w, es[0], userIDX);
      } else {
        EntryComes(w, es[0], userIDX);
      }
      SomeLoginCons(w, es, userIDX);
      MappedFrom(Happen(w, es[0]), es[1..], userIDX);
    }
  }

  /** After any history a userIDX is mapped exactly if some login under it was followed by no logout under it and no
      close of a User holding it. */
  lemma WhatIsMapped(es: seq<Event>, w: World, userIDX: u32)
    requires Reaches(es, w)
    ensures userIDX in w.store.nodeToUser <==> SomeLoginLasts(Nobody, es, userIDX)
  {
    MappedFrom(Nobody, es, userIDX);
  }

  // ---- The connections of a history ----

  /** A connection that is open has its tag, its entry and its live User. */
  lemma OpenHasUser(es: seq<Event>, w: World, id: Ident)
    requires Reaches(es, w) && id in w.sessions && w.sessions[id].conn.status == LC.Open
    ensures id in w.store.users && id in w.store.tags
    ensures w.store.tags[id] in w.store.live && w.store.live[w.store.tags[id]].conn == id
  {
    ReachedInv(es, w);
    var session := w.sessions[id];
    assert PhaseInv(w.store, id, session.phase) && CloseInv(session) && LC.Inv(session.conn);
    assert session.phase == Serving;
  }

  predicate Numbered(w: World) {
    forall id | id in w.sessions :: id < w.nextIdent
  }

  lemma SessionKept(w: World, e: Event, id: Ident)
    requires Numbered(w) && Enabled(w, e) && id in w.sessions
    ensures Numbered(Happen(w, e)) && id in Happen(w, e).sessions
    ensures Happen(w, e).sessions[id].conn
            == if e.Connection? && e.id == id then LC.Advance(w.sessions[id].conn, e.event) else w.sessions[id].conn
  {
  }

  lemma SessionBorn(w: World, e: Event, id: Ident)
    requires Numbered(w) && Enabled(w, e) && id !in w.sessions
    ensures Numbered(Happen(w, e))
    ensures id in Happen(w, e).sessions ==>
              e.Accepts? && Happen(w, e).sessions[id].conn == LC.Created(e.parser, e.keepAlive)
  {
  }

  lemma {:induction false} RunOf(w: World, es: seq<Event>, id: Ident) returns (run: seq<LC.Event>)
    requires Numbered(w) && IsHistory(w, es) && id in w.sessions
    ensures id in Later(w, es).sessions && LC.IsRun(w.sessions[id].conn, run)
    ensures LC.After(w.sessions[id].conn, run) == Later(w, es).sessions[id].conn
    decreases |es|
  {
    run := [];
    if es != [] {
      SessionKept(w, es[0], id);
      run := RunOf(Happen(w, es[0]), es[1..], id);
      if es[0].Connection? && es[0].id == id {
        var more := run;
        run := [es[0].event] + run;
        assert run[1..] == more;
      }
    }
  }

  lemma {:induction false} RunOfNew(w: World, es: seq<Event>, id: Ident)
    returns (parser: seq<byte> -> Result, keepAlive: bool, run: seq<LC.Event>)
    requires Numbered(w) && IsHistory(w, es) && id !in w.sessions && id in Later(w, es).sessions
    ensures LC.Reaches(parser, keepAlive, run, Later(w, es).sessions[id].conn)
    ensures exists k :: 0 <= k < |es| && es[k] == Accepts(parser, keepAlive)
    decreases |es|
  {
    SessionBorn(w, es[0], id);
    var w' := Happen(w, es[0]);
    if id in w'.sessions {
      parser, keepAlive := es[0].parser, es[0].keepAlive;
      run := RunOf(w', es[1..], id);
      assert es[0] == Accepts(parser, keepAlive);
    } else {
      parser, keepAlive, run := RunOfNew(w', es[1..], id);
      var k :| 0 <= k < |es[1..]| && es[1..][k] == Accepts(parser, keepAlive);
      assert es[k + 1] == Accepts(parser, keepAlive);
    }
  }

  /** What a history does to one connection is a run of that connection, with the parser and keep-alive setting it was
      accepted with: all that holds of runs holds of it. */
  lemma EveryConnectionRuns(es: seq<Event>, w: World, id: Ident) returns (keepAlive: bool, run: seq<LC.Event>)
    requires Reaches(es, w) && id in w.sessions
    ensures LC.Reaches(w.sessions[id].conn.parser, keepAlive, run, w.sessions[id].conn)
    ensures exists k :: 0 <= k < |es| && es[k] == Accepts(w.sessions[id].conn.parser, keepAlive)
  {
    var parser;
    parser, keepAlive, run := RunOfNew(Nobody, es, id);
    LC.ParserStays(LC.Created(parser, keepAlive), run);
  }

  // ---- What a User holds ----

  /** The userIDX last written to a User in the history, or what it was before. */
  function Written(es: seq<Event>, user: UserId, before: u32): u32 {
    if es == [] then before
    else Written(es[1..], user, if es[0].SetsUserIDX? && es[0].user == user then es[0].userIDX else before)
  }

  predicate BelowNext(s: Store) {
    forall user | user in s.live :: user < s.nextUser
  }

  lemma UserStep(w: World, e: Event, user: UserId)
    requires Enabled(w, e) && BelowNext(w.store)
    ensures var s, s' := w.store, Happen(w, e).store;
            && BelowNext(s') && s.nextUser <= s'.nextUser
            && (user in s'.live && user in s.live ==>
                  s'.live[user] == if e.SetsUserIDX? && e.user == user then s.live[user].(userIDX := e.userIDX)
                                   else s.live[user])
            && (user in s'.live && user !in s.live ==>
                  user == s.nextUser && e.AddBegins? && s'.live[user] == User(e.id, 0))
  {
  }

  lemma {:induction false} NeverReborn(w: World, es: seq<Event>, user: UserId)
    requires IsHistory(w, es) && BelowNext(w.store) && user < w.store.nextUser && user !in w.store.live
    ensures user !in Later(w, es).store.live
    decreases |es|
  {
    if es != [] {
      UserStep(w, es[0], user);
      NeverReborn(Happen(w, es[0]), es[1..], user);
    }
  }

  lemma {:induction false} HeldFrom(w: World, es: seq<Event>, user: UserId)
    requires IsHistory(w, es) && BelowNext(w.store) && user in Later(w, es).store.live
    requires user in w.store.live || w.store.nextUser <= user
    ensures Later(w, es).store.live[user].userIDX
            == Written(es, user, if user in w.store.live then w.store.live[user].userIDX else 0)
    decreases |es|
  {
    if es != [] {
      var w' := Happen(w, es[0]);
      UserStep(w, es[0], user);
      if user in w'.store.live || w'.store.nextUser <= user {
        HeldFrom(w', es[1..], user);
      } else {
        NeverReborn(w', es[1..], user);
      }
    }
  }

  /** In every history a live User holds the userIDX last written to it, and 0 before anyone writes. */
  lemma WhatUsersHold(es: seq<Event>, w: World, user: UserId)
    requires Reaches(es, w) && user in w.store.live
    ensures w.store.live[user].userIDX == Written(es, user, 0)
  {
    HeldFrom(Nobody, es, user);
  }

  /** So the close of a connection whose User was never written to takes no entry but that of userIDX 0. */
  lemma StrangersTakeNothing(es: seq<Event>, w: World, id: Ident, userIDX: u32)
    requires Reaches(es, w) && Enabled(w, DeleteCommits(id))
    requires forall k | 0 <= k < |es| && es[k].SetsUserIDX? :: es[k].user != w.sessions[id].phase.user
    requires userIDX in w.store.nodeToUser && userIDX != 0
    ensures userIDX in Happen(w, DeleteCommits(id)).store.nodeToUser
  {
    var user := w.sessions[id].phase.user;
    FreedAtMostOnce(es, w, user);
    WhatUsersHold(es, w, user);
    NothingWritten(es, user, 0);
    EntryStays(w, DeleteCommits(id), userIDX);
  }

  lemma {:induction false} NothingWritten(es: seq<Event>, user: UserId, before: u32)
    requires forall k | 0 <= k < |es| && es[k].SetsUserIDX? :: es[k].user != user
    ensures Written(es, user, before) == before
  {
    if es != [] {
      assert forall k | 0 <= k < |es[1..]| && es[1..][k].SetsUserIDX? :: es[1..][k] == es[k + 1];
      NothingWritten(es[1..], user, before);
    }
  }
}
