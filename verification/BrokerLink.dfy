/** net/netServiceConnector's chain of connects and the reconnecting lobbysvr/brokerConnector over the connections of
    Lifecycle. connect_handler takes two steps, start_connect and onConnect: in between the connection's own strand may
    already run. */
module BrokerLink {
  import opened Bytes
  import opened Buffers
  import opened Framing
  import LC = Lifecycle

  type UserId = nat    // a ConnectorUser, numbered as created

  /** remain is connect_handler's remainCnt. */
  datatype Phase =
    | Connecting(remain: nat)  // async_connect is under way
    | Started(remain: nat)     // start_connect has run, onConnect is still to come
    | Reported                 // onConnect has been called
    | Failed                   // onConnectFailed has been called

  /** chain is the index of the first session of the connectWait this one belongs to. */
  datatype Session = Session(conn: LC.Conn, phase: Phase, chain: nat)

  datatype Notice = OnConnect(index: nat) | OnConnectFailed(index: nat) | OnClose(index: nat)

  /** What never changes; reconnects: the event receiver is BrokerConnector, whose callbacks call tryConnect. */
  datatype Setup = Setup(parser: seq<byte> -> Result, keepAlive: bool, reconnects: bool)

  datatype World = World(
    setup: Setup,
    sessions: seq<Session>,  // every connection createConnectSession has returned, in order
    mUser: Option<UserId>,   // BrokerConnector::m_user
    live: set<UserId>,       // ConnectorUsers not yet deleted
    freed: seq<UserId>,      // every delete, in order
    nextUser: UserId,
    log: seq<Notice>)        // the callbacks, in order

  // ---- The callbacks and the connector ----

  /** throws: createConnectSession, or resolving the address before it, raises an exception. */
  function ConnectImplement(w: World, sessionCnt: nat, chain: nat, throws: bool): World
    requires 0 < sessionCnt
  {
    if throws then w else w.(sessions := w.sessions + [NewSession(w.setup, sessionCnt, chain)])
  }

  function NewSession(setup: Setup, sessionCnt: nat, chain: nat): Session
    requires 0 < sessionCnt
  {
    Session(LC.Created(setup.parser, setup.keepAlive), Connecting(sessionCnt - 1), chain)
  }

  function TryConnect(w: World, throws: bool): World {
    if w.setup.reconnects then ConnectImplement(w, 1, |w.sessions|, throws) else w
  }

  function HandleConnect(w: World, i: nat): World {
    w.(mUser := Some(w.nextUser), live := w.live + {w.nextUser}, nextUser := w.nextUser + 1,
       log := w.log + [OnConnect(i)])
  }

  /** delete m_user; the pointer itself stays. */
  function DeleteUser(w: World): World {
    match w.mUser
    case None => w
    case Some(user) => w.(live := w.live - {user}, freed := w.freed + [user])
  }

  function HandleClose(w: World, i: nat, throws: bool): World {
    TryConnect(DeleteUser(w).(log := w.log + [OnClose(i)]), throws)
  }

  function HandleConnectFailed(w: World, i: nat, throws: bool): World {
    TryConnect(w.(log := w.log + [OnConnectFailed(i)]), throws)
  }

  function InSession(w: World, i: nat, session: Session): World
    requires i < |w.sessions|
  {
    w.(sessions := w.sessions[i := session])
  }

  // ---- The machine ----

  datatype Event =
    | ConnectFails(i: nat, throws: bool)
    | Connects(i: nat)
    | Reports(i: nat, throws: bool)
    | Connection(i: nat, event: LC.Event, throws: bool)

  /** The step makes the connection call onClose. */
  predicate Closes(w: World, i: nat, event: LC.Event)
    requires i < |w.sessions| && LC.Enabled(w.sessions[i].conn, event)
  {
    LC.Advance(w.sessions[i].conn, event).closes > w.sessions[i].conn.closes
  }

  predicate Enabled(w: World, e: Event) {
    && e.i < |w.sessions|
    && match e
       case ConnectFails(i, throws) => w.sessions[i].phase.Connecting? && (throws ==> w.setup.reconnects)
       case Connects(i) => w.sessions[i].phase.Connecting?
       case Reports(i, throws) => w.sessions[i].phase.Started? && (throws ==> w.sessions[i].phase.remain > 0)
       case Connection(i, event, throws) =>
         && LC.Enabled(w.sessions[i].conn, event) && !event.Starts?
         && (throws ==> w.setup.reconnects && Closes(w, i, event))
  }

  function Happen(w: World, e: Event): World
    requires Enabled(w, e)
  {
    var session := w.sessions[e.i];
    match e
    case ConnectFails(i, throws) => HandleConnectFailed(InSession(w, i, session.(phase := Failed)), i, throws)
    case Connects(i) =>
      InSession(w, i, session.(conn := LC.Start(session.conn), phase := Started(session.phase.remain)))
    case Reports(i, throws) =>
      var w' := HandleConnect(InSession(w, i, session.(phase := Reported)), i);
      if 0 < session.phase.remain then ConnectImplement(w', session.phase.remain, session.chain, throws)
      else w'
    case Connection(i, event, throws) =>
      var w' := InSession(w, i, session.(conn := LC.Advance(session.conn, event)));
      if Closes(w, i, event) then HandleClose(w', i, throws) else w'
  }

  predicate IsHistory(w: World, es: seq<Event>)
    decreases |es|
  {
    es == [] || (Enabled(w, es[0]) && IsHistory(Happen(w, es[0]), es[1..]))
  }

  function Later(w: World, es: seq<Event>): World
    requires IsHistory(w, es)
    decreases |es|
  {
    if es == [] then w else Later(Happen(w, es[0]), es[1..])
  }

  function Nothing(setup: Setup): World {
    World(setup, [], None, {}, [], 0, [])
  }

  /** connectWait(sessionCnt), its first createConnectSession having succeeded. */
  function Begun(setup: Setup, sessionCnt: nat): World
    requires 0 < sessionCnt
  {
    ConnectImplement(Nothing(setup), sessionCnt, 0, false)
  }

  // ---- Sums over the sessions ----

  function Total(f: Session -> nat, s: seq<Session>): nat {
    if s == [] then 0 else Total(f, s[..|s| - 1]) + f(s[|s| - 1])
  }

  lemma TotalAppend(f: Session -> nat, s: seq<Session>, x: Session)
    ensures Total(f, s + [x]) == Total(f, s) + f(x)
  {
    assert (s + [x])[..|s|] == s;
  }

  lemma {:induction false} TotalUpdate(f: Session -> nat, s: seq<Session>, i: nat, x: Session)
    requires i < |s|
    ensures Total(f, s[i := x]) == Total(f, s) - f(s[i]) + f(x)
  {
    var n := |s| - 1;
    if i == n {
      assert s[i := x][..n] == s[..n];
    } else {
      assert s[i := x][..n] == s[..n][i := x];
      TotalUpdate(f, s[..n], i, x);
    }
  }

  lemma {:induction false} TotalCovers(f: Session -> nat, s: seq<Session>, i: nat)
    requires i < |s|
    ensures f(s[i]) <= Total(f, s)
  {
    if i < |s| - 1 {
      TotalCovers(f, s[..|s| - 1], i);
    }
  }

  lemma {:induction false} TotalCoversTwo(f: Session -> nat, s: seq<Session>, i: nat, j: nat)
    requires i < j < |s|
    ensures f(s[i]) + f(s[j]) <= Total(f, s)
  {
    if j < |s| - 1 {
      TotalCoversTwo(f, s[..|s| - 1], i, j);
    } else {
      TotalCovers(f, s[..j], i);
    }
  }

  function Open(s: Session): nat {
    if s.conn.closes == 0 then 1 else 0
  }

  /** Connects in flight or promised by the chain, plus 1 for a connection that has yet to report its close. */
  function Weight(s: Session): nat {
    match s.phase
    case Connecting(remain) => 1 + remain
    case Started(remain) => Open(s) + remain
    case Reported => Open(s)
    case Failed => 0
  }

  function Load(w: World): nat {
    Total(Weight, w.sessions)
  }

  // ---- The invariant of every history ----

  ghost predicate SessionInv(s: Session) {
    && LC.Inv(s.conn)
    && (s.phase.Connecting? || s.phase == Failed ==> !s.conn.started)
    && (s.phase.Started? || s.phase == Reported ==> s.conn.started)
  }

  ghost predicate AllInv(s: seq<Session>) {
    forall i | 0 <= i < |s| :: SessionInv(s[i])
  }

  ghost predicate Inv(w: World) {
    AllInv(w.sessions)
  }

  /** What a step makes of the session it is about. */
  function StepOf(s: Session, e: Event): Session
    requires e.Connection? ==> LC.Enabled(s.conn, e.event)
    requires e.Connects? ==> s.phase.Connecting?
  {
    match e
    case ConnectFails(_, _) => s.(phase := Failed)
    case Connects(_) => s.(conn := LC.Start(s.conn), phase := Started(s.phase.remain))
    case Reports(_, _) => s.(phase := Reported)
    case Connection(_, event, _) => s.(conn := LC.Advance(s.conn, event))
  }

  /** The connects a step asks for. */
  function Asks(w: World, e: Event): nat
    requires Enabled(w, e)
  {
    match e
    case ConnectFails(_, throws) => if w.setup.reconnects && !throws then 1 else 0
    case Connects(_) => 0
    case Reports(i, throws) => if throws then 0 else w.sessions[i].phase.remain
    case Connection(i, event, throws) => if w.setup.reconnects && !throws && Closes(w, i, event) then 1 else 0
  }

  /** The session a step adds, if it adds one: the next of the same chain, or the first of a new one. */
  function Added(w: World, e: Event): (added: seq<Session>)
    requires Enabled(w, e)
    ensures |added| <= 1
  {
    if Asks(w, e) == 0 then []
    else [NewSession(w.setup, Asks(w, e), if e.Reports? then w.sessions[e.i].chain else |w.sessions|)]
  }

  /** A step is about one session and adds at most one. */
  lemma StepSessions(w: World, e: Event)
    requires Enabled(w, e)
    ensures Happen(w, e).sessions == w.sessions[e.i := StepOf(w.sessions[e.i], e)] + Added(w, e)
    ensures Happen(w, e).setup == w.setup
  {
  }

  lemma StepTotal(f: Session -> nat, w: World, e: Event)
    requires Enabled(w, e)
    ensures var added := Added(w, e);
            Total(f, Happen(w, e).sessions)
            == Total(f, w.sessions) - f(w.sessions[e.i]) + f(StepOf(w.sessions[e.i], e))
               + (if added == [] then 0 else f(added[0]))
  {
    StepSessions(w, e);
    var s := w.sessions[e.i := StepOf(w.sessions[e.i], e)];
    TotalUpdate(f, w.sessions, e.i, StepOf(w.sessions[e.i], e));
    if Asks(w, e) > 0 {
      TotalAppend(f, s, Added(w, e)[0]);
    } else {
      assert s + [] == s;
    }
  }

  lemma SessionStepInv(w: World, e: Event)
    requires Enabled(w, e) && SessionInv(w.sessions[e.i])
    ensures SessionInv(StepOf(w.sessions[e.i], e))
    ensures e.Connection? && Closes(w, e.i, e.event) ==>
              w.sessions[e.i].conn.closes == 0 && StepOf(w.sessions[e.i], e).conn.closes == 1
              && w.sessions[e.i].conn.started
    ensures e.Connection? && !Closes(w, e.i, e.event) ==>
              StepOf(w.sessions[e.i], e).conn.closes == w.sessions[e.i].conn.closes
    ensures e.Connects? ==> StepOf(w.sessions[e.i], e).conn.closes == 0
  {
    var c := w.sessions[e.i].conn;
    if e.Connection? {
      LC.StepInv(c, e.event);
      LC.StepFacts(c, e.event);
    } else if e.Connects? {
      LC.StepInv(c, LC.Starts);
      LC.StepFacts(c, LC.Starts);
    }
  }

  lemma SessionsInv(s: seq<Session>, i: nat, x: Session, added: seq<Session>)
    requires i < |s| && AllInv(s) && SessionInv(x) && |added| <= 1 && (added != [] ==> SessionInv(added[0]))
    ensures AllInv(s[i := x] + added)
  {
    var s' := s[i := x] + added;
    forall k | 0 <= k < |s'| ensures SessionInv(s'[k]) {
      assert s'[k] == if k == i then x else if k < |s| then s[k] else added[0];
    }
  }

  lemma NewSessionInv(setup: Setup, sessionCnt: nat, chain: nat)
    requires 0 < sessionCnt
    ensures SessionInv(NewSession(setup, sessionCnt, chain))
  {
    LC.CreatedInv(setup.parser, setup.keepAlive);
  }

  lemma HappenInv(w: World, e: Event)
    requires Inv(w) && Enabled(w, e)
    ensures Inv(Happen(w, e))
  {
    StepSessions(w, e);
    SessionStepInv(w, e);
    if Asks(w, e) > 0 {
      NewSessionInv(w.setup, Asks(w, e), Added(w, e)[0].chain);
    }
    SessionsInv(w.sessions, e.i, StepOf(w.sessions[e.i], e), Added(w, e));
  }

  lemma BegunInv(setup: Setup, sessionCnt: nat)
    requires 0 < sessionCnt
    ensures Inv(Begun(setup, sessionCnt))
    ensures Load(Begun(setup, sessionCnt)) == sessionCnt
  {
    NewSessionInv(setup, sessionCnt, 0);
    var x := Begun(setup, sessionCnt).sessions[0];
    assert Begun(setup, sessionCnt).sessions == [] + [x];
    TotalAppend(Weight, [], x);
  }

  // ---- Every session is a connection ----

  ghost predicate SessionRuns(setup: Setup, s: Session) {
    exists run :: LC.Reaches(setup.parser, setup.keepAlive, run, s.conn)
  }

  ghost predicate AllRun(setup: Setup, s: seq<Session>) {
    forall i | 0 <= i < |s| :: SessionRuns(setup, s[i])
  }

  lemma NewSessionRuns(setup: Setup, sessionCnt: nat, chain: nat)
    requires 0 < sessionCnt
    ensures SessionRuns(setup, NewSession(setup, sessionCnt, chain))
  {
    assert LC.Reaches(setup.parser, setup.keepAlive, [], NewSession(setup, sessionCnt, chain).conn);
  }

  lemma StepRuns(w: World, e: Event)
    requires Enabled(w, e) && SessionInv(w.sessions[e.i]) && SessionRuns(w.setup, w.sessions[e.i])
    ensures SessionRuns(w.setup, StepOf(w.sessions[e.i], e))
  {
    if e.Connects? || e.Connection? {
      var step := if e.Connects? then LC.Starts else e.event;
      var run :| LC.Reaches(w.setup.parser, w.setup.keepAlive, run, w.sessions[e.i].conn);
      var first := LC.Created(w.setup.parser, w.setup.keepAlive);
      LC.OneMoreStep(first, run, step);
      assert LC.Reaches(w.setup.parser, w.setup.keepAlive, run + [step], StepOf(w.sessions[e.i], e).conn);
    }
  }

  lemma SessionsRun(setup: Setup, s: seq<Session>, i: nat, x: Session, added: seq<Session>)
    requires i < |s| && AllRun(setup, s) && SessionRuns(setup, x)
    requires |added| <= 1 && (added != [] ==> SessionRuns(setup, added[0]))
    ensures AllRun(setup, s[i := x] + added)
  {
    var s' := s[i := x] + added;
    forall k | 0 <= k < |s'| ensures SessionRuns(setup, s'[k]) {
      assert s'[k] == if k == i then x else if k < |s| then s[k] else added[0];
    }
  }

  lemma {:induction false} RunsFrom(w: World, es: seq<Event>)
    requires Inv(w) && AllRun(w.setup, w.sessions) && IsHistory(w, es)
    ensures AllRun(w.setup, Later(w, es).sessions)
    decreases |es|
  {
    if es != [] {
      var e := es[0];
      HappenInv(w, e);
      StepSessions(w, e);
      StepRuns(w, e);
      if Asks(w, e) > 0 {
        NewSessionRuns(w.setup, Asks(w, e), Added(w, e)[0].chain);
      }
      SessionsRun(w.setup, w.sessions, e.i, StepOf(w.sessions[e.i], e), Added(w, e));
      RunsFrom(Happen(w, e), es[1..]);
    }
  }

  /** What a history of connectWait(n) does to any one session, those of reconnects included, is a run of a connection
      with the connector's parser and keep-alive setting: all that holds of runs holds of it. */
  lemma EverySessionRuns(setup: Setup, n: nat, es: seq<Event>, i: nat)
    requires 0 < n && IsHistory(Begun(setup, n), es) && i < |Later(Begun(setup, n), es).sessions|
    ensures exists run :: LC.Reaches(setup.parser, setup.keepAlive, run, Later(Begun(setup, n), es).sessions[i].conn)
  {
    BegunInv(setup, n);
    NewSessionRuns(setup, n, 0);
    RunsFrom(Begun(setup, n), es);
    assert SessionRuns(setup, Later(Begun(setup, n), es).sessions[i]);
  }

  // ---- Putting histories together ----

  lemma First(w: World, e: Event, es: seq<Event>)
    requires Enabled(w, e) && IsHistory(Happen(w, e), es)
    ensures IsHistory(w, [e] + es) && Later(w, [e] + es) == Later(Happen(w, e), es)
  {
    assert ([e] + es)[1..] == es;
  }

  lemma {:induction false} Joined(w: World, es: seq<Event>, more: seq<Event>)
    requires IsHistory(w, es) && IsHistory(Later(w, es), more)
    ensures IsHistory(w, es + more) && Later(w, es + more) == Later(Later(w, es), more)
    decreases |es|
  {
    if es == [] {
      assert es + more == more;
    } else {
      assert (es + more)[1..] == es[1..] + more;
      Joined(Happen(w, es[0]), es[1..], more);
    }
  }

  // ---- The load never grows ----

  predicate Throws(e: Event) {
    !e.Connects? && e.throws
  }

  predicate NothingThrown(es: seq<Event>) {
    forall k | 0 <= k < |es| :: !Throws(es[k])
  }

  /** A step keeps the load, except that an exception loses what was asked for and a failed connect loses the rest of
      its chain, and without reconnecting itself too. */
  lemma LoadStep(w: World, e: Event)
    requires Inv(w) && Enabled(w, e)
    ensures Load(Happen(w, e)) <= Load(w)
    ensures w.setup.reconnects && Load(w) == 1 ==> Load(Happen(w, e)) == if Throws(e) then 0 else 1
  {
    StepTotal(Weight, w, e);
    SessionStepInv(w, e);
    TotalCovers(Weight, w.sessions, e.i);
  }

  /** However many sessions were asked for, connects in flight and sessions not yet reported closed never exceed them:
      in every interleaving, with any failures and exceptions. */
  lemma {:induction false} LoadNeverGrows(w: World, es: seq<Event>)
    requires Inv(w) && IsHistory(w, es)
    ensures Inv(Later(w, es)) && Load(Later(w, es)) <= Load(w)
    decreases |es|
  {
    if es != [] {
      HappenInv(w, es[0]);
      LoadStep(w, es[0]);
      LoadNeverGrows(Happen(w, es[0]), es[1..]);
    }
  }

  lemma AtMostOneLink(setup: Setup, es: seq<Event>)
    requires IsHistory(Begun(setup, 1), es)
    ensures Load(Later(Begun(setup, 1), es)) <= 1
  {
    BegunInv(setup, 1);
    LoadNeverGrows(Begun(setup, 1), es);
  }

  /** A connect is in flight or a session has yet to report its close exactly while no exception was thrown in a
      reconnect. */
  lemma LoadSurvives(setup: Setup, es: seq<Event>)
    requires setup.reconnects && IsHistory(Begun(setup, 1), es)
    ensures Load(Later(Begun(setup, 1), es)) == 1 <==> NothingThrown(es)
  {
    BegunInv(setup, 1);
    SurvivesFrom(Begun(setup, 1), es);
  }

  lemma {:induction false} SurvivesFrom(w: World, es: seq<Event>)
    requires Inv(w) && w.setup.reconnects && Load(w) == 1 && IsHistory(w, es)
    ensures Load(Later(w, es)) == 1 <==> NothingThrown(es)
    decreases |es|
  {
    if es != [] {
      var w' := Happen(w, es[0]);
      HappenInv(w, es[0]);
      LoadStep(w, es[0]);
      StepSessions(w, es[0]);
      if Throws(es[0]) {
        LoadNeverGrows(w', es[1..]);
      } else {
        SurvivesFrom(w', es[1..]);
        assert forall k | 0 < k < |es| :: es[k] == es[1..][k - 1];
      }
    }
  }

  /** Only one session can weigh anything. */
  lemma OnlyOne(w: World, i: nat, j: nat)
    requires Load(w) <= 1 && i < |w.sessions| && j < |w.sessions|
    requires Weight(w.sessions[i]) > 0 && Weight(w.sessions[j]) > 0
    ensures i == j
  {
    if i < j {
      TotalCoversTwo(Weight, w.sessions, i, j);
    } else if j < i {
      TotalCoversTwo(Weight, w.sessions, j, i);
    }
  }

  // ---- The log ----

  /** What a step appends to the log. */
  function Noticed(w: World, e: Event): (n: seq<Notice>)
    requires Enabled(w, e)
    ensures |n| <= 1
  {
    match e
    case ConnectFails(i, _) => [OnConnectFailed(i)]
    case Connects(_) => []
    case Reports(i, _) => [OnConnect(i)]
    case Connection(i, event, _) => if Closes(w, i, event) then [OnClose(i)] else []
  }

  lemma StepLog(w: World, e: Event)
    requires Enabled(w, e)
    ensures Happen(w, e).log == w.log + Noticed(w, e)
  {
    assert w.log + [] == w.log;
  }
}
