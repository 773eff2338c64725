/** The order of the broker link's callbacks, and what they make of BrokerConnector::m_user. */
module BrokerUsers {
  import opened Buffers
  import opened BrokerLink
  import LC = Lifecycle

  // ---- onConnect and onClose take turns ----

  datatype Line = Down | Up(index: nat) | Broken

  /** A log in which every onConnect is followed by the onClose of the same connection before the next. */
  function LineOf(log: seq<Notice>): Line {
    if log == [] then Down
    else
      var line := LineOf(log[..|log| - 1]);
      match log[|log| - 1]
      case OnConnect(i) => if line == Down then Up(i) else Broken
      case OnClose(i) => if line == Up(i) then Down else Broken
      case OnConnectFailed(_) => line
  }

  predicate TakesTurns(log: seq<Notice>) {
    LineOf(log) != Broken
  }

  /** onClose comes after the onConnect of its connection: the connection's strand does not get as far as closing it
      between connect_handler's start_connect and onConnect. */
  predicate Orderly(w: World, e: Event)
    requires Enabled(w, e)
  {
    e.Connection? && Closes(w, e.i, e.event) ==> w.sessions[e.i].phase == Reported
  }

  predicate OrderlyHistory(w: World, es: seq<Event>)
    requires IsHistory(w, es)
    decreases |es|
  {
    es == [] || (Orderly(w, es[0]) && OrderlyHistory(Happen(w, es[0]), es[1..]))
  }

  predicate IsUp(s: Session) {
    s.phase == Reported && s.conn.closes == 0
  }

  /** The line says which session has been reported connected and not closed. */
  ghost predicate Agrees(sessions: seq<Session>, line: Line) {
    && line != Broken
    && (line.Up? ==> line.index < |sessions|)
    && (forall i | 0 <= i < |sessions| :: IsUp(sessions[i]) <==> line == Up(i))
    && (forall i | 0 <= i < |sessions| :: sessions[i].phase.Started? ==> sessions[i].conn.closes == 0)
  }

  ghost predicate LineInv(w: World) {
    Agrees(w.sessions, LineOf(w.log))
  }

  ghost predicate TurnInv(w: World) {
    Inv(w) && Load(w) <= 1 && LineInv(w)
  }

  lemma LineOfAppend(log: seq<Notice>, n: Notice)
    ensures LineOf(log + [n]) == match n
                                 case OnConnect(i) => if LineOf(log) == Down then Up(i) else Broken
                                 case OnClose(i) => if LineOf(log) == Up(i) then Down else Broken
                                 case OnConnectFailed(_) => LineOf(log)
  {
    assert (log + [n])[..|log|] == log;
  }

  lemma {:induction false} BrokenStays(w: World, es: seq<Event>)
    requires IsHistory(w, es) && LineOf(w.log) == Broken
    ensures LineOf(Later(w, es).log) == Broken
    decreases |es|
  {
    if es != [] {
      StepLog(w, es[0]);
      if Noticed(w, es[0]) != [] {
        LineOfAppend(w.log, Noticed(w, es[0])[0]);
      } else {
        assert w.log + [] == w.log;
      }
      BrokenStays(Happen(w, es[0]), es[1..]);
    }
  }

  /** One session moves the line, or leaves it where it was. */
  lemma Moves(s: seq<Session>, line: Line, i: nat, x: Session, added: seq<Session>, line': Line)
    requires Agrees(s, line) && i < |s| && (x.phase.Started? ==> x.conn.closes == 0)
    requires line' == if IsUp(x) then Up(i) else if line == Up(i) then Down else line
    requires IsUp(x) ==> line == Down || line == Up(i)
    requires |added| <= 1 && (forall y | y in added :: y.phase.Connecting?)
    ensures Agrees(s[i := x] + added, line')
  {
    var s' := s[i := x] + added;
    forall k | 0 <= k < |s'|
      ensures (IsUp(s'[k]) <==> line' == Up(k)) && (s'[k].phase.Started? ==> s'[k].conn.closes == 0)
    {
      if k < |s| {
        assert s'[k] == if k == i then x else s[k];
      } else {
        assert s'[k] in added;
      }
    }
  }

  lemma StepMoves(w: World, e: Event, line': Line)
    requires LineInv(w) && Enabled(w, e) && LineOf(Happen(w, e).log) == line'
    requires var x := StepOf(w.sessions[e.i], e); var line := LineOf(w.log);
             && (x.phase.Started? ==> x.conn.closes == 0)
             && line' == (if IsUp(x) then Up(e.i) else if line == Up(e.i) then Down else line)
             && (IsUp(x) ==> line == Down || line == Up(e.i))
    ensures LineInv(Happen(w, e))
  {
    StepSessions(w, e);
    Moves(w.sessions, LineOf(w.log), e.i, StepOf(w.sessions[e.i], e), Added(w, e), line');
  }

  lemma StepLine(w: World, e: Event)
    requires Enabled(w, e)
    ensures LineOf(Happen(w, e).log) == if Noticed(w, e) == [] then LineOf(w.log)
                                        else LineOf(w.log + [Noticed(w, e)[0]])
  {
    StepLog(w, e);
    OneNotice(w.log, Noticed(w, e));
  }

  lemma OneNotice(log: seq<Notice>, n: seq<Notice>)
    requires |n| <= 1
    ensures log + n == if n == [] then log else log + [n[0]]
  {
  }

  /** Steps without an onConnect or onClose leave the line where it was. */
  lemma LineStays(w: World, e: Event)
    requires TurnInv(w) && Enabled(w, e)
    requires e.ConnectFails? || e.Connects? || (e.Connection? && !Closes(w, e.i, e.event))
    ensures LineInv(Happen(w, e)) && LineOf(Happen(w, e).log) == LineOf(w.log)
  {
    StepLine(w, e);
    LineOfAppend(w.log, OnConnectFailed(e.i));
    SessionStepInv(w, e);
    assert IsUp(w.sessions[e.i]) <==> LineOf(w.log) == Up(e.i);
    StepMoves(w, e, LineOf(w.log));
  }

  lemma LineComesUp(w: World, e: Event)
    requires TurnInv(w) && Enabled(w, e) && e.Reports?
    ensures LineOf(w.log) == Down && LineOf(Happen(w, e).log) == Up(e.i) && LineInv(Happen(w, e))
  {
    if LineOf(w.log).Up? {
      OnlyOne(w, e.i, LineOf(w.log).index);
    }
    StepLine(w, e);
    LineOfAppend(w.log, OnConnect(e.i));
    StepMoves(w, e, Up(e.i));
  }

  lemma LineGoesDown(w: World, e: Event)
    requires TurnInv(w) && Enabled(w, e) && e.Connection? && Closes(w, e.i, e.event) && Orderly(w, e)
    ensures LineOf(w.log) == Up(e.i) && LineOf(Happen(w, e).log) == Down && LineInv(Happen(w, e))
  {
    SessionStepInv(w, e);
    assert IsUp(w.sessions[e.i]);
    StepLine(w, e);
    LineOfAppend(w.log, OnClose(e.i));
    StepMoves(w, e, Down);
  }

  lemma LineBreaks(w: World, e: Event)
    requires TurnInv(w) && Enabled(w, e) && !Orderly(w, e)
    ensures LineOf(w.log) == Down && LineOf(Happen(w, e).log) == Broken
  {
    SessionStepInv(w, e);
    assert w.sessions[e.i].phase.Started?;
    if LineOf(w.log).Up? {
      OnlyOne(w, e.i, LineOf(w.log).index);
    }
    StepLine(w, e);
    LineOfAppend(w.log, OnClose(e.i));
  }

  lemma TurnStep(w: World, e: Event)
    requires TurnInv(w) && Enabled(w, e) && Orderly(w, e)
    ensures TurnInv(Happen(w, e))
  {
    HappenInv(w, e);
    LoadStep(w, e);
    if e.Reports? {
      LineComesUp(w, e);
    } else if e.Connection? && Closes(w, e.i, e.event) {
      LineGoesDown(w, e);
    } else {
      LineStays(w, e);
    }
  }

  predicate SameUsers(w: World, w': World) {
    w'.mUser == w.mUser && w'.live == w.live && w'.freed == w.freed && w'.nextUser == w.nextUser
  }

  /** The ConnectorUsers a step creates and deletes. */
  lemma StepUsers(w: World, e: Event)
    requires Enabled(w, e)
    ensures SameUsers(if e.Reports? then HandleConnect(w, e.i)
                      else if e.Connection? && Closes(w, e.i, e.event) then DeleteUser(w) else w, Happen(w, e))
  {
  }

  lemma {:induction false} TurnsFrom(w: World, es: seq<Event>)
    requires TurnInv(w) && IsHistory(w, es)
    ensures TakesTurns(Later(w, es).log) <==> OrderlyHistory(w, es)
    ensures OrderlyHistory(w, es) ==> TurnInv(Later(w, es))
    decreases |es|
  {
    if es != [] {
      if Orderly(w, es[0]) {
        TurnStep(w, es[0]);
        TurnsFrom(Happen(w, es[0]), es[1..]);
      } else {
        LineBreaks(w, es[0]);
        BrokenStays(Happen(w, es[0]), es[1..]);
      }
    }
  }

  lemma BegunTurns(setup: Setup)
    ensures TurnInv(Begun(setup, 1))
  {
    BegunInv(setup, 1);
  }

  /** From one tryConnect(1): onConnect and onClose strictly alternate, each onClose for the connection connected last,
      exactly in the histories where no connection closes before connect_handler has called its onConnect. */
  lemma WhenCallbacksTakeTurns(setup: Setup, es: seq<Event>)
    requires IsHistory(Begun(setup, 1), es)
    ensures TakesTurns(Later(Begun(setup, 1), es).log) <==> OrderlyHistory(Begun(setup, 1), es)
  {
    BegunTurns(setup);
    TurnsFrom(Begun(setup, 1), es);
  }

  // ---- m_user ----

  /** What the callbacks so far have made of m_user: null, a ConnectorUser, or one that was deleted. */
  datatype Pointer = Null | Fresh | Stale

  function PointerOf(log: seq<Notice>): Pointer {
    if log == [] then Null
    else
      var before := PointerOf(log[..|log| - 1]);
      match log[|log| - 1]
      case OnConnect(_) => Fresh
      case OnClose(_) => if before == Fresh then Stale else before
      case OnConnectFailed(_) => before
  }

  predicate CloseIsSafe(log: seq<Notice>, n: Notice) {
    n.OnClose? ==> PointerOf(log) != Stale
  }

  predicate ConnectIsSafe(log: seq<Notice>, n: Notice) {
    n.OnConnect? ==> PointerOf(log) != Fresh
  }

  /** No onClose comes while m_user is stale. */
  predicate ClosesAreSafe(log: seq<Notice>) {
    forall k | 0 <= k < |log| :: CloseIsSafe(log[..k], log[k])
  }

  /** No onConnect comes while m_user is fresh. */
  predicate ConnectsAreSafe(log: seq<Notice>) {
    forall k | 0 <= k < |log| :: ConnectIsSafe(log[..k], log[k])
  }

  predicate NoRepeats(s: seq<UserId>) {
    forall i, j | 0 <= i < j < |s| :: s[i] != s[j]
  }

  /** No ConnectorUser is alive that nothing points to. */
  predicate NothingLeaks(w: World) {
    forall user | user in w.live :: w.mUser == Some(user)
  }

  ghost predicate PointerInv(w: World) {
    && (forall user | user in w.freed :: user < w.nextUser && user !in w.live)
    && (forall user | user in w.live :: user < w.nextUser)
    && match PointerOf(w.log)
       case Null => w.mUser == None && w.freed == [] && w.live == {}
       case Fresh => w.mUser.Some? && w.mUser.value in w.live
       case Stale => w.mUser.Some? && w.mUser.value in w.freed
  }

  ghost predicate UserInv(w: World) {
    && PointerInv(w)
    && (NoRepeats(w.freed) <==> ClosesAreSafe(w.log))
    && (NothingLeaks(w) <==> ConnectsAreSafe(w.log))
  }

  lemma LogAppend(log: seq<Notice>, n: Notice)
    ensures PointerOf(log + [n]) == match n
                                    case OnConnect(_) => Fresh
                                    case OnClose(_) => if PointerOf(log) == Fresh then Stale else PointerOf(log)
                                    case OnConnectFailed(_) => PointerOf(log)
    ensures ClosesAreSafe(log + [n]) <==> ClosesAreSafe(log) && CloseIsSafe(log, n)
    ensures ConnectsAreSafe(log + [n]) <==> ConnectsAreSafe(log) && ConnectIsSafe(log, n)
  {
    var log' := log + [n];
    assert log'[..|log|] == log && log'[|log|] == n;
    forall k | 0 <= k < |log| ensures log'[..k] == log[..k] && log'[k] == log[k] {
    }
  }

  lemma ConnectKeepsUsers(w: World, w': World, i: nat)
    requires UserInv(w) && SameUsers(HandleConnect(w, i), w') && w'.log == w.log + [OnConnect(i)]
    ensures UserInv(w')
  {
    LogAppend(w.log, OnConnect(i));
    assert w.nextUser in w'.live;
    if PointerOf(w.log) == Fresh {
      assert w.mUser.value in w'.live;
    } else if NothingLeaks(w) {
      assert w.live == {};
    } else {
      var lost :| lost in w.live && w.mUser != Some(lost);
      assert lost in w'.live;
    }
  }

  lemma CloseKeepsUsers(w: World, w': World, i: nat)
    requires UserInv(w) && SameUsers(DeleteUser(w), w') && w'.log == w.log + [OnClose(i)]
    ensures UserInv(w')
  {
    LogAppend(w.log, OnClose(i));
    if !NothingLeaks(w) {
      var lost :| lost in w.live && w.mUser != Some(lost);
      assert lost in w'.live;
    }
    if w.mUser.Some? {
      OneMoreFreed(w.freed, w.mUser.value);
    }
  }

  lemma OneMoreFreed(freed: seq<UserId>, user: UserId)
    ensures NoRepeats(freed + [user]) <==> NoRepeats(freed) && user !in freed
  {
    var freed' := freed + [user];
    if NoRepeats(freed') {
      assert forall i | 0 <= i < |freed| :: freed'[i] == freed[i] && freed'[i] != freed'[|freed|];
      assert forall i, j | 0 <= i < j < |freed| :: freed'[i] != freed'[j];
    }
  }

  lemma UserStep(w: World, e: Event)
    requires UserInv(w) && Enabled(w, e)
    ensures UserInv(Happen(w, e))
  {
    StepUsers(w, e);
    StepLog(w, e);
    if e.Reports? {
      ConnectKeepsUsers(w, Happen(w, e), e.i);
    } else if e.Connection? && Closes(w, e.i, e.event) {
      CloseKeepsUsers(w, Happen(w, e), e.i);
    } else if e.ConnectFails? {
      LogAppend(w.log, OnConnectFailed(e.i));
    }
  }

  lemma {:induction false} UsersFrom(w: World, es: seq<Event>)
    requires UserInv(w) && IsHistory(w, es)
    ensures UserInv(Later(w, es))
    decreases |es|
  {
    if es != [] {
      UserStep(w, es[0]);
      UsersFrom(Happen(w, es[0]), es[1..]);
    }
  }

  /** However many sessions were asked for, in every history: a ConnectorUser is deleted twice exactly if some onClose
      came while m_user pointed to a deleted one, and one is leaked exactly if some onConnect came while m_user pointed
      to a live one. A deleted one is never live. */
  lemma WhenUsersAreFreedOnce(setup: Setup, n: nat, es: seq<Event>)
    requires 0 < n && IsHistory(Begun(setup, n), es)
    ensures var w := Later(Begun(setup, n), es);
            && (NoRepeats(w.freed) <==> ClosesAreSafe(w.log))
            && (NothingLeaks(w) <==> ConnectsAreSafe(w.log))
            && (forall user | user in w.freed :: user !in w.live)
  {
    UsersFrom(Begun(setup, n), es);
  }

  /** A log that takes turns is safe, and the line is up exactly while m_user is fresh. */
  lemma {:induction false} TurnsAreSafe(log: seq<Notice>)
    requires TakesTurns(log)
    ensures ClosesAreSafe(log) && ConnectsAreSafe(log)
    ensures PointerOf(log) == Fresh <==> LineOf(log).Up?
  {
    if log != [] {
      var n := |log| - 1;
      assert log == log[..n] + [log[n]];
      LogAppend(log[..n], log[n]);
      TurnsAreSafe(log[..n]);
    }
  }

  /** From one tryConnect(1), where no connection closes before its onConnect: no ConnectorUser is deleted twice or
      leaked, and one is live exactly while the line is up, and it is m_user. */
  lemma UsersAreFreedOnce(setup: Setup, es: seq<Event>, user: UserId)
    requires IsHistory(Begun(setup, 1), es) && OrderlyHistory(Begun(setup, 1), es)
    ensures var w := Later(Begun(setup, 1), es);
            && NoRepeats(w.freed)
            && (user in w.live <==> LineOf(w.log).Up? && w.mUser == Some(user))
  {
    var w := Later(Begun(setup, 1), es);
    ReachedInOrder(setup, es, w);
    SafeUsers(w, user);
  }

  lemma SafeUsers(w: World, user: UserId)
    requires UserInv(w) && TakesTurns(w.log)
    ensures NoRepeats(w.freed) && (user in w.live <==> LineOf(w.log).Up? && w.mUser == Some(user))
  {
    TurnsAreSafe(w.log);
  }

  /** A world reached from one tryConnect(1) in order. */
  ghost predicate ReachesInOrder(setup: Setup, es: seq<Event>, w: World) {
    IsHistory(Begun(setup, 1), es) && OrderlyHistory(Begun(setup, 1), es) && w == Later(Begun(setup, 1), es)
  }

  lemma ReachedInOrder(setup: Setup, es: seq<Event>, w: World)
    requires ReachesInOrder(setup, es, w)
    ensures TurnInv(w) && UserInv(w)
  {
    BegunTurns(setup);
    TurnsFrom(Begun(setup, 1), es);
    UsersFrom(Begun(setup, 1), es);
  }

  /** The first onClose that comes too early deletes a ConnectorUser again exactly if some onClose came before it. */
  lemma EarlyClose(setup: Setup, es: seq<Event>, w: World, e: Event)
    requires ReachesInOrder(setup, es, w) && Enabled(w, e) && !Orderly(w, e)
    ensures (exists user :: user in w.freed && Happen(w, e).freed == w.freed + [user]) <==> w.freed != []
  {
    ReachedInOrder(setup, es, w);
    LineBreaks(w, e);
    TurnsAreSafe(w.log);
    DeletesAgain(w, e);
  }

  lemma DeletesAgain(w: World, e: Event)
    requires PointerInv(w) && PointerOf(w.log) != Fresh && Enabled(w, e) && !Orderly(w, e)
    ensures (exists user :: user in w.freed && Happen(w, e).freed == w.freed + [user]) <==> w.freed != []
  {
    StepUsers(w, e);
    assert w.freed != [] ==> DeleteUser(w).freed == w.freed + [w.mUser.value];
  }

  /** The four steps by which a connection that has just been started closes when its peer is gone. */
  function EndOfFile(i: nat): seq<Event> {
    [Connection(i, LC.ReadCompletes(LC.Eof, []), false)]
    + ([Connection(i, LC.RunsTask(true), false)]
       + ([Connection(i, LC.CloseArrives, false)]
          + ([Connection(i, LC.RunsTask(true), false)] + [])))
  }

  lemma PeerLeaves(w: World, i: nat)
    requires i < |w.sessions| && w.sessions[i].conn == LC.Start(LC.Created(w.setup.parser, false))
    requires w.setup.reconnects && !w.setup.keepAlive
    ensures IsHistory(w, EndOfFile(i))
    ensures var w' := Later(w, EndOfFile(i));
            && SameUsers(DeleteUser(w), w') && w'.setup == w.setup && |w'.sessions| == |w.sessions| + 1
            && w'.sessions[|w.sessions|] == NewSession(w.setup, 1, |w.sessions|)
  {
    var e1 := Connection(i, LC.ReadCompletes(LC.Eof, []), false);
    var e2 := Connection(i, LC.RunsTask(true), false);
    var e3 := Connection(i, LC.CloseArrives, false);
    var w1 := Happen(w, e1);
    assert w1.sessions[i].conn.strand == [LC.ReadHandler(LC.Eof, [])];
    var w2 := Happen(w1, e2);
    ClosePosted(w2, i);
    First(w1, e2, [e3] + ([e2] + []));
    First(w, e1, [e2] + ([e3] + ([e2] + [])));
  }

  /** A posted close on an empty strand, with its shutdown succeeding. */
  lemma ClosePosted(w: World, i: nat)
    requires i < |w.sessions| && w.setup.reconnects
    requires w.sessions[i].conn.posted == 1 && w.sessions[i].conn.strand == [] && w.sessions[i].conn.closes == 0
    ensures var es := [Connection(i, LC.CloseArrives, false)] + ([Connection(i, LC.RunsTask(true), false)] + []);
            IsHistory(w, es) && var w' := Later(w, es);
            && SameUsers(DeleteUser(w), w') && w'.setup == w.setup && |w'.sessions| == |w.sessions| + 1
            && w'.sessions[|w.sessions|] == NewSession(w.setup, 1, |w.sessions|)
  {
    var e2 := Connection(i, LC.RunsTask(true), false);
    var e3 := Connection(i, LC.CloseArrives, false);
    var w3 := Happen(w, e3);
    assert w3.sessions[i].conn.strand == [LC.CloseHandler] && Closes(w3, i, LC.RunsTask(true));
    First(w3, e2, []);
    First(w, e3, [e2] + []);
  }

  /** A second connection whose peer leaves before onConnect has been called: the ConnectorUser of the first is deleted
      twice. */
  lemma DeletedTwice(setup: Setup)
    requires setup.reconnects && !setup.keepAlive
    ensures var es := [Connects(0)] + ([Reports(0, false)] + (EndOfFile(0) + ([Connects(1)] + EndOfFile(1))));
            IsHistory(Begun(setup, 1), es) && Later(Begun(setup, 1), es).freed == [0, 0]
  {
    var w0 := Begun(setup, 1);
    var w1 := Happen(w0, Connects(0));
    var w2 := Happen(w1, Reports(0, false));
    PeerLeaves(w2, 0);
    PeerLeavesAtOnce(Later(w2, EndOfFile(0)), 1);
    Joined(w2, EndOfFile(0), [Connects(1)] + EndOfFile(1));
    First(w1, Reports(0, false), EndOfFile(0) + ([Connects(1)] + EndOfFile(1)));
    First(w0, Connects(0), [Reports(0, false)] + (EndOfFile(0) + ([Connects(1)] + EndOfFile(1))));
  }

  lemma PeerLeavesAtOnce(w: World, i: nat)
    requires w.setup.reconnects && !w.setup.keepAlive && i < |w.sessions|
    requires w.sessions[i] == NewSession(w.setup, 1, i)
    ensures IsHistory(w, [Connects(i)] + EndOfFile(i))
    ensures Later(w, [Connects(i)] + EndOfFile(i)).freed == DeleteUser(w).freed
  {
    PeerLeaves(Happen(w, Connects(i)), i);
    First(w, Connects(i), EndOfFile(i));
  }
}
