/** NetServiceConnector's handlers and BrokerConnector's callbacks as they update their state: each against its function
    in BrokerLink, and with what it means for the link and for m_user. */
module Broker {
  import opened Buffers
  import opened BrokerLink
  import opened BrokerUsers
  import LC = Lifecycle

  class BrokerConnector {
    const setup: Setup
    var sessions: seq<Session>
    var mUser: Option<UserId>
    var live: set<UserId>
    var freed: seq<UserId>
    var nextUser: UserId
    var log: seq<Notice>

    function View(): World
      reads this
    {
      World(setup, sessions, mUser, live, freed, nextUser, log)
    }

    constructor (setup: Setup)
      ensures this.setup == setup && View() == Nothing(setup)
      ensures Inv(View()) && UserInv(View()) && Load(View()) == 0
    {
      this.setup := setup;
      sessions, mUser, live, freed, nextUser, log := [], None, {}, [], 0, [];
    }

    /** connectImplement, and connect_handler's part that goes on with the chain: unless it throws, the link owes as many
        sessions more. */
    method StartConnecting(sessionCnt: nat, chain: nat, throws: bool) returns (ok: bool)
      requires 0 < sessionCnt
      modifies this`sessions
      ensures ok == !throws && View() == ConnectImplement(old(View()), sessionCnt, chain, throws)
      ensures Load(View()) == old(Load(View())) + (if ok then sessionCnt else 0)
      ensures old(Inv(View())) ==> Inv(View())
    {
      ConnectMeans(View(), sessionCnt, chain, throws);
      if throws {
        return false;
      }
      sessions := sessions + [NewSession(setup, sessionCnt, chain)];
      return true;
    }

    /** tryConnect of a reconnecting receiver. */
    method Reconnect(throws: bool)
      modifies this`sessions
      ensures View() == TryConnect(old(View()), throws)
      ensures Load(View()) == old(Load(View())) + (if setup.reconnects && !throws then 1 else 0)
    {
      if setup.reconnects {
        var _ := StartConnecting(1, |sessions|, throws);
      }
    }

    /** m_user is a ConnectorUser that has never been there before; one is left behind exactly if m_user was fresh. */
    method OnConnectCallback(i: nat)
      modifies this
      ensures View() == HandleConnect(old(View()), i)
      ensures old(UserInv(View())) ==>
                && UserInv(View()) && mUser.Some? && mUser.value in live && mUser.value !in old(live) + Freed()
                && (NothingLeaks(View()) <==> NothingLeaks(old(View())) && PointerOf(old(log)) != Fresh)
    {
      ghost var before := View();
      mUser := Some(nextUser);
      live := live + {nextUser};
      nextUser := nextUser + 1;
      log := log + [OnConnect(i)];
      if UserInv(before) {
        ConnectKeepsUsers(before, View(), i);
        LogAppend(before.log, OnConnect(i));
      }
    }

    ghost function Freed(): set<UserId>
      reads this
    {
      set user | user in freed
    }

    /** Afterwards no ConnectorUser m_user points to is live; one is deleted twice exactly if m_user was stale. */
    method OnCloseCallback(i: nat, throws: bool)
      modifies this
      ensures View() == HandleClose(old(View()), i, throws)
      ensures Load(View()) == old(Load(View())) + (if setup.reconnects && !throws then 1 else 0)
      ensures old(UserInv(View())) ==>
                && UserInv(View()) && (mUser.Some? ==> mUser.value in freed && mUser.value !in live)
                && (NoRepeats(freed) <==> NoRepeats(old(freed)) && PointerOf(old(log)) != Stale)
    {
      ghost var before := View();
      DropUser();
      log := log + [OnClose(i)];
      CloseMeans(before, View(), i);
      Reconnect(throws);
    }

    /** delete m_user */
    method DropUser()
      modifies this`live, this`freed
      ensures View() == DeleteUser(old(View()))
    {
      if mUser.Some? {
        live := live - {mUser.value};
        freed := freed + [mUser.value];
      }
    }

    method OnConnectFailedCallback(i: nat, throws: bool)
      modifies this
      ensures View() == HandleConnectFailed(old(View()), i, throws)
    {
      log := log + [OnConnectFailed(i)];
      Reconnect(throws);
    }

    /** connect_handler with an error, or with its socket closed meanwhile. */
    method ConnectHandlerFailed(i: nat, throws: bool) returns (ok: bool)
      requires Enabled(View(), ConnectFails(i, throws))
      modifies this
      ensures !ok && View() == Happen(old(View()), ConnectFails(i, throws))
    {
      sessions := sessions[i := sessions[i].(phase := Failed)];
      OnConnectFailedCallback(i, throws);
      return false;
    }

    /** connect_handler up to onConnect. */
    method ConnectHandlerStarts(i: nat)
      requires Enabled(View(), Connects(i))
      modifies this
      ensures View() == Happen(old(View()), Connects(i))
    {
      var session := sessions[i];
      sessions := sessions[i := session.(conn := LC.Start(session.conn), phase := Started(session.phase.remain))];
    }

    /** connect_handler from onConnect on. */
    method ConnectHandlerReports(i: nat, throws: bool) returns (ok: bool)
      requires Enabled(View(), Reports(i, throws))
      modifies this
      ensures ok == !throws && View() == Happen(old(View()), Reports(i, throws))
    {
      var remainCnt := sessions[i].phase.remain;
      sessions := sessions[i := sessions[i].(phase := Reported)];
      OnConnectCallback(i);
      if 0 < remainCnt {
        ok := StartConnecting(remainCnt, sessions[i].chain, throws);
      } else {
        ok := true;
      }
    }

    /** A step of a connection, and the onClose it may call. */
    method ConnectionStep(i: nat, event: LC.Event, throws: bool)
      requires Enabled(View(), Connection(i, event, throws))
      modifies this
      ensures View() == Happen(old(View()), Connection(i, event, throws))
    {
      var before := sessions[i].conn;
      var after := LC.Advance(before, event);
      sessions := sessions[i := sessions[i].(conn := after)];
      if after.closes > before.closes {
        OnCloseCallback(i, throws);
      }
    }

    /** One event of a history: the link never grows beyond what it was, and a link of one stays one unless a reconnect
        throws; m_user's account is kept. */
    method React(e: Event)
      requires Enabled(View(), e)
      modifies this
      ensures View() == Happen(old(View()), e)
      ensures old(Inv(View())) ==>
                && Inv(View()) && Load(View()) <= old(Load(View()))
                && (setup.reconnects && old(Load(View())) == 1 ==> Load(View()) == if Throws(e) then 0 else 1)
      ensures old(UserInv(View())) ==> UserInv(View())
    {
      StepMeans(View(), e);
      match e
      case ConnectFails(i, throws) =>
        var _ := ConnectHandlerFailed(i, throws);
      case Connects(i) =>
        ConnectHandlerStarts(i);
      case Reports(i, throws) =>
        var _ := ConnectHandlerReports(i, throws);
      case Connection(i, event, throws) =>
        ConnectionStep(i, event, throws);
    }
  }

  lemma ConnectMeans(w: World, sessionCnt: nat, chain: nat, throws: bool)
    requires 0 < sessionCnt
    ensures var w' := ConnectImplement(w, sessionCnt, chain, throws);
            Load(w') == Load(w) + (if throws then 0 else sessionCnt) && (Inv(w) ==> Inv(w'))
  {
    TotalAppend(Weight, w.sessions, NewSession(w.setup, sessionCnt, chain));
    NewSessionInv(w.setup, sessionCnt, chain);
  }

  lemma CloseMeans(w: World, w': World, i: nat)
    requires SameUsers(DeleteUser(w), w') && w'.log == w.log + [OnClose(i)]
    ensures UserInv(w) ==>
              && UserInv(w') && (w'.mUser.Some? ==> w'.mUser.value in w'.freed && w'.mUser.value !in w'.live)
              && (NoRepeats(w'.freed) <==> NoRepeats(w.freed) && PointerOf(w.log) != Stale)
  {
    if UserInv(w) {
      CloseKeepsUsers(w, w', i);
      LogAppend(w.log, OnClose(i));
    }
  }

  lemma StepMeans(w: World, e: Event)
    requires Enabled(w, e)
    ensures Inv(w) ==>
              && Inv(Happen(w, e)) && Load(Happen(w, e)) <= Load(w)
              && (w.setup.reconnects && Load(w) == 1 ==> Load(Happen(w, e)) == if Throws(e) then 0 else 1)
    ensures UserInv(w) ==> UserInv(Happen(w, e))
  {
    if Inv(w) {
      HappenInv(w, e);
      LoadStep(w, e);
    }
    if UserInv(w) {
      UserStep(w, e);
    }
  }

  /** connectWait(n) and whatever follows, one handler after the other: never more than n connects in flight and
      sessions not yet reported closed, ConnectorUsers deleted once exactly if no onClose met a stale m_user, and none
      leaked exactly if no onConnect met a fresh one. */
  method ConnectWait(setup: Setup, n: nat, es: seq<Event>) returns (b: BrokerConnector)
    requires 0 < n && IsHistory(Begun(setup, n), es)
    ensures fresh(b) && b.View() == Later(Begun(setup, n), es)
    ensures Load(b.View()) <= n
    ensures NoRepeats(b.freed) <==> ClosesAreSafe(b.log)
    ensures NothingLeaks(b.View()) <==> ConnectsAreSafe(b.log)
  {
    b := new BrokerConnector(setup);
    var _ := b.StartConnecting(n, 0, false);
    for i := 0 to |es|
      invariant fresh(b)
      invariant IsHistory(b.View(), es[i..]) && Later(b.View(), es[i..]) == Later(Begun(setup, n), es)
      invariant Inv(b.View()) && UserInv(b.View()) && Load(b.View()) <= n
    {
      assert es[i..][0] == es[i] && es[i..][1..] == es[i + 1..];
      b.React(es[i]);
    }
  }
}
