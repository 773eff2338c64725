/** Whether the broker link can still get anywhere by itself, over all histories. */
module LinkLife {
  import opened BrokerLink
  import LC = Lifecycle
  import C = Closing

  /** The connection can still get anywhere by itself: it is being connected, open with a reader, or closing with its
      close on its way. */
  predicate Lives(s: Session) {
    match s.phase
    case Connecting(_) => true
    case Failed => false
    case _ =>
      || (s.conn.status == LC.Open && C.Readers(s.conn) == 1)
      || (s.conn.status == LC.Status.Closing && C.Posted(s.conn) == 1)
  }

  ghost predicate LinkLives(w: World) {
    exists i :: 0 <= i < |w.sessions| && Lives(w.sessions[i])
  }

  /** The two ends a link does not come back from: an exception in a reconnect, a posted close whose shutdown fails. */
  predicate Fails(w: World, e: Event)
    requires Enabled(w, e)
  {
    Throws(e) || (e.Connection? && C.CloseFails(w.sessions[e.i].conn, e.event))
  }

  predicate NothingFails(w: World, es: seq<Event>)
    requires IsHistory(w, es)
    decreases |es|
  {
    es == [] || (!Fails(w, es[0]) && NothingFails(Happen(w, es[0]), es[1..]))
  }

  predicate GoesDeaf(w: World, e: Event)
    requires Enabled(w, e)
  {
    e.Connection? && C.LosesReader(w.sessions[e.i].conn, e.event)
  }

  /** The sessions whose last read error met a failing shutdown. */
  function DeafOnes(w: World, es: seq<Event>): set<nat>
    requires IsHistory(w, es)
    decreases |es|
  {
    if es == [] then {}
    else (if GoesDeaf(w, es[0]) then {es[0].i} else {}) + DeafOnes(Happen(w, es[0]), es[1..])
  }

  predicate NoneOpen(w: World, ids: set<nat>) {
    forall i | i in ids && i < |w.sessions| :: w.sessions[i].conn.status != LC.Open
  }

  /** No chain, a close on its way if closing, and a reader if open, but for the deaf. */
  ghost predicate Minded(s: Session, deaf: bool) {
    && (s.phase.Connecting? || s.phase.Started? ==> s.phase.remain == 0)
    && (s.conn.status == LC.Open ==> C.Readers(s.conn) == if deaf then 0 else 1)
    && C.OnItsWay(s.conn)
    && (deaf ==> s.conn.started)
  }

  ghost predicate AllMinded(s: seq<Session>, deaf: set<nat>) {
    && (forall i | 0 <= i < |s| :: Minded(s[i], i in deaf))
    && (forall i | i in deaf :: i < |s|)
  }

  lemma MindedStep(w: World, e: Event, deaf: bool)
    requires Enabled(w, e) && SessionInv(w.sessions[e.i]) && Minded(w.sessions[e.i], deaf) && !Fails(w, e)
    ensures Minded(StepOf(w.sessions[e.i], e), deaf || GoesDeaf(w, e))
  {
    var c := w.sessions[e.i].conn;
    if e.Connection? {
      LC.StepFacts(c, e.event);
      C.OnItsWayStep(c, e.event);
      if GoesDeaf(w, e) {
        LC.ReadErrorLeavesNoReader(c, false);
      } else if !deaf {
        C.AttendedStep(c, e.event);
      } else {
        DeafStep(c, e.event);
      }
    }
  }

  lemma DeafStep(c: LC.Conn, e: LC.Event)
    requires LC.Inv(c) && LC.Enabled(c, e) && !e.Starts? && c.started && (c.status == LC.Open ==> C.Readers(c) == 0)
    ensures LC.Advance(c, e).status == LC.Open ==> C.Readers(LC.Advance(c, e)) == 0
  {
    LC.StageNeverFallsInStep(c, e);
    if c.status == LC.Open {
      LC.NoReadStarts(c, e);
    }
  }

  lemma MindedSessions(s: seq<Session>, i: nat, x: Session, added: seq<Session>, deaf: set<nat>, now: bool)
    requires AllMinded(s, deaf) && i < |s| && Minded(x, i in deaf || now)
    requires |added| <= 1 && (added != [] ==> Minded(added[0], false))
    ensures AllMinded(s[i := x] + added, deaf + (if now then {i} else {}))
  {
    var s', deaf' := s[i := x] + added, deaf + (if now then {i} else {});
    forall k | 0 <= k < |s'| ensures Minded(s'[k], k in deaf') {
      if k < |s| && k != i {
        assert Minded(s[k], k in deaf);
      }
    }
  }

  lemma AllMindedStep(w: World, e: Event, deaf: set<nat>)
    requires Inv(w) && Enabled(w, e) && AllMinded(w.sessions, deaf) && !Fails(w, e)
    ensures AllMinded(Happen(w, e).sessions, deaf + (if GoesDeaf(w, e) then {e.i} else {}))
  {
    StepSessions(w, e);
    MindedStep(w, e, e.i in deaf);
    MindedSessions(w.sessions, e.i, StepOf(w.sessions[e.i], e), Added(w, e), deaf, GoesDeaf(w, e));
  }

  /** Only a session that weighs something lives. */
  lemma LiveWeighs(s: Session)
    requires SessionInv(s)
    ensures Lives(s) || s.conn.status == LC.Open || s.conn.status == LC.Status.Closing ==> Weight(s) > 0
  {
  }

  /** Without a chain what weighs something is connecting, open or closing, and lives unless it is open and deaf. */
  lemma WeightLives(s: Session, deaf: bool)
    requires SessionInv(s) && Minded(s, deaf) && Weight(s) > 0
    ensures Lives(s) <==> !(deaf && s.conn.status == LC.Open)
  {
    if !s.phase.Connecting? {
      assert s.conn.closes == 0;
    }
  }

  lemma {:induction false} Heaviest(s: seq<Session>)
    requires Total(Weight, s) > 0
    ensures exists i :: 0 <= i < |s| && Weight(s[i]) > 0
  {
    var n := |s| - 1;
    if Weight(s[n]) == 0 {
      Heaviest(s[..n]);
      var i :| 0 <= i < n && Weight(s[..n][i]) > 0;
      assert Weight(s[i]) > 0;
    }
  }

  lemma LivesNow(w: World, deaf: set<nat>)
    requires Inv(w) && Load(w) == 1 && AllMinded(w.sessions, deaf)
    ensures LinkLives(w) <==> NoneOpen(w, deaf)
  {
    Heaviest(w.sessions);
    var i :| 0 <= i < |w.sessions| && Weight(w.sessions[i]) > 0;
    TotalCovers(Weight, w.sessions, i);
    WeightLives(w.sessions[i], i in deaf);
    OthersAreOver(w, i);
  }

  /** Beside the session that weighs something none lives or is open. */
  lemma OthersAreOver(w: World, i: nat)
    requires Inv(w) && Load(w) <= 1 && i < |w.sessions| && Weight(w.sessions[i]) > 0
    ensures forall j | 0 <= j < |w.sessions| && j != i :: !Lives(w.sessions[j]) && w.sessions[j].conn.status != LC.Open
  {
    forall j | 0 <= j < |w.sessions| && j != i
      ensures !Lives(w.sessions[j]) && w.sessions[j].conn.status != LC.Open
    {
      LiveWeighs(w.sessions[j]);
      if Weight(w.sessions[j]) > 0 {
        OnlyOne(w, i, j);
      }
    }
  }

  ghost predicate IsStuck(s: Session) {
    s.conn.status == LC.Status.Closing && C.Posted(s.conn) == 0
  }

  lemma StuckStays(w: World, e: Event, i: nat)
    requires Inv(w) && Enabled(w, e) && i < |w.sessions| && IsStuck(w.sessions[i])
    ensures i < |Happen(w, e).sessions| && IsStuck(Happen(w, e).sessions[i])
  {
    StepSessions(w, e);
    assert SessionInv(w.sessions[i]);
    if e.i == i && e.Connection? {
      LC.StuckStep(w.sessions[i].conn, e.event);
    }
  }

  lemma {:induction false} StuckForGood(w: World, es: seq<Event>, i: nat)
    requires Inv(w) && Load(w) <= 1 && i < |w.sessions| && IsStuck(w.sessions[i]) && IsHistory(w, es)
    ensures !LinkLives(Later(w, es))
    decreases |es|
  {
    if es != [] {
      HappenInv(w, es[0]);
      LoadStep(w, es[0]);
      StuckStays(w, es[0], i);
      StuckForGood(Happen(w, es[0]), es[1..], i);
    } else {
      LiveWeighs(w.sessions[i]);
      OthersAreOver(w, i);
      assert SessionInv(w.sessions[i]);
    }
  }

  lemma NothingLives(w: World)
    requires Inv(w) && Load(w) == 0
    ensures !LinkLives(w)
  {
    forall i | 0 <= i < |w.sessions| ensures !Lives(w.sessions[i]) {
      LiveWeighs(w.sessions[i]);
      TotalCovers(Weight, w.sessions, i);
    }
  }

  lemma FailureIsFinal(w: World, e: Event, es: seq<Event>)
    requires Inv(w) && w.setup.reconnects && Load(w) == 1 && Enabled(w, e) && Fails(w, e)
    requires IsHistory(Happen(w, e), es)
    ensures !LinkLives(Later(Happen(w, e), es))
  {
    HappenInv(w, e);
    LoadStep(w, e);
    if Throws(e) {
      LoadNeverGrows(Happen(w, e), es);
      NothingLives(Later(Happen(w, e), es));
    } else {
      StepSessions(w, e);
      assert SessionInv(w.sessions[e.i]);
      C.FailedCloseIsLast(w.sessions[e.i].conn);
      StuckForGood(Happen(w, e), es, e.i);
    }
  }

  lemma {:induction false} LivesFrom(w: World, es: seq<Event>, deaf: set<nat>)
    requires Inv(w) && w.setup.reconnects && Load(w) == 1 && AllMinded(w.sessions, deaf) && IsHistory(w, es)
    ensures LinkLives(Later(w, es)) <==> NothingFails(w, es) && NoneOpen(Later(w, es), deaf + DeafOnes(w, es))
    decreases |es|
  {
    if es == [] {
      assert deaf + DeafOnes(w, es) == deaf;
      LivesNow(w, deaf);
    } else if Fails(w, es[0]) {
      FailureIsFinal(w, es[0], es[1..]);
    } else {
      HappenInv(w, es[0]);
      LoadStep(w, es[0]);
      StepSessions(w, es[0]);
      AllMindedStep(w, es[0], deaf);
      var now := if GoesDeaf(w, es[0]) then {es[0].i} else {};
      DeafSoFar(w, es, deaf, now);
      LivesFrom(Happen(w, es[0]), es[1..], deaf + now);
    }
  }

  lemma DeafSoFar(w: World, es: seq<Event>, deaf: set<nat>, now: set<nat>)
    requires es != [] && IsHistory(w, es) && now == if GoesDeaf(w, es[0]) then {es[0].i} else {}
    ensures deaf + DeafOnes(w, es) == deaf + now + DeafOnes(Happen(w, es[0]), es[1..])
  {
  }

  /** From one tryConnect(1) the link lives, being connected, open with a reader or on its way to the next reconnect,
      exactly in the histories where no reconnect threw, no posted close's shutdown failed, and no connection that lost
      its reader to a failed shutdown is still open. */
  lemma LinkSurvives(setup: Setup, es: seq<Event>)
    requires setup.reconnects && IsHistory(Begun(setup, 1), es)
    ensures var w := Later(Begun(setup, 1), es);
            LinkLives(w) <==> NothingFails(Begun(setup, 1), es) && NoneOpen(w, DeafOnes(Begun(setup, 1), es))
  {
    BegunInv(setup, 1);
    LivesFrom(Begun(setup, 1), es, {});
    assert {} + DeafOnes(Begun(setup, 1), es) == DeafOnes(Begun(setup, 1), es);
  }

  // ---- A link that gets stuck ----

  lemma FirstFails(w: World, e: Event, es: seq<Event>)
    requires Enabled(w, e) && IsHistory(Happen(w, e), es)
    ensures IsHistory(w, [e] + es)
    ensures NothingFails(w, [e] + es) <==> !Fails(w, e) && NothingFails(Happen(w, e), es)
  {
    assert ([e] + es)[1..] == es;
  }

  function PeerLeavesBadly(): seq<Event> {
    [Connection(0, LC.ReadCompletes(LC.Eof, []), false)]
    + ([Connection(0, LC.RunsTask(true), false)]
       + ([Connection(0, LC.CloseArrives, false)]
          + ([Connection(0, LC.RunsTask(false), false)] + [])))
  }

  lemma CloseFailsAtEnd(w: World)
    requires 0 < |w.sessions| && w.sessions[0].conn == LC.Start(LC.Created(w.setup.parser, false))
    ensures IsHistory(w, PeerLeavesBadly()) && !NothingFails(w, PeerLeavesBadly())
  {
    var e1, e2 := Connection(0, LC.ReadCompletes(LC.Eof, []), false), Connection(0, LC.RunsTask(true), false);
    var w1 := Happen(w, e1);
    assert w1.sessions[0].conn.strand == [LC.ReadHandler(LC.Eof, [])];
    var w2 := Happen(w1, e2);
    PostedCloseFails(w2);
    var more := [Connection(0, LC.CloseArrives, false)] + ([Connection(0, LC.RunsTask(false), false)] + []);
    FirstFails(w1, e2, more);
    FirstFails(w, e1, [e2] + more);
  }

  lemma PostedCloseFails(w: World)
    requires 0 < |w.sessions| && w.sessions[0].conn.posted == 1 && w.sessions[0].conn.strand == []
    ensures var es := [Connection(0, LC.CloseArrives, false)] + ([Connection(0, LC.RunsTask(false), false)] + []);
            IsHistory(w, es) && !NothingFails(w, es)
  {
    var e3, e4 := Connection(0, LC.CloseArrives, false), Connection(0, LC.RunsTask(false), false);
    var w3 := Happen(w, e3);
    assert w3.sessions[0].conn.strand == [LC.CloseHandler];
    FirstFails(w3, e4, []);
    FirstFails(w, e3, [e4] + []);
  }

  /** The peer leaves and the shutdown in the posted close fails: nothing was thrown and a session still weighs
      something, but the link does not live and never will. */
  lemma LinkGetsStuck(setup: Setup, more: seq<Event>)
    requires setup.reconnects && !setup.keepAlive
    ensures var es := [Connects(0)] + PeerLeavesBadly();
            && IsHistory(Begun(setup, 1), es) && NothingThrown(es)
            && Load(Later(Begun(setup, 1), es)) == 1 && !LinkLives(Later(Begun(setup, 1), es))
            && (IsHistory(Later(Begun(setup, 1), es), more) ==>
                  !LinkLives(Later(Later(Begun(setup, 1), es), more)))
  {
    var w := Begun(setup, 1);
    CloseFailsAtEnd(Happen(w, Connects(0)));
    First(w, Connects(0), PeerLeavesBadly());
    var es := [Connects(0)] + PeerLeavesBadly();
    LoadSurvives(setup, es);
    LinkSurvives(setup, es);
    if IsHistory(Later(w, es), more) {
      Joined(w, es, more);
      FailuresStay(w, es, more);
      LinkSurvives(setup, es + more);
    }
  }

  lemma {:induction false} FailuresStay(w: World, es: seq<Event>, more: seq<Event>)
    requires IsHistory(w, es) && IsHistory(w, es + more) && !NothingFails(w, es)
    ensures !NothingFails(w, es + more)
    decreases |es|
  {
    assert (es + more)[1..] == es[1..] + more;
    if !Fails(w, es[0]) {
      FailuresStay(Happen(w, es[0]), es[1..], more);
    }
  }
}
