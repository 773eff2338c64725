/** What the two deadline timers of a connection promise over its runs. */
module Timers {
  import opened Bytes
  import opened Framing
  import opened Lifecycle

  // ---- The keep-alive timer ----

  /** A close is reserved: its timer runs, or its expiry waits on the strand. */
  predicate CloseReserved(c: Conn) {
    c.reserveTimer.waits > 0 || ReserveTimeHandler(true) in c.strand
  }

  /** An open connection with a keep-alive time has its deadline running, the expiry waiting on the strand, or a close
      reserved. */
  ghost predicate Watched(c: Conn) {
    c.keepAlive && c.status == Open ==>
      c.keepTimer.waits > 0 || KeepTimeHandler(true) in c.strand || CloseReserved(c)
  }

  /** No timer has two deadlines; without a keep-alive time nothing ever expires. */
  ghost predicate OneDeadline(c: Conn) {
    && c.keepTimer.waits <= 1 && c.reserveTimer.waits <= 1
    && (!c.keepAlive ==> c.keepTimer.waits == 0 && c.expirations == 0 && KeepTimeHandler(true) !in c.strand)
  }

  predicate IsTimeHandler(t: Task) {
    t.KeepTimeHandler? || t.ReserveTimeHandler?
  }

  /** A task the strand runs puts no timer's handler on it. */
  lemma StrandAfter(c: Conn, ok: bool, x: Task)
    requires c.strand != [] && IsTimeHandler(x)
    ensures x in Advance(c, RunsTask(ok)).strand <==> x in c.strand[1..]
    ensures x in c.strand <==> x == c.strand[0] || x in c.strand[1..]
  {
    assert c.strand == [c.strand[0]] + c.strand[1..];
    var rest := c.(strand := c.strand[1..]);
    match c.strand[0]
    case ReadHandler(error, data) => ReadStrand(rest, error, data, ok, x);
    case task => OthersPostNothing(rest, task, ok);
  }

  lemma ReadStrand(c: Conn, error: ReadError, data: seq<byte>, ok: bool, x: Task)
    requires IsTimeHandler(x)
    ensures x in OnRead(c, error, data, ok).strand <==> x in c.strand
  {
  }

  /** The keep-alive timer of an open connection is left alone or armed again, and never has a second deadline. */
  predicate KeepMoves(c: Conn, c': Conn) {
    && c'.keepAlive == c.keepAlive
    && (c'.status == Open ==> c.status == Open && (c'.keepTimer.waits > 0 || c'.keepTimer == c.keepTimer))
    && (c.keepTimer.waits <= 1 ==> c'.keepTimer.waits <= if c.keepAlive then 1 else c.keepTimer.waits)
  }

  lemma ReadKeepMoves(c: Conn, error: ReadError, data: seq<byte>, ok: bool)
    ensures KeepMoves(c, OnRead(c, error, data, ok))
  {
  }

  lemma OtherKeepMoves(c: Conn, task: Task, ok: bool)
    requires !task.ReadHandler?
    ensures KeepMoves(c, Execute(c, task, ok))
  {
  }

  lemma KeepTimerAfter(c: Conn, ok: bool)
    requires c.strand != []
    ensures KeepMoves(c, Advance(c, RunsTask(ok)))
  {
    var rest := c.(strand := c.strand[1..]);
    match c.strand[0]
    case ReadHandler(error, data) => ReadKeepMoves(rest, error, data, ok);
    case task => OtherKeepMoves(rest, task, ok);
  }

  lemma ExpirationsAfter(c: Conn, ok: bool)
    requires c.strand != []
    ensures Advance(c, RunsTask(ok)).expirations
            == c.expirations + (if c.strand[0] == KeepTimeHandler(true) && c.status == Open then 1 else 0)
  {
  }

  /** The reservation of an open connection is left alone or made again. */
  predicate ReserveMoves(c: Conn, c': Conn) {
    && (c.reserveTimer.waits <= 1 ==> c'.reserveTimer.waits <= 1)
    && (c'.status == Open ==> c.status == Open && (c'.reserveTimer.waits > 0 || c'.reserveTimer == c.reserveTimer))
  }

  lemma ReadReserveMoves(c: Conn, error: ReadError, data: seq<byte>, ok: bool)
    ensures ReserveMoves(c, OnRead(c, error, data, ok))
  {
  }

  lemma OtherReserveMoves(c: Conn, task: Task, ok: bool)
    requires !task.ReadHandler?
    ensures ReserveMoves(c, Execute(c, task, ok))
    ensures c.status == Open && task == ReserveTimeHandler(true) && ok ==> Execute(c, task, ok).status == Close
    ensures c.status == Open && task == KeepTimeHandler(true) ==> CloseReserved(Execute(c, task, ok))
  {
  }

  lemma ReserveTimerAfter(c: Conn, ok: bool)
    requires c.strand != []
    ensures ReserveMoves(c, Advance(c, RunsTask(ok)))
    ensures c.status == Open && c.strand[0] == ReserveTimeHandler(true) && ok ==>
              Advance(c, RunsTask(ok)).status == Close
    ensures c.status == Open && c.strand[0] == KeepTimeHandler(true) ==> CloseReserved(Advance(c, RunsTask(ok)))
  {
    var rest := c.(strand := c.strand[1..]);
    match c.strand[0]
    case ReadHandler(error, data) => ReadReserveMoves(rest, error, data, ok);
    case task => OtherReserveMoves(rest, task, ok);
  }

  /** The reserved close runs and its shutdown reports an error: the source then drops it. */
  predicate Drops(c: Conn, e: Event)
    requires Enabled(c, e)
  {
    e == RunsTask(false) && c.strand[0] == ReserveTimeHandler(true)
  }

  predicate NeverDrops(c: Conn, es: seq<Event>)
    requires IsRun(c, es)
    decreases |es|
  {
    es == [] || (!Drops(c, es[0]) && NeverDrops(Advance(c, es[0]), es[1..]))
  }

  lemma WatchedStep(c: Conn, e: Event)
    requires Watched(c) && Enabled(c, e) && !Drops(c, e)
    ensures Watched(Advance(c, e))
  {
    if e.RunsTask? {
      WatchedTask(c, e.ok);
    }
  }

  lemma WatchedTask(c: Conn, ok: bool)
    requires Watched(c) && c.strand != [] && (ok || c.strand[0] != ReserveTimeHandler(true))
    ensures Watched(Advance(c, RunsTask(ok)))
  {
    StrandAfter(c, ok, KeepTimeHandler(true));
    StrandAfter(c, ok, ReserveTimeHandler(true));
    KeepTimerAfter(c, ok);
    ReserveTimerAfter(c, ok);
  }

  lemma OneDeadlineStep(c: Conn, e: Event)
    requires OneDeadline(c) && Enabled(c, e)
    ensures OneDeadline(Advance(c, e))
  {
    if e.RunsTask? {
      OneDeadlineTask(c, e.ok);
    }
  }

  lemma OneDeadlineTask(c: Conn, ok: bool)
    requires OneDeadline(c) && c.strand != []
    ensures OneDeadline(Advance(c, RunsTask(ok)))
  {
    StrandAfter(c, ok, KeepTimeHandler(true));
    KeepTimerAfter(c, ok);
    ExpirationsAfter(c, ok);
    ReserveTimerAfter(c, ok);
  }

  lemma {:induction false} TimersRun(c: Conn, es: seq<Event>)
    requires OneDeadline(c) && IsRun(c, es)
    ensures OneDeadline(After(c, es))
    ensures Watched(c) && NeverDrops(c, es) ==> Watched(After(c, es))
    decreases |es|
  {
    if es != [] {
      if Watched(c) && NeverDrops(c, es) {
        WatchedStep(c, es[0]);
      }
      OneDeadlineStep(c, es[0]);
      TimersRun(Advance(c, es[0]), es[1..]);
    }
  }

  /** In every run each timer has at most one deadline and a connection without a keep-alive time never expires; and
      unless a reserved close's shutdown failed, an open connection with a keep-alive time has its deadline running,
      the expiry waiting on the strand, or a close reserved. */
  lemma OpenIsWatched(parser: seq<byte> -> Result, keepAlive: bool, es: seq<Event>, c: Conn)
    requires Reaches(parser, keepAlive, es, c)
    ensures c.keepTimer.waits <= 1 && c.reserveTimer.waits <= 1
    ensures !keepAlive ==> c.expirations == 0
    ensures NeverDrops(Created(parser, keepAlive), es) && keepAlive && c.status == Open ==>
              c.keepTimer.waits == 1 || KeepTimeHandler(true) in c.strand || CloseReserved(c)
  {
    TimersRun(Created(parser, keepAlive), es);
    ParserStays(Created(parser, keepAlive), es);
  }

  // ---- The reserved close ----

  ghost predicate Reserved(c: Conn) {
    c.status == Open ==> CloseReserved(c)
  }

  lemma ReservedStep(c: Conn, e: Event)
    requires c.started && Reserved(c) && Enabled(c, e) && !Drops(c, e)
    ensures Reserved(Advance(c, e))
  {
    if e.RunsTask? {
      ReservedTask(c, e.ok);
    }
  }

  lemma ReservedTask(c: Conn, ok: bool)
    requires Reserved(c) && c.strand != [] && (ok || c.strand[0] != ReserveTimeHandler(true))
    ensures Reserved(Advance(c, RunsTask(ok)))
  {
    StrandAfter(c, ok, ReserveTimeHandler(true));
    ReserveTimerAfter(c, ok);
  }

  lemma {:induction false} ReservedRun(c: Conn, es: seq<Event>)
    requires c.started && Reserved(c) && IsRun(c, es) && NeverDrops(c, es)
    ensures Reserved(After(c, es))
    decreases |es|
  {
    if es != [] {
      ReservedStep(c, es[0]);
      ReservedRun(Advance(c, es[0]), es[1..]);
    }
  }

  /** After closeReserve the close is never forgotten, whatever else happens, unless its own shutdown fails: as long as
      the connection is open the timer runs or its handler waits, and when that handler runs onClose is called exactly if
      the shutdown succeeds. */
  lemma ReservedCloseIsKept(c: Conn, es: seq<Event>, ok: bool)
    requires Inv(c) && c.started
    requires IsRun(Advance(c, ReservesClose), es) && NeverDrops(Advance(c, ReservesClose), es)
    ensures var c' := After(Advance(c, ReservesClose), es);
            c'.status == Open ==>
              && CloseReserved(c')
              && (c'.strand != [] && c'.strand[0] == ReserveTimeHandler(true) ==>
                    (Advance(c', RunsTask(ok)).closes == 1 <==> ok))
  {
    var first := Advance(c, ReservesClose);
    StepInv(c, ReservesClose);
    ReservedRun(first, es);
    RunInv(first, es);
    ReservationCloses(After(first, es), ok);
  }

  lemma ReservationCloses(c: Conn, ok: bool)
    requires Inv(c)
    ensures c.status == Open && c.strand != [] && c.strand[0] == ReserveTimeHandler(true) ==>
              (Advance(c, RunsTask(ok)).closes == 1 <==> ok)
  {
  }

  // ---- noHandler ----

  /** An open connection on which noHandler was called has a close reserved. */
  ghost predicate Answered(c: Conn) {
    && (c.status == Open && HasNoHandler(c.calls) ==> CloseReserved(c))
    && (!c.started ==> c.calls == [] && c.status == Close)
  }

  lemma AnsweredStep(c: Conn, e: Event)
    requires Answered(c) && Enabled(c, e) && !Drops(c, e)
    ensures Answered(Advance(c, e))
  {
    if e.RunsTask? {
      AnsweredTask(c, e.ok);
    }
  }

  lemma AnsweredTask(c: Conn, ok: bool)
    requires Answered(c) && c.strand != [] && (ok || c.strand[0] != ReserveTimeHandler(true))
    ensures Answered(Advance(c, RunsTask(ok)))
  {
    if !c.started {
      UnstartedTask(c, ok);
    } else if Reserved(c) {
      ReservedTask(c, ok);
    } else if c.strand[0].Dispatch? {
      DispatchAnswers(c.(strand := c.strand[1..]), c.strand[0].data);
    } else {
      TaskCalls(c, ok);
      TaskKeepsSetup(c.(strand := c.strand[1..]), c.strand[0], ok);
      ReserveTimerAfter(c, ok);
    }
  }

  lemma UnstartedTask(c: Conn, ok: bool)
    requires c.strand != [] && !c.started && c.status == Close
    ensures var c' := Advance(c, RunsTask(ok)); c'.status == Close && c'.calls == c.calls
  {
  }

  lemma DispatchAnswers(c: Conn, data: seq<byte>)
    requires c.started && !HasNoHandler(c.calls)
    ensures Answered(OnDispatch(c, data))
  {
    NoHandlerAmong(c.calls, c.parser(data).calls);
  }

  lemma NoHandlerAmong(a: seq<Call>, b: seq<Call>)
    ensures HasNoHandler(a + b) ==> HasNoHandler(a) || HasNoHandler(b)
  {
    if HasNoHandler(a + b) {
      var i :| 0 <= i < |a + b| && (a + b)[i].route == NoHandler;
      if i >= |a| {
        assert b[i - |a|].route == NoHandler;
      }
    }
  }

  lemma {:induction false} AnsweredRun(c: Conn, es: seq<Event>)
    requires Answered(c) && IsRun(c, es) && NeverDrops(c, es)
    ensures Answered(After(c, es))
    decreases |es|
  {
    if es != [] {
      AnsweredStep(c, es[0]);
      AnsweredRun(Advance(c, es[0]), es[1..]);
    }
  }

  /** In every run, unless a reserved close's shutdown failed, a connection on which noHandler was called is not open any
      more or has a close reserved. */
  lemma NoHandlerIsAnswered(parser: seq<byte> -> Result, keepAlive: bool, es: seq<Event>, c: Conn)
    requires Reaches(parser, keepAlive, es, c) && NeverDrops(Created(parser, keepAlive), es)
    ensures HasNoHandler(c.calls) && c.status == Open ==> CloseReserved(c)
  {
    AnsweredRun(Created(parser, keepAlive), es);
  }
}
