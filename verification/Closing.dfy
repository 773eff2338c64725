/** How a connection stops being open, and what becomes of the close it then posts. */
module Closing {
  import opened Bytes
  import opened Framing
  import opened Lifecycle

  /** The task that ends an open connection if its shutdown succeeds. */
  predicate Ends(c: Conn, task: Task) {
    match task
    case ReadHandler(error, _) => error != NoError && !Retries(c, error)
    case WriteHandler(failed) => failed
    case ReserveTimeHandler(expired) => expired
    case _ => false
  }

  /** An open connection ends in exactly three ways, each with a successful shutdown: a read error that is not put back
      and a failed write, which post a close, and an expired reservation, which closes at once. */
  lemma OpenStep(c: Conn, e: Event)
    requires Inv(c) && c.status == Open && Enabled(c, e)
    ensures Advance(c, e).status != Open <==> e == RunsTask(true) && Ends(c, c.strand[0])
    ensures Advance(c, e).status == Closing <==>
              e == RunsTask(true) && Ends(c, c.strand[0]) && !c.strand[0].ReserveTimeHandler?
  {
    if e.RunsTask? {
      assert !c.strand[0].CloseHandler?;
      OpenTask(c.(strand := c.strand[1..]), c.strand[0], e.ok);
    }
  }

  lemma OpenTask(c: Conn, task: Task, ok: bool)
    requires c.status == Open && !task.CloseHandler?
    ensures Execute(c, task, ok).status == if !ok || !Ends(c, task) then Open
                                           else if task.ReserveTimeHandler? then Close else Status.Closing
  {
  }

  /** Some step of the run is one of the three. */
  predicate SomeStepEnds(c: Conn, es: seq<Event>)
    requires IsRun(c, es)
    decreases |es|
  {
    es != [] && ((es[0] == RunsTask(true) && Ends(c, c.strand[0])) || SomeStepEnds(Advance(c, es[0]), es[1..]))
  }

  /** Whatever else happens to it, a connection stays open through exactly the runs in which none of the three happens
      with a successful shutdown. */
  lemma {:induction false} WhenOpenLasts(c: Conn, es: seq<Event>)
    requires Inv(c) && c.status == Open && IsRun(c, es)
    ensures After(c, es).status == Open <==> !SomeStepEnds(c, es)
    decreases |es|
  {
    if es != [] {
      StepInv(c, es[0]);
      OpenStep(c, es[0]);
      if Advance(c, es[0]).status == Open {
        WhenOpenLasts(Advance(c, es[0]), es[1..]);
      } else {
        StageNeverFallsInStep(c, es[0]);
        StageNeverFalls(Advance(c, es[0]), es[1..]);
      }
    }
  }

  // ---- The reader of an open connection ----

  /** Reads outstanding, and reads completed whose handler waits. */
  function Readers(c: Conn): nat {
    (if c.reading then 1 else 0) + Count(c.strand, Reads)
  }

  /** A read error that is not put back meets a failing shutdown: the source leaves the connection open and arms no
      other read. */
  predicate LosesReader(c: Conn, e: Event)
    requires Enabled(c, e)
  {
    && c.status == Open && e == RunsTask(false)
    && c.strand[0].ReadHandler? && c.strand[0].error != NoError && !Retries(c, c.strand[0].error)
  }

  predicate NoReaderLost(c: Conn, es: seq<Event>)
    requires IsRun(c, es)
    decreases |es|
  {
    es == [] || (!LosesReader(c, es[0]) && NoReaderLost(Advance(c, es[0]), es[1..]))
  }

  ghost predicate Attended(c: Conn) {
    c.status == Open ==> Readers(c) == 1
  }

  lemma AttendedStep(c: Conn, e: Event)
    requires Inv(c) && Attended(c) && Enabled(c, e) && !LosesReader(c, e)
    ensures Attended(Advance(c, e))
  {
    match e
    case ReadCompletes(error, data) => CountAppend(c.strand, ReadHandler(error, data), Reads);
    case WriteCompletes(failed) => CountAppend(c.strand, WriteHandler(failed), Reads);
    case KeepTimeCompletes(expired) => CountAppend(c.strand, KeepTimeHandler(expired), Reads);
    case ReserveTimeCompletes(expired) => CountAppend(c.strand, ReserveTimeHandler(expired), Reads);
    case CloseArrives => CountAppend(c.strand, CloseHandler, Reads);
    case RunsTask(ok) => AttendedTask(c, ok);
    case _ =>
  }

  lemma AttendedTask(c: Conn, ok: bool)
    requires Inv(c) && Attended(c) && c.strand != [] && !LosesReader(c, RunsTask(ok))
    ensures Attended(Advance(c, RunsTask(ok)))
  {
    var rest := c.(strand := c.strand[1..]);
    match c.strand[0]
    case ReadHandler(error, data) =>
      AloneAtHead(c);
      AttendedRead(rest, error, data, ok);
    case task => OtherReaders(rest, task, ok);
  }

  lemma AttendedRead(c: Conn, error: ReadError, data: seq<byte>, ok: bool)
    requires !c.reading && Count(c.strand, Reads) == 0
    requires c.status == Open && error != NoError && !Retries(c, error) ==> ok
    ensures Attended(OnRead(c, error, data, ok))
  {
    if error == NoError {
      CountAppend(c.strand, Dispatch(data), Reads);
    } else if Retries(c, error) {
      CountAppend(c.strand, ReadHandler(error, data), Reads);
    }
  }

  lemma OtherReaders(c: Conn, task: Task, ok: bool)
    requires !task.ReadHandler?
    ensures var c' := Execute(c, task, ok); Readers(c') == Readers(c) && (c'.status == Open ==> c.status == Open)
  {
  }

  lemma {:induction false} AttendedRun(c: Conn, es: seq<Event>)
    requires Inv(c) && Attended(c) && IsRun(c, es)
    ensures NoReaderLost(c, es) ==> Attended(After(c, es))
    ensures !NoReaderLost(c, es) ==> Readers(After(c, es)) == 0
    decreases |es|
  {
    if es != [] {
      StepInv(c, es[0]);
      if LosesReader(c, es[0]) {
        ReadErrorLeavesNoReader(c, false);
        NothingIsReceived(Advance(c, es[0]), es[1..]);
      } else {
        AttendedStep(c, es[0]);
        AttendedRun(Advance(c, es[0]), es[1..]);
      }
    }
  }

  /** In every run an open connection has its one read outstanding or about to be handled, exactly if no read error of
      it that was not put back has met a failing shutdown; else it has none. */
  lemma WhenOpenIsDeaf(parser: seq<byte> -> Result, keepAlive: bool, es: seq<Event>, c: Conn)
    requires Reaches(parser, keepAlive, es, c) && c.status == Open
    ensures Readers(c) == 1 <==> NoReaderLost(Created(parser, keepAlive), es)
    ensures Readers(c) == 0 <==> !NoReaderLost(Created(parser, keepAlive), es)
  {
    CreatedInv(parser, keepAlive);
    AttendedRun(Created(parser, keepAlive), es);
  }

  // ---- The posted close ----

  function Posted(c: Conn): nat {
    c.posted + Count(c.strand, Closes)
  }

  /** A closing connection has its one close posted or queued. */
  ghost predicate OnItsWay(c: Conn) {
    c.status == Status.Closing ==> Posted(c) == 1
  }

  predicate CloseFails(c: Conn, e: Event)
    requires Enabled(c, e)
  {
    e == RunsTask(false) && c.strand[0].CloseHandler?
  }

  predicate NoCloseFails(c: Conn, es: seq<Event>)
    requires IsRun(c, es)
    decreases |es|
  {
    es == [] || (!CloseFails(c, es[0]) && NoCloseFails(Advance(c, es[0]), es[1..]))
  }

  lemma OnItsWayStep(c: Conn, e: Event)
    requires Inv(c) && OnItsWay(c) && Enabled(c, e) && !CloseFails(c, e)
    ensures OnItsWay(Advance(c, e))
  {
    match e
    case ReadCompletes(error, data) => CountAppend(c.strand, ReadHandler(error, data), Closes);
    case WriteCompletes(failed) => CountAppend(c.strand, WriteHandler(failed), Closes);
    case KeepTimeCompletes(expired) => CountAppend(c.strand, KeepTimeHandler(expired), Closes);
    case ReserveTimeCompletes(expired) => CountAppend(c.strand, ReserveTimeHandler(expired), Closes);
    case CloseArrives => CountAppend(c.strand, CloseHandler, Closes);
    case RunsTask(ok) => OnItsWayTask(c, ok);
    case _ =>
  }

  lemma OnItsWayTask(c: Conn, ok: bool)
    requires Inv(c) && OnItsWay(c) && c.strand != [] && (ok || !c.strand[0].CloseHandler?)
    ensures OnItsWay(Advance(c, RunsTask(ok)))
  {
    var rest := c.(strand := c.strand[1..]);
    if c.strand[0].CloseHandler? {
      assert Advance(c, RunsTask(ok)).status == Close;
    } else {
      QuietTask(rest, c.strand[0], ok);
    }
  }

  /** From c to c' one close is posted exactly if the connection became closing. */
  predicate Posts(c: Conn, c': Conn) {
    && Posted(c') == Posted(c) + (if c'.status == Status.Closing && c.status == Open then 1 else 0)
    && (c'.status == Status.Closing ==> c.status == Open || c.status == Status.Closing)
  }

  lemma QuietTask(c: Conn, task: Task, ok: bool)
    requires !task.CloseHandler?
    ensures Posts(c, Execute(c, task, ok))
  {
    match task
    case ReadHandler(error, data) => ReadPosts(c, error, data, ok);
    case _ =>
  }

  lemma ReadPosts(c: Conn, error: ReadError, data: seq<byte>, ok: bool)
    ensures Posts(c, OnRead(c, error, data, ok))
  {
    if error == NoError {
      CountAppend(c.strand, Dispatch(data), Closes);
      assert OnRead(c, error, data, ok).status == c.status;
    } else if Retries(c, error) {
      CountAppend(c.strand, ReadHandler(error, data), Closes);
    }
  }

  lemma {:induction false} ClosingRun(c: Conn, es: seq<Event>)
    requires Inv(c) && OnItsWay(c) && IsRun(c, es)
    ensures var c' := After(c, es);
            c'.status == Status.Closing && Posted(c') == 0 <==> !NoCloseFails(c, es)
    ensures NoCloseFails(c, es) ==> OnItsWay(After(c, es))
    decreases |es|
  {
    if es != [] {
      StepInv(c, es[0]);
      if CloseFails(c, es[0]) {
        FailedCloseIsLast(c);
        StuckInClosing(Advance(c, es[0]), es[1..]);
      } else {
        OnItsWayStep(c, es[0]);
        ClosingRun(Advance(c, es[0]), es[1..]);
      }
    }
  }

  lemma FailedCloseIsLast(c: Conn)
    requires Inv(c) && c.strand != [] && c.strand[0].CloseHandler?
    ensures var c' := Advance(c, RunsTask(false)); c'.status == Status.Closing && Posted(c') == 0
  {
    CloseHandlerKeeps(c, false);
  }

  /** In every run a closing connection has exactly one close on its way, unless a close has run and its shutdown
      failed: then, and only then, the connection is stuck, for good. */
  lemma WhenClosingIsStuck(parser: seq<byte> -> Result, keepAlive: bool, es: seq<Event>, c: Conn)
    requires Reaches(parser, keepAlive, es, c)
    ensures c.status == Status.Closing && Posted(c) == 0 <==> !NoCloseFails(Created(parser, keepAlive), es)
    ensures NoCloseFails(Created(parser, keepAlive), es) && c.status == Status.Closing ==> Posted(c) == 1
  {
    CreatedInv(parser, keepAlive);
    ClosingRun(Created(parser, keepAlive), es);
  }

  // ---- What the handlers mean for their callers ----

  /** closing never calls onClose and never posts a second close: afterwards the connection is as it was, or it has
      gone from open to closing with the one close on its way. */
  lemma ClosingMeans(c: Conn, ok: bool)
    requires Inv(c) && OnItsWay(c)
    ensures var c' := DoClosing(c, ok);
            && Inv(c') && OnItsWay(c') && c'.closes == c.closes && c'.strand == c.strand
            && (c'.status != c.status <==> ok && c.status == Open)
            && (c'.status != c.status ==> c'.status == Status.Closing && Posted(c') == 1)
  {
    ClosingInv(c, ok);
  }

  /** close, where it is the only one left: onClose has been called afterwards exactly if the shutdown succeeded. */
  lemma CloseMeans(c: Conn, ok: bool)
    requires Inv(c) && c.status != Close && Posted(c) == 0
    ensures var c' := DoClose(c, ok);
            Inv(c') && (c'.closes == 1 <==> ok) && (c'.status == Close <==> ok) && c'.strand == c.strand
  {
    CloseInv(c, ok);
  }

  /** A connection whose read has just completed. */
  ghost predicate AtRead(c: Conn, error: ReadError) {
    && Inv(c) && c.started && Readers(c) == 0
    && (error == NoError ==> Count(c.strand, Dispatches) == 0)
  }

  /** read_handler keeps the invariant, calls no onClose, receives the data exactly if there is no error, and leaves a
      reader exactly if there is none or the error is put back. */
  lemma ReadMeans(c: Conn, error: ReadError, data: seq<byte>, ok: bool)
    requires AtRead(c, error)
    ensures var c' := OnRead(c, error, data, ok);
            && Inv(c') && c'.closes == c.closes && Stage(c) <= Stage(c')
            && c'.received == c.received + (if error == NoError then [data] else [])
            && Readers(c') == if error == NoError || Retries(c, error) then 1 else 0
  {
    ReadersAfterRead(c, error, data, ok);
    if error == NoError {
      QueuedDataCount(c.strand);
      ReceivedInv(c, data);
    } else {
      ReadErrorInv(c, error, data, ok);
    }
  }

  lemma ReadersAfterRead(c: Conn, error: ReadError, data: seq<byte>, ok: bool)
    requires Readers(c) == 0
    ensures Readers(OnRead(c, error, data, ok)) == if error == NoError || Retries(c, error) then 1 else 0
  {
    if error == NoError {
      CountAppend(c.strand, Dispatch(data), Reads);
    } else if Retries(c, error) {
      CountAppend(c.strand, ReadHandler(error, data), Reads);
    }
  }
}
