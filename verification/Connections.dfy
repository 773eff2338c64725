/** The handlers of ConnectionImpl as they update its fields, each against its function in Lifecycle. */
module Connections {
  import opened Bytes
  import opened Buffers
  import opened Framing
  import opened Lifecycle
  import opened JsonPackets
  import PacketParser
  import Chunks
  import C = Closing

  function ParserOf(d: Dialect): seq<byte> -> Result {
    s => Parse(d, s)
  }

  class ConnectionImpl {
    const dialect: Dialect
    const keepAlive: bool
    const hasUser: bool
    var started: bool
    var status: Status
    var strand: seq<Task>
    var reading: bool
    var writes: nat
    var posted: nat
    var keepTimer: Timer
    var reserveTimer: Timer
    var pending: u32
    var retries: nat
    ghost var received: seq<seq<byte>>
    ghost var parsed: seq<seq<byte>>
    ghost var refused: seq<seq<byte>>
    ghost var calls: seq<Call>
    ghost var closes: nat
    ghost var expirations: nat

    ghost function View(): Conn
      reads this
    {
      Conn(ParserOf(dialect), keepAlive, started, status, strand, reading, writes, posted, keepTimer, reserveTimer,
           pending, retries, received, parsed, refused, calls, closes, expirations)
    }

    constructor (dialect: Dialect, keepAlive: bool, hasUser: bool)
      ensures View() == Created(ParserOf(dialect), keepAlive)
      ensures this.dialect == dialect && this.hasUser == hasUser
    {
      this.dialect, this.keepAlive, this.hasUser := dialect, keepAlive, hasUser;
      started, status, strand, reading, writes, posted := false, Close, [], false, 0, 0;
      keepTimer, reserveTimer := Timer(if keepAlive then 1 else 0, 0), Timer(0, 0);
      pending, retries := 0, 0;
      received, parsed, refused, calls, closes, expirations := [], [], [], [], 0, 0;
    }

    method RenewExpireTimer()
      modifies this`keepTimer
      ensures View() == RenewExpireTime(old(View()))
    {
      if !keepAlive {
        return;
      }
      keepTimer := keepTimer.Rearm();
    }

    /** start_accept, start_connect */
    method StartReading()
      modifies this
      ensures View() == Start(old(View()))
      ensures keepAlive ==> keepTimer == Timer(1, old(keepTimer.cancelled + keepTimer.waits))
    {
      reading := true;
      status := Open;
      started := true;
      RenewExpireTimer();
    }

    /** closing; however often it is called one close is posted, and no onClose is called. */
    method ClosingSocket(shutdownOk: bool)
      modifies this
      ensures View() == DoClosing(old(View()), shutdownOk)
      ensures old(Inv(View()) && C.OnItsWay(View())) ==>
                && Inv(View()) && C.OnItsWay(View()) && closes == old(closes)
                && (status != old(status) <==> shutdownOk && old(status) == Open)
                && (status != old(status) ==> status == Closing && C.Posted(View()) == 1)
      ensures status != old(status) ==>
                && keepTimer == Timer(0, old(keepTimer.cancelled + keepTimer.waits))
                && reserveTimer == Timer(0, old(reserveTimer.cancelled + reserveTimer.waits))
      ensures status == old(status) ==> keepTimer == old(keepTimer) && reserveTimer == old(reserveTimer)
    {
      ghost var before := View();
      if Inv(before) && C.OnItsWay(before) {
        C.ClosingMeans(before, shutdownOk);
      }
      if shutdownOk && status == Open {
        status := Closing;
        keepTimer := keepTimer.Cancel();
        reserveTimer := reserveTimer.Cancel();
        posted := posted + 1;
      }
    }

    /** close; where no other close is left, onClose has been called afterwards exactly if the shutdown succeeded. */
    method CloseSocket(shutdownOk: bool)
      modifies this
      ensures View() == DoClose(old(View()), shutdownOk)
      ensures old(Inv(View()) && status != Close && C.Posted(View()) == 0) ==>
                Inv(View()) && (closes == 1 <==> shutdownOk) && (status == Close <==> shutdownOk)
      ensures shutdownOk ==>
                && keepTimer == Timer(0, old(keepTimer.cancelled + keepTimer.waits))
                && reserveTimer == Timer(0, old(reserveTimer.cancelled + reserveTimer.waits))
    {
      ghost var before := View();
      if Inv(before) && status != Close && C.Posted(before) == 0 {
        C.CloseMeans(before, shutdownOk);
      }
      if shutdownOk {
        status := Close;
        keepTimer := keepTimer.Cancel();
        reserveTimer := reserveTimer.Cancel();
        closes := closes + 1;
      }
    }

    /** read_handler: `data` is what the socket stored in _msg. */
    method HandleRead(error: ReadError, data: seq<byte>, shutdownOk: bool)
      modifies this
      ensures View() == OnRead(old(View()), error, data, shutdownOk)
      ensures old(C.AtRead(View(), error)) ==>
                && Inv(View()) && closes == old(closes) && Stage(old(View())) <= Stage(View())
                && received == old(received) + (if error == NoError then [data] else [])
                && C.Readers(View()) == if error == NoError || Retries(old(View()), error) then 1 else 0
      ensures error == NoError && keepAlive ==> keepTimer == Timer(1, old(keepTimer.cancelled + keepTimer.waits))
    {
      ghost var before := View();
      if C.AtRead(before, error) {
        C.ReadMeans(before, error, data, shutdownOk);
      }
      if error == NoError {
        HandleReceived(data);
      } else {
        HandleReadError(error, data, shutdownOk);
      }
    }

    method HandleReceived(data: seq<byte>)
      modifies this
      ensures View() == OnReceived(old(View()), data)
      ensures keepAlive ==> keepTimer == Timer(1, old(keepTimer.cancelled + keepTimer.waits))
    {
      received := received + [data];
      pending := Add32(pending, 1);
      Post(Task.Dispatch(data));
      reading := true;
      RenewExpireTimer();
    }

    method HandleReadError(error: ReadError, data: seq<byte>, shutdownOk: bool)
      requires error != NoError
      modifies this
      ensures View() == OnReadError(old(View()), error, data, shutdownOk)
    {
      if error == OtherError && 0 < pending {
        retries := retries + 1;
        if RETRY_LIMIT > retries - 1 {
          Post(ReadHandler(error, data));
          return;
        }
      }
      ClosingSocket(shutdownOk);
    }

    method HandleWrite(failed: bool, shutdownOk: bool)
      modifies this
      ensures View() == OnWrite(old(View()), failed, shutdownOk)
      ensures !failed && keepAlive ==> keepTimer == Timer(1, old(keepTimer.cancelled + keepTimer.waits))
    {
      if !failed {
        RenewExpireTimer();
        return;
      }
      ClosingSocket(shutdownOk);
    }

    /** MessageProcedure::dispatch, with the packet parser run on the received buffer. */
    method DispatchBuffer(data: seq<byte>) returns (events: seq<Decoded>)
      requires |data| <= MAX_BUFFER_SIZE
      modifies this
      ensures View() == OnDispatch(old(View()), data)
      ensures events == if old(status) == Open then PacketParser.Events(dialect, hasUser, Parse(dialect, data).calls)
                        else []
    {
      if status != Open {
        refused := refused + [data];
        return [];
      }
      var outcome, made;
      outcome, made, events := ParseBuffer(data);
      RecordParsed(data, outcome, made);
      if HasNoHandler(made) {
        ReserveClose();
      }
    }

    /** An exception of the parser skips the decrement. */
    method RecordParsed(data: seq<byte>, outcome: Outcome, made: seq<Call>)
      requires outcome == Parse(dialect, data).outcome && made == Parse(dialect, data).calls
      modifies this`parsed, this`calls, this`pending
      ensures View() == OnParsed(old(View()), data)
    {
      parsed := parsed + [data];
      calls := calls + made;
      if outcome != Thrown {
        pending := Sub32(pending, 1);
      }
    }

    /** _strand.post */
    method Post(task: Task)
      modifies this`strand
      ensures View() == Enqueue(old(View()), task)
    {
      strand := strand + [task];
    }

    method ParseBuffer(data: seq<byte>) returns (outcome: Outcome, made: seq<Call>, events: seq<Decoded>)
      requires |data| <= MAX_BUFFER_SIZE
      ensures outcome == Parse(dialect, data).outcome && made == Parse(dialect, data).calls
      ensures events == PacketParser.Events(dialect, hasUser, made)
    {
      var msg := new MessageBuffer();
      var _ := msg.Write(data);
      assert msg.Contents() == data;
      outcome, made, events := PacketParser.ParsePackets(dialect, hasUser, msg);
    }

    method ReserveClose()
      modifies this`reserveTimer
      ensures View() == CloseReserve(old(View()))
    {
      reserveTimer := reserveTimer.Rearm();
    }

    method HandleReserveTime(expired: bool, shutdownOk: bool)
      modifies this
      ensures View() == OnReserveTime(old(View()), expired, shutdownOk)
    {
      if expired && status == Open {
        CloseSocket(shutdownOk);
      }
    }

    method HandleKeepTime(expired: bool)
      modifies this
      ensures View() == OnKeepTime(old(View()), expired)
    {
      if expired && status == Open {
        expirations := expirations + 1;
        ReserveClose();
      }
    }

    /** The strand runs its first task. */
    method RunTask(shutdownOk: bool) returns (events: seq<Decoded>)
      requires strand != [] && (strand[0].Dispatch? ==> |strand[0].data| <= MAX_BUFFER_SIZE)
      modifies this
      ensures View() == Advance(old(View()), RunsTask(shutdownOk))
      ensures events == if old(strand)[0].Dispatch? && old(status) == Open
                        then PacketParser.Events(dialect, hasUser, Parse(dialect, old(strand)[0].data).calls) else []
    {
      events := [];
      var task := strand[0];
      strand := strand[1..];
      match task
      case ReadHandler(error, data) => HandleRead(error, data, shutdownOk);
      case Dispatch(data) => events := DispatchBuffer(data);
      case WriteHandler(failed) => HandleWrite(failed, shutdownOk);
      case CloseHandler => CloseSocket(shutdownOk);
      case KeepTimeHandler(expired) => HandleKeepTime(expired);
      case ReserveTimeHandler(expired) => HandleReserveTime(expired, shutdownOk);
    }

    method CompleteRead(error: ReadError, data: seq<byte>)
      modifies this
      ensures View() == Enqueue(old(View()).(reading := false), ReadHandler(error, data))
    {
      reading := false;
      Post(ReadHandler(error, data));
    }

    method CompleteWrite(failed: bool)
      requires writes > 0
      modifies this
      ensures View() == Enqueue(old(View()).(writes := old(writes) - 1), WriteHandler(failed))
    {
      writes := writes - 1;
      Post(WriteHandler(failed));
    }

    method CompleteKeepTime(expired: bool)
      requires keepTimer.CanComplete(expired)
      modifies this
      ensures View() == Enqueue(old(View()).(keepTimer := old(keepTimer).Completed(expired)), KeepTimeHandler(expired))
    {
      keepTimer := keepTimer.Completed(expired);
      Post(KeepTimeHandler(expired));
    }

    method CompleteReserveTime(expired: bool)
      requires reserveTimer.CanComplete(expired)
      modifies this
      ensures View()
           == Enqueue(old(View()).(reserveTimer := old(reserveTimer).Completed(expired)), ReserveTimeHandler(expired))
    {
      reserveTimer := reserveTimer.Completed(expired);
      Post(ReserveTimeHandler(expired));
    }

    method ArriveClose()
      requires posted > 0
      modifies this
      ensures View() == Enqueue(old(View()).(posted := old(posted) - 1), CloseHandler)
    {
      posted := posted - 1;
      Post(CloseHandler);
    }

    /** The completion of an asynchronous operation, or a call from outside the strand. */
    method Complete(e: Event)
      requires Enabled(View(), e) && !e.RunsTask?
      modifies this
      ensures View() == Advance(old(View()), e)
    {
      match e
      case Starts => StartReading();
      case ReadCompletes(error, data) => CompleteRead(error, data);
      case Sends => writes := writes + 1;
      case WriteCompletes(failed) => CompleteWrite(failed);
      case ReservesClose => ReserveClose();
      case KeepTimeCompletes(expired) => CompleteKeepTime(expired);
      case ReserveTimeCompletes(expired) => CompleteReserveTime(expired);
      case CloseArrives => ArriveClose();
    }

    /** One event of a run: status only moves forward, onClose is called at most once, and what reaches readJsonPacket is
        what the calls made say. */
    method React(e: Event) returns (events: seq<Decoded>)
      requires Enabled(View(), e) && BuffersFit(View())
      modifies this
      ensures View() == Advance(old(View()), e) && BuffersFit(View())
      ensures old(Inv(View())) ==>
                Inv(View()) && Stage(old(View())) <= Stage(View()) && old(closes) <= closes <= 1
      ensures calls == old(calls) + Made(old(View()), e)
      ensures events == PacketParser.Events(dialect, hasUser, Made(old(View()), e))
    {
      EventMeans(View(), e);
      if e.RunsTask? {
        events := RunTask(e.ok);
      } else {
        Complete(e);
        events := [];
      }
    }
  }

  lemma EventMeans(c: Conn, e: Event)
    requires Enabled(c, e) && BuffersFit(c)
    ensures BuffersFit(Advance(c, e)) && Advance(c, e).calls == c.calls + Made(c, e)
    ensures Inv(c) ==>
              && Inv(Advance(c, e)) && Stage(c) <= Stage(Advance(c, e))
              && c.closes <= Advance(c, e).closes <= 1
  {
    StepFits(c, e);
    CallsMade(c, e);
    if Inv(c) {
      StepInv(c, e);
      StepFacts(c, e);
      StageNeverFallsInStep(c, e);
    }
  }

  lemma StepFits(c: Conn, e: Event)
    requires BuffersFit(c) && Enabled(c, e)
    ensures BuffersFit(Advance(c, e))
  {
    if e.RunsTask? {
      TaskKeepsBuffersFit(c, e.ok);
    }
  }

  /** A connection taken through any run, one event after the other: onClose has been called at most once, exactly if a
      started connection is closed; the buffers parsed are the first ones received; and what has reached readJsonPacket,
      in order, is what the packet parser makes of each of them alone. */
  method Live(dialect: Dialect, keepAlive: bool, hasUser: bool, es: seq<Event>)
    returns (conn: ConnectionImpl, events: seq<Decoded>)
    requires IsRun(Created(ParserOf(dialect), keepAlive), es)
    ensures fresh(conn) && conn.View() == After(Created(ParserOf(dialect), keepAlive), es)
    ensures conn.closes <= 1 && (conn.closes == 1 <==> conn.started && conn.status == Close)
    ensures conn.parsed <= conn.received
    ensures events == PacketParser.Events(dialect, hasUser, Chunks.FreshCalls(dialect, conn.parsed))
  {
    ghost var first := Created(ParserOf(dialect), keepAlive);
    conn := new ConnectionImpl(dialect, keepAlive, hasUser);
    events := [];
    for i := 0 to |es|
      invariant fresh(conn) && conn.dialect == dialect && conn.hasUser == hasUser
      invariant IsRun(conn.View(), es[i..]) && After(conn.View(), es[i..]) == After(first, es)
      invariant BuffersFit(conn.View())
      invariant events == PacketParser.Events(dialect, hasUser, conn.calls)
    {
      assert es[i..][0] == es[i] && es[i..][1..] == es[i + 1..];
      ghost var before := conn.View();
      var more := conn.React(es[i]);
      PacketParser.EventsAppend(dialect, hasUser, before.calls, Made(before, es[i]));
      events := events + more;
    }
    OnCloseFiresOnce(first.parser, keepAlive, es, conn.View());
    ParsedInArrivalOrder(first.parser, keepAlive, es, conn.View());
    CallsAreFreshCalls(first.parser, dialect, conn.parsed);
  }
}
