/** net/connectionImpl and MessageProcedure::dispatch: one connection as a machine whose atomic steps are the handlers
    its strand runs and the completions that reach the strand. */
module Lifecycle {
  import opened Bytes
  import opened Buffers
  import opened Framing
  import Chunks

  datatype Status = Open | Closing | Close

  /** error_code as read_handler tells it apart. */
  datatype ReadError = NoError | ShutDown | Eof | OtherError

  /** What waits on the strand. */
  datatype Task =
    | ReadHandler(error: ReadError, data: seq<byte>)
    | Dispatch(data: seq<byte>)
    | WriteHandler(failed: bool)
    | CloseHandler
    | KeepTimeHandler(expired: bool)
    | ReserveTimeHandler(expired: bool)

  /** A deadline_timer: waits that may still expire and waits that were cancelled and have yet to say so. */
  datatype Timer = Timer(waits: nat, cancelled: nat) {
    function Cancel(): Timer {
      Timer(0, cancelled + waits)
    }

    function Rearm(): Timer {
      Timer(1, cancelled + waits)
    }

    predicate CanComplete(expired: bool) {
      if expired then waits > 0 else cancelled > 0
    }

    function Completed(expired: bool): Timer
      requires CanComplete(expired)
    {
      if expired then Timer(waits - 1, cancelled) else Timer(waits, cancelled - 1)
    }
  }

  const RETRY_LIMIT: nat := 5

  /** received, parsed, refused, calls, closes and expirations record what has happened; the rest is the source's. */
  datatype Conn = Conn(
    parser: seq<byte> -> Result,  // MessageProcedure's parsing function
    keepAlive: bool,
    started: bool,               // start_accept or start_connect has run
    status: Status,
    strand: seq<Task>,
    reading: bool,              // an async_read_some is outstanding
    writes: nat,                // async_writes outstanding
    posted: nat,                // closes handed to the io_service, not on the strand yet
    keepTimer: Timer,
    reserveTimer: Timer,
    pending: u32,               // _readHandlerPending
    retries: nat,               // _postRetryCount
    received: seq<seq<byte>>,   // buffers read, in order
    parsed: seq<seq<byte>>,     // buffers given to the parser
    refused: seq<seq<byte>>,    // buffers dispatch returned without parsing
    calls: seq<Call>,           // calls the parser has made
    closes: nat,                // onClose calls
    expirations: nat)           // onExpiredSession calls

  function Created(parser: seq<byte> -> Result, keepAlive: bool): Conn {
    Conn(parser, keepAlive, false, Close, [], false, 0, 0, Timer(if keepAlive then 1 else 0, 0), Timer(0, 0),
         0, 0, [], [], [], [], 0, 0)
  }

  // ---- The handlers ----

  function RenewExpireTime(c: Conn): Conn {
    if c.keepAlive then c.(keepTimer := c.keepTimer.Rearm()) else c
  }

  /** start_accept and start_connect */
  function Start(c: Conn): Conn {
    RenewExpireTime(c.(reading := true, status := Open, started := true))
  }

  /** ok: the socket shutdown reported no error. */
  function DoClosing(c: Conn, ok: bool): Conn {
    if ok && c.status == Open then
      c.(status := Closing, keepTimer := c.keepTimer.Cancel(), reserveTimer := c.reserveTimer.Cancel(),
         posted := c.posted + 1)
    else c
  }

  function DoClose(c: Conn, ok: bool): Conn {
    if ok then
      c.(status := Close, keepTimer := c.keepTimer.Cancel(), reserveTimer := c.reserveTimer.Cancel(),
         closes := c.closes + 1)
    else c
  }

  /** Whether a read error is put back on the strand instead of closing. */
  predicate Retries(c: Conn, error: ReadError) {
    error == OtherError && 0 < c.pending && c.retries < RETRY_LIMIT
  }

  function OnRead(c: Conn, error: ReadError, data: seq<byte>, ok: bool): Conn {
    if error == NoError then OnReceived(c, data) else OnReadError(c, error, data, ok)
  }

  function OnReceived(c: Conn, data: seq<byte>): Conn {
    RenewExpireTime(c.(pending := Add32(c.pending, 1), strand := c.strand + [Dispatch(data)], reading := true,
                       received := c.received + [data]))
  }

  function OnReadError(c: Conn, error: ReadError, data: seq<byte>, ok: bool): Conn {
    var counted := if error == OtherError && 0 < c.pending then c.(retries := c.retries + 1) else c;
    if Retries(c, error) then counted.(strand := c.strand + [ReadHandler(error, data)])
    else DoClosing(counted, ok)
  }

  function OnWrite(c: Conn, failed: bool, ok: bool): Conn {
    if failed then DoClosing(c, ok) else RenewExpireTime(c)
  }

  /** MessageProcedure::dispatch; an exception of the parser skips the decrement, and noHandler of either receiver
      reserves a close. */
  function OnDispatch(c: Conn, data: seq<byte>): Conn {
    if c.status != Open then c.(refused := c.refused + [data])
    else Answer(OnParsed(c, data), c.parser(data).calls)
  }

  function OnParsed(c: Conn, data: seq<byte>): Conn {
    var r := c.parser(data);
    c.(parsed := c.parsed + [data], calls := c.calls + r.calls,
       pending := if r.outcome == Thrown then c.pending else Sub32(c.pending, 1))
  }

  function Answer(c: Conn, calls: seq<Call>): Conn {
    if HasNoHandler(calls) then CloseReserve(c) else c
  }

  predicate HasNoHandler(calls: seq<Call>) {
    exists i :: 0 <= i < |calls| && calls[i].route == NoHandler
  }

  function CloseReserve(c: Conn): Conn {
    c.(reserveTimer := c.reserveTimer.Rearm())
  }

  function OnReserveTime(c: Conn, expired: bool, ok: bool): Conn {
    if expired && c.status == Open then DoClose(c, ok) else c
  }

  /** onExpiredSession of either receiver reserves a close at once. */
  function OnKeepTime(c: Conn, expired: bool): Conn {
    if expired && c.status == Open then CloseReserve(c.(expirations := c.expirations + 1)) else c
  }

  // ---- The machine ----

  datatype Event =
    | Starts
    | ReadCompletes(error: ReadError, data: seq<byte>)
    | Sends                                 // async_write, from any handler or thread
    | WriteCompletes(failed: bool)
    | ReservesClose                         // closeReserve, from any handler or thread
    | KeepTimeCompletes(expired: bool)
    | ReserveTimeCompletes(expired: bool)
    | CloseArrives                          // the posted close reaches the strand
    | RunsTask(ok: bool)                    // the strand runs its first task; ok is the result of a shutdown in it

  predicate Enabled(c: Conn, e: Event) {
    match e
    case Starts => !c.started
    case ReadCompletes(_, data) => c.reading && |data| <= MAX_BUFFER_SIZE
    case WriteCompletes(_) => c.writes > 0
    case KeepTimeCompletes(expired) => c.keepTimer.CanComplete(expired)
    case ReserveTimeCompletes(expired) => c.reserveTimer.CanComplete(expired)
    case CloseArrives => c.posted > 0
    case RunsTask(_) => c.strand != []
    case Sends | ReservesClose => true
  }

  function Enqueue(c: Conn, task: Task): Conn {
    c.(strand := c.strand + [task])
  }

  function Advance(c: Conn, e: Event): Conn
    requires Enabled(c, e)
  {
    match e
    case Starts => Start(c)
    case ReadCompletes(error, data) => Enqueue(c.(reading := false), ReadHandler(error, data))
    case Sends => c.(writes := c.writes + 1)
    case WriteCompletes(failed) => Enqueue(c.(writes := c.writes - 1), WriteHandler(failed))
    case ReservesClose => CloseReserve(c)
    case KeepTimeCompletes(expired) =>
      Enqueue(c.(keepTimer := c.keepTimer.Completed(expired)), KeepTimeHandler(expired))
    case ReserveTimeCompletes(expired) =>
      Enqueue(c.(reserveTimer := c.reserveTimer.Completed(expired)), ReserveTimeHandler(expired))
    case CloseArrives => Enqueue(c.(posted := c.posted - 1), CloseHandler)
    case RunsTask(ok) => Execute(c.(strand := c.strand[1..]), c.strand[0], ok)
  }

  function Execute(c: Conn, task: Task, ok: bool): Conn {
    match task
    case ReadHandler(error, data) => OnRead(c, error, data, ok)
    case Dispatch(data) => OnDispatch(c, data)
    case WriteHandler(failed) => OnWrite(c, failed, ok)
    case CloseHandler => DoClose(c, ok)
    case KeepTimeHandler(expired) => OnKeepTime(c, expired)
    case ReserveTimeHandler(expired) => OnReserveTime(c, expired, ok)
  }

  /** Any finite run, whatever the errors, shutdown results and interleavings. */
  predicate IsRun(c: Conn, es: seq<Event>)
    decreases |es|
  {
    es == [] || (Enabled(c, es[0]) && IsRun(Advance(c, es[0]), es[1..]))
  }

  function After(c: Conn, es: seq<Event>): Conn
    requires IsRun(c, es)
    decreases |es|
  {
    if es == [] then c else After(Advance(c, es[0]), es[1..])
  }

  // ---- The invariant ----

  datatype Kind = Reads | Dispatches | Closes | Others

  function KindOf(t: Task): Kind {
    match t
    case ReadHandler(_, _) => Reads
    case Dispatch(_) => Dispatches
    case CloseHandler => Closes
    case _ => Others
  }

  function Count(q: seq<Task>, kind: Kind): nat {
    if q == [] then 0 else (if KindOf(q[0]) == kind then 1 else 0) + Count(q[1..], kind)
  }

  function QueuedData(q: seq<Task>): seq<seq<byte>> {
    if q == [] then [] else (if q[0].Dispatch? then [q[0].data] else []) + QueuedData(q[1..])
  }

  /** No dispatch waits behind a read handler. */
  predicate DispatchFirst(q: seq<Task>) {
    q == [] || (DispatchFirst(q[1..]) && (q[0].ReadHandler? ==> Count(q[1..], Dispatches) == 0))
  }

  function ThrownAmong(parser: seq<byte> -> Result, buffers: seq<seq<byte>>): nat {
    if buffers == [] then 0
    else ThrownAmong(parser, buffers[..|buffers| - 1]) +
         (if parser(buffers[|buffers| - 1]).outcome == Thrown then 1 else 0)
  }

  /** The calls of one parser run per buffer. */
  function CallsAmong(parser: seq<byte> -> Result, buffers: seq<seq<byte>>): seq<Call> {
    if buffers == [] then []
    else CallsAmong(parser, buffers[..|buffers| - 1]) + parser(buffers[|buffers| - 1]).calls
  }

  /** The number of dispatches that are queued or ended without the decrement. */
  function Undecremented(c: Conn): nat {
    Count(c.strand, Dispatches) + |c.refused| + ThrownAmong(c.parser, c.parsed)
  }

  /** A uint32_t counter after n increments. */
  function Wrapped(n: nat): u32 {
    if n == 0 then 0 else Add32(Wrapped(n - 1), 1)
  }

  ghost predicate StatusInv(c: Conn) {
    && (c.status != Close ==> c.started)
    && c.closes == (if c.started && c.status == Close then 1 else 0)
    && c.posted + Count(c.strand, Closes) <= (if c.status == Closing then 1 else 0)
  }

  ghost predicate ReadInv(c: Conn) {
    && (if c.reading then 1 else 0) + Count(c.strand, Reads) <= (if c.started then 1 else 0)
    && Count(c.strand, Dispatches) <= (if c.started then 1 else 0)
    && DispatchFirst(c.strand)
  }

  ghost predicate DataInv(c: Conn) {
    && c.received == c.parsed + c.refused + QueuedData(c.strand)
    && (c.refused != [] ==> c.status != Open)
    && c.calls == CallsAmong(c.parser, c.parsed)
    && (!c.started ==> c.received == [])
  }

  ghost predicate PendingInv(c: Conn) {
    c.pending == Wrapped(Undecremented(c))
  }

  ghost predicate Inv(c: Conn) {
    StatusInv(c) && ReadInv(c) && DataInv(c) && PendingInv(c)
  }

  // ---- Queue facts ----

  lemma {:induction false} CountAppend(q: seq<Task>, t: Task, kind: Kind)
    ensures Count(q + [t], kind) == Count(q, kind) + (if KindOf(t) == kind then 1 else 0)
  {
    if q != [] {
      assert (q + [t])[1..] == q[1..] + [t];
      CountAppend(q[1..], t, kind);
    }
  }

  lemma {:induction false} QueuedDataAppend(q: seq<Task>, t: Task)
    ensures QueuedData(q + [t]) == QueuedData(q) + (if t.Dispatch? then [t.data] else [])
  {
    if q != [] {
      assert (q + [t])[1..] == q[1..] + [t];
      QueuedDataAppend(q[1..], t);
    }
  }

  lemma {:induction false} QueuedDataCount(q: seq<Task>)
    ensures |QueuedData(q)| == Count(q, Dispatches)
  {
    if q != [] {
      QueuedDataCount(q[1..]);
    }
  }

  /** A task at the end keeps the order unless it is a dispatch behind a read handler. */
  lemma {:induction false} DispatchFirstAppend(q: seq<Task>, t: Task)
    requires DispatchFirst(q) && (t.Dispatch? ==> Count(q, Reads) == 0)
    ensures DispatchFirst(q + [t])
  {
    if q != [] {
      assert (q + [t])[1..] == q[1..] + [t];
      DispatchFirstAppend(q[1..], t);
      CountAppend(q[1..], t, Dispatches);
    } else {
      assert (q + [t])[1..] == [];
    }
  }

  lemma Enqueued(q: seq<Task>, t: Task)
    requires DispatchFirst(q) && (t.Dispatch? ==> Count(q, Reads) == 0)
    ensures forall kind :: Count(q + [t], kind) == Count(q, kind) + (if KindOf(t) == kind then 1 else 0)
    ensures QueuedData(q + [t]) == QueuedData(q) + (if t.Dispatch? then [t.data] else [])
    ensures DispatchFirst(q + [t])
  {
    forall kind ensures Count(q + [t], kind) == Count(q, kind) + (if KindOf(t) == kind then 1 else 0) {
      CountAppend(q, t, kind);
    }
    QueuedDataAppend(q, t);
    DispatchFirstAppend(q, t);
  }

  lemma WrappedSteps(n: nat)
    ensures Add32(Wrapped(n), 1) == Wrapped(n + 1)
    ensures n > 0 ==> Sub32(Wrapped(n), 1) == Wrapped(n - 1)
  {
  }

  lemma {:induction false} WrappedIsExact(n: nat)
    requires n < U32_MOD
    ensures Wrapped(n) == n
  {
    if n > 0 {
      WrappedIsExact(n - 1);
    }
  }

  lemma OneMoreParsed(parser: seq<byte> -> Result, buffers: seq<seq<byte>>, data: seq<byte>)
    ensures CallsAmong(parser, buffers + [data]) == CallsAmong(parser, buffers) + parser(data).calls
    ensures ThrownAmong(parser, buffers + [data])
            == ThrownAmong(parser, buffers) + (if parser(data).outcome == Thrown then 1 else 0)
  {
    assert (buffers + [data])[..|buffers|] == buffers;
  }

  // ---- Every step keeps the invariant ----

  lemma CreatedInv(parser: seq<byte> -> Result, keepAlive: bool)
    ensures Inv(Created(parser, keepAlive))
  {
  }

  lemma ClosingInv(c: Conn, ok: bool)
    requires Inv(c)
    ensures Inv(DoClosing(c, ok))
  {
  }

  lemma EnqueueInv(c: Conn, t: Task)
    requires Inv(c) && t != CloseHandler && !t.Dispatch?
    requires t.ReadHandler? ==> c.started && !c.reading && Count(c.strand, Reads) == 0
    ensures Inv(Enqueue(c, t))
  {
    Enqueued(c.strand, t);
  }

  /** The read handler at the head of the strand is the only one, and no dispatch is queued anywhere. */
  lemma AloneAtHead(c: Conn)
    requires Inv(c) && c.strand != [] && c.strand[0].ReadHandler?
    ensures c.started && !c.reading
    ensures Count(c.strand[1..], Reads) == 0 && Count(c.strand[1..], Dispatches) == 0 && QueuedData(c.strand) == []
  {
    QueuedDataCount(c.strand);
  }

  /** A buffer received: dispatched, and the next read armed. */
  lemma ReceivedInv(c: Conn, data: seq<byte>)
    requires Inv(c) && c.started && !c.reading
    requires Count(c.strand, Reads) == 0 && Count(c.strand, Dispatches) == 0 && QueuedData(c.strand) == []
    ensures Inv(OnReceived(c, data))
  {
    Enqueued(c.strand, Dispatch(data));
    WrappedSteps(Undecremented(c));
    assert c.received == c.parsed + c.refused;
    Associates(c.parsed, c.refused, [data]);
  }

  lemma ReadErrorInv(c: Conn, error: ReadError, data: seq<byte>, ok: bool)
    requires Inv(c) && c.started && !c.reading && Count(c.strand, Reads) == 0
    ensures Inv(OnReadError(c, error, data, ok))
  {
    var counted := if error == OtherError && 0 < c.pending then c.(retries := c.retries + 1) else c;
    QuietInv(c, counted);
    if Retries(c, error) {
      EnqueueInv(counted, ReadHandler(error, data));
    } else {
      ClosingInv(counted, ok);
    }
  }

  lemma ReadInvKept(c: Conn, ok: bool)
    requires Inv(c) && c.strand != [] && c.strand[0].ReadHandler?
    ensures Inv(Advance(c, RunsTask(ok)))
  {
    AloneAtHead(c);
    PopInv(c);
    var rest := c.(strand := c.strand[1..]);
    if c.strand[0].error == NoError {
      ReceivedInv(rest, c.strand[0].data);
    } else {
      ReadErrorInv(rest, c.strand[0].error, c.strand[0].data, ok);
    }
  }

  /** A dispatch at the head of the strand is the only one. */
  lemma OnlyDispatch(c: Conn)
    requires Inv(c) && c.strand != [] && c.strand[0].Dispatch?
    ensures c.started && Count(c.strand[1..], Dispatches) == 0 && QueuedData(c.strand[1..]) == []
    ensures c.received == c.parsed + c.refused + [c.strand[0].data]
    ensures c.pending == Wrapped(1 + |c.refused| + ThrownAmong(c.parser, c.parsed))
  {
    QueuedDataCount(c.strand[1..]);
  }

  lemma RefusedInv(c: Conn, ok: bool)
    requires Inv(c) && c.strand != [] && c.strand[0].Dispatch? && c.status != Open
    ensures Inv(Advance(c, RunsTask(ok)))
  {
    var c' := Advance(c, RunsTask(ok));
    OnlyDispatch(c);
    Associates(c.parsed, c.refused, [c.strand[0].data]);
    assert c'.parsed + c'.refused + [] == c'.parsed + c'.refused;
  }

  function ParsedHead(c: Conn): Conn
    requires c.strand != [] && c.strand[0].Dispatch?
  {
    OnParsed(c.(strand := c.strand[1..]), c.strand[0].data)
  }

  lemma ParsedKeepsRead(c: Conn)
    requires Inv(c) && c.strand != [] && c.strand[0].Dispatch? && c.status == Open
    ensures StatusInv(ParsedHead(c)) && ReadInv(ParsedHead(c))
  {
  }

  lemma ParsedKeepsData(c: Conn)
    requires Inv(c) && c.strand != [] && c.strand[0].Dispatch? && c.status == Open
    ensures DataInv(ParsedHead(c))
  {
    var c' := ParsedHead(c);
    OnlyDispatch(c);
    OneMoreParsed(c.parser, c.parsed, c.strand[0].data);
    assert c.parsed + c.refused == c.parsed && c'.parsed + c'.refused == c'.parsed;
    assert c'.parsed + [] == c'.parsed;
  }

  lemma ParsedKeepsPending(c: Conn)
    requires Inv(c) && c.strand != [] && c.strand[0].Dispatch? && c.status == Open
    ensures PendingInv(ParsedHead(c))
  {
    OnlyDispatch(c);
    OneMoreParsed(c.parser, c.parsed, c.strand[0].data);
    WrappedSteps(1 + ThrownAmong(c.parser, c.parsed));
  }

  lemma AnswerInv(c: Conn, calls: seq<Call>)
    requires Inv(c)
    ensures Inv(Answer(c, calls))
  {
    QuietInv(c, Answer(c, calls));
  }

  lemma DispatchInvKept(c: Conn, ok: bool)
    requires Inv(c) && c.strand != [] && c.strand[0].Dispatch?
    ensures Inv(Advance(c, RunsTask(ok)))
  {
    if c.status == Open {
      ParsedKeepsRead(c);
      ParsedKeepsData(c);
      ParsedKeepsPending(c);
      AnswerInv(ParsedHead(c), c.parser(c.strand[0].data).calls);
    } else {
      RefusedInv(c, ok);
    }
  }

  lemma PopInv(c: Conn)
    requires Inv(c) && c.strand != [] && KindOf(c.strand[0]) != Dispatches
    ensures Inv(c.(strand := c.strand[1..]))
  {
  }

  /** close, where no other close is on its way. */
  lemma CloseInv(c: Conn, ok: bool)
    requires Inv(c) && c.status != Close && c.posted + Count(c.strand, Closes) == 0
    ensures Inv(DoClose(c, ok))
  {
  }

  lemma CloseHandlerKeeps(c: Conn, ok: bool)
    requires Inv(c) && c.strand != [] && c.strand[0].CloseHandler?
    ensures c.status == Closing && Inv(Advance(c, RunsTask(ok)))
  {
    PopInv(c);
    CloseInv(c.(strand := c.strand[1..]), ok);
  }

  lemma OtherInvKept(c: Conn, ok: bool)
    requires Inv(c) && c.strand != [] && KindOf(c.strand[0]) == Others
    ensures Inv(Advance(c, RunsTask(ok)))
  {
    PopInv(c);
    var rest := c.(strand := c.strand[1..]);
    match c.strand[0]
    case WriteHandler(failed) =>
      ClosingInv(rest, ok);
      QuietInv(rest, RenewExpireTime(rest));
    case ReserveTimeHandler(expired) =>
      if expired && c.status == Open {
        CloseInv(rest, ok);
      }
    case KeepTimeHandler(expired) =>
      QuietInv(rest, OnKeepTime(rest, expired));
  }

  lemma RunsTaskInv(c: Conn, ok: bool)
    requires Inv(c) && c.strand != []
    ensures Inv(Advance(c, RunsTask(ok)))
  {
    if c.strand[0].ReadHandler? {
      ReadInvKept(c, ok);
    } else if c.strand[0].Dispatch? {
      DispatchInvKept(c, ok);
    } else if c.strand[0].CloseHandler? {
      CloseHandlerKeeps(c, ok);
    } else {
      OtherInvKept(c, ok);
    }
  }

  lemma CloseArrivesInv(c: Conn)
    requires Inv(c) && c.posted > 0
    ensures Inv(Advance(c, CloseArrives))
  {
    Enqueued(c.strand, CloseHandler);
  }

  lemma StartsInv(c: Conn)
    requires Inv(c) && !c.started
    ensures Inv(Advance(c, Starts))
  {
  }

  /** Writes, timers, retries and expirations play no part in the invariant. */
  lemma QuietInv(c: Conn, c': Conn)
    requires Inv(c)
    requires c' == c.(writes := c'.writes, keepTimer := c'.keepTimer, reserveTimer := c'.reserveTimer,
                      retries := c'.retries, expirations := c'.expirations)
    ensures Inv(c')
  {
  }

  lemma ReadCompletesInv(c: Conn, error: ReadError, data: seq<byte>)
    requires Inv(c) && c.reading
    ensures Inv(Enqueue(c.(reading := false), ReadHandler(error, data)))
  {
    EnqueueInv(c.(reading := false), ReadHandler(error, data));
  }

  lemma CompletionInv(c: Conn, c': Conn, t: Task)
    requires Inv(c) && KindOf(t) == Others
    requires c' == c.(writes := c'.writes, keepTimer := c'.keepTimer, reserveTimer := c'.reserveTimer)
    ensures Inv(Enqueue(c', t))
  {
    QuietInv(c, c');
    EnqueueInv(c', t);
  }

  lemma StepInv(c: Conn, e: Event)
    requires Inv(c) && Enabled(c, e)
    ensures Inv(Advance(c, e))
  {
    match e
    case Starts =>
      StartsInv(c);
    case ReadCompletes(error, data) =>
      ReadCompletesInv(c, error, data);
    case WriteCompletes(failed) =>
      CompletionInv(c, c.(writes := c.writes - 1), WriteHandler(failed));
    case KeepTimeCompletes(expired) =>
      CompletionInv(c, c.(keepTimer := c.keepTimer.Completed(expired)), KeepTimeHandler(expired));
    case ReserveTimeCompletes(expired) =>
      CompletionInv(c, c.(reserveTimer := c.reserveTimer.Completed(expired)), ReserveTimeHandler(expired));
    case CloseArrives =>
      CloseArrivesInv(c);
    case RunsTask(ok) =>
      RunsTaskInv(c, ok);
    case Sends | ReservesClose =>
      QuietInv(c, Advance(c, e));
  }

  lemma {:induction false} RunInv(c: Conn, es: seq<Event>)
    requires Inv(c) && IsRun(c, es)
    ensures Inv(After(c, es))
    decreases |es|
  {
    if es != [] {
      StepInv(c, es[0]);
      RunInv(Advance(c, es[0]), es[1..]);
    }
  }

  /** The calls one step makes. */
  function Made(c: Conn, e: Event): seq<Call>
    requires Enabled(c, e)
  {
    if e.RunsTask? && c.strand[0].Dispatch? && c.status == Open then c.parser(c.strand[0].data).calls else []
  }

  lemma CallsMade(c: Conn, e: Event)
    requires Enabled(c, e)
    ensures Advance(c, e).calls == c.calls + Made(c, e)
  {
    if e.RunsTask? {
      TaskCalls(c, e.ok);
    }
  }

  lemma TaskCalls(c: Conn, ok: bool)
    requires c.strand != []
    ensures Advance(c, RunsTask(ok)).calls == c.calls + Made(c, RunsTask(ok))
  {
    var rest := c.(strand := c.strand[1..]);
    match c.strand[0]
    case ReadHandler(error, data) => ReadCalls(rest, error, data, ok);
    case Dispatch(_) =>
    case task => assert Execute(rest, task, ok).calls == rest.calls;
  }

  lemma ReadCalls(c: Conn, error: ReadError, data: seq<byte>, ok: bool)
    ensures OnRead(c, error, data, ok).calls == c.calls
  {
  }

  // ---- Every run ----

  ghost predicate Reaches(parser: seq<byte> -> Result, keepAlive: bool, es: seq<Event>, c: Conn) {
    IsRun(Created(parser, keepAlive), es) && c == After(Created(parser, keepAlive), es)
  }

  lemma ReachedInv(parser: seq<byte> -> Result, keepAlive: bool, es: seq<Event>, c: Conn)
    requires Reaches(parser, keepAlive, es, c)
    ensures Inv(c)
  {
    CreatedInv(parser, keepAlive);
    RunInv(Created(parser, keepAlive), es);
  }

  lemma {:induction false} OneMoreStep(c: Conn, es: seq<Event>, e: Event)
    requires IsRun(c, es) && Enabled(After(c, es), e)
    ensures IsRun(c, es + [e]) && After(c, es + [e]) == Advance(After(c, es), e)
    decreases |es|
  {
    if es == [] {
      assert es + [e] == [e] && [e][1..] == [];
    } else {
      assert (es + [e])[1..] == es[1..] + [e];
      OneMoreStep(Advance(c, es[0]), es[1..], e);
    }
  }

  /** onClose fires at most once, and has fired exactly when a connection that was open is closed. */
  lemma OnCloseFiresOnce(parser: seq<byte> -> Result, keepAlive: bool, es: seq<Event>, c: Conn)
    requires Reaches(parser, keepAlive, es, c)
    ensures c.closes <= 1 && (c.closes == 1 <==> c.started && c.status == Close)
  {
    ReachedInv(parser, keepAlive, es, c);
  }

  /** created, open, closing, closed */
  function Stage(c: Conn): nat {
    if !c.started then 0 else match c.status case Open => 1 case Closing => 2 case Close => 3
  }

  /** The status only moves forward: nothing leads back to open. */
  lemma {:induction false} StageNeverFalls(c: Conn, es: seq<Event>)
    requires Inv(c) && IsRun(c, es)
    ensures Stage(c) <= Stage(After(c, es))
    decreases |es|
  {
    if es != [] {
      StepInv(c, es[0]);
      StageNeverFallsInStep(c, es[0]);
      StageNeverFalls(Advance(c, es[0]), es[1..]);
    }
  }

  lemma StageNeverFallsInStep(c: Conn, e: Event)
    requires Inv(c) && Enabled(c, e)
    ensures Stage(c) <= Stage(Advance(c, e))
  {
    if e.RunsTask? {
      StageNeverFallsInTask(c, e.ok);
    }
  }

  lemma StageNeverFallsInTask(c: Conn, ok: bool)
    requires StatusInv(c) && c.strand != []
    ensures Stage(c) <= Stage(Advance(c, RunsTask(ok)))
  {
  }

  /** What one step does to started and to the number of onClose calls. */
  lemma StepFacts(c: Conn, e: Event)
    requires Inv(c) && Enabled(c, e)
    ensures Advance(c, e).started <==> c.started || e.Starts?
    ensures c.closes <= Advance(c, e).closes <= 1
    ensures Advance(c, e).closes == 1 ==> Advance(c, e).started
  {
    StepInv(c, e);
    StageNeverFallsInStep(c, e);
  }

  /** At most one read outstanding or waiting to be handled, at most one buffer waiting to be parsed, and it waits in
      front of the next read's handler. */
  lemma OneReadOneDispatch(parser: seq<byte> -> Result, keepAlive: bool, es: seq<Event>, c: Conn)
    requires Reaches(parser, keepAlive, es, c)
    ensures (if c.reading then 1 else 0) + Count(c.strand, Reads) <= 1
    ensures Count(c.strand, Dispatches) <= 1 && DispatchFirst(c.strand)
  {
    ReachedInv(parser, keepAlive, es, c);
  }

  /** _readHandlerPending is the number of buffers queued, refused or lost to an exception of the parser; the decrement
      never meets an empty count. */
  lemma PendingCounts(parser: seq<byte> -> Result, keepAlive: bool, es: seq<Event>, c: Conn)
    requires Reaches(parser, keepAlive, es, c) && Undecremented(c) < U32_MOD
    ensures c.pending == Count(c.strand, Dispatches) + |c.refused| + ThrownAmong(parser, c.parsed)
    ensures c.strand != [] && c.strand[0].Dispatch? ==> c.pending > 0
  {
    ReachedInv(parser, keepAlive, es, c);
    ParserStays(Created(parser, keepAlive), es);
    WrappedIsExact(Undecremented(c));
  }

  lemma {:induction false} ParserStays(c: Conn, es: seq<Event>)
    requires IsRun(c, es)
    ensures After(c, es).parser == c.parser && After(c, es).keepAlive == c.keepAlive
    decreases |es|
  {
    if es != [] {
      StepKeepsSetup(c, es[0]);
      ParserStays(Advance(c, es[0]), es[1..]);
    }
  }

  lemma StepKeepsSetup(c: Conn, e: Event)
    requires Enabled(c, e)
    ensures Advance(c, e).parser == c.parser && Advance(c, e).keepAlive == c.keepAlive
  {
    if e.RunsTask? {
      TaskKeepsSetup(c.(strand := c.strand[1..]), c.strand[0], e.ok);
    }
  }

  ghost predicate SameSetup(c: Conn, c': Conn) {
    c'.parser == c.parser && c'.keepAlive == c.keepAlive && c'.started == c.started
  }

  lemma TaskKeepsSetup(c: Conn, task: Task, ok: bool)
    ensures SameSetup(c, Execute(c, task, ok))
  {
    match task
    case ReadHandler(error, data) => ReadKeepsSetup(c, error, data, ok);
    case Dispatch(data) => assert SameSetup(c, OnDispatch(c, data));
    case _ =>
  }

  lemma ReadKeepsSetup(c: Conn, error: ReadError, data: seq<byte>, ok: bool)
    ensures SameSetup(c, OnRead(c, error, data, ok))
  {
  }

  /** The buffers parsed are the first ones received, in order, and the handlers have been given exactly what one
      parser run per buffer makes of them. */
  lemma ParsedInArrivalOrder(parser: seq<byte> -> Result, keepAlive: bool, es: seq<Event>, c: Conn)
    requires Reaches(parser, keepAlive, es, c)
    ensures c.parsed <= c.received
    ensures c.calls == CallsAmong(parser, c.parsed)
  {
    ReachedInv(parser, keepAlive, es, c);
    ParserStays(Created(parser, keepAlive), es);
    Associates(c.parsed, c.refused, QueuedData(c.strand));
  }

  /** parser is the packet parser of the dialect. */
  ghost predicate Runs(parser: seq<byte> -> Result, d: Dialect) {
    forall s :: parser(s) == Parse(d, s)
  }

  /** With the packet parser of a dialect that is the fresh-buffer reading of the bytes received. */
  lemma {:induction false} CallsAreFreshCalls(parser: seq<byte> -> Result, d: Dialect, buffers: seq<seq<byte>>)
    requires Runs(parser, d)
    ensures CallsAmong(parser, buffers) == Chunks.FreshCalls(d, buffers)
    decreases |buffers|
  {
    if buffers != [] {
      var n := |buffers| - 1;
      CallsAreFreshCalls(parser, d, buffers[..n]);
      assert buffers == buffers[..n] + [buffers[n]];
      Chunks.FreshCallsAppend(d, buffers[..n], buffers[n]);
    }
  }

  /** When a read error is handled every buffer received before it has been through dispatch. */
  lemma ReadErrorComesLast(parser: seq<byte> -> Result, keepAlive: bool, es: seq<Event>, c: Conn)
    requires Reaches(parser, keepAlive, es, c)
    requires c.strand != [] && c.strand[0].ReadHandler?
    ensures c.received == c.parsed + c.refused
  {
    ReachedInv(parser, keepAlive, es, c);
    AloneAtHead(c);
  }

  /** The retries of read_handler wait for nothing: on an open connection whose parser has not thrown, a read error is
      never put back. It is put back exactly when its kind asks for it, tries are left, and some buffer was refused or
      threw. */
  lemma WhenReadErrorsAreRetried(parser: seq<byte> -> Result, keepAlive: bool, es: seq<Event>, c: Conn)
    requires Reaches(parser, keepAlive, es, c) && Undecremented(c) < U32_MOD
    requires c.strand != [] && c.strand[0].ReadHandler?
    ensures Retries(c, c.strand[0].error) <==>
              c.strand[0].error == OtherError && c.retries < 5
              && (c.refused != [] || ThrownAmong(parser, c.parsed) > 0)
    ensures c.status == Open && ThrownAmong(parser, c.parsed) == 0 ==> !Retries(c, c.strand[0].error)
  {
    ReachedInv(parser, keepAlive, es, c);
    AloneAtHead(c);
    PendingCounts(parser, keepAlive, es, c);
  }

  /** No close on its way on a closing connection: it stays so, and onClose never fires. */
  lemma {:induction false} StuckInClosing(c: Conn, es: seq<Event>)
    requires Inv(c) && c.status == Closing && c.posted + Count(c.strand, Closes) == 0
    requires IsRun(c, es)
    ensures After(c, es).status == Closing && After(c, es).closes == 0
    ensures After(c, es).posted + Count(After(c, es).strand, Closes) == 0
    decreases |es|
  {
    if es != [] {
      var c' := Advance(c, es[0]);
      StepInv(c, es[0]);
      StuckStep(c, es[0]);
      StuckInClosing(c', es[1..]);
    }
  }

  lemma StuckStep(c: Conn, e: Event)
    requires Inv(c) && c.status == Closing && c.posted + Count(c.strand, Closes) == 0 && Enabled(c, e)
    ensures var c' := Advance(c, e); c'.status == Closing && c'.posted + Count(c'.strand, Closes) == 0
  {
    match e
    case ReadCompletes(error, data) => CountAppend(c.strand, ReadHandler(error, data), Closes);
    case WriteCompletes(failed) => CountAppend(c.strand, WriteHandler(failed), Closes);
    case KeepTimeCompletes(expired) => CountAppend(c.strand, KeepTimeHandler(expired), Closes);
    case ReserveTimeCompletes(expired) => CountAppend(c.strand, ReserveTimeHandler(expired), Closes);
    case RunsTask(ok) => StuckTask(c, ok);
    case _ =>
  }

  lemma StuckTask(c: Conn, ok: bool)
    requires c.status == Closing && c.posted + Count(c.strand, Closes) == 0 && c.strand != []
    ensures var c' := Advance(c, RunsTask(ok)); c'.status == Closing && c'.posted + Count(c'.strand, Closes) == 0
  {
    if c.strand[0].ReadHandler? {
      CountAppend(c.strand[1..], Dispatch(c.strand[0].data), Closes);
      CountAppend(c.strand[1..], c.strand[0], Closes);
    }
  }

  /** The posted close decides: onClose fires in it exactly if its shutdown reports no error, and if it does report one
      then in no continuation whatever. */
  lemma PostedCloseDecides(parser: seq<byte> -> Result, keepAlive: bool, es: seq<Event>, c: Conn, ok: bool,
                           more: seq<Event>)
    requires Reaches(parser, keepAlive, es, c) && c.strand != [] && c.strand[0].CloseHandler?
    requires IsRun(Advance(c, RunsTask(ok)), more)
    ensures After(Advance(c, RunsTask(ok)), more).closes == 1 <==> ok
  {
    ReachedInv(parser, keepAlive, es, c);
    CloseHandlerKeeps(c, ok);
    var c' := Advance(c, RunsTask(ok));
    if ok {
      StageNeverFalls(c', more);
      RunInv(c', more);
    } else {
      StuckInClosing(c', more);
    }
  }

  /** Once a read error has been handled and not put back nothing is ever received again, in no continuation, whether
      or not closing succeeded; and everything received before has been through dispatch. */
  lemma ReadErrorEndsReading(parser: seq<byte> -> Result, keepAlive: bool, es: seq<Event>, c: Conn, ok: bool,
                             more: seq<Event>)
    requires Reaches(parser, keepAlive, es, c) && c.strand != [] && c.strand[0].ReadHandler?
    requires c.strand[0].error != NoError && !Retries(c, c.strand[0].error)
    requires IsRun(Advance(c, RunsTask(ok)), more)
    ensures After(Advance(c, RunsTask(ok)), more).received == c.received == c.parsed + c.refused
  {
    ReachedInv(parser, keepAlive, es, c);
    ReadErrorLeavesNoReader(c, ok);
    NothingIsReceived(Advance(c, RunsTask(ok)), more);
    ReadErrorComesLast(parser, keepAlive, es, c);
  }

  lemma {:induction false} NothingIsReceived(c: Conn, es: seq<Event>)
    requires c.started && !c.reading && Count(c.strand, Reads) == 0 && IsRun(c, es)
    ensures var c' := After(c, es);
            c'.received == c.received && !c'.reading && Count(c'.strand, Reads) == 0
    decreases |es|
  {
    if es != [] {
      NoReadStarts(c, es[0]);
      NothingIsReceived(Advance(c, es[0]), es[1..]);
    }
  }

  lemma NoReadStarts(c: Conn, e: Event)
    requires c.started && !c.reading && Count(c.strand, Reads) == 0 && Enabled(c, e)
    ensures var c' := Advance(c, e);
            c'.started && !c'.reading && Count(c'.strand, Reads) == 0 && c'.received == c.received
  {
    match e
    case WriteCompletes(failed) => CountAppend(c.strand, WriteHandler(failed), Reads);
    case KeepTimeCompletes(expired) => CountAppend(c.strand, KeepTimeHandler(expired), Reads);
    case ReserveTimeCompletes(expired) => CountAppend(c.strand, ReserveTimeHandler(expired), Reads);
    case CloseArrives => CountAppend(c.strand, CloseHandler, Reads);
    case _ =>
  }

  lemma ReadErrorLeavesNoReader(c: Conn, ok: bool)
    requires Inv(c) && c.strand != [] && c.strand[0].ReadHandler?
    requires c.strand[0].error != NoError && !Retries(c, c.strand[0].error)
    ensures var c' := Advance(c, RunsTask(ok));
            c'.started && !c'.reading && Count(c'.strand, Reads) == 0 && c'.received == c.received
  {
    AloneAtHead(c);
  }

  /** No buffer on the strand is longer than the MessageBuffer it was read into. */
  ghost predicate BuffersFit(c: Conn) {
    forall i | 0 <= i < |c.strand| ::
      c.strand[i].ReadHandler? || c.strand[i].Dispatch? ==> |c.strand[i].data| <= MAX_BUFFER_SIZE
  }

  lemma {:induction false} BuffersAlwaysFit(c: Conn, es: seq<Event>)
    requires BuffersFit(c) && IsRun(c, es)
    ensures BuffersFit(After(c, es))
    decreases |es|
  {
    if es != [] {
      if es[0].RunsTask? {
        TaskKeepsBuffersFit(c, es[0].ok);
      }
      BuffersAlwaysFit(Advance(c, es[0]), es[1..]);
    }
  }

  lemma TaskKeepsBuffersFit(c: Conn, ok: bool)
    requires BuffersFit(c) && c.strand != []
    ensures BuffersFit(Advance(c, RunsTask(ok)))
  {
    var rest := c.(strand := c.strand[1..]);
    assert BuffersFit(rest);
    match c.strand[0]
    case ReadHandler(error, data) => ReadKeepsBuffersFit(rest, error, data, ok);
    case task => OthersPostNothing(rest, task, ok);
  }

  /** Only read_handler posts to the strand. */
  lemma OthersPostNothing(c: Conn, task: Task, ok: bool)
    requires !task.ReadHandler?
    ensures Execute(c, task, ok).strand == c.strand
  {
  }

  lemma ReadKeepsBuffersFit(c: Conn, error: ReadError, data: seq<byte>, ok: bool)
    requires BuffersFit(c) && |data| <= MAX_BUFFER_SIZE
    ensures BuffersFit(OnRead(c, error, data, ok))
  {
  }
}
