/** Where the waits of the two deadline timers come from and where they go, and how often a read error is put back. */
module TimerAccounts {
  import opened Bytes
  import opened Framing
  import opened Lifecycle

  // ---- Stopping ----

  /** Every wait that ran has been cancelled, and none runs. */
  predicate Stopped(t: Timer, t': Timer) {
    t' == Timer(0, t.cancelled + t.waits)
  }

  /** Every wait that ran has been cancelled, and one runs. */
  predicate Restarted(t: Timer, t': Timer) {
    t' == Timer(1, t.cancelled + t.waits)
  }

  predicate StopsBoth(c: Conn, c': Conn) {
    Stopped(c.keepTimer, c'.keepTimer) && Stopped(c.reserveTimer, c'.reserveTimer)
  }

  /** Whatever makes a started connection closing or closed stops both timers. */
  lemma LeavingStopsTimers(c: Conn, e: Event)
    requires Enabled(c, e) && c.started
    ensures Advance(c, e).status != c.status ==> StopsBoth(c, Advance(c, e))
  {
    if e.RunsTask? {
      TaskStopsTimers(c.(strand := c.strand[1..]), c.strand[0], e.ok);
    }
  }

  lemma TaskStopsTimers(c: Conn, task: Task, ok: bool)
    requires c.started
    ensures Execute(c, task, ok).status != c.status ==> StopsBoth(c, Execute(c, task, ok))
    ensures task.CloseHandler? && ok ==> StopsBoth(c, Execute(c, task, ok))
  {
    match task
    case ReadHandler(error, data) => ReadStopsTimers(c, error, data, ok);
    case _ =>
  }

  lemma ReadStopsTimers(c: Conn, error: ReadError, data: seq<byte>, ok: bool)
    ensures OnRead(c, error, data, ok).status != c.status ==> StopsBoth(c, OnRead(c, error, data, ok))
  {
  }

  /** In every run: a step that ends an open connection, and a posted close whose shutdown succeeds, leave no deadline
      running. */
  lemma EndsStopTimers(parser: seq<byte> -> Result, keepAlive: bool, es: seq<Event>, c: Conn, e: Event)
    requires Reaches(parser, keepAlive, es, c) && c.started && Enabled(c, e)
    ensures var c' := Advance(c, e);
            && (c'.status != c.status ==> c'.keepTimer.waits == 0 && c'.reserveTimer.waits == 0)
            && (e == RunsTask(true) && c.strand[0].CloseHandler? ==>
                  c'.status == Close && c'.keepTimer.waits == 0 && c'.reserveTimer.waits == 0)
  {
    ReachedInv(parser, keepAlive, es, c);
    LeavingStopsTimers(c, e);
    if e == RunsTask(true) {
      TaskStopsTimers(c.(strand := c.strand[1..]), c.strand[0], true);
    }
  }

  // ---- The account of the keep-alive timer ----

  /** Waits that have yet to complete, one way or the other. */
  function Outstanding(t: Timer): nat {
    t.waits + t.cancelled
  }

  /** start_accept or start_connect, a read without error handled, a successful write handled. */
  predicate Renews(c: Conn, e: Event)
    requires Enabled(c, e)
  {
    || e.Starts?
    || (e.RunsTask? && ((c.strand[0].ReadHandler? && c.strand[0].error == NoError)
                        || c.strand[0] == WriteHandler(false)))
  }

  lemma RenewalRestarts(c: Conn, e: Event)
    requires Enabled(c, e) && c.keepAlive && Renews(c, e)
    ensures Restarted(c.keepTimer, Advance(c, e).keepTimer)
  {
  }

  function Renewals(c: Conn, es: seq<Event>): nat
    requires IsRun(c, es)
    decreases |es|
  {
    if es == [] then 0 else (if Renews(c, es[0]) then 1 else 0) + Renewals(Advance(c, es[0]), es[1..])
  }

  function KeepCompletions(es: seq<Event>): nat {
    if es == [] then 0 else (if es[0].KeepTimeCompletes? then 1 else 0) + KeepCompletions(es[1..])
  }

  lemma KeepStep(c: Conn, e: Event)
    requires Enabled(c, e)
    ensures Outstanding(Advance(c, e).keepTimer) + (if e.KeepTimeCompletes? then 1 else 0)
            == Outstanding(c.keepTimer) + (if c.keepAlive && Renews(c, e) then 1 else 0)
  {
    if e.RunsTask? {
      KeepTask(c.(strand := c.strand[1..]), c.strand[0], e.ok);
    }
  }

  lemma KeepTask(c: Conn, task: Task, ok: bool)
    ensures Outstanding(Execute(c, task, ok).keepTimer)
            == Outstanding(c.keepTimer)
               + (if c.keepAlive && ((task.ReadHandler? && task.error == NoError) || task == WriteHandler(false))
                  then 1 else 0)
  {
    match task
    case ReadHandler(error, data) => KeepRead(c, error, data, ok);
    case _ =>
  }

  lemma KeepRead(c: Conn, error: ReadError, data: seq<byte>, ok: bool)
    ensures Outstanding(OnRead(c, error, data, ok).keepTimer)
            == Outstanding(c.keepTimer) + (if c.keepAlive && error == NoError then 1 else 0)
  {
  }

  lemma {:induction false} KeepFrom(c: Conn, es: seq<Event>)
    requires IsRun(c, es)
    ensures Outstanding(After(c, es).keepTimer) + KeepCompletions(es)
            == Outstanding(c.keepTimer) + (if c.keepAlive then Renewals(c, es) else 0)
    decreases |es|
  {
    if es != [] {
      KeepStep(c, es[0]);
      StepKeepsSetup(c, es[0]);
      KeepFrom(Advance(c, es[0]), es[1..]);
    }
  }

  /** In every run of a connection with a keep-alive time the waits running, cancelled or completed are one for its
      creation and one for each start, each read without error and each successful write handled: nothing else renews
      the deadline, and none of these fails to. Without a keep-alive time there are none. */
  lemma KeepAccount(parser: seq<byte> -> Result, keepAlive: bool, es: seq<Event>, c: Conn)
    requires Reaches(parser, keepAlive, es, c)
    ensures c.keepTimer.waits + c.keepTimer.cancelled + KeepCompletions(es)
            == if keepAlive then 1 + Renewals(Created(parser, true), es) else 0
  {
    KeepFrom(Created(parser, keepAlive), es);
  }

  // ---- The account of the reservations ----

  /** closeReserve is called from outside, by onExpiredSession, or by noHandler. */
  predicate Reserves(c: Conn, e: Event)
    requires Enabled(c, e)
  {
    || e.ReservesClose?
    || (e.RunsTask? && c.status == Open && TaskReserves(c, c.strand[0]))
  }

  predicate TaskReserves(c: Conn, task: Task) {
    || task == KeepTimeHandler(true)
    || (task.Dispatch? && exists call <- c.parser(task.data).calls :: call.route == NoHandler)
  }

  function Reservations(c: Conn, es: seq<Event>): nat
    requires IsRun(c, es)
    decreases |es|
  {
    if es == [] then 0 else (if Reserves(c, es[0]) then 1 else 0) + Reservations(Advance(c, es[0]), es[1..])
  }

  function ReserveCompletions(es: seq<Event>): nat {
    if es == [] then 0 else (if es[0].ReserveTimeCompletes? then 1 else 0) + ReserveCompletions(es[1..])
  }

  lemma ReserveStep(c: Conn, e: Event)
    requires Enabled(c, e)
    ensures Outstanding(Advance(c, e).reserveTimer) + (if e.ReserveTimeCompletes? then 1 else 0)
            == Outstanding(c.reserveTimer) + (if Reserves(c, e) then 1 else 0)
  {
    if e.RunsTask? {
      ReserveTask(c.(strand := c.strand[1..]), c.strand[0], e.ok);
    }
  }

  lemma ReserveTask(c: Conn, task: Task, ok: bool)
    ensures Outstanding(Execute(c, task, ok).reserveTimer)
            == Outstanding(c.reserveTimer) + (if c.status == Open && TaskReserves(c, task) then 1 else 0)
  {
    match task
    case ReadHandler(error, data) => ReserveRead(c, error, data, ok);
    case _ =>
  }

  lemma ReserveRead(c: Conn, error: ReadError, data: seq<byte>, ok: bool)
    ensures Outstanding(OnRead(c, error, data, ok).reserveTimer) == Outstanding(c.reserveTimer)
  {
  }

  lemma {:induction false} ReserveFrom(c: Conn, es: seq<Event>)
    requires IsRun(c, es)
    ensures Outstanding(After(c, es).reserveTimer) + ReserveCompletions(es)
            == Outstanding(c.reserveTimer) + Reservations(c, es)
    decreases |es|
  {
    if es != [] {
      ReserveStep(c, es[0]);
      ReserveFrom(Advance(c, es[0]), es[1..]);
    }
  }

  /** In every run the reservations running, cancelled or completed are the calls of closeReserve. */
  lemma ReserveAccount(parser: seq<byte> -> Result, keepAlive: bool, es: seq<Event>, c: Conn)
    requires Reaches(parser, keepAlive, es, c)
    ensures c.reserveTimer.waits + c.reserveTimer.cancelled + ReserveCompletions(es)
            == Reservations(Created(parser, keepAlive), es)
  {
    ReserveFrom(Created(parser, keepAlive), es);
  }

  // ---- The account of the writes ----

  function SendsIn(es: seq<Event>): nat {
    if es == [] then 0 else (if es[0].Sends? then 1 else 0) + SendsIn(es[1..])
  }

  function WriteCompletions(es: seq<Event>): nat {
    if es == [] then 0 else (if es[0].WriteCompletes? then 1 else 0) + WriteCompletions(es[1..])
  }

  lemma WritesStay(c: Conn, ok: bool)
    requires c.strand != []
    ensures Advance(c, RunsTask(ok)).writes == c.writes
  {
    var rest := c.(strand := c.strand[1..]);
    match c.strand[0]
    case ReadHandler(error, data) => ReadWrites(rest, error, data, ok);
    case task => assert Execute(rest, task, ok).writes == rest.writes;
  }

  lemma ReadWrites(c: Conn, error: ReadError, data: seq<byte>, ok: bool)
    ensures OnRead(c, error, data, ok).writes == c.writes
  {
  }

  /** Every async_write completes once or is outstanding. */
  lemma {:induction false} WriteAccount(c: Conn, es: seq<Event>)
    requires IsRun(c, es)
    ensures After(c, es).writes + WriteCompletions(es) == c.writes + SendsIn(es)
    decreases |es|
  {
    if es != [] {
      if es[0].RunsTask? {
        WritesStay(c, es[0].ok);
      }
      WriteAccount(Advance(c, es[0]), es[1..]);
    }
  }

  // ---- Read errors put back ----

  /** The strand's first task is a read error, and afterwards it is the last. */
  predicate PutsBack(c: Conn, e: Event)
    requires Enabled(c, e)
  {
    && e.RunsTask? && c.strand[0].ReadHandler? && c.strand[0].error != NoError
    && Advance(c, e).strand == c.strand[1..] + [c.strand[0]]
  }

  function PutBacks(c: Conn, es: seq<Event>): nat
    requires IsRun(c, es)
    decreases |es|
  {
    if es == [] then 0 else (if PutsBack(c, es[0]) then 1 else 0) + PutBacks(Advance(c, es[0]), es[1..])
  }

  /** The counter counts them, and once more when it lets no other through. */
  ghost predicate Counted(c: Conn, putBacks: nat) {
    || (putBacks == c.retries && c.retries <= 5)
    || (putBacks == 5 && c.retries == 6 && c.started && !c.reading && Count(c.strand, Reads) == 0)
  }

  lemma CountedStep(c: Conn, e: Event, putBacks: nat)
    requires Inv(c) && Counted(c, putBacks) && Enabled(c, e)
    ensures Counted(Advance(c, e), putBacks + (if PutsBack(c, e) then 1 else 0))
  {
    if e.RunsTask? && c.strand[0].ReadHandler? {
      AloneAtHead(c);
      CountedTask(c, e.ok, putBacks);
    } else {
      RetriesStay(c, e);
      if c.retries == 6 {
        NoReadStarts(c, e);
      }
    }
  }

  lemma CountedTask(c: Conn, ok: bool, putBacks: nat)
    requires c.started && !c.reading && c.strand != [] && c.strand[0].ReadHandler?
    requires Count(c.strand[1..], Reads) == 0 && putBacks == c.retries <= 5
    ensures Counted(Advance(c, RunsTask(ok)), putBacks + (if PutsBack(c, RunsTask(ok)) then 1 else 0))
  {
    assert |c.strand[1..] + [c.strand[0]]| == |c.strand[1..]| + 1;
  }

  lemma RetriesStay(c: Conn, e: Event)
    requires Enabled(c, e) && (e.RunsTask? ==> !c.strand[0].ReadHandler?)
    ensures Advance(c, e).retries == c.retries
  {
  }

  lemma {:induction false} CountedFrom(c: Conn, es: seq<Event>, putBacks: nat)
    requires Inv(c) && Counted(c, putBacks) && IsRun(c, es)
    ensures Counted(After(c, es), putBacks + PutBacks(c, es))
    decreases |es|
  {
    if es != [] {
      StepInv(c, es[0]);
      CountedStep(c, es[0], putBacks);
      CountedFrom(Advance(c, es[0]), es[1..], putBacks + (if PutsBack(c, es[0]) then 1 else 0));
    }
  }

  /** A connection puts read errors back at most five times in all, and counts each; a sixth count is its last, and it
      reads no more. */
  lemma RetriesAreBounded(parser: seq<byte> -> Result, keepAlive: bool, es: seq<Event>, c: Conn)
    requires Reaches(parser, keepAlive, es, c)
    ensures PutBacks(Created(parser, keepAlive), es) == if c.retries > 5 then 5 else c.retries
    ensures c.retries <= 6 && (c.retries == 6 ==> !c.reading && Count(c.strand, Reads) == 0)
  {
    CreatedInv(parser, keepAlive);
    CountedFrom(Created(parser, keepAlive), es, 0);
  }
}
