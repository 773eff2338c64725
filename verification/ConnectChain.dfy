/** net/netServiceConnector's connectWait: what becomes of each chain of connects, whatever the receiver does. */
module ConnectChain {
  import opened BrokerLink

  /** onConnect calls still to come. */
  function Owed(s: Session): nat {
    match s.phase
    case Connecting(remain) => 1 + remain
    case Started(remain) => 1 + remain
    case Reported => 0
    case Failed => 0
  }

  function OwedIn(chain: nat): Session -> nat {
    (s: Session) => if s.chain == chain then Owed(s) else 0
  }

  function PendingIn(chain: nat): Session -> nat {
    (s: Session) => if s.chain == chain && (s.phase.Connecting? || s.phase.Started?) then 1 else 0
  }

  predicate IsIn(s: seq<Session>, i: nat, chain: nat) {
    i < |s| && s[i].chain == chain
  }

  /** onConnect calls made for the sessions of a chain. */
  function Connected(log: seq<Notice>, s: seq<Session>, chain: nat): nat {
    if log == [] then 0
    else
      var last := log[|log| - 1];
      Connected(log[..|log| - 1], s, chain) + (if last.OnConnect? && IsIn(s, last.index, chain) then 1 else 0)
  }

  function Failures(log: seq<Notice>, s: seq<Session>, chain: nat): nat {
    if log == [] then 0
    else
      var last := log[|log| - 1];
      Failures(log[..|log| - 1], s, chain) + (if last.OnConnectFailed? && IsIn(s, last.index, chain) then 1 else 0)
  }

  function OwedBy(w: World, chain: nat): nat {
    Total(OwedIn(chain), w.sessions)
  }

  function ConnectedBy(w: World, chain: nat): nat {
    Connected(w.log, w.sessions, chain)
  }

  function FailuresOf(w: World, chain: nat): nat {
    Failures(w.log, w.sessions, chain)
  }

  // ---- The log of a step ----

  ghost predicate InRange(log: seq<Notice>, s: seq<Session>) {
    forall k | 0 <= k < |log| :: log[k].index < |s|
  }

  predicate SameChains(s: seq<Session>, s': seq<Session>) {
    |s| <= |s'| && forall i | 0 <= i < |s| :: s'[i].chain == s[i].chain
  }

  lemma {:induction false} CountsStay(log: seq<Notice>, s: seq<Session>, s': seq<Session>, chain: nat)
    requires InRange(log, s) && SameChains(s, s')
    ensures Connected(log, s', chain) == Connected(log, s, chain)
    ensures Failures(log, s', chain) == Failures(log, s, chain)
  {
    if log != [] {
      CountsStay(log[..|log| - 1], s, s', chain);
    }
  }

  lemma StepChains(w: World, e: Event)
    requires Enabled(w, e)
    ensures SameChains(w.sessions, Happen(w, e).sessions)
    ensures InRange(w.log, w.sessions) ==> InRange(Happen(w, e).log, Happen(w, e).sessions)
  {
    StepSessions(w, e);
    StepLog(w, e);
  }

  lemma StepCounts(w: World, e: Event, chain: nat)
    requires Enabled(w, e) && InRange(w.log, w.sessions)
    ensures var here := w.sessions[e.i].chain == chain;
            && ConnectedBy(Happen(w, e), chain) == ConnectedBy(w, chain) + (if e.Reports? && here then 1 else 0)
            && FailuresOf(Happen(w, e), chain) == FailuresOf(w, chain) + (if e.ConnectFails? && here then 1 else 0)
  {
    StepChains(w, e);
    StepLog(w, e);
    CountsStay(w.log, w.sessions, Happen(w, e).sessions, chain);
    var n := Noticed(w, e);
    if n != [] {
      assert (w.log + n)[..|w.log|] == w.log;
    }
  }

  // ---- The account of a chain ----

  /** The owed onConnect calls that a failure takes away. */
  function Lost(w: World, e: Event): nat
    requires Enabled(w, e)
  {
    match e
    case ConnectFails(i, _) => Owed(w.sessions[i])
    case Reports(i, throws) => if throws then w.sessions[i].phase.remain else 0
    case _ => 0
  }

  /** A connect of the chain fails, or going on with it throws. */
  predicate Breaks(w: World, e: Event, chain: nat)
    requires Enabled(w, e)
  {
    w.sessions[e.i].chain == chain && (e.ConnectFails? || (e.Reports? && e.throws))
  }

  predicate Unbroken(w: World, es: seq<Event>, chain: nat)
    requires IsHistory(w, es)
    decreases |es|
  {
    es == [] || (!Breaks(w, es[0], chain) && Unbroken(Happen(w, es[0]), es[1..], chain))
  }

  lemma OwedStep(w: World, e: Event, chain: nat)
    requires Enabled(w, e) && chain < |w.sessions|
    ensures OwedBy(Happen(w, e), chain) + (if e.Reports? && w.sessions[e.i].chain == chain then 1 else 0)
            == OwedBy(w, chain) - (if w.sessions[e.i].chain == chain then Lost(w, e) else 0)
  {
    StepTotal(OwedIn(chain), w, e);
  }

  lemma LostMeansBroken(w: World, e: Event, chain: nat)
    requires Enabled(w, e) && w.sessions[e.i].chain == chain
    ensures Lost(w, e) > 0 <==> Breaks(w, e, chain)
  {
  }

  /** Whatever the receiver does and other chains meet, the onConnect calls a chain has made and those it owes stay the
      same in total exactly while it is unbroken, and only fall. */
  lemma {:induction false} ChainFrom(w: World, es: seq<Event>, chain: nat)
    requires IsHistory(w, es) && chain < |w.sessions| && InRange(w.log, w.sessions)
    ensures var w' := Later(w, es);
            && OwedBy(w', chain) + ConnectedBy(w', chain) <= OwedBy(w, chain) + ConnectedBy(w, chain)
            && (OwedBy(w', chain) + ConnectedBy(w', chain) == OwedBy(w, chain) + ConnectedBy(w, chain)
                <==> Unbroken(w, es, chain))
    decreases |es|
  {
    if es != [] {
      StepChains(w, es[0]);
      StepCounts(w, es[0], chain);
      OwedStep(w, es[0], chain);
      if w.sessions[es[0].i].chain == chain {
        LostMeansBroken(w, es[0], chain);
      }
      ChainFrom(Happen(w, es[0]), es[1..], chain);
    }
  }

  lemma BegunOwes(setup: Setup, n: nat)
    requires 0 < n
    ensures OwedBy(Begun(setup, n), 0) == n && ConnectedBy(Begun(setup, n), 0) == 0
  {
    var x := NewSession(setup, n, 0);
    assert Begun(setup, n).sessions == [] + [x];
    TotalAppend(OwedIn(0), [], x);
  }

  /** connectWait(n), whether or not its receiver reconnects: onConnect calls made and owed by its chain never exceed n,
      and total n exactly while no connect of it has failed and going on with it has not thrown. */
  lemma ChainAccounts(setup: Setup, n: nat, es: seq<Event>)
    requires 0 < n && IsHistory(Begun(setup, n), es)
    ensures var w := Later(Begun(setup, n), es);
            && OwedBy(w, 0) + ConnectedBy(w, 0) <= n
            && (OwedBy(w, 0) + ConnectedBy(w, 0) == n <==> Unbroken(Begun(setup, n), es, 0))
  {
    BegunOwes(setup, n);
    ChainFrom(Begun(setup, n), es, 0);
  }

  /** A chain that is over has made exactly n onConnect calls if and only if it was unbroken. */
  lemma FinishedChain(setup: Setup, n: nat, es: seq<Event>)
    requires 0 < n && IsHistory(Begun(setup, n), es) && OwedBy(Later(Begun(setup, n), es), 0) == 0
    ensures ConnectedBy(Later(Begun(setup, n), es), 0) == n <==> Unbroken(Begun(setup, n), es, 0)
  {
    ChainAccounts(setup, n, es);
  }

  // ---- A failure stops its chain ----

  /** Chains are named by their first session, and at most one connect of each is pending. */
  ghost predicate ChainsInv(w: World) {
    && InRange(w.log, w.sessions)
    && (forall i | 0 <= i < |w.sessions| :: w.sessions[i].chain <= i)
    && (forall chain: nat :: Total(PendingIn(chain), w.sessions) <= 1)
  }

  lemma {:induction false} NoneYet(s: seq<Session>, chain: nat)
    requires forall i | 0 <= i < |s| :: s[i].chain != chain
    ensures Total(PendingIn(chain), s) == 0
  {
    if s != [] {
      NoneYet(s[..|s| - 1], chain);
    }
  }

  lemma PendingStep(w: World, e: Event, chain: nat)
    requires ChainsInv(w) && Enabled(w, e)
    ensures Total(PendingIn(chain), Happen(w, e).sessions) <= 1
    ensures chain < |w.sessions| ==>
              Total(PendingIn(chain), Happen(w, e).sessions) <= Total(PendingIn(chain), w.sessions)
    ensures chain == w.sessions[e.i].chain && e.ConnectFails? ==>
              Total(PendingIn(chain), Happen(w, e).sessions) == 0
  {
    StepTotal(PendingIn(chain), w, e);
    TotalCovers(PendingIn(chain), w.sessions, e.i);
    if chain == |w.sessions| {
      NoneYet(w.sessions, chain);
    }
  }

  lemma ChainsStep(w: World, e: Event)
    requires ChainsInv(w) && Enabled(w, e)
    ensures ChainsInv(Happen(w, e))
  {
    StepChains(w, e);
    StepSessions(w, e);
    forall chain: nat ensures Total(PendingIn(chain), Happen(w, e).sessions) <= 1 {
      PendingStep(w, e, chain);
    }
  }

  lemma {:induction false} ChainsRun(w: World, es: seq<Event>)
    requires ChainsInv(w) && IsHistory(w, es)
    ensures ChainsInv(Later(w, es))
    decreases |es|
  {
    if es != [] {
      ChainsStep(w, es[0]);
      ChainsRun(Happen(w, es[0]), es[1..]);
    }
  }

  lemma BegunChains(setup: Setup, n: nat)
    requires 0 < n
    ensures ChainsInv(Begun(setup, n))
  {
    var x := NewSession(setup, n, 0);
    assert Begun(setup, n).sessions == [] + [x];
    forall chain: nat ensures Total(PendingIn(chain), Begun(setup, n).sessions) <= 1 {
      TotalAppend(PendingIn(chain), [], x);
    }
  }

  /** In every history of connectWait(n), reconnecting or not: a failed connect is reported once and stops its chain;
      whatever follows, the chain makes no further onConnect or onConnectFailed call. */
  lemma FailureStopsTheChain(setup: Setup, n: nat, es: seq<Event>, e: Event, more: seq<Event>)
    requires 0 < n && IsHistory(Begun(setup, n), es) && e.ConnectFails? && Enabled(Later(Begun(setup, n), es), e)
    requires IsHistory(Happen(Later(Begun(setup, n), es), e), more)
    ensures var w := Later(Begun(setup, n), es);
            var w' := Later(Happen(w, e), more);
            var chain := w.sessions[e.i].chain;
            && ConnectedBy(w', chain) == ConnectedBy(w, chain)
            && FailuresOf(w', chain) == FailuresOf(w, chain) + 1
  {
    var w := Later(Begun(setup, n), es);
    BegunChains(setup, n);
    ChainsRun(Begun(setup, n), es);
    FailureStops(w, e, more);
  }

  lemma FailureStops(w: World, e: Event, more: seq<Event>)
    requires ChainsInv(w) && e.ConnectFails? && Enabled(w, e) && IsHistory(Happen(w, e), more)
    ensures var w' := Later(Happen(w, e), more);
            var chain := w.sessions[e.i].chain;
            && ConnectedBy(w', chain) == ConnectedBy(w, chain)
            && FailuresOf(w', chain) == FailuresOf(w, chain) + 1
  {
    var chain := w.sessions[e.i].chain;
    StepCounts(w, e, chain);
    StepChains(w, e);
    ChainsStep(w, e);
    PendingStep(w, e, chain);
    Quiet(Happen(w, e), more, chain);
  }

  lemma {:induction false} Quiet(w: World, es: seq<Event>, chain: nat)
    requires ChainsInv(w) && chain < |w.sessions| && Total(PendingIn(chain), w.sessions) == 0 && IsHistory(w, es)
    ensures var w' := Later(w, es);
            ConnectedBy(w', chain) == ConnectedBy(w, chain) && FailuresOf(w', chain) == FailuresOf(w, chain)
    decreases |es|
  {
    if es != [] {
      var e := es[0];
      TotalCovers(PendingIn(chain), w.sessions, e.i);
      StepCounts(w, e, chain);
      StepChains(w, e);
      ChainsStep(w, e);
      PendingStep(w, e, chain);
      Quiet(Happen(w, e), es[1..], chain);
    }
  }

  // ---- The account of the whole link ----

  /** The connects the receiver asks for: new chains. */
  function Renewed(w: World, es: seq<Event>): nat
    requires IsHistory(w, es)
    decreases |es|
  {
    if es == [] then 0
    else (if es[0].Reports? then 0 else Asks(w, es[0])) + Renewed(Happen(w, es[0]), es[1..])
  }

  function LostAll(w: World, es: seq<Event>): nat
    requires IsHistory(w, es)
    decreases |es|
  {
    if es == [] then 0 else Lost(w, es[0]) + LostAll(Happen(w, es[0]), es[1..])
  }

  function AllConnected(log: seq<Notice>): nat {
    if log == [] then 0 else AllConnected(log[..|log| - 1]) + (if log[|log| - 1].OnConnect? then 1 else 0)
  }

  lemma StepConnected(w: World, e: Event)
    requires Enabled(w, e)
    ensures AllConnected(Happen(w, e).log) == AllConnected(w.log) + (if e.Reports? then 1 else 0)
  {
    StepLog(w, e);
    if Noticed(w, e) != [] {
      assert (w.log + Noticed(w, e))[..|w.log|] == w.log;
    }
  }

  lemma LinkStep(w: World, e: Event)
    requires Enabled(w, e)
    ensures Total(Owed, Happen(w, e).sessions) + (if e.Reports? then 1 else 0) + Lost(w, e)
            == Total(Owed, w.sessions) + (if e.Reports? then 0 else Asks(w, e))
  {
    StepTotal(Owed, w, e);
  }

  /** All chains together: onConnect calls made and owed are those owed at first and those of renewed connects, less what
      failures took away. */
  lemma {:induction false} LinkAccounts(w: World, es: seq<Event>)
    requires IsHistory(w, es)
    ensures var w' := Later(w, es);
            Total(Owed, w'.sessions) + AllConnected(w'.log) + LostAll(w, es)
            == Total(Owed, w.sessions) + AllConnected(w.log) + Renewed(w, es)
    decreases |es|
  {
    if es != [] {
      LinkStep(w, es[0]);
      StepConnected(w, es[0]);
      LinkAccounts(Happen(w, es[0]), es[1..]);
    }
  }
}
