/** The whole stack at once: messages sent over a deployed link, arriving at a connection that runs through any history
    of reads, errors, timers and closes. */
module SessionDelivery {
  import opened Bytes
  import opened Framing
  import opened PacketParser
  import opened EndToEnd
  import LC = Lifecycle
  import Registry

  function Joined(groups: seq<seq<Message>>): seq<Message> {
    if groups == [] then [] else Joined(groups[..|groups| - 1]) + groups[|groups| - 1]
  }

  /** Messages the encoder takes and the receiver gets as they were sent. */
  ghost predicate Good(link: Link, ms: seq<Message>) {
    AllSend(link, ms) && forall i | 0 <= i < |ms| :: link.Keeps(ms[i])
  }

  /** One read that brings the packets of some messages, whole. */
  ghost predicate Brings(link: Link, buffer: seq<byte>, ms: seq<Message>) {
    Good(link, ms) && buffer == WireOf(Packets(link, ms))
  }

  ghost predicate BringAll(link: Link, buffers: seq<seq<byte>>, groups: seq<seq<Message>>) {
    |groups| == |buffers| && forall i | 0 <= i < |groups| :: Brings(link, buffers[i], groups[i])
  }

  lemma BringSome(link: Link, buffers: seq<seq<byte>>, groups: seq<seq<Message>>, k: nat)
    requires BringAll(link, buffers, groups) && k <= |groups|
    ensures BringAll(link, buffers[..k], groups[..k])
    ensures k < |groups| ==> Brings(link, buffers[k], groups[k])
  {
  }

  lemma OneBuffer(link: Link, parser: seq<byte> -> Result, buffer: seq<byte>, ms: seq<Message>)
    requires Brings(link, buffer, ms) && LC.Runs(parser, link.Parser())
    ensures parser(buffer).outcome == Done
    ensures Events(link.Parser(), true, parser(buffer).calls) == SentAll(link, ms)
  {
    Delivery(link, ms);
    assert parser(buffer) == Parse(link.Parser(), buffer);
  }

  lemma SentAllAppend(link: Link, a: seq<Message>, b: seq<Message>)
    ensures SentAll(link, a + b) == SentAll(link, a) + SentAll(link, b)
  {
  }

  lemma {:induction false} BuffersDeliver(link: Link, parser: seq<byte> -> Result, buffers: seq<seq<byte>>,
                                          groups: seq<seq<Message>>)
    requires LC.Runs(parser, link.Parser()) && BringAll(link, buffers, groups)
    ensures Events(link.Parser(), true, LC.CallsAmong(parser, buffers)) == SentAll(link, Joined(groups))
    ensures LC.ThrownAmong(parser, buffers) == 0
    decreases |groups|
  {
    if groups != [] {
      var n := |groups| - 1;
      BringSome(link, buffers, groups, n);
      BuffersDeliver(link, parser, buffers[..n], groups[..n]);
      OneBuffer(link, parser, buffers[n], groups[n]);
      EventsAppend(link.Parser(), true, LC.CallsAmong(parser, buffers[..n]), parser(buffers[n]).calls);
      SentAllAppend(link, Joined(groups[..n]), groups[n]);
    }
  }

  /** In every run of a connection on a deployed link whose reads each bring whole packets: the messages given to the
      URL table are exactly those of the reads parsed so far, in the order sent; no parser exception occurs, so every
      read is parsed, refused after the close began, or still queued, and the pending count is the latter two. */
  lemma SessionDelivers(link: Link, parser: seq<byte> -> Result, keepAlive: bool, es: seq<LC.Event>, c: LC.Conn,
                        groups: seq<seq<Message>>)
    requires LC.Runs(parser, link.Parser())
    requires LC.Reaches(parser, keepAlive, es, c) && BringAll(link, c.received, groups)
    ensures |c.parsed| <= |groups|
    ensures Events(link.Parser(), true, c.calls) == SentAll(link, Joined(groups[..|c.parsed|]))
    ensures |c.received| == |c.parsed| + |c.refused| + LC.Count(c.strand, LC.Dispatches)
    ensures |c.received| < U32_MOD ==> c.pending == |c.refused| + LC.Count(c.strand, LC.Dispatches)
    ensures c.status == LC.Open && LC.Count(c.strand, LC.Dispatches) == 0 ==>
              Events(link.Parser(), true, c.calls) == SentAll(link, Joined(groups))
  {
    LC.ParsedInArrivalOrder(parser, keepAlive, es, c);
    Accounted(parser, keepAlive, es, c);
    PrefixDelivers(link, parser, c.received, c.parsed, groups);
  }

  lemma PrefixDelivers(link: Link, parser: seq<byte> -> Result, received: seq<seq<byte>>, parsed: seq<seq<byte>>,
                       groups: seq<seq<Message>>)
    requires LC.Runs(parser, link.Parser()) && BringAll(link, received, groups) && parsed <= received
    ensures |parsed| <= |groups| && LC.ThrownAmong(parser, parsed) == 0
    ensures Events(link.Parser(), true, LC.CallsAmong(parser, parsed)) == SentAll(link, Joined(groups[..|parsed|]))
    ensures |parsed| == |groups| ==> groups[..|parsed|] == groups
  {
    assert parsed == received[..|parsed|];
    BringSome(link, received, groups, |parsed|);
    BuffersDeliver(link, parser, parsed, groups[..|parsed|]);
  }

  lemma Accounted(parser: seq<byte> -> Result, keepAlive: bool, es: seq<LC.Event>, c: LC.Conn)
    requires LC.Reaches(parser, keepAlive, es, c)
    ensures |c.received| == |c.parsed| + |c.refused| + LC.Count(c.strand, LC.Dispatches)
    ensures LC.ThrownAmong(parser, c.parsed) == 0 && |c.received| < U32_MOD ==>
              c.pending == |c.refused| + LC.Count(c.strand, LC.Dispatches)
    ensures c.status == LC.Open ==> c.refused == []
  {
    LC.ReachedInv(parser, keepAlive, es, c);
    LC.ParserStays(LC.Created(parser, keepAlive), es);
    LC.QueuedDataCount(c.strand);
    if LC.ThrownAmong(parser, c.parsed) == 0 && |c.received| < U32_MOD {
      LC.WrappedIsExact(LC.Undecremented(c));
    }
  }

  /** The lobby at work: for every connection of every history of accepts, closes and logins whose reads bring whole
      packets, the messages dispatched are those sent, in order; and whenever it is open, so whenever a read of it is
      parsed, its tag is its own live User: readJsonPacket never misses it. */
  lemma LobbyDelivers(es: seq<Registry.Event>, w: Registry.World, id: Registry.Ident, groups: seq<seq<Message>>)
    requires Registry.Reaches(es, w) && id in w.sessions
    requires LC.Runs(w.sessions[id].conn.parser, ToLobby.Parser())
    requires BringAll(ToLobby, w.sessions[id].conn.received, groups)
    ensures var c := w.sessions[id].conn;
            && |c.parsed| <= |groups|
            && Events(ToLobby.Parser(), true, c.calls) == SentAll(ToLobby, Joined(groups[..|c.parsed|]))
            && (c.status == LC.Open ==> id in w.store.tags && w.store.tags[id] in w.store.live
                                        && w.store.live[w.store.tags[id]].conn == id)
  {
    var c := w.sessions[id].conn;
    var keepAlive, run := Registry.EveryConnectionRuns(es, w, id);
    SessionDelivers(ToLobby, c.parser, keepAlive, run, c, groups);
    if c.status == LC.Open {
      Registry.OpenHasUser(es, w, id);
    }
  }
}
