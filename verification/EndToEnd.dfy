/** From SendJsonPacket on one side to the URL table on the other, over the two deployed links. */
module EndToEnd {
  import opened Bytes
  import opened Keys
  import opened Framing
  import opened JsonPackets
  import opened PacketParser
  import B = Buffers

  datatype Message = Message(sequenceNo: u32, url: seq<byte>, body: seq<byte>)

  /** ToBroker: ConnectorUser's packets, packetParser_brokerTest. ToLobby: User's, packetParser_notUseEncTest. */
  datatype Link = ToBroker | ToLobby {
    function Parser(): Dialect {
      if ToBroker? then JsonBrokerTest else JsonLobbyTest
    }

    /** What the encoder demands: the memcpy stay inside the structure. */
    predicate Sends(m: Message) {
      |m.url| <= MAX_URL_STRING && if ToBroker? then |m.body| <= BROKER_MAX_BODY else |m.body| < LOBBY_MAX_BODY
    }

    function Packet(m: Message): seq<byte>
      requires Sends(m)
    {
      if ToBroker? then BrokerPacket(m.url, m.body) else LobbyPacket(m.sequenceNo, m.url, m.body)
    }

    /** The message as the receiver should see it: a lobby body has its trailing NUL. */
    function Sent(m: Message): Decoded {
      Dispatch(m.url, if ToBroker? then m.body else m.body + [NUL])
    }

    /** When it does. */
    predicate Keeps(m: Message) {
      NUL !in m.url && |m.url| < MAX_URL_STRING && (ToBroker? ==> m.body != [])
    }

    lemma PacketKept(m: Message)
      requires Sends(m)
      ensures DecodePart(Parser(), true, Packet(m)) == Sent(m) <==> Keeps(m)
    {
      if ToBroker? {
        BrokerRoundTrip(m.url, m.body);
      } else {
        LobbyRoundTrip(m.sequenceNo, m.url, m.body);
      }
    }

    lemma PacketAccepted(m: Message)
      requires Sends(m)
      ensures WellFormed(Parser(), [Packet(m)]) && Parser().CallFor(Packet(m)) == Call(ToJson, Packet(m))
    {
      var p := Packet(m);
      assert PartsLength([p]) == 4 + |p|;
      if ToBroker? {
        var tail := UrlField(m.url) + Le16(|m.body|) + m.body;
        assert p == Le32(PACKET_CODE) + tail;
        Le32Inverse(PACKET_CODE, tail);
      } else {
        assert p[0] == PACKET_CODE;
      }
    }
  }

  ghost predicate AllSend(link: Link, ms: seq<Message>) {
    forall i | 0 <= i < |ms| :: link.Sends(ms[i])
  }

  // ---- Packets, whatever is in them ----

  /** One sendPacket after the other. */
  function WireOf(packets: seq<seq<byte>>): seq<byte> {
    if packets == [] then [] else Wire(Plain, packets[0]) + WireOf(packets[1..])
  }

  function JsonCalls(packets: seq<seq<byte>>): seq<Call> {
    if packets == [] then [] else [Call(ToJson, packets[0])] + JsonCalls(packets[1..])
  }

  function DecodeAll(d: Dialect, packets: seq<seq<byte>>): (ds: seq<Decoded>)
    ensures |ds| == |packets|
  {
    if packets == [] then [] else [DecodePart(d, true, packets[0])] + DecodeAll(d, packets[1..])
  }

  lemma {:induction false} DecodeAllAt(d: Dialect, packets: seq<seq<byte>>, i: nat)
    requires i < |packets|
    ensures DecodeAll(d, packets)[i] == DecodePart(d, true, packets[i])
  {
    if i > 0 {
      DecodeAllAt(d, packets[1..], i - 1);
    }
  }

  ghost predicate IsJsonPacket(d: Dialect, packet: seq<byte>) {
    WellFormed(d, [packet]) && d.CallFor(packet) == Call(ToJson, packet)
  }

  lemma OnePacket(d: Dialect, packet: seq<byte>, rest: seq<byte>, before: seq<Call>)
    requires d.Style() == Plain && IsJsonPacket(d, packet)
    ensures ParseFrom(d, Wire(Plain, packet) + rest, AtMain, before)
            == ParseFrom(d, rest, AtMain, before + [Call(ToJson, packet)])
  {
    assert CallsOf(d, [packet]) == [Call(ToJson, packet)];
    OneFrame(d, [packet], Wire(Plain, packet) + rest, rest, before);
  }

  lemma {:induction false} PacketsDelivered(d: Dialect, packets: seq<seq<byte>>, before: seq<Call>)
    requires d.Style() == Plain && forall i | 0 <= i < |packets| :: IsJsonPacket(d, packets[i])
    ensures ParseFrom(d, WireOf(packets), AtMain, before) == Result(Done, before + JsonCalls(packets), [])
    decreases |packets|
  {
    if packets == [] {
      assert before + JsonCalls(packets) == before;
    } else {
      var call, more := Call(ToJson, packets[0]), packets[1..];
      OnePacket(d, packets[0], WireOf(more), before);
      PacketsDelivered(d, more, before + [call]);
      Associates(before, [call], JsonCalls(more));
    }
  }

  lemma {:induction false} PacketsDecoded(d: Dialect, packets: seq<seq<byte>>, before: seq<Call>)
    ensures Events(d, true, before + JsonCalls(packets)) == Events(d, true, before) + DecodeAll(d, packets)
    decreases |packets|
  {
    if packets == [] {
      assert before + JsonCalls(packets) == before;
    } else {
      var call, more := Call(ToJson, packets[0]), packets[1..];
      PacketsDecoded(d, more, before + [call]);
      EventsOfOneMore(d, true, before, call);
      Associates(before, [call], JsonCalls(more));
      Associates(Events(d, true, before), [DecodePart(d, true, packets[0])], DecodeAll(d, more));
    }
  }

  // ---- Messages ----

  function Packets(link: Link, ms: seq<Message>): (packets: seq<seq<byte>>)
    requires AllSend(link, ms)
    ensures |packets| == |ms|
  {
    seq(|ms|, i requires 0 <= i < |ms| => link.Packet(ms[i]))
  }

  function SentAll(link: Link, ms: seq<Message>): (ds: seq<Decoded>)
    ensures |ds| == |ms|
  {
    seq(|ms|, i requires 0 <= i < |ms| => link.Sent(ms[i]))
  }

  lemma PacketsAccepted(link: Link, ms: seq<Message>)
    requires AllSend(link, ms)
    ensures forall i | 0 <= i < |ms| :: IsJsonPacket(link.Parser(), Packets(link, ms)[i])
  {
    forall i | 0 <= i < |ms| ensures IsJsonPacket(link.Parser(), Packets(link, ms)[i]) {
      link.PacketAccepted(ms[i]);
    }
  }

  lemma DecodedAsSent(link: Link, ms: seq<Message>)
    requires AllSend(link, ms)
    ensures DecodeAll(link.Parser(), Packets(link, ms)) == SentAll(link, ms)
            <==> forall i | 0 <= i < |ms| :: link.Keeps(ms[i])
  {
    var ds := DecodeAll(link.Parser(), Packets(link, ms));
    forall i | 0 <= i < |ms| ensures ds[i] == SentAll(link, ms)[i] <==> link.Keeps(ms[i]) {
      link.PacketKept(ms[i]);
      DecodeAllAt(link.Parser(), Packets(link, ms), i);
    }
  }

  /** Whatever the messages, the run on their wire returns true, empties the buffer and hands every packet to
      readJsonPacket, in order; and what reaches the URL table is exactly the list sent if and only if every url is
      NUL-free and at most 31 bytes long and, on the broker link, no body is empty. */
  lemma Delivery(link: Link, ms: seq<Message>)
    requires AllSend(link, ms)
    ensures Parse(link.Parser(), WireOf(Packets(link, ms))) == Result(Done, JsonCalls(Packets(link, ms)), [])
    ensures Events(link.Parser(), true, JsonCalls(Packets(link, ms))) == SentAll(link, ms)
            <==> forall i | 0 <= i < |ms| :: link.Keeps(ms[i])
  {
    var packets := Packets(link, ms);
    PacketsAccepted(link, ms);
    PacketsDelivered(link.Parser(), packets, []);
    PacketsDecoded(link.Parser(), packets, []);
    assert [] + JsonCalls(packets) == JsonCalls(packets);
    assert [] + DecodeAll(link.Parser(), packets) == DecodeAll(link.Parser(), packets);
    DecodedAsSent(link, ms);
  }

  // ---- The methods of both sides together ----

  lemma {:induction false} WireOfMore(packets: seq<seq<byte>>, packet: seq<byte>)
    ensures WireOf(packets + [packet]) == WireOf(packets) + Wire(Plain, packet)
  {
    if packets == [] {
      assert packets + [packet] == [packet] && [packet][1..] == [];
    } else {
      assert (packets + [packet])[1..] == packets[1..] + [packet];
      WireOfMore(packets[1..], packet);
      Associates(Wire(Plain, packets[0]), WireOf(packets[1..]), Wire(Plain, packet));
    }
  }

  lemma OneMoreMessage(link: Link, ms: seq<Message>, i: nat)
    requires AllSend(link, ms) && i < |ms|
    ensures WireOf(Packets(link, ms[..i + 1])) == WireOf(Packets(link, ms[..i])) + Wire(Plain, link.Packet(ms[i]))
  {
    WireOfMore(Packets(link, ms[..i]), link.Packet(ms[i]));
    assert Packets(link, ms[..i + 1]) == Packets(link, ms[..i]) + [link.Packet(ms[i])];
  }

  /** SendJsonPacket up to Send. */
  method EncodeMessage(link: Link, m: Message) returns (packet: seq<byte>)
    requires link.Sends(m)
    ensures packet == link.Packet(m)
  {
    if link == ToBroker {
      packet := EncodeBroker(m.url, m.body);
    } else {
      var sent := EncodeLobby(m.sequenceNo, m.url, m.body);
      packet := sent.value;
    }
  }

  /** A list of SendJsonPacket calls: no sendPacket throws, and the wire is the packets' frames. */
  method SendMessages(link: Link, ms: seq<Message>) returns (threw: bool, wire: seq<byte>)
    requires AllSend(link, ms)
    ensures !threw && wire == WireOf(Packets(link, ms))
  {
    threw, wire := false, [];
    for i := 0 to |ms|
      invariant !threw && wire == WireOf(Packets(link, ms[..i]))
    {
      var packet := EncodeMessage(link, ms[i]);
      var frame;
      threw, frame := SendPacket(Plain, packet);
      wire := wire + frame;
      OneMoreMessage(link, ms, i);
    }
    assert ms[..|ms|] == ms;
  }

  /** Sent over a link, read into one buffer, parsed and decoded: the parser returns true on an emptied buffer, and what
      reaches the URL table is the list sent if and only if every message qualifies. */
  method Transmit(link: Link, ms: seq<Message>) returns (outcome: Outcome, events: seq<Decoded>)
    requires AllSend(link, ms) && |WireOf(Packets(link, ms))| <= B.MAX_BUFFER_SIZE
    ensures outcome == Done && |events| == |ms|
    ensures events == SentAll(link, ms) <==> forall i | 0 <= i < |ms| :: link.Keeps(ms[i])
  {
    var _, wire := SendMessages(link, ms);
    var msg := new B.MessageBuffer();
    var _ := msg.Write(wire);
    assert msg.Contents() == wire;
    var calls;
    outcome, calls, events := ParsePackets(link.Parser(), true, msg);
    Delivery(link, ms);
    PacketsDecoded(link.Parser(), Packets(link, ms), []);
    assert [] + JsonCalls(Packets(link, ms)) == JsonCalls(Packets(link, ms));
  }

  // ---- Why the lobby needs the parser with the one-byte code ----

  /** A parser that reads a four-byte code takes the low three bytes of sequenceNo into it: the same packets in tagged
      frames reach readJsonPacket exactly when sequenceNo is a multiple of 2^24, and noHandler otherwise. */
  lemma FourByteCodeRejectsLobbyPackets(m: Message)
    requires ToLobby.Sends(m)
    ensures var p := ToLobby.Packet(m);
            && (JsonLobby.CallFor(p).route == ToJson <==> m.sequenceNo % 0x100_0000 == 0)
            && (JsonLobby.CallFor(p).route == NoHandler <==> m.sequenceNo % 0x100_0000 != 0)
  {
    var p := ToLobby.Packet(m);
    assert p[..4] == [PACKET_CODE] + Le32(m.sequenceNo)[..3];
    assert p[..4][1..] == Le32(m.sequenceNo)[..3];
    assert FromLe32(p) == 1 + 256 * Value(Le32(m.sequenceNo)[..3]);
    LowBytes(m.sequenceNo);
  }

  lemma LowBytes(n: u32)
    ensures Value(Le32(n)[..3]) == n % 0x100_0000
  {
    var low, high := Le32(n)[..3], Le32(n)[3..];
    assert Le32(n) == low + high;
    Le32Inverse(n, []);
    assert (Le32(n) + [])[..4] == Le32(n);
    assert low == [low[0]] + ([low[1]] + ([low[2]] + []));
    assert low + high == [low[0]] + ([low[1]] + ([low[2]] + high));
    ValueOfThree(low[0], low[1], low[2], high);
    ValueOfThree(low[0], low[1], low[2], []);
  }

  lemma ValueOfThree(a: byte, b: byte, c: byte, s: seq<byte>)
    ensures Value([a] + ([b] + ([c] + s))) == a as int + 0x100 * b as int + 0x1_0000 * c as int + 0x100_0000 * Value(s)
  {
    ValueCons(a, [b] + ([c] + s));
    ValueCons(b, [c] + s);
    ValueCons(c, s);
  }

  lemma ValueCons(x: byte, s: seq<byte>)
    ensures Value([x] + s) == x as int + 256 * Value(s)
  {
    assert ([x] + s)[1..] == s;
  }
}
