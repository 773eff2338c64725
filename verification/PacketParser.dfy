/** The packetParser loop itself, over MessageBuffers, and the sending side that feeds it. */
module PacketParser {
  import opened Bytes
  import opened Keys
  import opened Buffers
  import opened JsonPackets
  import opened F = Framing
  import Xor

  function StateOf(readStartFromMainKey: bool, totalSize: u32): FrameState {
    if readStartFromMainKey then AtMain else InFrame(totalSize)
  }

  /** What readJsonPacket makes of the parts routed to it, in order. */
  function Events(d: Dialect, hasUser: bool, calls: seq<Call>): seq<Decoded> {
    if calls == [] then []
    else
      var last := calls[|calls| - 1];
      Events(d, hasUser, calls[..|calls| - 1]) +
      (if last.route == ToJson then [DecodePart(d, hasUser, last.part)] else [])
  }

  function DecodePart(d: Dialect, hasUser: bool, part: seq<byte>): Decoded {
    if d.IsBroker() then BrokerDecode(part) else LobbyDecode(hasUser, part)
  }

  /** For every content of msg, well-formed or not, the loop makes the calls of Parse, in order, ends as Parse ends,
      and leaves unread what Parse leaves. `hasUser` says whether the connection's tag is set. */
  method ParsePackets(d: Dialect, hasUser: bool, msg: MessageBuffer)
    returns (outcome: Outcome, calls: seq<Call>, events: seq<Decoded>)
    requires msg.Valid()
    modifies msg`rd, msg`wr, msg.buf
    ensures msg.Valid()
    ensures Result(outcome, calls, msg.Contents()) == Parse(d, old(msg.Contents()))
    ensures events == Events(d, hasUser, calls)
  {
    var readStartFromMainKey := true;
    var totalSize: u32 := 0;
    calls, events := [], [];
    ghost var whole := Parse(d, msg.Contents());
    while true
      invariant msg.Valid()
      invariant ParseFrom(d, msg.Contents(), StateOf(readStartFromMainKey, totalSize), calls) == whole
      invariant events == Events(d, hasUser, calls)
      decreases msg.Size()
    {
      ghost var start, st := msg.Contents(), StateOf(readStartFromMainKey, totalSize);
      ghost var before := calls;
      var found, partBodySize;
      found, partBodySize, readStartFromMainKey, totalSize :=
        FindPart(d.Style(), msg, readStartFromMainKey, totalSize);
      ParseByStep(d, start, st, before);
      if found == Incomplete {
        return F.Done, calls, events;
      } else if found == Malformed {
        return Rejected, calls, events;
      } else if found == Short {
        return Thrown, calls, events;
      }

      var call, decoded := Deliver(d, hasUser, msg, partBodySize);
      ParseByCall(d, call, msg.Contents(), StateOf(readStartFromMainKey, totalSize), before);
      EventsOfOneMore(d, hasUser, calls, call);
      events := events + (if call.route == ToJson then [decoded] else []);
      calls := calls + [call];
      if call.route == NoHandler {
        msg.ReadAll();
        return Rejected, calls, events;
      }
      if d.IsBroker() && call.route == ToJson && decoded == HeadMissing {
        return Thrown, calls, events;
      }
    }
  }

  /** The definition of ParseFrom, one iteration of it. */
  lemma ParseByStep(d: Dialect, s: seq<byte>, st: FrameState, before: seq<Call>)
    ensures var step := NextPart(d.Style(), s, st);
            && (step.Wait? ==> ParseFrom(d, s, st, before) == Result(F.Done, before, s))
            && (step.Bad? ==> ParseFrom(d, s, st, before) == Result(Rejected, before, []))
            && (step.Underrun? ==> ParseFrom(d, s, st, before) == Result(Thrown, before, s))
            && (step.Part? ==> ParseFrom(d, s, st, before)
                               == ParseAfterCall(d, d.CallFor(step.raw), step.rest, step.next, before))
  {
  }

  lemma ParseByCall(d: Dialect, call: Call, rest: seq<byte>, next: FrameState, before: seq<Call>)
    ensures ParseAfterCall(d, call, rest, next, before)
            == if call.route == NoHandler then Result(Rejected, before + [call], [])
               else if d.HandlerThrows(call) then Result(Thrown, before + [call], rest)
               else ParseFrom(d, rest, next, before + [call])
  {
  }

  lemma EventsOfOneMore(d: Dialect, hasUser: bool, calls: seq<Call>, call: Call)
    ensures Events(d, hasUser, calls + [call])
            == Events(d, hasUser, calls) + (if call.route == ToJson then [DecodePart(d, hasUser, call.part)] else [])
  {
    assert (calls + [call])[..|calls|] == calls;
  }

  lemma {:induction false} EventsAppend(d: Dialect, hasUser: bool, a: seq<Call>, b: seq<Call>)
    ensures Events(d, hasUser, a + b) == Events(d, hasUser, a) + Events(d, hasUser, b)
    decreases |b|
  {
    if b == [] {
      assert a + b == a;
    } else {
      var n := |b| - 1;
      assert b == b[..n] + [b[n]];
      EventsAppend(d, hasUser, a, b[..n]);
      EventsAppendOne(d, hasUser, a, b[..n], b[n]);
    }
  }

  lemma EventsAppendOne(d: Dialect, hasUser: bool, a: seq<Call>, b: seq<Call>, call: Call)
    requires Events(d, hasUser, a + b) == Events(d, hasUser, a) + Events(d, hasUser, b)
    ensures Events(d, hasUser, a + (b + [call])) == Events(d, hasUser, a) + Events(d, hasUser, b + [call])
  {
    Associates(a, b, [call]);
    EventsOfOneMore(d, hasUser, a + b, call);
    EventsOfOneMore(d, hasUser, b, call);
    Associates(Events(d, hasUser, a), Events(d, hasUser, b),
               if call.route == ToJson then [DecodePart(d, hasUser, call.part)] else []);
  }

  /** How looking for a part ended: the frame is not complete yet; a wrong marker or an impossible length, with the
      buffer emptied; too few bytes for a partKey, which the source reports by an exception; a part. */
  datatype Found = Incomplete | Malformed | Short | Ready

  /** The loop body up to the copy into procMsg. */
  method FindPart(style: KeyStyle, msg: MessageBuffer, readStartFromMainKey: bool, totalSize: u32)
    returns (found: Found, partBodySize: u32, readStartNext: bool, totalSizeNext: u32)
    requires msg.Valid()
    modifies msg`rd, msg`wr, msg.buf
    ensures msg.Valid()
    ensures var step := NextPart(style, old(msg.Contents()), StateOf(readStartFromMainKey, totalSize));
      match found
      case Incomplete => step == Wait && msg.Contents() == old(msg.Contents())
      case Malformed => step == Bad && msg.Contents() == []
      case Short => step == Underrun && msg.Contents() == old(msg.Contents())
      case Ready =>
        && partBodySize <= |msg.Contents()|
        && step == Part(msg.Contents()[..partBodySize], msg.Contents()[partBodySize..],
                        StateOf(readStartNext, totalSizeNext))
  {
    partBodySize, readStartNext, totalSizeNext := 0, readStartFromMainKey, totalSize;
    if readStartFromMainKey {
      found, totalSizeNext := BeginFrame(style, msg);
      if found != Ready {
        return;
      }
    }
    found, partBodySize := BeginPart(style, msg, totalSizeNext);
    if found == Ready {
      totalSizeNext := Sub32(totalSizeNext, Add32(partBodySize, 4));
      readStartNext := totalSizeNext == 4;
    }
  }

  /** The `readStartFromMainKey` branch. */
  method BeginFrame(style: KeyStyle, msg: MessageBuffer) returns (found: Found, totalSize: u32)
    requires msg.Valid()
    modifies msg`rd, msg`wr, msg.buf
    ensures msg.Valid()
    ensures found != Short
    ensures found == Incomplete ==>
      msg.Contents() == old(msg.Contents()) && NextPart(style, msg.Contents(), AtMain) == Wait
    ensures found == Malformed ==> msg.Contents() == [] && NextPart(style, old(msg.Contents()), AtMain) == Bad
    ensures found == Ready ==>
      && |old(msg.Contents())| >= HEADER_SIZE && msg.Contents() == old(msg.Contents())[4..]
      && NextPart(style, old(msg.Contents()), AtMain) == PartAt(style, msg.Contents(), totalSize)
  {
    totalSize := 0;
    var header := new byte[HEADER_SIZE];
    var ok := msg.Peek(header, HEADER_SIZE);
    if !ok {
      return Incomplete, totalSize;
    }
    var mainKey := FromLe32(header[..4]);
    assert header[..4][..4] == msg.Contents()[..4];
    if !style.IsMain(mainKey) {
      msg.ReadAll();
      return Malformed, totalSize;
    }
    totalSize := Add32(style.Length(mainKey), 4);
    if !msg.Readable(totalSize) {
      return Incomplete, totalSize;
    }
    var _ := msg.Skip(4);
    found := Ready;
  }

  /** The partKey read and its checks. */
  method BeginPart(style: KeyStyle, msg: MessageBuffer, totalSize: u32) returns (found: Found, partBodySize: u32)
    requires msg.Valid()
    modifies msg`rd, msg`wr, msg.buf
    ensures msg.Valid()
    ensures found != Incomplete
    ensures found == Short <==> |old(msg.Contents())| < 4
    ensures found == Short ==> msg.Contents() == old(msg.Contents())
    ensures found == Malformed ==> msg.Contents() == [] && PartAt(style, old(msg.Contents()), totalSize) == Bad
    ensures found == Ready ==>
      && partBodySize <= |msg.Contents()| && msg.Contents() == old(msg.Contents())[4..]
      && PartAt(style, old(msg.Contents()), totalSize)
         == Part(msg.Contents()[..partBodySize], msg.Contents()[partBodySize..], NextState(totalSize, partBodySize))
  {
    partBodySize := 0;
    ghost var s := msg.Contents();
    var word := new byte[PARTKEY_SIZE];
    var threw := msg.Read(word, 0, PARTKEY_SIZE);
    if threw {
      return Short, partBodySize;
    }
    assert word[..] == s[..4];
    var partKey := FromLe32(word[..]);
    assert partKey == FromLe32(s) by { assert word[..][..4] == s[..4]; }
    if !style.IsPart(partKey) {
      msg.ReadAll();
      return Malformed, partBodySize;
    }
    partBodySize := style.Length(partKey);
    if !msg.Readable(partBodySize) {
      msg.ReadAll();
      return Malformed, partBodySize;
    }
    found := Ready;
    PartAtHere(style, s, totalSize);
  }

  lemma PartAtHere(style: KeyStyle, s: seq<byte>, totalSize: u32)
    requires |s| >= 4 && style.IsPart(FromLe32(s)) && style.Length(FromLe32(s)) <= |s| - 4
    ensures var n := style.Length(FromLe32(s));
            PartAt(style, s, totalSize) == Part(s[4..][..n], s[4..][n..], NextState(totalSize, n))
  {
    var n := style.Length(FromLe32(s));
    assert s[4..][..n] == s[4..4 + n] && s[4..][n..] == s[4 + n..];
  }

  /** The rest of the loop body. */
  method Deliver(d: Dialect, hasUser: bool, msg: MessageBuffer, partBodySize: nat)
    returns (call: Call, decoded: Decoded)
    requires msg.Valid() && partBodySize <= |msg.Contents()|
    modifies msg`rd, msg`wr, msg.buf
    ensures msg.Valid() && msg.Contents() == old(msg.Contents())[partBodySize..]
    ensures call == d.CallFor(old(msg.Contents())[..partBodySize])
    ensures call.route == ToJson ==> decoded == DecodePart(d, hasUser, call.part)
    ensures call.route == ToJson && d.IsBroker() ==>
              (decoded == HeadMissing <==> |call.part| < BROKER_HEAD_SIZE)
  {
    var procMsg := TakePart(d, msg, partBodySize);
    call, decoded := HandOn(d, hasUser, procMsg);
  }

  /** A fresh procMsg with the part body moved into it, unmasked for packetParser_xor. */
  method TakePart(d: Dialect, msg: MessageBuffer, partBodySize: nat) returns (procMsg: MessageBuffer)
    requires msg.Valid() && partBodySize <= msg.Size()
    modifies msg`rd, msg`wr, msg.buf
    ensures msg.Valid() && msg.Contents() == old(msg.Contents())[partBodySize..]
    ensures fresh(procMsg) && fresh(procMsg.buf) && procMsg.Valid()
    ensures procMsg.Contents() == d.Unmask(old(msg.Contents())[..partBodySize])
  {
    procMsg := new MessageBuffer();
    var _ := msg.Read(procMsg.buf, procMsg.wr, partBodySize);
    var _ := procMsg.Accept(partBodySize);
    assert procMsg.Contents() == old(msg.Contents())[..partBodySize];
    if d.JsonLobbyXor? {
      XorInPlace(procMsg.buf, partBodySize);
      assert procMsg.Contents() == procMsg.buf[..partBodySize];
    }
  }

  /** The loop nest of packetParser_xor: five passes over the part, last key first. It is one pass with 0x5a. */
  method XorInPlace(a: array<byte>, n: nat)
    requires n <= a.Length
    modifies a
    ensures a[..] == Xor.Mask(old(a[..n]), 0x5a) + old(a[n..])
  {
    ghost var was := a[..n];
    Xor.FivePassesAreOne(was);
    assert Xor.KEYS[..5] == Xor.KEYS;
    var j := 4;
    while j >= 0
      invariant -1 <= j <= 4
      invariant Xor.Passes(a[..n], Xor.KEYS[..j + 1]) == Xor.Passes(was, Xor.KEYS)
      invariant a[n..] == old(a[n..])
    {
      var c := Xor.KEYS[j];
      ghost var before := a[..n];
      for i := 0 to n
        invariant a[n..] == old(a[n..])
        invariant forall k | 0 <= k < i :: a[k] == Xor.XorByte(before[k], c)
        invariant forall k | i <= k < n :: a[k] == before[k]
      {
        a[i] := Xor.XorByte(a[i], c);
      }
      assert a[..n] == Xor.Mask(before, c);
      assert Xor.KEYS[..j + 1][..j] == Xor.KEYS[..j];
      j := j - 1;
    }
    assert a[..] == a[..n] + a[n..];
  }

  /** Read the packet code and pass the part on: the switch, or the two table look-ups. */
  method HandOn(d: Dialect, hasUser: bool, procMsg: MessageBuffer) returns (call: Call, decoded: Decoded)
    requires procMsg.Valid()
    modifies procMsg`rd, procMsg`wr, procMsg.buf
    ensures call == Call(d.RouteOf(old(procMsg.Contents())), old(procMsg.Contents()))
    ensures d.JsonLobbyTest? ==>
              (call.route == ToJson <==> call.part != [] && call.part[0] == 1)
              && (call.route == Heartbeat <==> call.part != [] && call.part[0] == 3)
              && (call.route == NoHandler <==> call.part == [] || call.part[0] !in {1, 3})
    ensures d.JsonBrokerTest? ==>
              (call.route == ToJson <==> |call.part| >= 4 && FromLe32(call.part) == 1)
              && (call.route == NoHandler <==> |call.part| < 4 || FromLe32(call.part) != 1)
    ensures call.route == ToJson ==> decoded == DecodePart(d, hasUser, old(procMsg.Contents()))
  {
    ghost var part := procMsg.Contents();
    var width := if d.JsonLobbyTest? then 1 else 4;
    var packetCode := new byte[4](_ => 0);
    var ok := procMsg.Peek(packetCode, width);
    var code := FromLe32(packetCode[..]);
    assert code == d.PacketCode(part) by {
      CodeOf(packetCode[..], part, width, ok);
    }
    call := Call(Route(d, code), procMsg.buf[procMsg.rd..procMsg.wr]);
    decoded := NoUser;
    if call.route == ToJson {
      if d.IsBroker() {
        decoded := ReadBrokerPacket(procMsg);
      } else {
        decoded := ReadLobbyPacket(hasUser, procMsg.Size(), procMsg);
      }
    }
  }

  function Route(d: Dialect, code: u32): Route {
    match d
    case Registered(members, statics) =>
      if code in members then ToMember else if code in statics then ToStatic else NoHandler
    case JsonBroker | JsonBrokerTest => if code == PACKET_CODE then ToJson else NoHandler
    case JsonLobby | JsonLobbyXor | JsonLobbyTest =>
      if code == PACKET_CODE then ToJson else if code == HEARTBEAT_CODE then Heartbeat else NoHandler
  }

  /** The code variable after the look: 0 where the part is too short, else the part's first bytes. */
  lemma CodeOf(code: seq<byte>, part: seq<byte>, width: nat, ok: bool)
    requires (width == 1 || width == 4) && ok == (width <= |part|)
    requires |code| == 4 && code == if ok then part[..width] + [0, 0, 0, 0][width..] else [0, 0, 0, 0]
    ensures FromLe32(code) == if !ok then 0 else if width == 1 then part[0] else FromLe32(part)
  {
    assert code[..4] == code;
    if !ok || width == 1 {
      assert code[1..] == [0, 0, 0] && code[1..][1..] == [0, 0] && code[1..][1..][1..] == [0];
      assert Value([0]) == 0 && Value([0, 0]) == 0 && Value([0, 0, 0]) == 0;
    } else {
      assert code == part[..4];
    }
  }

  // ---- Sending ----

  /** What one sendPacket puts on the wire. */
  function Wire(style: KeyStyle, body: seq<byte>): seq<byte> {
    Encode(style, [body])
  }

  /** ConnectionImpl::sendPacket and send, up to async_write: reserve the header, append, facilitate. */
  method SendPacket(style: KeyStyle, body: seq<byte>) returns (threw: bool, wire: seq<byte>)
    ensures threw == (|body| > 32760)
    ensures !threw ==> wire == Wire(style, body)
  {
    wire := [];
    var msg := new MessageBuffer.WithManipulator(style, true);
    threw := msg.Write(body);
    if !threw {
      ghost var was := msg.buf[..];
      assert was[HEADER_SIZE..HEADER_SIZE + |body|] == body by {
        assert msg.Contents() == was[..HEADER_SIZE + |body|];
      }
      msg.Facilitate();
      HeaderThenBody(was, msg.buf[..], style.Header(HEADER_SIZE + |body|), body);
      wire := msg.buf[msg.rd..msg.wr];
      HeaderIsFrame(style, body);
    }
  }

  lemma HeaderThenBody(was: seq<byte>, now: seq<byte>, header: seq<byte>, body: seq<byte>)
    requires |header| == HEADER_SIZE && HEADER_SIZE + |body| <= |was|
    requires was[HEADER_SIZE..HEADER_SIZE + |body|] == body && now == header + was[HEADER_SIZE..]
    ensures now[..HEADER_SIZE + |body|] == header + body
  {
    assert was[HEADER_SIZE..][..|body|] == body;
  }

  /** The header facilitate writes is the two words of a frame with one part. */
  lemma HeaderIsFrame(style: KeyStyle, body: seq<byte>)
    requires HEADER_SIZE + |body| <= MAX_BUFFER_SIZE
    ensures style.Header(HEADER_SIZE + |body|) + body == Wire(style, body)
    ensures Encodable(style, [body])
  {
    assert PartsLength([body]) == 4 + |body|;
    var part := Le32(style.PartWord(|body|));
    assert EncodeParts(style, [body]) == part + body + [];
    Associates(Le32(style.MainWord(4 + |body|)), part, body);
  }
}
