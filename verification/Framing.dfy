/** What one run of a packetParser does to a byte string, for every byte string, well-formed or not. */
module Framing {
  import opened Bytes
  import opened Keys
  import JsonPackets
  import Xor

  /** One constructor per parser of the source; the loops differ only where the functions below look at it. */
  datatype Dialect =
    | JsonLobby       // JSON_PACKET_PARSING_SUPPORT::packetParser_notUseEnc
    | JsonLobbyXor    // packetParser_xor
    | JsonLobbyTest   // packetParser_notUseEncTest, deployed for clients
    | JsonBroker      // packetParser_broker
    | JsonBrokerTest  // packetParser_brokerTest, deployed for the broker
    | Registered(members: set<u32>, statics: set<u32>)  // packetParserSimple's packetParser_notUseEnc
  {
    function Style(): KeyStyle {
      if JsonLobbyTest? || JsonBrokerTest? then Plain else Tagged
    }

    predicate IsBroker() {
      JsonBroker? || JsonBrokerTest?
    }

    /** What procMsg holds when the packet code is looked at. */
    function Unmask(raw: seq<byte>): (part: seq<byte>)
      ensures |part| == |raw|
    {
      if JsonLobbyXor? then Xor.Mask(raw, Xor.MASK) else raw
    }

    /** The code stays 0 when procMsg is shorter than the variable it is read into. */
    function PacketCode(part: seq<byte>): u32 {
      if JsonLobbyTest? then (if |part| < 1 then 0 else part[0])
      else if |part| < 4 then 0
      else FromLe32(part)
    }

    function RouteOf(part: seq<byte>): Route {
      var code := PacketCode(part);
      match this
      case Registered(members, statics) =>
        if code in members then ToMember else if code in statics then ToStatic else NoHandler
      case _ =>
        if code == JsonPackets.PACKET_CODE then ToJson
        else if code == HEARTBEAT_CODE && !IsBroker() then Heartbeat
        else NoHandler
    }

    function CallFor(raw: seq<byte>): Call {
      Call(RouteOf(Unmask(raw)), Unmask(raw))
    }

    /** The one handler of the source that lets a runtime_error out: BrokerConnector::readJsonPacket's head read. */
    predicate HandlerThrows(call: Call) {
      IsBroker() && call.route == ToJson && |call.part| < JsonPackets.BROKER_HEAD_SIZE
    }

    predicate Accepts(raw: seq<byte>) {
      CallFor(raw).route != NoHandler && !HandlerThrows(CallFor(raw))
    }
  }

  const HEARTBEAT_CODE: nat := 3  // PT_HEARTBEAT::packet_value

  datatype Route = ToJson | Heartbeat | ToMember | ToStatic | NoHandler

  /** One part handed on; NoHandler is EventReceiver::noHandler. */
  datatype Call = Call(route: Route, part: seq<byte>)

  /** `return true`, `return false`, an exception leaving the function. */
  datatype Outcome = Done | Rejected | Thrown

  /** rest is what the run leaves unread in msg. */
  datatype Result = Result(outcome: Outcome, calls: seq<Call>, rest: seq<byte>)

  /** readStartFromMainKey, and total_size where it is false. */
  datatype FrameState = AtMain | InFrame(totalSize: u32)

  /** How far one iteration gets before the packet code matters. */
  datatype Step =
    | Wait                                                    // break
    | Bad                                                     // readAll, return false
    | Underrun                                                // the partKey read throws
    | Part(raw: seq<byte>, rest: seq<byte>, next: FrameState)

  function NextPart(style: KeyStyle, s: seq<byte>, st: FrameState): (step: Step)
    ensures step.Part? ==> |step.rest| + |step.raw| + 4 + (if st.AtMain? then 4 else 0) == |s|
  {
    match st
    case AtMain =>
      if |s| < HEADER_SIZE then Wait
      else if !style.IsMain(FromLe32(s)) then Bad
      else
        var totalSize := Add32(style.Length(FromLe32(s)), 4);
        if |s| < totalSize then Wait else PartAt(style, s[4..], totalSize)
    case InFrame(totalSize) =>
      if |s| < 4 then Underrun else PartAt(style, s, totalSize)
  }

  function PartAt(style: KeyStyle, s: seq<byte>, totalSize: u32): (step: Step)
    requires |s| >= 4
    ensures !step.Wait? && !step.Underrun?
    ensures step.Part? ==> |step.rest| + |step.raw| + 4 == |s|
  {
    if !style.IsPart(FromLe32(s)) then Bad
    else
      var partBodySize := style.Length(FromLe32(s));
      if |s| - 4 < partBodySize then Bad
      else Part(s[4..4 + partBodySize], s[4 + partBodySize..], NextState(totalSize, partBodySize))
  }

  /** `total_size -= part_size`, and readStartFromMainKey after it. */
  function NextState(totalSize: u32, partBodySize: u32): FrameState {
    var left := Sub32(totalSize, Add32(partBodySize, 4));
    if left == 4 then AtMain else InFrame(left)
  }

  /** The rest of a run that has made the calls `before`. */
  function ParseFrom(d: Dialect, s: seq<byte>, st: FrameState, before: seq<Call>): Result
    decreases |s|, 1
  {
    match NextPart(d.Style(), s, st)
    case Wait => Result(Done, before, s)
    case Bad => Result(Rejected, before, [])
    case Underrun => Result(Thrown, before, s)
    case Part(raw, rest, next) => ParseAfterCall(d, d.CallFor(raw), rest, next, before)
  }

  function ParseAfterCall(d: Dialect, call: Call, rest: seq<byte>, next: FrameState, before: seq<Call>): Result
    decreases |rest|, 2
  {
    if call.route == NoHandler then Result(Rejected, before + [call], [])
    else if d.HandlerThrows(call) then Result(Thrown, before + [call], rest)
    else ParseFrom(d, rest, next, before + [call])
  }

  /** A run on a whole buffer. */
  function Parse(d: Dialect, s: seq<byte>): Result {
    ParseFrom(d, s, AtMain, [])
  }

  // ---- Frames ----

  /** One mainKey's worth of parts. */
  type Frame = seq<seq<byte>>

  function PartsLength(parts: Frame): nat {
    if parts == [] then 0 else 4 + |parts[0]| + PartsLength(parts[1..])
  }

  /** The number put into a length word; an Encodable frame has no length beyond it. */
  function WireLength(n: nat): u32 {
    if n < U32_MOD then n else 0
  }

  function EncodePart(style: KeyStyle, part: seq<byte>): seq<byte> {
    Le32(style.PartWord(WireLength(|part|))) + part
  }

  function EncodeParts(style: KeyStyle, parts: Frame): (s: seq<byte>)
    ensures |s| == PartsLength(parts)
  {
    if parts == [] then [] else EncodePart(style, parts[0]) + EncodeParts(style, parts[1..])
  }

  function Encode(style: KeyStyle, frame: Frame): (s: seq<byte>)
    ensures |s| == 4 + PartsLength(frame)
  {
    Le32(style.MainWord(WireLength(PartsLength(frame)))) + EncodeParts(style, frame)
  }

  function EncodeAll(style: KeyStyle, frames: seq<Frame>): seq<byte> {
    if frames == [] then [] else Encode(style, frames[0]) + EncodeAll(style, frames[1..])
  }

  /** The parts' lengths fit the main word, and the main word plus 4 fits 32 bits. */
  predicate Encodable(style: KeyStyle, frame: Frame) {
    frame != [] && PartsLength(frame) <= style.MaxLength() && PartsLength(frame) + 4 < U32_MOD
  }

  ghost predicate WellFormed(d: Dialect, frame: Frame) {
    Encodable(d.Style(), frame) && forall raw <- frame :: d.Accepts(raw)
  }

  /** A tail the parser keeps for later: no complete header, or a header announcing more than is there. */
  predicate Unfinished(style: KeyStyle, t: seq<byte>) {
    |t| < HEADER_SIZE || (style.IsMain(FromLe32(t)) && |t| < Add32(style.Length(FromLe32(t)), 4))
  }

  /** s is a sequence of acceptable frames and an unfinished tail. */
  ghost predicate IsStream(d: Dialect, s: seq<byte>, frames: seq<Frame>, tail: seq<byte>) {
    && (forall frame <- frames :: WellFormed(d, frame))
    && Unfinished(d.Style(), tail)
    && s == EncodeAll(d.Style(), frames) + tail
  }

  function CallsOf(d: Dialect, frame: Frame): (calls: seq<Call>)
    ensures |calls| == |frame|
  {
    seq(|frame|, i requires 0 <= i < |frame| => d.CallFor(frame[i]))
  }

  function CallsOfAll(d: Dialect, frames: seq<Frame>): seq<Call> {
    if frames == [] then [] else CallsOf(d, frames[0]) + CallsOfAll(d, frames[1..])
  }

  // ---- Well-formed bytes are delivered ----

  lemma ReadEncodedPart(style: KeyStyle, raw: seq<byte>, tail: seq<byte>, totalSize: u32)
    requires |raw| <= style.MaxLength()
    ensures PartAt(style, EncodePart(style, raw) + tail, totalSize) == Part(raw, tail, NextState(totalSize, |raw|))
  {
    var word := style.PartWord(|raw|);
    var s := EncodePart(style, raw) + tail;
    Le32Inverse(word, raw + tail);
    Associates(Le32(word), raw, tail);
    style.WordsRecoverLength(|raw|);
    Slices(Le32(word), raw, tail);
  }

  lemma Slices(word: seq<byte>, raw: seq<byte>, tail: seq<byte>)
    requires |word| == 4
    ensures var s := word + (raw + tail);
            s[4..4 + |raw|] == raw && s[4 + |raw|..] == tail && s[4..] == raw + tail
  {
  }

  lemma ReadEncodedMain(style: KeyStyle, frame: Frame, tail: seq<byte>)
    requires Encodable(style, frame)
    ensures var s := Encode(style, frame) + tail;
            && style.IsMain(FromLe32(s)) && Add32(style.Length(FromLe32(s)), 4) == 4 + PartsLength(frame) <= |s|
            && s[4..] == EncodeParts(style, frame) + tail
            && |s| >= HEADER_SIZE
  {
    var word := style.MainWord(PartsLength(frame));
    Le32Inverse(word, EncodeParts(style, frame) + tail);
    Associates(Le32(word), EncodeParts(style, frame), tail);
    style.WordsRecoverLength(PartsLength(frame));
    Slices(Le32(word), EncodeParts(style, frame), tail);
  }

  lemma ParseOnePart(d: Dialect, s: seq<byte>, totalSize: u32, raw: seq<byte>, rest: seq<byte>, before: seq<Call>)
    requires |raw| <= d.Style().MaxLength() && d.Accepts(raw)
    requires s == EncodePart(d.Style(), raw) + rest
    ensures ParseFrom(d, s, InFrame(totalSize), before)
            == ParseFrom(d, rest, NextState(totalSize, |raw|), before + [d.CallFor(raw)])
  {
    ReadEncodedPart(d.Style(), raw, rest, totalSize);
  }

  /** Counting down by one part of a frame. */
  lemma NextStateInside(parts: Frame)
    requires parts != [] && 4 + PartsLength(parts) < U32_MOD
    ensures NextState(4 + PartsLength(parts), |parts[0]|)
            == if |parts| == 1 then AtMain else InFrame(4 + PartsLength(parts[1..]))
  {
    assert |parts| > 1 ==> PartsLength(parts[1..]) >= 4;
  }

  lemma EncodePartsCons(style: KeyStyle, parts: Frame, tail: seq<byte>)
    requires parts != []
    ensures EncodeParts(style, parts) + tail == EncodePart(style, parts[0]) + (EncodeParts(style, parts[1..]) + tail)
  {
    Associates(EncodePart(style, parts[0]), EncodeParts(style, parts[1..]), tail);
  }

  lemma CallsOfCons(d: Dialect, parts: Frame, before: seq<Call>)
    requires parts != []
    ensures before + CallsOf(d, parts) == before + [d.CallFor(parts[0])] + CallsOf(d, parts[1..])
  {
  }

  /** One iteration inside a well-formed frame. */
  lemma FrameStep(d: Dialect, parts: Frame, s: seq<byte>, tail: seq<byte>, before: seq<Call>)
    requires WellFormed(d, parts) && s == EncodeParts(d.Style(), parts) + tail
    ensures ParseFrom(d, s, InFrame(4 + PartsLength(parts)), before)
            == ParseFrom(d, EncodeParts(d.Style(), parts[1..]) + tail,
                         if |parts| == 1 then AtMain else InFrame(4 + PartsLength(parts[1..])),
                         before + [d.CallFor(parts[0])])
  {
    EncodePartsCons(d.Style(), parts, tail);
    var rest := EncodeParts(d.Style(), parts[1..]) + tail;
    ParseOnePart(d, s, 4 + PartsLength(parts), parts[0], rest, before);
    NextStateInside(parts);
  }

  /** Inside a well-formed frame total_size is 4 plus the frame's unread bytes: it never wraps, it is 4 exactly at
      the frame's end, and so every partKey read succeeds and the parser is back at a mainKey just there. */
  lemma {:induction false} FrameAccounting(d: Dialect, parts: Frame, s: seq<byte>, tail: seq<byte>, before: seq<Call>)
    requires WellFormed(d, parts) && s == EncodeParts(d.Style(), parts) + tail
    ensures ParseFrom(d, s, InFrame(4 + PartsLength(parts)), before)
            == ParseFrom(d, tail, AtMain, before + CallsOf(d, parts))
    decreases |parts|
  {
    FrameStep(d, parts, s, tail, before);
    CallsOfCons(d, parts, before);
    var more := parts[1..];
    if more == [] {
      assert EncodeParts(d.Style(), more) + tail == tail;
      assert before + CallsOf(d, parts) == before + [d.CallFor(parts[0])];
    } else {
      FrameAccounting(d, more, EncodeParts(d.Style(), more) + tail, tail, before + [d.CallFor(parts[0])]);
    }
  }

  /** Past the mainKey of a complete frame the loop runs as it does inside the frame. */
  lemma EnterFrame(d: Dialect, s: seq<byte>, before: seq<Call>)
    requires |s| >= HEADER_SIZE && d.Style().IsMain(FromLe32(s))
    requires Add32(d.Style().Length(FromLe32(s)), 4) <= |s|
    ensures ParseFrom(d, s, AtMain, before)
            == ParseFrom(d, s[4..], InFrame(Add32(d.Style().Length(FromLe32(s)), 4)), before)
  {
  }

  lemma OneFrame(d: Dialect, frame: Frame, s: seq<byte>, tail: seq<byte>, before: seq<Call>)
    requires WellFormed(d, frame) && s == Encode(d.Style(), frame) + tail
    ensures ParseFrom(d, s, AtMain, before) == ParseFrom(d, tail, AtMain, before + CallsOf(d, frame))
  {
    ReadEncodedMain(d.Style(), frame, tail);
    EnterFrame(d, s, before);
    FrameAccounting(d, frame, s[4..], tail, before);
  }

  lemma CallsOfAllCons(d: Dialect, frames: seq<Frame>, before: seq<Call>)
    requires frames != []
    ensures before + CallsOf(d, frames[0]) + CallsOfAll(d, frames[1..]) == before + CallsOfAll(d, frames)
  {
  }

  lemma {:induction false} FramesThenTail(d: Dialect, frames: seq<Frame>, s: seq<byte>, tail: seq<byte>,
                                          before: seq<Call>)
    requires forall frame <- frames :: WellFormed(d, frame)
    requires s == EncodeAll(d.Style(), frames) + tail
    ensures ParseFrom(d, s, AtMain, before) == ParseFrom(d, tail, AtMain, before + CallsOfAll(d, frames))
    decreases |frames|
  {
    var style := d.Style();
    if frames == [] {
      assert s == tail;
      assert before + CallsOfAll(d, frames) == before;
    } else {
      var rest := EncodeAll(style, frames[1..]) + tail;
      Associates(Encode(style, frames[0]), EncodeAll(style, frames[1..]), tail);
      OneFrame(d, frames[0], s, rest, before);
      FramesThenTail(d, frames[1..], rest, tail, before + CallsOf(d, frames[0]));
      CallsOfAllCons(d, frames, before);
    }
  }

  lemma StreamIsDelivered(d: Dialect, s: seq<byte>, frames: seq<Frame>, tail: seq<byte>)
    requires IsStream(d, s, frames, tail)
    ensures Parse(d, s) == Result(Done, CallsOfAll(d, frames), tail)
  {
    FramesThenTail(d, frames, s, tail, []);
    assert [] + CallsOfAll(d, frames) == CallsOfAll(d, frames);
  }

  // ---- Delivered bytes are well-formed ----

  /** A part as it was read is a part as it would be written. */
  lemma ReadPartIsEncoded(style: KeyStyle, s: seq<byte>, totalSize: u32)
    requires |s| >= 4 && PartAt(style, s, totalSize).Part?
    ensures var step := PartAt(style, s, totalSize);
            s == EncodePart(style, step.raw) + step.rest && step.next == NextState(totalSize, |step.raw|)
  {
    var step := PartAt(style, s, totalSize);
    style.WordsAreCanonical(FromLe32(s));
    Le32OfFromLe32(s);
    assert s == s[..4] + step.raw + step.rest;
  }

  lemma WordOfLength(style: KeyStyle, word: u32, frame: Frame)
    requires style.IsMain(word) && style.Length(word) == PartsLength(frame)
    ensures style.MainWord(WireLength(PartsLength(frame))) == word
  {
    style.WordsAreCanonical(word);
  }

  lemma ReadMainIsEncoded(style: KeyStyle, s: seq<byte>, frame: Frame, rest: seq<byte>)
    requires |s| >= 4 && style.IsMain(FromLe32(s))
    requires s[4..] == EncodeParts(style, frame) + rest && style.Length(FromLe32(s)) == PartsLength(frame)
    ensures s == Encode(style, frame) + rest && PartsLength(frame) <= style.MaxLength()
  {
    style.WordsAreCanonical(FromLe32(s));
    Le32OfFromLe32(s);
    Associates(s[..4], EncodeParts(style, frame), rest);
    assert s == s[..4] + s[4..];
    WordOfLength(style, FromLe32(s), frame);
  }

  /** Counting backwards: unless 2^32 bytes follow, the count before a part is the count after it plus the part. */
  lemma NextStateBack(totalSize: u32, size: u32, more: nat)
    requires size + 4 + more <= U32_MOD - 8
    ensures NextState(totalSize, size) == AtMain ==> totalSize == size + 8
    ensures NextState(totalSize, size) == InFrame(4 + more) ==> totalSize == size + 8 + more
  {
  }

  /** Once total_size has wrapped it takes 2^32 bytes to come back to 4, so a run that ends with `return true` never
      lost count: what it read since the mainKey is exactly the announced parts. */
  lemma {:induction false} DoneInsideFrame(d: Dialect, s: seq<byte>, totalSize: u32, before: seq<Call>)
    returns (parts: Frame, rest: seq<byte>, after: seq<Call>)
    requires |s| <= U32_MOD - 8
    requires ParseFrom(d, s, InFrame(totalSize), before).outcome == Done
    ensures s == EncodeParts(d.Style(), parts) + rest
    ensures parts != [] && PartsLength(parts) + 4 == totalSize
    ensures forall raw <- parts :: d.Accepts(raw)
    ensures ParseFrom(d, rest, AtMain, after).outcome == Done
    decreases |s|
  {
    var style := d.Style();
    var step := NextPart(style, s, InFrame(totalSize));
    ReadPartIsEncoded(style, s, totalSize);
    after := before + [d.CallFor(step.raw)];
    if step.next.AtMain? {
      NextStateBack(totalSize, |step.raw|, 0);
      parts, rest := [step.raw], step.rest;
      assert EncodeParts(style, parts) == EncodePart(style, step.raw) + [];
    } else {
      var more;
      more, rest, after := DoneInsideFrame(d, step.rest, step.next.totalSize, after);
      NextStateBack(totalSize, |step.raw|, PartsLength(more));
      parts := [step.raw] + more;
      assert parts[1..] == more;
      Associates(EncodePart(style, step.raw), EncodeParts(style, more), rest);
    }
  }

  lemma {:induction false} DoneIsStream(d: Dialect, s: seq<byte>, before: seq<Call>)
    returns (frames: seq<Frame>, tail: seq<byte>)
    requires |s| <= U32_MOD - 8
    requires ParseFrom(d, s, AtMain, before).outcome == Done
    ensures IsStream(d, s, frames, tail)
    decreases |s|
  {
    var style := d.Style();
    if NextPart(style, s, AtMain).Wait? {
      frames, tail := [], s;
      assert s == EncodeAll(style, frames) + tail;
    } else {
      EnterFrame(d, s, before);
      var frame, rest, after := DoneInsideFrame(d, s[4..], Add32(style.Length(FromLe32(s)), 4), before);
      ReadMainIsEncoded(style, s, frame, rest);
      var more;
      more, tail := DoneIsStream(d, rest, after);
      frames := [frame] + more;
      PrependFrame(d, frame, rest, more, tail);
    }
  }

  /** The parser returns true on exactly the byte strings that are acceptable frames and an unfinished tail, and then
      it has handed on exactly the frames' parts, in order, and leaves exactly the tail. */
  lemma ParserAcceptsExactlyStreams(d: Dialect, s: seq<byte>)
    requires |s| <= U32_MOD - 8
    ensures Parse(d, s).outcome == Done <==> exists frames, tail :: IsStream(d, s, frames, tail)
    ensures forall frames, tail | IsStream(d, s, frames, tail) ::
              Parse(d, s) == Result(Done, CallsOfAll(d, frames), tail)
  {
    if Parse(d, s).outcome == Done {
      var frames, tail := DoneIsStream(d, s, []);
    }
    forall frames, tail | IsStream(d, s, frames, tail)
      ensures Parse(d, s) == Result(Done, CallsOfAll(d, frames), tail)
    {
      StreamIsDelivered(d, s, frames, tail);
    }
  }

  // ---- Prefixes ----

  /** How many of the frames lie wholly within the first n bytes. */
  function CompleteFrames(style: KeyStyle, frames: seq<Frame>, n: nat): (k: nat)
    ensures k <= |frames|
  {
    if frames == [] || n < |Encode(style, frames[0])| then 0
    else 1 + CompleteFrames(style, frames[1..], n - |Encode(style, frames[0])|)
  }

  lemma ProperPrefixIsUnfinished(style: KeyStyle, frame: Frame, t: seq<byte>)
    requires Encodable(style, frame)
    requires t <= Encode(style, frame) && t != Encode(style, frame)
    ensures Unfinished(style, t)
  {
    if |t| >= HEADER_SIZE {
      ReadEncodedMain(style, frame, []);
      assert t[..4] == (Encode(style, frame) + [])[..4];
    }
  }

  lemma PrefixOfUnfinished(style: KeyStyle, tail: seq<byte>, n: nat)
    requires Unfinished(style, tail) && n <= |tail|
    ensures Unfinished(style, tail[..n])
  {
    if n >= HEADER_SIZE {
      assert tail[..n][..4] == tail[..4];
    }
  }

  /** Cut a stream anywhere: before the cut are its complete frames and an unfinished tail, and that tail with what
      follows the cut is the rest of the stream. */
  lemma {:induction false} CutStream(d: Dialect, s: seq<byte>, frames: seq<Frame>, tail: seq<byte>, n: nat)
    returns (k: nat, left: seq<byte>)
    requires IsStream(d, s, frames, tail) && n <= |s|
    ensures k == CompleteFrames(d.Style(), frames, n)
    ensures IsStream(d, s[..n], frames[..k], left)
    ensures IsStream(d, left + s[n..], frames[k..], tail)
    decreases |frames|
  {
    if CompleteFrames(d.Style(), frames, n) == 0 {
      k, left := 0, s[..n];
      CutBeforeFirst(d, s, frames, tail, n);
    } else {
      var more, m := DropFrame(d, s, frames, tail, n);
      var k';
      k', left := CutStream(d, more, frames[1..], tail, m);
      k := k' + 1;
      CutLater(d, s, more, frames, tail, n, m, k', left);
    }
  }

  lemma DropFrame(d: Dialect, s: seq<byte>, frames: seq<Frame>, tail: seq<byte>, n: nat)
    returns (more: seq<byte>, m: nat)
    requires IsStream(d, s, frames, tail) && n <= |s|
    requires CompleteFrames(d.Style(), frames, n) > 0
    ensures WellFormed(d, frames[0]) && IsStream(d, more, frames[1..], tail)
    ensures s == Encode(d.Style(), frames[0]) + more
    ensures m <= |more| && n == |Encode(d.Style(), frames[0])| + m
    ensures CompleteFrames(d.Style(), frames, n) == 1 + CompleteFrames(d.Style(), frames[1..], m)
  {
    var first := Encode(d.Style(), frames[0]);
    more, m := EncodeAll(d.Style(), frames[1..]) + tail, n - |first|;
    Associates(first, EncodeAll(d.Style(), frames[1..]), tail);
    assert s == first + more;
  }

  /** A cut behind the first frame is the same cut in the rest of the stream. */
  lemma CutLater(d: Dialect, s: seq<byte>, more: seq<byte>, frames: seq<Frame>, tail: seq<byte>, n: nat, m: nat,
                 k: nat, left: seq<byte>)
    requires frames != [] && WellFormed(d, frames[0]) && m <= |more| && k < |frames|
    requires s == Encode(d.Style(), frames[0]) + more && n == |Encode(d.Style(), frames[0])| + m
    requires IsStream(d, more[..m], frames[1..][..k], left)
    requires IsStream(d, left + more[m..], frames[1..][k..], tail)
    ensures IsStream(d, s[..n], frames[..k + 1], left) && IsStream(d, left + s[n..], frames[k + 1..], tail)
  {
    CutBehind(Encode(d.Style(), frames[0]), more, n);
    PrependFrame(d, frames[0], more[..m], frames[1..][..k], left);
    assert frames[..k + 1] == [frames[0]] + frames[1..][..k] && frames[k + 1..] == frames[1..][k..];
  }

  lemma CutBehind(first: seq<byte>, more: seq<byte>, n: nat)
    requires |first| <= n <= |first + more|
    ensures (first + more)[..n] == first + more[..n - |first|] && (first + more)[n..] == more[n - |first|..]
  {
  }

  lemma CutBeforeFirst(d: Dialect, s: seq<byte>, frames: seq<Frame>, tail: seq<byte>, n: nat)
    requires IsStream(d, s, frames, tail) && n <= |s| && CompleteFrames(d.Style(), frames, n) == 0
    ensures IsStream(d, s[..n], frames[..0], s[..n]) && IsStream(d, s[..n] + s[n..], frames[0..], tail)
  {
    var style := d.Style();
    if frames == [] {
      assert s == tail;
      PrefixOfUnfinished(style, tail, n);
    } else {
      assert WellFormed(d, frames[0]);
      Associates(Encode(style, frames[0]), EncodeAll(style, frames[1..]), tail);
      assert s[..n] == Encode(style, frames[0])[..n];
      ProperPrefixIsUnfinished(style, frames[0], s[..n]);
    }
    assert EncodeAll(style, frames[..0]) + s[..n] == s[..n];
    assert s[..n] + s[n..] == s && frames[0..] == frames;
  }

  lemma PrependFrame(d: Dialect, frame: Frame, s: seq<byte>, frames: seq<Frame>, tail: seq<byte>)
    requires WellFormed(d, frame) && IsStream(d, s, frames, tail)
    ensures IsStream(d, Encode(d.Style(), frame) + s, [frame] + frames, tail)
  {
    assert ([frame] + frames)[1..] == frames;
    Associates(Encode(d.Style(), frame), EncodeAll(d.Style(), frames), tail);
  }

  /** On any prefix of a well-formed stream: never an exception, never a rejection, exactly the complete frames'
      parts, and exactly the bytes behind them left unread. */
  lemma PrefixIsDelivered(d: Dialect, s: seq<byte>, frames: seq<Frame>, tail: seq<byte>, n: nat)
    requires IsStream(d, s, frames, tail) && n <= |s|
    ensures var whole := frames[..CompleteFrames(d.Style(), frames, n)];
            && EncodeAll(d.Style(), whole) <= s[..n]
            && Parse(d, s[..n]) == Result(Done, CallsOfAll(d, whole), s[..n][|EncodeAll(d.Style(), whole)|..])
  {
    var k, left := CutStream(d, s, frames, tail, n);
    var whole := frames[..CompleteFrames(d.Style(), frames, n)];
    StreamIsDelivered(d, s[..n], whole, left);
  }
}
