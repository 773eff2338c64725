/** The wire byte for byte: what a header looks like, and what each parser does with one part, by the part's first
    bytes. */
module Routing {
  import opened Bytes
  import opened Keys
  import opened Framing
  import opened PacketParser
  import Xor

  // ---- Bytes of a word ----

  /** Four bytes, least significant first. */
  function WordOf(a: byte, b: byte, c: byte, d: byte): u32 {
    a as int + 0x100 * b as int + 0x1_0000 * c as int + 0x100_0000 * d as int
  }

  lemma ValueOfFour(a: byte, b: byte, c: byte, d: byte)
    ensures Value([a, b, c, d]) == WordOf(a, b, c, d)
  {
    assert [a, b, c, d][1..] == [b, c, d] && [b, c, d][1..] == [c, d] && [c, d][1..] == [d] && [d][1..] == [];
    assert Value([d]) == d && Value([c, d]) == c as int + 0x100 * d as int;
    assert Value([b, c, d]) == b as int + 0x100 * c as int + 0x1_0000 * d as int;
  }

  lemma WordIs(n: u32, a: byte, b: byte, c: byte, d: byte)
    requires n == WordOf(a, b, c, d)
    ensures Le32(n) == [a, b, c, d]
  {
    ValueOfFour(a, b, c, d);
    LittleEndianOfValue([a, b, c, d]);
  }

  lemma WordSays(s: seq<byte>)
    requires |s| >= 4
    ensures FromLe32(s) == WordOf(s[0], s[1], s[2], s[3])
  {
    assert s[..4] == [s[0], s[1], s[2], s[3]];
    ValueOfFour(s[0], s[1], s[2], s[3]);
  }

  // ---- The header ----

  /** A packet goes out behind its length plus 4 and its length, both least significant byte first; the tagged words end
      in 0xffff and 0xfff3. */
  lemma WireBytes(style: KeyStyle, p: seq<byte>)
    requires |p| <= 32760
    ensures var n := |p|; var w := Wire(style, p);
            && |w| == 8 + n && w[8..] == p
            && w[..4] == [(n + 4) % 0x100, (n + 4) / 0x100] + (if style.Tagged? then [0xff, 0xff] else [0, 0])
            && w[4..8] == [n % 0x100, n / 0x100] + (if style.Tagged? then [0xf3, 0xff] else [0, 0])
  {
    var n := |p|;
    assert PartsLength([p]) == 4 + n;
    var main, part := Le32(style.MainWord(4 + n)), Le32(style.PartWord(n));
    assert EncodeParts(style, [p]) == part + p + [];
    assert Wire(style, p) == main + (part + p);
    TagIsKept(n);
    TagIsKept(n + 4);
    if style.Tagged? {
      WordIs(style.MainWord(4 + n), (n + 4) % 0x100, (n + 4) / 0x100, 0xff, 0xff);
      WordIs(style.PartWord(n), n % 0x100, n / 0x100, 0xf3, 0xff);
    } else {
      WordIs(4 + n, (n + 4) % 0x100, (n + 4) / 0x100, 0, 0);
      WordIs(n, n % 0x100, n / 0x100, 0, 0);
    }
  }

  lemma TagIsKept(len: u32)
    requires len < U16_MOD
    ensures Tagged.MainWord(len) == 0xffff_0000 + len && Tagged.PartWord(len) == 0xfff3_0000 + len
  {
    assert MAIN_KEY % U16_MOD == 0 && PART_KEY % U16_MOD == 0;
  }

  /** The parsers that look for markers turn away a header without 0xffff in it. */
  lemma TaggedNeedsMarker(d: Dialect, s: seq<byte>)
    requires |s| >= 8 && d.Style() == Tagged
    ensures s[2..4] != [0xff, 0xff] ==> Parse(d, s).outcome == Rejected
  {
    WordSays(s);
    MarkerIsHigh(s[0], s[1], s[2], s[3]);
    if s[2..4] != [0xff, 0xff] {
      assert s[2] != 0xff || s[3] != 0xff;
    }
  }

  lemma MarkerIsHigh(a: byte, b: byte, c: byte, d: byte)
    ensures KeyTag(WordOf(a, b, c, d)) == 0x1_0000 * c as int + 0x100_0000 * d as int
  {
    var low, high := a as int + 0x100 * b as int, c as int + 0x100 * d as int;
    assert WordOf(a, b, c, d) == low + U16_MOD * high && 0 <= low < U16_MOD;
    assert WordOf(a, b, c, d) % U16_MOD == low;
  }

  /** Which parsers look for markers. */
  lemma StyleOfParser(d: Dialect)
    ensures d.Style() == if d == JsonLobbyTest || d == JsonBrokerTest then Plain else Tagged
  {
  }

  // ---- One part ----

  /** A frame of one part: its handler is called, and decides. */
  lemma OnePart(d: Dialect, p: seq<byte>)
    requires |p| <= 32760
    ensures Parse(d, Wire(d.Style(), p)) == ParseAfterCall(d, d.CallFor(p), [], AtMain, [])
  {
    var style := d.Style();
    var w := Wire(style, p);
    assert PartsLength([p]) == 4 + |p| && w + [] == w;
    ReadEncodedMain(style, [p], []);
    EnterFrame(d, w, []);
    assert EncodeParts(style, [p]) == EncodePart(style, p) + [];
    ReadEncodedPart(style, p, [], 8 + |p|);
    assert w[4..] == EncodePart(style, p) + [];
  }

  lemma OneCall(d: Dialect, p: seq<byte>)
    requires |p| <= 32760
    ensures var r := Parse(d, Wire(d.Style(), p)); var call := d.CallFor(p);
            && r.calls == [call] && r.rest == []
            && (r.outcome == Rejected <==> call.route == NoHandler)
            && (r.outcome == Thrown <==> call.route != NoHandler && d.HandlerThrows(call))
  {
    OnePart(d, p);
  }

  /** The deployed client parser looks at one byte: 1 is a JSON packet, 3 a heartbeat, everything else and nothing at all
      goes to noHandler. */
  lemma LobbyTestRoutes(p: seq<byte>)
    requires |p| <= 32760
    ensures var r := Parse(JsonLobbyTest, Wire(Plain, p));
            && (r.outcome == Rejected <==> p == [] || p[0] !in {1, 3}) && r.outcome != Thrown
            && r.calls == [Call(if p == [] then NoHandler else if p[0] == 1 then ToJson
                                else if p[0] == 3 then Heartbeat else NoHandler, p)]
  {
    OneCall(JsonLobbyTest, p);
  }

  predicate Begins(p: seq<byte>, code: byte) {
    |p| >= 4 && p[..4] == [code, 0, 0, 0]
  }

  lemma CodeBegins(p: seq<byte>, code: byte)
    requires |p| >= 4
    ensures FromLe32(p) == code <==> Begins(p, code)
  {
    WordSays(p);
  }

  /** The other client parsers look at four bytes; the xor one after unmasking. */
  lemma LobbyRoutes(p: seq<byte>)
    requires |p| <= 32760
    ensures var r := Parse(JsonLobby, Wire(Tagged, p));
            && (r.outcome == Rejected <==> !Begins(p, 1) && !Begins(p, 3)) && r.outcome != Thrown
            && r.calls == [Call(if Begins(p, 1) then ToJson else if Begins(p, 3) then Heartbeat else NoHandler, p)]
            && Parse(JsonLobbyXor, Wire(Tagged, Xor.Mask(p, 0x5a))) == r
  {
    if |p| >= 4 {
      CodeBegins(p, 1);
      CodeBegins(p, 3);
    }
    OneCall(JsonLobby, p);
    OneCall(JsonLobbyXor, Xor.Mask(p, 0x5a));
    Xor.MaskUndoesItself(p, 0x5a);
  }

  /** The broker parsers know one code, have no heartbeat, and throw on a JSON part shorter than the 38 bytes of its
      head. */
  lemma BrokerRoutes(d: Dialect, p: seq<byte>)
    requires |p| <= 32760 && (d == JsonBroker || d == JsonBrokerTest)
    ensures var r := Parse(d, Wire(d.Style(), p));
            && (r.outcome == Rejected <==> !Begins(p, 1))
            && (r.outcome == Thrown <==> Begins(p, 1) && |p| < 38)
            && r.calls == [Call(if Begins(p, 1) then ToJson else NoHandler, p)]
  {
    if |p| >= 4 {
      CodeBegins(p, 1);
    }
    OneCall(d, p);
  }

  /** packetParserSimple: members before statics, and a part shorter than a code counts as code 0. */
  lemma RegisteredRoutes(members: set<u32>, statics: set<u32>, p: seq<byte>)
    requires |p| <= 32760
    ensures var r := Parse(Registered(members, statics), Wire(Tagged, p));
            var code := if |p| < 4 then 0 else WordOf(p[0], p[1], p[2], p[3]);
            && (r.outcome == Rejected <==> code !in members && code !in statics) && r.outcome != Thrown
            && r.calls == [Call(if code in members then ToMember else if code in statics then ToStatic
                                else NoHandler, p)]
  {
    if |p| >= 4 {
      WordSays(p);
    }
    OneCall(Registered(members, statics), p);
  }
}
