/** BROKER_PROTOCOL::PT_JSON and LOBBY_PROTOCOL::PT_JSON: the packed packet structures, their encoders
    (ConnectorUser::SendJsonPacket, User::SendJsonPacket) and their decoders (the two readJsonPacket).
    The JSON text of a body is opaque bytes; a decoded packet is what reaches the JSON reader and the URL table. */
module JsonPackets {
  import opened Bytes
  import opened Buffers

  const PACKET_CODE: nat := 1        // PT_JSON::packet_value, both protocols
  const MAX_URL_STRING: nat := 32

  const BROKER_HEAD_SIZE: nat := 38  // code 4, url 32, bodySize 2
  const BROKER_MAX_BODY: nat := 4000

  const LOBBY_HEAD_SIZE: nat := 40   // code 1, sequenceNo 4, isCompressed 1, url 32, bodySize 2
  const LOBBY_MAX_BODY: nat := 30000

  const NUL: byte := 0

  datatype Decoded =
    | HeadMissing                                    // the head read throws out of readJsonPacket
    | NoUser                                         // the connection carries no user
    | TooShort                                       // closeReserve(0)
    | BadBodySize
    | BodyMissing                                    // the body read throws and is caught
    | UrlUnterminated                                // no NUL in the 32 bytes: what the code then reads is undefined
    | Dispatch(url: seq<byte>, body: seq<byte>)

  // ---- Fields ----

  function Zeros(n: nat): (z: seq<byte>)
    ensures |z| == n && forall i :: 0 <= i < n ==> z[i] == NUL
  {
    seq(n, i => NUL)
  }

  /** memcpy of the URL over a zeroed field. */
  function UrlField(url: seq<byte>): (f: seq<byte>)
    requires |url| <= MAX_URL_STRING
    ensures |f| == MAX_URL_STRING
  {
    url + Zeros(MAX_URL_STRING - |url|)
  }

  /** The std::string made from a char array: everything before the first NUL. */
  function CString(field: seq<byte>): Option<seq<byte>> {
    if field == [] then None
    else if field[0] == NUL then Some([])
    else match CString(field[1..])
      case None => None
      case Some(s) => Some([field[0]] + s)
  }

  /** A C string is the longest NUL-free prefix, and it exists exactly when there is a NUL to end it. */
  lemma {:induction false} CStringIsPrefix(s: seq<byte>, field: seq<byte>)
    ensures CString(field) == Some(s) <==> NUL !in s && s + [NUL] <= field
  {
    if field == [] {
    } else if field[0] == NUL {
      assert s != [] ==> (s + [NUL])[0] == s[0];
    } else if s == [] {
    } else {
      CStringIsPrefix(s[1..], field[1..]);
      assert s == [s[0]] + s[1..];
      assert s + [NUL] == [s[0]] + (s[1..] + [NUL]);
      assert s + [NUL] <= field <==> s[0] == field[0] && s[1..] + [NUL] <= field[1..] by {
        assert field == [field[0]] + field[1..];
        if s + [NUL] <= field {
          assert (s + [NUL])[1..] == s[1..] + [NUL];
          assert s[0] == (s + [NUL])[0] == field[0];
        }
      }
    }
  }

  lemma UrlRecovered(url: seq<byte>)
    requires |url| <= MAX_URL_STRING
    ensures CString(UrlField(url)) == Some(url) <==> NUL !in url && |url| < MAX_URL_STRING
  {
    CStringIsPrefix(url, UrlField(url));
    if |url| < MAX_URL_STRING {
      assert UrlField(url)[..|url| + 1] == url + [NUL];
    }
  }

  // ---- The broker protocol ----

  function BrokerPacket(url: seq<byte>, body: seq<byte>): (p: seq<byte>)
    requires |url| <= MAX_URL_STRING && |body| <= BROKER_MAX_BODY
    ensures |p| == BROKER_HEAD_SIZE + |body|
  {
    Le32(PACKET_CODE) + UrlField(url) + Le16(|body|) + body
  }

  function BrokerDecode(part: seq<byte>): Decoded {
    if |part| < BROKER_HEAD_SIZE then HeadMissing
    else DecodeAfterHead(part[4..36], FromLe16(part[36..]), part[BROKER_HEAD_SIZE..], BROKER_MAX_BODY)
  }

  function DecodeAfterHead(urlField: seq<byte>, bodySize: u16, rest: seq<byte>, maxBody: nat): Decoded {
    if maxBody < bodySize || bodySize == 0 then BadBodySize
    else if |rest| < bodySize then BodyMissing
    else match CString(urlField)
      case None => UrlUnterminated
      case Some(url) => Dispatch(url, rest[..bodySize])
  }

  /** readJsonPacket undoes SendJsonPacket exactly for NUL-free URLs of at most 31 bytes and non-empty bodies. */
  lemma BrokerRoundTrip(url: seq<byte>, body: seq<byte>)
    requires |url| <= MAX_URL_STRING && |body| <= BROKER_MAX_BODY
    ensures BrokerDecode(BrokerPacket(url, body)) == Dispatch(url, body)
            <==> NUL !in url && |url| < MAX_URL_STRING && body != []
  {
    var p := BrokerPacket(url, body);
    assert p[4..36] == UrlField(url);
    assert p[36..] == Le16(|body|) + body;
    Le16Inverse(|body|, body);
    assert p[BROKER_HEAD_SIZE..] == body;
    assert body[..|body|] == body;
    UrlRecovered(url);
  }

  // ---- The lobby protocol ----

  /** The body travels with one NUL behind it. */
  function LobbyPacket(sequenceNo: u32, url: seq<byte>, body: seq<byte>): (p: seq<byte>)
    requires |url| <= MAX_URL_STRING && |body| < LOBBY_MAX_BODY
    ensures |p| == LOBBY_HEAD_SIZE + |body| + 1
  {
    [PACKET_CODE] + Le32(sequenceNo) + [0] + UrlField(url) + Le16(|body| + 1) + body + [NUL]
  }

  function LobbyDecode(hasUser: bool, part: seq<byte>): Decoded {
    if !hasUser then NoUser
    else if |part| < LOBBY_HEAD_SIZE then TooShort
    else DecodeAfterHead(part[6..38], FromLe16(part[38..]), part[LOBBY_HEAD_SIZE..], LOBBY_MAX_BODY)
  }

  lemma LobbyRoundTrip(sequenceNo: u32, url: seq<byte>, body: seq<byte>)
    requires |url| <= MAX_URL_STRING && |body| < LOBBY_MAX_BODY
    ensures LobbyDecode(true, LobbyPacket(sequenceNo, url, body)) == Dispatch(url, body + [NUL])
            <==> NUL !in url && |url| < MAX_URL_STRING
  {
    var p := LobbyPacket(sequenceNo, url, body);
    assert p[6..38] == UrlField(url);
    assert p[38..] == Le16(|body| + 1) + (body + [NUL]);
    Le16Inverse(|body| + 1, body + [NUL]);
    assert p[LOBBY_HEAD_SIZE..] == body + [NUL];
    assert (body + [NUL])[..|body| + 1] == body + [NUL];
    UrlRecovered(url);
  }

  // ---- The packets byte for byte ----

  /** The url and nothing but NULs behind it. */
  predicate UrlBytes(field: seq<byte>, url: seq<byte>) {
    |url| <= |field| == 32 && field[..|url|] == url && forall i | |url| <= i < 32 :: field[i] == 0
  }

  predicate BrokerBytes(p: seq<byte>, url: seq<byte>, body: seq<byte>) {
    && |p| == 38 + |body|
    && p[..4] == [1, 0, 0, 0]
    && UrlBytes(p[4..36], url)
    && p[36] as int + 0x100 * p[37] as int == |body|
    && p[38..] == body
  }

  /** Byte 5 is isCompressed; the size counts the trailing NUL. */
  predicate LobbyBytes(p: seq<byte>, sequenceNo: u32, url: seq<byte>, body: seq<byte>) {
    && |p| == 41 + |body|
    && p[0] == 1
    && p[1] as int + 0x100 * p[2] as int + 0x1_0000 * p[3] as int + 0x100_0000 * p[4] as int == sequenceNo
    && p[5] == 0
    && UrlBytes(p[6..38], url)
    && p[38] as int + 0x100 * p[39] as int == |body| + 1
    && p[40..40 + |body|] == body && p[40 + |body|] == 0
  }

  lemma Le16Bytes(n: u16)
    ensures Le16(n)[0] as int + 0x100 * Le16(n)[1] as int == n
  {
    var s := Le16(n);
    Le16Inverse(n, []);
    assert s + [] == s && s[..HALF_WIDTH] == s;
    assert s == [s[0]] + [s[1]] && s[1..] == [s[1]] && [s[1]][1..] == [];
    assert Value([s[1]]) == s[1];
  }

  lemma Le32Bytes(n: u32)
    ensures var s := Le32(n);
            s[0] as int + 0x100 * s[1] as int + 0x1_0000 * s[2] as int + 0x100_0000 * s[3] as int == n
  {
    var s := Le32(n);
    Le32Inverse(n, []);
    assert s + [] == s && s[..WORD_WIDTH] == s;
    assert s[1..][1..] == s[2..] && s[2..][1..] == s[3..] && s[3..][1..] == [];
    assert Value(s[3..]) == s[3] && Value(s[2..]) == s[2] as int + 0x100 * s[3] as int;
    assert Value(s[1..]) == s[1] as int + 0x100 * s[2] as int + 0x1_0000 * s[3] as int;
  }

  lemma BrokerPacketBytes(url: seq<byte>, body: seq<byte>)
    requires |url| <= MAX_URL_STRING && |body| <= BROKER_MAX_BODY
    ensures BrokerBytes(BrokerPacket(url, body), url, body)
  {
    var p := BrokerPacket(url, body);
    assert Le32(PACKET_CODE) == [1, 0, 0, 0] by {
      Le32Bytes(PACKET_CODE);
      var s := Le32(PACKET_CODE);
      assert s == [s[0], s[1], s[2], s[3]];
    }
    assert p[4..36] == UrlField(url);
    Le16Bytes(|body|);
    assert p[36] == Le16(|body|)[0] && p[37] == Le16(|body|)[1];
  }

  lemma LobbyPacketBytes(sequenceNo: u32, url: seq<byte>, body: seq<byte>)
    requires |url| <= MAX_URL_STRING && |body| < LOBBY_MAX_BODY
    ensures LobbyBytes(LobbyPacket(sequenceNo, url, body), sequenceNo, url, body)
  {
    var p := LobbyPacket(sequenceNo, url, body);
    Le32Bytes(sequenceNo);
    assert p[1..5] == Le32(sequenceNo);
    assert p[6..38] == UrlField(url);
    Le16Bytes(|body| + 1);
    assert p[38..40] == Le16(|body| + 1);
  }

  /** When the broker's decoder ends how, by the bytes of the part. */
  lemma BrokerEnds(part: seq<byte>)
    ensures BrokerDecode(part) == HeadMissing <==> |part| < 38
    ensures |part| >= 38 ==>
              var size := part[36] as int + 0x100 * part[37] as int;
              && (BrokerDecode(part) == BadBodySize <==> size == 0 || size > 4000)
              && (BrokerDecode(part) == BodyMissing <==> 0 < size <= 4000 && |part| - 38 < size)
              && (BrokerDecode(part) == UrlUnterminated
                  <==> 0 < size <= 4000 && size <= |part| - 38 && 0 !in part[4..36])
              && (BrokerDecode(part).Dispatch? ==> BrokerDecode(part).body == part[38..38 + size])
  {
    if |part| >= 38 {
      SizeSays(part[36..]);
      NulEnds(part[4..36]);
    }
  }

  lemma LobbyEnds(hasUser: bool, part: seq<byte>)
    ensures LobbyDecode(hasUser, part) == NoUser <==> !hasUser
    ensures hasUser ==> (LobbyDecode(hasUser, part) == TooShort <==> |part| < 40)
    ensures hasUser && |part| >= 40 ==>
              var size := part[38] as int + 0x100 * part[39] as int;
              && (LobbyDecode(true, part) == BadBodySize <==> size == 0 || size > 30000)
              && (LobbyDecode(true, part) == BodyMissing <==> 0 < size <= 30000 && |part| - 40 < size)
              && (LobbyDecode(true, part) == UrlUnterminated
                  <==> 0 < size <= 30000 && size <= |part| - 40 && 0 !in part[6..38])
              && (LobbyDecode(true, part).Dispatch? ==> LobbyDecode(true, part).body == part[40..40 + size])
  {
    if |part| >= 40 {
      SizeSays(part[38..]);
      NulEnds(part[6..38]);
    }
  }

  lemma SizeSays(s: seq<byte>)
    requires |s| >= 2
    ensures FromLe16(s) == s[0] as int + 0x100 * s[1] as int
  {
    assert s[..HALF_WIDTH] == [s[0]] + [s[1]] && s[..HALF_WIDTH][1..] == [s[1]] && [s[1]][1..] == [];
    assert Value([s[1]]) == s[1];
  }

  lemma {:induction false} NulEnds(field: seq<byte>)
    ensures CString(field) == None <==> 0 !in field
  {
    if field != [] && field[0] != NUL {
      NulEnds(field[1..]);
      assert field == [field[0]] + field[1..];
    }
  }

  // ---- The methods of the source ----

  /** ConnectorUser::SendJsonPacket up to the call of Send. */
  method EncodeBroker(url: seq<byte>, serialized: seq<byte>) returns (sent: seq<byte>)
    requires |url| <= MAX_URL_STRING && |serialized| <= BROKER_MAX_BODY
    ensures sent == BrokerPacket(url, serialized)
    ensures BrokerBytes(sent, url, serialized)
  {
    sent := FillBroker(url, serialized);
    BrokerPacketBytes(url, serialized);
  }

  /** The structure is filled field by field and its first HEAD_SIZE + bodySize bytes are sent. */
  method FillBroker(url: seq<byte>, serialized: seq<byte>) returns (sent: seq<byte>)
    requires |url| <= MAX_URL_STRING && |serialized| <= BROKER_MAX_BODY
    ensures sent == BrokerPacket(url, serialized)
  {
    var pk := new byte[BROKER_HEAD_SIZE + BROKER_MAX_BODY];
    StoreBrokerHead(pk, url);
    ghost var head := pk[..36];
    var bodySize: u16 := |serialized| % U16_MOD;
    Store(pk, 36, Le16(bodySize));
    Store(pk, BROKER_HEAD_SIZE, serialized);
    ThreeStored(pk[..], head, Le16(bodySize), serialized);
    sent := pk[..BROKER_HEAD_SIZE + bodySize];
  }

  /** Everything in front of bodySize. */
  method StoreBrokerHead(pk: array<byte>, url: seq<byte>)
    requires pk.Length >= BROKER_HEAD_SIZE && |url| <= MAX_URL_STRING
    modifies pk
    ensures pk[..36] == Le32(PACKET_CODE) + UrlField(url)
  {
    Store(pk, 0, Le32(PACKET_CODE));
    StoreUrl(pk, 4, url);
    assert pk[..4] == Le32(PACKET_CODE);
    assert pk[..36] == pk[..4] + pk[4..36];
  }

  /** Three fields side by side. */
  lemma ThreeStored(pk: seq<byte>, a: seq<byte>, b: seq<byte>, c: seq<byte>)
    requires |a| + |b| + |c| <= |pk|
    requires pk[..|a|] == a && pk[|a|..|a| + |b|] == b && pk[|a| + |b|..|a| + |b| + |c|] == c
    ensures pk[..|a| + |b| + |c|] == a + b + c
  {
  }

  /** User::SendJsonPacket with compression compiled out. */
  method EncodeLobby(sequenceNo: u32, url: seq<byte>, serialized: seq<byte>) returns (sent: Option<seq<byte>>)
    requires |url| <= MAX_URL_STRING && |serialized| < LOBBY_MAX_BODY
    ensures sent == Some(LobbyPacket(sequenceNo, url, serialized))
    ensures LobbyBytes(sent.value, sequenceNo, url, serialized)
  {
    sent := FillLobby(sequenceNo, url, serialized);
    LobbyPacketBytes(sequenceNo, url, serialized);
  }

  method FillLobby(sequenceNo: u32, url: seq<byte>, serialized: seq<byte>) returns (sent: Option<seq<byte>>)
    requires |url| <= MAX_URL_STRING && |serialized| < LOBBY_MAX_BODY
    ensures sent == Some(LobbyPacket(sequenceNo, url, serialized))
  {
    var pk := new byte[LOBBY_HEAD_SIZE + LOBBY_MAX_BODY];
    StoreLobbyHead(pk, sequenceNo, url);
    ghost var head := pk[..38];
    var rawBodySize := |serialized| + 1;
    StoreLobbyBody(pk, serialized);
    var bodySize: u16 := rawBodySize % U16_MOD;
    Store(pk, 38, Le16(bodySize));
    if bodySize > LOBBY_MAX_BODY {
      return None;
    }
    assert pk[40..40 + rawBodySize] == serialized + [NUL];
    ThreeStored(pk[..], head, Le16(bodySize), serialized + [NUL]);
    sent := Some(pk[..LOBBY_HEAD_SIZE + bodySize]);
    Associates(head + Le16(bodySize), serialized, [NUL]);
  }

  method StoreLobbyBody(pk: array<byte>, serialized: seq<byte>)
    requires LOBBY_HEAD_SIZE + |serialized| < pk.Length
    modifies pk
    ensures pk[40..41 + |serialized|] == serialized + [NUL]
    ensures pk[..40] == old(pk[..40])
  {
    Store(pk, LOBBY_HEAD_SIZE, serialized);
    Store(pk, LOBBY_HEAD_SIZE + |serialized|, [NUL]);
    assert pk[40..40 + |serialized|] == serialized;
  }

  method StoreLobbyHead(pk: array<byte>, sequenceNo: u32, url: seq<byte>)
    requires pk.Length >= LOBBY_HEAD_SIZE && |url| <= MAX_URL_STRING
    modifies pk
    ensures pk[..38] == [PACKET_CODE] + Le32(sequenceNo) + [0] + UrlField(url)
  {
    Store(pk, 0, [PACKET_CODE]);
    Store(pk, 5, [0]);
    Store(pk, 1, Le32(sequenceNo));
    StoreUrl(pk, 6, url);
    assert pk[..1] == [PACKET_CODE];
    assert pk[1..5] == Le32(sequenceNo);
    assert pk[..38] == pk[..1] + pk[1..5] + [pk[5]] + pk[6..38];
  }

  /** The constructor's memset of the url field, then the memcpy of the url. */
  method StoreUrl(pk: array<byte>, at: nat, url: seq<byte>)
    requires at + MAX_URL_STRING <= pk.Length && |url| <= MAX_URL_STRING
    modifies pk
    ensures pk[at..at + MAX_URL_STRING] == UrlField(url)
    ensures forall i | 0 <= i < pk.Length && !(at <= i < at + MAX_URL_STRING) :: pk[i] == old(pk[i])
  {
    forall i | 0 <= i < MAX_URL_STRING {
      pk[at + i] := NUL;
    }
    forall i | 0 <= i < |url| {
      pk[at + i] := url[i];
    }
  }

  /** memcpy into a structure. */
  method Store(a: array<byte>, at: nat, src: seq<byte>)
    requires at + |src| <= a.Length
    modifies a
    ensures a[at..at + |src|] == src
    ensures forall i | 0 <= i < a.Length && !(at <= i < at + |src|) :: a[i] == old(a[i])
  {
    forall i | 0 <= i < |src| {
      a[at + i] := src[i];
    }
  }

  /** BrokerConnector::readJsonPacket */
  method ReadBrokerPacket(msg: MessageBuffer) returns (r: Decoded)
    requires msg.Valid()
    modifies msg`rd, msg`wr, msg.buf
    ensures r == BrokerDecode(old(msg.Contents()))
  {
    ghost var part := msg.Contents();
    var req := new byte[BROKER_HEAD_SIZE + BROKER_MAX_BODY];
    var threw := msg.Read(req, 0, BROKER_HEAD_SIZE);
    if threw {
      return HeadMissing;
    }
    assert req[..BROKER_HEAD_SIZE] == part[..BROKER_HEAD_SIZE];
    r := ReadBody(msg, req, 4, 36, BROKER_HEAD_SIZE, BROKER_MAX_BODY, part);
  }

  /** LobbyAcceptorReceiver::readJsonPacket */
  method ReadLobbyPacket(hasUser: bool, size: nat, msg: MessageBuffer) returns (r: Decoded)
    requires msg.Valid() && size == |msg.Contents()|
    modifies msg`rd, msg`wr, msg.buf
    ensures r == LobbyDecode(hasUser, old(msg.Contents()))
  {
    ghost var part := msg.Contents();
    if !hasUser {
      return NoUser;
    }
    if LOBBY_HEAD_SIZE > size {
      return TooShort;
    }
    var req := new byte[LOBBY_HEAD_SIZE + LOBBY_MAX_BODY];
    var threw := msg.Read(req, 0, LOBBY_HEAD_SIZE);
    assert req[..LOBBY_HEAD_SIZE] == part[..LOBBY_HEAD_SIZE];
    r := ReadBody(msg, req, 6, 38, LOBBY_HEAD_SIZE, LOBBY_MAX_BODY, part);
  }

  /** What both readJsonPacket do once the head is in the structure. */
  method ReadBody(msg: MessageBuffer, req: array<byte>, urlAt: nat, sizeAt: nat, head: nat, maxBody: nat,
                  ghost part: seq<byte>)
    returns (r: Decoded)
    requires msg.Valid() && req != msg.buf && req.Length == head + maxBody
    requires urlAt + MAX_URL_STRING <= sizeAt && sizeAt + 2 == head
    requires head <= |part| && req[..head] == part[..head] && msg.Contents() == part[head..]
    modifies msg`rd, msg`wr, msg.buf, req
    ensures r == DecodeAfterHead(part[urlAt..urlAt + MAX_URL_STRING], FromLe16(part[sizeAt..]), part[head..], maxBody)
  {
    assert req[sizeAt] == req[..head][sizeAt] && req[sizeAt + 1] == req[..head][sizeAt + 1];
    var bodySize := FromLe16([req[sizeAt], req[sizeAt + 1]]);
    assert [req[sizeAt], req[sizeAt + 1]][..2] == part[sizeAt..][..2];
    assert bodySize == FromLe16(part[sizeAt..]);
    if maxBody < bodySize || bodySize == 0 {
      return BadBodySize;
    }
    var threw := msg.Read(req, head, bodySize);
    if threw {
      return BodyMissing;
    }
    assert req[..head] == part[..head];
    assert req[head..head + bodySize] == part[head..][..bodySize];
    assert req[urlAt..urlAt + MAX_URL_STRING] == part[urlAt..urlAt + MAX_URL_STRING] by {
      assert req[..head][urlAt..urlAt + MAX_URL_STRING] == part[..head][urlAt..urlAt + MAX_URL_STRING];
    }
    var url := CString(req[urlAt..urlAt + MAX_URL_STRING]);
    match url
    case None => r := UrlUnterminated;
    case Some(u) => r := Dispatch(u, req[head..head + bodySize]);
  }
}
