/** packetParser_xor against packetParser_notUseEnc, for every byte string. */
module Masking {
  import opened Bytes
  import opened Keys
  import opened Framing
  import Xor

  /** Mask the part bodies of s and nothing else: keys, and whatever the parser would not take as a part, stay. */
  function MaskBodies(s: seq<byte>, st: FrameState): (m: seq<byte>)
    ensures |m| == |s|
    decreases |s|
  {
    match NextPart(Tagged, s, st)
    case Part(raw, rest, next) =>
      s[..HeadLength(st)] + (Xor.Mask(raw, Xor.MASK) + MaskBodies(rest, next))
    case _ => s
  }

  /** The key bytes in front of a part. */
  function HeadLength(st: FrameState): nat {
    if st.AtMain? then 8 else 4
  }

  /** A step depends on the key bytes and the length alone. */
  lemma SameHeadSameStep(s: seq<byte>, raw: seq<byte>, rest: seq<byte>, st: FrameState)
    requires NextPart(Tagged, s, st).Part?
    requires |raw| == |NextPart(Tagged, s, st).raw| && |rest| == |NextPart(Tagged, s, st).rest|
    ensures NextPart(Tagged, s[..HeadLength(st)] + (raw + rest), st) == Part(raw, rest, NextPart(Tagged, s, st).next)
  {
    var t := s[..HeadLength(st)] + (raw + rest);
    assert t[..4] == s[..4];
    if st.AtMain? {
      assert t[4..][..4] == s[4..][..4];
      assert t[4..] == s[4..8] + (raw + rest);
      SamePart(s[4..], t[4..], raw, rest, Add32(Tagged.Length(FromLe32(s)), 4));
    } else {
      SamePart(s, t, raw, rest, st.totalSize);
    }
  }

  lemma SamePart(s: seq<byte>, t: seq<byte>, raw: seq<byte>, rest: seq<byte>, totalSize: u32)
    requires |s| >= 4 && PartAt(Tagged, s, totalSize).Part?
    requires |raw| == |PartAt(Tagged, s, totalSize).raw| && |rest| == |PartAt(Tagged, s, totalSize).rest|
    requires t == s[..4] + (raw + rest)
    ensures PartAt(Tagged, t, totalSize) == Part(raw, rest, PartAt(Tagged, s, totalSize).next)
  {
    assert t[..4] == s[..4];
    Slices(s[..4], raw, rest);
  }

  lemma StepOfMasked(s: seq<byte>, st: FrameState)
    ensures var step := NextPart(Tagged, s, st);
            NextPart(Tagged, MaskBodies(s, st), st)
            == match step
               case Part(raw, rest, next) => Part(Xor.Mask(raw, Xor.MASK), MaskBodies(rest, next), next)
               case _ => step
  {
    var step := NextPart(Tagged, s, st);
    if step.Part? {
      SameHeadSameStep(s, Xor.Mask(step.raw, Xor.MASK), MaskBodies(step.rest, step.next), st);
    }
  }

  /** Masking a stream twice gives it back. */
  lemma {:induction false} MaskBodiesUndoesItself(s: seq<byte>, st: FrameState)
    ensures MaskBodies(MaskBodies(s, st), st) == s
    decreases |s|
  {
    var step := NextPart(Tagged, s, st);
    StepOfMasked(s, st);
    if step.Part? {
      Xor.MaskUndoesItself(step.raw, Xor.MASK);
      MaskBodiesUndoesItself(step.rest, step.next);
      assert MaskBodies(s, st)[..HeadLength(st)] == s[..HeadLength(st)];
      BodyAndRest(s, st);
    }
  }

  lemma BodyAndRest(s: seq<byte>, st: FrameState)
    requires NextPart(Tagged, s, st).Part?
    ensures var step := NextPart(Tagged, s, st); s == s[..HeadLength(st)] + (step.raw + step.rest)
  {
    var at := HeadLength(st) - 4;
    assert s[at..][4..] == s[HeadLength(st)..];
  }

  /** The xor parser on a masked stream is the plain parser on the stream: same parts, same outcome, same leftover. */
  lemma {:induction false} XorParsesMasked(s: seq<byte>, st: FrameState, before: seq<Call>)
    ensures ParseFrom(JsonLobbyXor, MaskBodies(s, st), st, before) == ParseFrom(JsonLobby, s, st, before)
    decreases |s|
  {
    var step := NextPart(Tagged, s, st);
    StepOfMasked(s, st);
    if step.Part? {
      Xor.MaskUndoesItself(step.raw, Xor.MASK);
      assert JsonLobbyXor.CallFor(Xor.Mask(step.raw, Xor.MASK)) == JsonLobby.CallFor(step.raw);
      XorParsesMasked(step.rest, step.next, before + [JsonLobby.CallFor(step.raw)]);
    }
  }

  // ---- A sender that masks each part ----

  function MaskFrame(parts: Frame): (masked: Frame)
    ensures |masked| == |parts| && PartsLength(masked) == PartsLength(parts)
  {
    if parts == [] then [] else [Xor.Mask(parts[0], Xor.MASK)] + MaskFrame(parts[1..])
  }

  function MaskFrames(frames: seq<Frame>): seq<Frame> {
    if frames == [] then [] else [MaskFrame(frames[0])] + MaskFrames(frames[1..])
  }

  /** From one part on the masked form is the part masked, framed as before, and the rest masked. */
  lemma MaskOnePart(s: seq<byte>, raw: seq<byte>, rest: seq<byte>, totalSize: u32)
    requires |raw| <= Tagged.MaxLength() && s == EncodePart(Tagged, raw) + rest
    ensures MaskBodies(s, InFrame(totalSize))
            == EncodePart(Tagged, Xor.Mask(raw, Xor.MASK)) + MaskBodies(rest, NextState(totalSize, |raw|))
  {
    ReadEncodedPart(Tagged, raw, rest, totalSize);
    var masked := Xor.Mask(raw, Xor.MASK);
    var word := Le32(Tagged.PartWord(|raw|));
    Associates(word, raw, rest);
    assert s[..4] == word;
    Associates(word, masked, MaskBodies(rest, NextState(totalSize, |raw|)));
  }

  lemma MaskFirstPart(parts: Frame, s: seq<byte>, rest: seq<byte>)
    requires Encodable(Tagged, parts) && s == EncodePart(Tagged, parts[0]) + rest
    ensures MaskBodies(s, InFrame(4 + PartsLength(parts)))
            == EncodePart(Tagged, Xor.Mask(parts[0], Xor.MASK))
               + MaskBodies(rest, if |parts| == 1 then AtMain else InFrame(4 + PartsLength(parts[1..])))
  {
    MaskOnePart(s, parts[0], rest, 4 + PartsLength(parts));
    NextStateInside(parts);
  }

  lemma {:induction false} MaskParts(parts: Frame, s: seq<byte>, tail: seq<byte>)
    requires Encodable(Tagged, parts) && s == EncodeParts(Tagged, parts) + tail
    ensures MaskBodies(s, InFrame(4 + PartsLength(parts)))
            == EncodeParts(Tagged, MaskFrame(parts)) + MaskBodies(tail, AtMain)
    decreases |parts|
  {
    var more := parts[1..];
    var rest := EncodeParts(Tagged, more) + tail;
    EncodePartsCons(Tagged, parts, tail);
    MaskFirstPart(parts, s, rest);
    MaskedCons(parts, MaskBodies(tail, AtMain));
    if more == [] {
      assert rest == tail;
      assert EncodeParts(Tagged, MaskFrame(more)) + MaskBodies(tail, AtMain) == MaskBodies(tail, AtMain);
    } else {
      MaskParts(more, rest, tail);
    }
  }

  lemma MaskedCons(parts: Frame, tail: seq<byte>)
    requires parts != []
    ensures EncodeParts(Tagged, MaskFrame(parts)) + tail
            == EncodePart(Tagged, Xor.Mask(parts[0], Xor.MASK)) + (EncodeParts(Tagged, MaskFrame(parts[1..])) + tail)
  {
    assert MaskFrame(parts)[1..] == MaskFrame(parts[1..]);
    EncodePartsCons(Tagged, MaskFrame(parts), tail);
  }

  /** The mainKey of a complete frame stays, and masking goes on inside the frame. */
  lemma MaskFromMain(s: seq<byte>)
    requires |s| >= HEADER_SIZE && Tagged.IsMain(FromLe32(s)) && Add32(Tagged.Length(FromLe32(s)), 4) <= |s|
    ensures MaskBodies(s, AtMain) == s[..4] + MaskBodies(s[4..], InFrame(Add32(Tagged.Length(FromLe32(s)), 4)))
  {
    var st := InFrame(Add32(Tagged.Length(FromLe32(s)), 4));
    var step := NextPart(Tagged, s[4..], st);
    assert NextPart(Tagged, s, AtMain) == step;
    if step.Part? {
      assert s[..8] == s[..4] + s[4..][..4];
      Associates(s[..4], s[4..][..4], Xor.Mask(step.raw, Xor.MASK) + MaskBodies(step.rest, step.next));
    } else {
      assert s == s[..4] + s[4..];
    }
  }

  lemma MaskOneFrame(frame: Frame, s: seq<byte>, tail: seq<byte>)
    requires Encodable(Tagged, frame) && s == Encode(Tagged, frame) + tail
    ensures MaskBodies(s, AtMain) == Encode(Tagged, MaskFrame(frame)) + MaskBodies(tail, AtMain)
  {
    ReadEncodedMain(Tagged, frame, tail);
    MaskFromMain(s);
    MaskParts(frame, s[4..], tail);
    var word := Le32(Tagged.MainWord(PartsLength(frame)));
    Associates(word, EncodeParts(Tagged, frame), tail);
    assert s[..4] == word;
    Associates(word, EncodeParts(Tagged, MaskFrame(frame)), MaskBodies(tail, AtMain));
  }

  /** The masked form of a stream is what a sender puts on the wire that masks every part before framing it. */
  lemma {:induction false} MaskedStream(frames: seq<Frame>, s: seq<byte>, tail: seq<byte>)
    requires forall frame <- frames :: Encodable(Tagged, frame)
    requires s == EncodeAll(Tagged, frames) + tail
    ensures MaskBodies(s, AtMain) == EncodeAll(Tagged, MaskFrames(frames)) + MaskBodies(tail, AtMain)
    decreases |frames|
  {
    if frames == [] {
      assert s == tail;
    } else {
      var rest := EncodeAll(Tagged, frames[1..]) + tail;
      Associates(Encode(Tagged, frames[0]), EncodeAll(Tagged, frames[1..]), tail);
      assert frames[0] in frames;
      MaskOneFrame(frames[0], s, rest);
      MaskedStream(frames[1..], rest, tail);
      assert MaskFrames(frames)[1..] == MaskFrames(frames[1..]);
      Associates(Encode(Tagged, MaskFrame(frames[0])), EncodeAll(Tagged, MaskFrames(frames[1..])),
                 MaskBodies(tail, AtMain));
    }
  }

  /** So the xor parser hands on the parts of acceptable frames as they were before the sender masked them, in order,
      and leaves the unfinished tail. */
  lemma MaskedIsDelivered(frames: seq<Frame>, tail: seq<byte>)
    requires forall frame <- frames :: WellFormed(JsonLobby, frame)
    requires Unfinished(Tagged, tail)
    ensures Parse(JsonLobbyXor, EncodeAll(Tagged, MaskFrames(frames)) + tail)
            == Result(Done, CallsOfAll(JsonLobby, frames), tail)
  {
    var s := EncodeAll(Tagged, frames) + tail;
    MaskedStream(frames, s, tail);
    XorParsesMasked(s, AtMain, []);
    StreamIsDelivered(JsonLobby, s, frames, tail);
  }
}
