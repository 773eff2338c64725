/** Which byte strings make a parser throw, and which make it reject. */
module Throwing {
  import opened Bytes
  import opened Keys
  import opened Framing

  /** No number of these parts fills what the mainKey announced. */
  predicate NeverAddsUp(parts: Frame, totalSize: int) {
    forall k | 0 < k <= |parts| :: PartsLength(parts[..k]) + 4 != totalSize
  }

  predicate AllAccepted(d: Dialect, parts: Frame) {
    forall i | 0 <= i < |parts| :: d.Accepts(parts[i]) && |parts[i]| <= d.Style().MaxLength()
  }

  /** How a run ends on what comes next inside a frame, if it ends there: too few bytes for a partKey and a part whose
      handler throws are exceptions; a wrong marker, a length beyond the buffer and a part nobody handles are rejected. */
  function Stop(d: Dialect, rest: seq<byte>): Outcome {
    if |rest| < 4 then Thrown
    else match PartAt(d.Style(), rest, 0)
      case Part(raw, _, _) =>
        if d.CallFor(raw).route == NoHandler then Rejected
        else if d.HandlerThrows(d.CallFor(raw)) then Thrown
        else Done
      case _ => Rejected
  }

  /** Acceptable frames, then a mainKey with all it announces behind it, acceptable parts that never add up to it, and
      what ends the run. */
  ghost predicate IsBroken(d: Dialect, s: seq<byte>, how: Outcome, frames: seq<Frame>, word: u32, parts: Frame,
                           rest: seq<byte>)
  {
    var totalSize := Add32(d.Style().Length(word), 4);
    && (forall frame <- frames :: WellFormed(d, frame))
    && s == EncodeAll(d.Style(), frames) + BrokenFrame(d.Style(), word, parts, rest)
    && d.Style().IsMain(word)
    && HEADER_SIZE <= |BrokenFrame(d.Style(), word, parts, rest)|
    && totalSize <= |BrokenFrame(d.Style(), word, parts, rest)|
    && AllAccepted(d, parts) && NeverAddsUp(parts, totalSize) && Stop(d, rest) == how
  }

  /** Acceptable frames, then a header without the mainKey's marker. */
  ghost predicate IsAstray(d: Dialect, s: seq<byte>, frames: seq<Frame>, rest: seq<byte>) {
    && (forall frame <- frames :: WellFormed(d, frame))
    && s == EncodeAll(d.Style(), frames) + rest
    && HEADER_SIZE <= |rest| && !d.Style().IsMain(FromLe32(rest))
  }

  function BrokenFrame(style: KeyStyle, word: u32, parts: Frame, rest: seq<byte>): (s: seq<byte>)
    ensures |s| == 4 + PartsLength(parts) + |rest|
  {
    Le32(word) + (EncodeParts(style, parts) + rest)
  }

  // ---- The count ----

  /** total_size as it is, and as it would be without wrapping. */
  predicate Counts(totalSize: u32, exact: int) {
    totalSize == if exact >= 0 then exact else exact + U32_MOD
  }

  /** One part further: at a mainKey exactly if the exact count says so, unless 2^32 bytes have gone by. */
  lemma CountPart(totalSize: u32, exact: int, size: u32)
    requires Counts(totalSize, exact) && size + 4 < U32_MOD && 4 - U32_MOD < exact - size - 4
    ensures match NextState(totalSize, size)
            case AtMain => exact - size - 4 == 4
            case InFrame(left) => exact - size - 4 != 4 && Counts(left, exact - size - 4)
  {
  }

  lemma NeverAddsUpCons(raw: seq<byte>, parts: Frame, exact: int)
    ensures NeverAddsUp([raw] + parts, exact)
            <==> |raw| + 8 != exact && NeverAddsUp(parts, exact - |raw| - 4)
  {
    var all := [raw] + parts;
    assert all[..1] == [raw] && PartsLength([raw]) == 4 + |raw| + PartsLength([raw][1..]);
    forall k | 0 < k <= |parts| ensures PartsLength(all[..k + 1]) == 4 + |raw| + PartsLength(parts[..k]) {
      assert all[..k + 1] == [raw] + parts[..k];
      assert all[..k + 1][1..] == parts[..k];
    }
    if NeverAddsUp(all, exact) {
      forall k | 0 < k <= |parts| ensures PartsLength(parts[..k]) + 4 != exact - |raw| - 4 {
        assert PartsLength(all[..k + 1]) + 4 != exact;
      }
    }
    if |raw| + 8 != exact && NeverAddsUp(parts, exact - |raw| - 4) {
      forall k | 0 < k <= |all| ensures PartsLength(all[..k]) + 4 != exact {
        if k > 1 {
          assert PartsLength(parts[..k - 1]) + 4 != exact - |raw| - 4;
        }
      }
    }
  }

  // ---- Broken bytes end the run ----

  lemma StopEnds(d: Dialect, rest: seq<byte>, totalSize: u32, before: seq<Call>)
    requires Stop(d, rest) != Done
    ensures ParseFrom(d, rest, InFrame(totalSize), before).outcome == Stop(d, rest)
  {
  }

  lemma {:induction false} PartsThenStop(d: Dialect, parts: Frame, rest: seq<byte>, s: seq<byte>, totalSize: u32,
                                         exact: int, before: seq<Call>)
    requires AllAccepted(d, parts) && NeverAddsUp(parts, exact) && Stop(d, rest) != Done && Counts(totalSize, exact)
    requires s == EncodeParts(d.Style(), parts) + rest
    requires PartsLength(parts) < U32_MOD && 4 - U32_MOD < exact - PartsLength(parts)
    ensures ParseFrom(d, s, InFrame(totalSize), before).outcome == Stop(d, rest)
    decreases |parts|
  {
    if parts == [] {
      assert s == rest;
      StopEnds(d, rest, totalSize, before);
    } else {
      var raw, more := parts[0], parts[1..];
      assert parts == [raw] + more;
      NeverAddsUpCons(raw, more, exact);
      CountPart(totalSize, exact, |raw|);
      EncodePartsCons(d.Style(), parts, rest);
      var s' := EncodeParts(d.Style(), more) + rest;
      ParseOnePart(d, s, totalSize, raw, s', before);
      PartsThenStop(d, more, rest, s', NextState(totalSize, |raw|).totalSize, exact - |raw| - 4,
                    before + [d.CallFor(raw)]);
    }
  }

  lemma BrokenEnds(d: Dialect, s: seq<byte>, how: Outcome, frames: seq<Frame>, word: u32, parts: Frame,
                   rest: seq<byte>)
    requires |s| <= U32_MOD - 8 && how != Done && IsBroken(d, s, how, frames, word, parts, rest)
    ensures Parse(d, s).outcome == how
  {
    var t := BrokenFrame(d.Style(), word, parts, rest);
    var inside := EncodeParts(d.Style(), parts) + rest;
    FramesThenTail(d, frames, s, t, []);
    Le32Inverse(word, inside);
    assert t[4..] == inside;
    var before := [] + CallsOfAll(d, frames);
    EnterFrame(d, t, before);
    var totalSize := Add32(d.Style().Length(word), 4);
    PartsThenStop(d, parts, rest, inside, totalSize, totalSize, before);
  }

  lemma AstrayIsRejected(d: Dialect, s: seq<byte>, frames: seq<Frame>, rest: seq<byte>)
    requires IsAstray(d, s, frames, rest)
    ensures Parse(d, s).outcome == Rejected
  {
    FramesThenTail(d, frames, s, rest, []);
  }

  // ---- Runs that end otherwise are on broken bytes ----

  /** The first iteration inside a frame: it ends the run, or takes a part and goes on. */
  lemma FirstInside(d: Dialect, s: seq<byte>, totalSize: u32, before: seq<Call>)
    ensures var step := NextPart(d.Style(), s, InFrame(totalSize));
            var r := ParseFrom(d, s, InFrame(totalSize), before);
            if Stop(d, s) != Done then r.outcome == Stop(d, s)
            else step.Part? && d.Accepts(step.raw)
                 && r == ParseFrom(d, step.rest, step.next, before + [d.CallFor(step.raw)])
  {
  }

  /** From inside a frame, a run that does not return true either ends the frame and ends so later, or stops in it. */
  lemma {:induction false} EndInside(d: Dialect, s: seq<byte>, totalSize: u32, exact: int, before: seq<Call>)
    returns (parts: Frame, rest: seq<byte>, ended: bool, after: seq<Call>)
    requires Counts(totalSize, exact) && |s| < U32_MOD && 4 - U32_MOD < exact - |s|
    requires ParseFrom(d, s, InFrame(totalSize), before).outcome != Done
    ensures s == EncodeParts(d.Style(), parts) + rest && AllAccepted(d, parts)
    ensures var how := ParseFrom(d, s, InFrame(totalSize), before).outcome;
            && (ended ==> parts != [] && PartsLength(parts) + 4 == exact
                          && ParseFrom(d, rest, AtMain, after).outcome == how)
            && (!ended ==> NeverAddsUp(parts, exact) && Stop(d, rest) == how)
    decreases |s|
  {
    var style := d.Style();
    var step := NextPart(style, s, InFrame(totalSize));
    FirstInside(d, s, totalSize, before);
    if Stop(d, s) != Done {
      parts, rest, ended, after := [], s, false, before;
      assert s == EncodeParts(style, parts) + rest;
    } else {
      var raw := step.raw;
      TakenPart(style, s, totalSize, exact);
      after := before + [d.CallFor(raw)];
      if step.next.AtMain? {
        parts, rest, ended := [raw], step.rest, true;
        OnePartMore(d, s, raw, step.rest, [], step.rest);
        assert parts == [raw] + [];
      } else {
        var more;
        more, rest, ended, after := EndInside(d, step.rest, step.next.totalSize, exact - |raw| - 4, after);
        OnePartMore(d, s, raw, step.rest, more, rest);
        NeverAddsUpCons(raw, more, exact);
        parts := [raw] + more;
      }
    }
  }

  lemma OnePartMore(d: Dialect, s: seq<byte>, raw: seq<byte>, s': seq<byte>, more: Frame, rest: seq<byte>)
    requires s == EncodePart(d.Style(), raw) + s' && s' == EncodeParts(d.Style(), more) + rest
    requires d.Accepts(raw) && |raw| <= d.Style().MaxLength() && AllAccepted(d, more)
    ensures s == EncodeParts(d.Style(), [raw] + more) + rest && AllAccepted(d, [raw] + more)
    ensures PartsLength([raw] + more) == 4 + |raw| + PartsLength(more)
  {
    assert ([raw] + more)[1..] == more;
    Associates(EncodePart(d.Style(), raw), EncodeParts(d.Style(), more), rest);
  }

  /** A part taken is encoded bytes, and counted. */
  lemma TakenPart(style: KeyStyle, s: seq<byte>, totalSize: u32, exact: int)
    requires Counts(totalSize, exact) && |s| < U32_MOD && 4 - U32_MOD < exact - |s|
    requires |s| >= 4 && PartAt(style, s, totalSize).Part?
    ensures var step := PartAt(style, s, totalSize);
            && s == EncodePart(style, step.raw) + step.rest && |step.raw| <= style.MaxLength()
            && match step.next
               case AtMain => exact - |step.raw| - 4 == 4
               case InFrame(left) => exact - |step.raw| - 4 != 4 && Counts(left, exact - |step.raw| - 4)
  {
    ReadPartIsEncoded(style, s, totalSize);
    style.WordsAreCanonical(FromLe32(s));
    CountPart(totalSize, exact, |PartAt(style, s, totalSize).raw|);
  }

  lemma {:induction false} EndIsBroken(d: Dialect, s: seq<byte>, before: seq<Call>)
    returns (astray: bool, frames: seq<Frame>, word: u32, parts: Frame, rest: seq<byte>)
    requires |s| <= U32_MOD - 8
    requires ParseFrom(d, s, AtMain, before).outcome != Done
    ensures var how := ParseFrom(d, s, AtMain, before).outcome;
            if astray then how == Rejected && IsAstray(d, s, frames, rest)
            else IsBroken(d, s, how, frames, word, parts, rest)
    decreases |s|
  {
    var style := d.Style();
    word := FromLe32(s);
    frames, parts, rest := [], [], s;
    astray := !style.IsMain(word);
    if astray {
      assert s == EncodeAll(style, frames) + rest;
    } else {
      var totalSize := Add32(style.Length(word), 4);
      EnterFrame(d, s, before);
      var ended, after;
      parts, rest, ended, after := EndInside(d, s[4..], totalSize, totalSize, before);
      if ended {
        var frame, t := parts, rest;
        ReadMainIsEncoded(style, s, frame, t);
        assert WellFormed(d, frame);
        astray, frames, word, parts, rest := EndIsBroken(d, t, after);
        OneFrameMore(d, s, frame, t, frames, if astray then rest else BrokenFrame(style, word, parts, rest));
        frames := [frame] + frames;
      } else {
        Le32OfFromLe32(s);
        assert s == s[..4] + s[4..];
        assert s == EncodeAll(style, frames) + BrokenFrame(style, word, parts, rest);
      }
    }
  }

  lemma OneFrameMore(d: Dialect, s: seq<byte>, frame: Frame, t: seq<byte>, frames: seq<Frame>, rest: seq<byte>)
    requires s == Encode(d.Style(), frame) + t && t == EncodeAll(d.Style(), frames) + rest
    requires WellFormed(d, frame) && forall f <- frames :: WellFormed(d, f)
    ensures s == EncodeAll(d.Style(), [frame] + frames) + rest
    ensures forall f <- [frame] + frames :: WellFormed(d, f)
  {
    assert ([frame] + frames)[1..] == frames;
    Associates(Encode(d.Style(), frame), EncodeAll(d.Style(), frames), rest);
  }

  /** A run throws exactly on acceptable frames followed by a complete frame whose parts do not add up to what its
      mainKey announces and end with fewer than 4 bytes, or reach a part whose handler throws. */
  lemma ParserThrowsExactlyOnBroken(d: Dialect, s: seq<byte>)
    requires |s| <= U32_MOD - 8
    ensures Parse(d, s).outcome == Thrown
            <==> exists frames, word, parts, rest :: IsBroken(d, s, Thrown, frames, word, parts, rest)
  {
    if Parse(d, s).outcome == Thrown {
      var astray, frames, word, parts, rest := EndIsBroken(d, s, []);
    }
    forall frames, word, parts, rest | IsBroken(d, s, Thrown, frames, word, parts, rest)
      ensures Parse(d, s).outcome == Thrown
    {
      BrokenEnds(d, s, Thrown, frames, word, parts, rest);
    }
  }

  /** A run rejects exactly acceptable frames followed by a header without the mainKey's marker, or by a complete frame
      whose parts do not add up and reach a wrong partKey marker, a length beyond the buffer or a part nobody handles. */
  lemma ParserRejectsExactlyBadBytes(d: Dialect, s: seq<byte>)
    requires |s| <= U32_MOD - 8
    ensures Parse(d, s).outcome == Rejected
            <==> (exists frames, rest :: IsAstray(d, s, frames, rest))
                 || (exists frames, word, parts, rest :: IsBroken(d, s, Rejected, frames, word, parts, rest))
  {
    if Parse(d, s).outcome == Rejected {
      var astray, frames, word, parts, rest := EndIsBroken(d, s, []);
    }
    forall frames, rest | IsAstray(d, s, frames, rest) ensures Parse(d, s).outcome == Rejected {
      AstrayIsRejected(d, s, frames, rest);
    }
    forall frames, word, parts, rest | IsBroken(d, s, Rejected, frames, word, parts, rest)
      ensures Parse(d, s).outcome == Rejected
    {
      BrokenEnds(d, s, Rejected, frames, word, parts, rest);
    }
  }

  /** A heartbeat part one byte longer than its frame: total_size wraps to 2^32 - 1, the parser takes itself to be
      inside the frame still, and the partKey read throws. */
  lemma WrappedCountThrows()
    ensures var s := Le32(1) + (Le32(2) + [3, 0]);
            && NextPart(Plain, s, AtMain) == Part([3, 0], [], InFrame(U32_MOD - 1))
            && Parse(JsonLobbyTest, s).outcome == Thrown
  {
    var raw: seq<byte> := [3, 0];
    var parts := [raw];
    assert EncodeParts(Plain, parts) == EncodePart(Plain, raw) + [] && PartsLength(parts) == 6;
    assert EncodePart(Plain, raw) == Le32(2) + raw;
    var s := Le32(1) + (Le32(2) + raw);
    assert s == EncodeAll(Plain, []) + BrokenFrame(Plain, 1, parts, []);
    assert NeverAddsUp(parts, 5) by {
      assert parts[..1] == parts;
    }
    assert IsBroken(JsonLobbyTest, s, Thrown, [], 1, parts, []);
    BrokenEnds(JsonLobbyTest, s, Thrown, [], 1, parts, []);
    Le32Inverse(1, Le32(2) + raw);
    assert s[4..] == EncodePart(Plain, raw) + [];
    ReadEncodedPart(Plain, raw, [], 5);
  }
}
