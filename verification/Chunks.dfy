/** A byte stream arriving in pieces: what a retained buffer delivers, and what one fresh buffer a read delivers. */
module Chunks {
  import opened Bytes
  import opened Keys
  import opened Framing

  // ---- A retained buffer ----

  lemma NextPartOfMore(style: KeyStyle, a: seq<byte>, b: seq<byte>, st: FrameState)
    requires NextPart(style, a, st).Part?
    ensures var step := NextPart(style, a, st);
            NextPart(style, a + b, st) == Part(step.raw, step.rest + b, step.next)
  {
    var at := if st.AtMain? then 4 else 0;
    assert (a + b)[..4] == a[..4];
    assert (a + b)[at..] == a[at..] + b;
    PartAtOfMore(style, a[at..], b, if st.AtMain? then Add32(style.Length(FromLe32(a)), 4) else st.totalSize);
  }

  lemma PartAtOfMore(style: KeyStyle, a: seq<byte>, b: seq<byte>, totalSize: u32)
    requires |a| >= 4 && PartAt(style, a, totalSize).Part?
    ensures var step := PartAt(style, a, totalSize);
            PartAt(style, a + b, totalSize) == Part(step.raw, step.rest + b, step.next)
  {
    var step := PartAt(style, a, totalSize);
    assert (a + b)[..4] == a[..4];
    assert (a + b)[4..4 + |step.raw|] == step.raw;
    assert (a + b)[4 + |step.raw|..] == step.rest + b;
  }

  /** Stop after any bytes a, keep what is unread, append any bytes b, go on: the same calls, outcome and leftover as
      one run on a + b. Only a run that returned true can be resumed. */
  lemma {:induction false} Resume(d: Dialect, a: seq<byte>, b: seq<byte>, st: FrameState, before: seq<Call>)
    requires ParseFrom(d, a, st, before).outcome == Done
    ensures var r := ParseFrom(d, a, st, before);
            ParseFrom(d, a + b, st, before) == ParseFrom(d, r.rest + b, AtMain, r.calls)
    decreases |a|
  {
    var step := NextPart(d.Style(), a, st);
    if step.Part? {
      NextPartOfMore(d.Style(), a, b, st);
      Resume(d, step.rest, b, step.next, before + [d.CallFor(step.raw)]);
    } else {
      assert st == AtMain;
    }
  }

  /** One run per chunk on a buffer that keeps its unread bytes. */
  function FeedRetained(d: Dialect, left: seq<byte>, chunks: seq<seq<byte>>, before: seq<Call>): Result
    decreases |chunks|
  {
    if chunks == [] then Result(Done, before, left)
    else
      var r := ParseFrom(d, left + chunks[0], AtMain, before);
      if r.outcome != Done then r else FeedRetained(d, r.rest, chunks[1..], r.calls)
  }

  /** However a well-formed stream is cut into chunks, the chunks deliver what the stream delivers at once. */
  lemma {:induction false} AnyChunking(d: Dialect, left: seq<byte>, chunks: seq<seq<byte>>, before: seq<Call>,
                                       frames: seq<Frame>, tail: seq<byte>)
    requires IsStream(d, left + Concat(chunks), frames, tail)
    requires Unfinished(d.Style(), left)
    ensures FeedRetained(d, left, chunks, before) == Result(Done, before + CallsOfAll(d, frames), tail)
    decreases |chunks|
  {
    var s := left + Concat(chunks);
    if chunks == [] {
      assert s == left;
      UnfinishedWaits(d, left, before);
      StreamWaits(d, s, frames, tail, before);
    } else {
      var n := |left + chunks[0]|;
      assert s[..n] == left + chunks[0] && s[n..] == Concat(chunks[1..]);
      var k, left' := CutStream(d, s, frames, tail, n);
      StreamWaits(d, s[..n], frames[..k], left', before);
      AnyChunking(d, left', chunks[1..], before + CallsOfAll(d, frames[..k]), frames[k..], tail);
      CallsOfAllSplit(d, frames, k, before);
    }
  }

  lemma UnfinishedWaits(d: Dialect, tail: seq<byte>, before: seq<Call>)
    requires Unfinished(d.Style(), tail)
    ensures ParseFrom(d, tail, AtMain, before) == Result(Done, before, tail)
  {
  }

  lemma StreamWaits(d: Dialect, s: seq<byte>, frames: seq<Frame>, tail: seq<byte>, before: seq<Call>)
    requires IsStream(d, s, frames, tail)
    ensures ParseFrom(d, s, AtMain, before) == Result(Done, before + CallsOfAll(d, frames), tail)
  {
    FramesThenTail(d, frames, s, tail, before);
    UnfinishedWaits(d, tail, before + CallsOfAll(d, frames));
  }

  lemma CallsOfAllSplit(d: Dialect, frames: seq<Frame>, k: nat, before: seq<Call>)
    requires k <= |frames|
    ensures before + CallsOfAll(d, frames[..k]) + CallsOfAll(d, frames[k..]) == before + CallsOfAll(d, frames)
  {
    CallsOfAllAppend(d, frames[..k], frames[k..]);
    assert frames[..k] + frames[k..] == frames;
  }

  lemma {:induction false} CallsOfAllAppend(d: Dialect, a: seq<Frame>, b: seq<Frame>)
    ensures CallsOfAll(d, a + b) == CallsOfAll(d, a) + CallsOfAll(d, b)
  {
    if a == [] {
      assert a + b == b;
    } else {
      assert (a + b)[1..] == a[1..] + b;
      CallsOfAllAppend(d, a[1..], b);
    }
  }

  // ---- A fresh buffer for every read, as ConnectionImpl::read_handler has it ----

  /** The leftover of each run goes with its buffer. */
  function FreshCalls(d: Dialect, chunks: seq<seq<byte>>): seq<Call> {
    if chunks == [] then [] else Parse(d, chunks[0]).calls + FreshCalls(d, chunks[1..])
  }

  lemma {:induction false} FreshCallsAppend(d: Dialect, chunks: seq<seq<byte>>, chunk: seq<byte>)
    ensures FreshCalls(d, chunks + [chunk]) == FreshCalls(d, chunks) + Parse(d, chunk).calls
  {
    if chunks == [] {
      assert chunks + [chunk] == [chunk];
      assert FreshCalls(d, [chunk]) == Parse(d, chunk).calls + FreshCalls(d, [chunk][1..]);
    } else {
      assert (chunks + [chunk])[1..] == chunks[1..] + [chunk];
      FreshCallsAppend(d, chunks[1..], chunk);
    }
  }

  /** The bytes of a stream that the parts of these calls and their partKeys take up. */
  function Volume(calls: seq<Call>): nat {
    if calls == [] then 0 else 4 + |calls[0].part| + Volume(calls[1..])
  }

  lemma {:induction false} VolumeAppend(a: seq<Call>, b: seq<Call>)
    ensures Volume(a + b) == Volume(a) + Volume(b)
  {
    if a == [] {
      assert a + b == b;
    } else {
      assert (a + b)[1..] == a[1..] + b;
      VolumeAppend(a[1..], b);
    }
  }

  /** Every part delivered, whatever the bytes, was paid for by its own length, a partKey, and in front of the first
      one a mainKey. */
  lemma {:induction false} CallsFitInput(d: Dialect, s: seq<byte>, st: FrameState, before: seq<Call>)
    ensures var r := ParseFrom(d, s, st, before);
            && before <= r.calls
            && Volume(r.calls[|before|..]) + (if r.calls != before && st.AtMain? then 4 else 0) + |r.rest| <= |s|
    decreases |s|
  {
    var step := NextPart(d.Style(), s, st);
    var r := ParseFrom(d, s, st, before);
    if step.Part? {
      var call := d.CallFor(step.raw);
      assert Volume([call]) == 4 + |step.raw|;
      if call.route == NoHandler || d.HandlerThrows(call) {
        assert r.calls[|before|..] == [call];
      } else {
        CallsFitInput(d, step.rest, step.next, before + [call]);
        var more := r.calls[|before| + 1..];
        assert r.calls[|before|..] == [call] + more;
        VolumeAppend([call], more);
      }
    } else {
      assert r.calls[|before|..] == [];
    }
  }

  lemma RunFitsInput(d: Dialect, s: seq<byte>)
    ensures var calls := Parse(d, s).calls; Volume(calls) + (if calls != [] then 4 else 0) <= |s|
  {
    CallsFitInput(d, s, AtMain, []);
    assert Parse(d, s).calls[0..] == Parse(d, s).calls;
  }

  lemma {:induction false} FreshCallsFitInput(d: Dialect, chunks: seq<seq<byte>>)
    ensures var calls := FreshCalls(d, chunks);
            Volume(calls) + (if calls != [] then 4 else 0) <= |Concat(chunks)|
  {
    if chunks != [] {
      RunFitsInput(d, chunks[0]);
      FreshCallsFitInput(d, chunks[1..]);
      VolumeAppend(Parse(d, chunks[0]).calls, FreshCalls(d, chunks[1..]));
    }
  }

  /** Calls that fill their stream came out of a single chunk that is all of it. */
  lemma {:induction false} FullVolumeIsOneChunk(d: Dialect, chunks: seq<seq<byte>>)
    requires FreshCalls(d, chunks) != [] && Volume(FreshCalls(d, chunks)) + 4 >= |Concat(chunks)|
    ensures exists chunk <- chunks :: |chunk| == |Concat(chunks)|
  {
    var first, more := Parse(d, chunks[0]).calls, chunks[1..];
    RunFitsInput(d, chunks[0]);
    FreshCallsFitInput(d, more);
    VolumeAppend(first, FreshCalls(d, more));
    if first == [] {
      assert first + FreshCalls(d, more) == FreshCalls(d, more);
      FullVolumeIsOneChunk(d, more);
      var chunk :| chunk in more && |chunk| == |Concat(more)|;
      assert chunk in chunks;
    } else {
      assert chunks[0] in chunks;
    }
  }

  lemma {:induction false} EmptyChunksAreSilent(d: Dialect, chunks: seq<seq<byte>>)
    requires Concat(chunks) == []
    ensures FreshCalls(d, chunks) == []
  {
    if chunks != [] {
      assert |Concat(chunks)| == |chunks[0]| + |Concat(chunks[1..])|;
      EmptyChunksAreSilent(d, chunks[1..]);
    }
  }

  lemma {:induction false} OneFullChunkSpeaks(d: Dialect, chunks: seq<seq<byte>>)
    requires exists chunk <- chunks :: |chunk| == |Concat(chunks)|
    ensures FreshCalls(d, chunks) == Parse(d, Concat(chunks)).calls
  {
    var first, more := chunks[0], chunks[1..];
    assert |Concat(chunks)| == |first| + |Concat(more)|;
    if |first| == |Concat(chunks)| {
      assert Concat(more) == [] && Concat(chunks) == first;
      EmptyChunksAreSilent(d, more);
    } else {
      var chunk :| chunk in chunks && |chunk| == |Concat(chunks)|;
      assert chunk in more;
      ChunkFits(more, chunk);
      assert first == [];
      OneFullChunkSpeaks(d, more);
      assert Concat(chunks) == Concat(more);
      assert Parse(d, first).calls == [];
    }
  }

  lemma {:induction false} ChunkFits(chunks: seq<seq<byte>>, chunk: seq<byte>)
    requires chunk in chunks
    ensures |chunk| <= |Concat(chunks)|
  {
    if chunk != chunks[0] {
      ChunkFits(chunks[1..], chunk);
    }
  }

  /** With a fresh buffer for every read a frame is delivered exactly when one read brings all of it: cut anywhere
      inside, its calls are not the frame's, whatever the pieces happen to parse as. */
  lemma FrameSurvivesFreshBuffers(d: Dialect, frame: Frame, chunks: seq<seq<byte>>)
    requires WellFormed(d, frame) && Concat(chunks) == Encode(d.Style(), frame)
    ensures FreshCalls(d, chunks) == CallsOf(d, frame)
            <==> exists chunk <- chunks :: |chunk| == |Encode(d.Style(), frame)|
  {
    var whole := Encode(d.Style(), frame);
    assert whole == whole + [];
    OneFrame(d, frame, whole, [], []);
    assert [] + CallsOf(d, frame) == CallsOf(d, frame);
    if FreshCalls(d, chunks) == CallsOf(d, frame) {
      VolumeOfFrame(d, frame);
      FullVolumeIsOneChunk(d, chunks);
    }
    if exists chunk <- chunks :: |chunk| == |whole| {
      OneFullChunkSpeaks(d, chunks);
    }
  }

  lemma {:induction false} VolumeOfFrame(d: Dialect, frame: Frame)
    ensures Volume(CallsOf(d, frame)) == PartsLength(frame)
  {
    if frame != [] {
      assert CallsOf(d, frame)[1..] == CallsOf(d, frame[1..]);
      VolumeOfFrame(d, frame[1..]);
    }
  }

  /** Reads that end at frame boundaries lose nothing. */
  lemma {:induction false} AlignedReadsDeliver(d: Dialect, groups: seq<seq<Frame>>)
    requires forall group <- groups, frame <- group :: WellFormed(d, frame)
    ensures FreshCalls(d, EncodeGroups(d.Style(), groups)) == CallsOfAll(d, Flatten(groups))
  {
    if groups != [] {
      var first := EncodeAll(d.Style(), groups[0]);
      assert first == first + [];
      assert groups[0] in groups;
      StreamIsDelivered(d, first, groups[0], []);
      assert EncodeGroups(d.Style(), groups)[1..] == EncodeGroups(d.Style(), groups[1..]);
      AlignedReadsDeliver(d, groups[1..]);
      CallsOfAllAppend(d, groups[0], Flatten(groups[1..]));
    }
  }

  function EncodeGroups(style: KeyStyle, groups: seq<seq<Frame>>): (chunks: seq<seq<byte>>) {
    if groups == [] then [] else [EncodeAll(style, groups[0])] + EncodeGroups(style, groups[1..])
  }

  function Flatten(groups: seq<seq<Frame>>): seq<Frame> {
    if groups == [] then [] else groups[0] + Flatten(groups[1..])
  }
}
