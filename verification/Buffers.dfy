/** net/messageBuffer: a fixed array with a read and a write offset, compacted in place by `read`. */
module Buffers {
  import opened Bytes
  import opened Keys

  const MAX_BUFFER_SIZE: nat := 1024 * 32
  /** `read` compacts once the free tail is shorter than this. */
  const ARRANGE_BELOW: nat := MAX_BUFFER_SIZE / 3 * 2

  datatype Option<T> = None | Some(value: T)

  /** The positions of _read and _write relative to _buffer. */
  datatype Offsets = Offsets(rd: nat, wr: nat) {
    predicate Valid() {
      rd <= wr <= MAX_BUFFER_SIZE
    }

    function Arranged(): Offsets
      requires rd <= wr
    {
      Offsets(0, wr - rd)
    }

    /** The offsets once a successful `read` has compacted, if it does, and before it consumes. */
    function BeforeConsuming(): (o: Offsets)
      requires Valid()
      ensures o.Valid() && o.wr - o.rd == wr - rd
    {
      if MAX_BUFFER_SIZE - wr < ARRANGE_BELOW then Arranged() else this
    }
  }

  /** A runtime_error thrown by the source is `threw == true`, with the buffer unchanged. */
  class MessageBuffer {
    const buf: array<byte>
    var rd: nat
    var wr: nat
    var manip: Option<KeyStyle>

    ghost predicate Valid()
      reads this
    {
      buf.Length == MAX_BUFFER_SIZE && rd <= wr <= MAX_BUFFER_SIZE
    }

    ghost function Contents(): (s: seq<byte>)
      requires Valid()
      reads this, buf
      ensures |s| == wr - rd
    {
      buf[rd..wr]
    }

    ghost function At(): Offsets
      reads this
    {
      Offsets(rd, wr)
    }

    constructor ()
      ensures Valid() && fresh(buf)
      ensures At() == Offsets(0, 0) && Contents() == [] && manip == None
    {
      buf := new byte[MAX_BUFFER_SIZE];
      rd, wr, manip := 0, 0, None;
    }

    /** With preWriteAsHeaderSize the header's 8 bytes are reserved, holding whatever the array held. */
    constructor WithManipulator(style: KeyStyle, preWriteAsHeaderSize: bool)
      ensures Valid() && fresh(buf) && manip == Some(style)
      ensures At() == Offsets(0, if preWriteAsHeaderSize then HEADER_SIZE else 0)
    {
      buf := new byte[MAX_BUFFER_SIZE];
      rd, wr, manip := 0, if preWriteAsHeaderSize then HEADER_SIZE else 0, Some(style);
    }

    /** The copy starts at e's _buffer, not at e's _read, and drops the manipulator. */
    constructor Copy(e: MessageBuffer)
      requires e.Valid()
      ensures Valid() && fresh(buf) && manip == None
      ensures At() == Offsets(0, e.wr - e.rd) && Contents() == e.buf[..e.wr - e.rd]
    {
      buf := new byte[MAX_BUFFER_SIZE];
      rd, wr, manip := 0, 0, None;
      new;
      var threw := Write(e.buf[..e.wr - e.rd]);
    }

    method Clear()
      requires Valid()
      modifies this`rd, this`wr
      ensures Valid() && At() == Offsets(0, 0) && Contents() == []
    {
      rd, wr := 0, 0;
    }

    function Size(): (n: nat)
      requires Valid()
      reads this, buf
      ensures n == |Contents()|
    {
      wr - rd
    }

    function RemainWriteSize(): nat
      requires Valid()
      reads this
    {
      MAX_BUFFER_SIZE - wr
    }

    predicate Readable(count: nat)
      requires Valid()
      reads this, buf
      ensures Readable(count) <==> count <= |Contents()|
    {
      rd + count <= wr
    }

    /** readable(dst, count): a look without consuming. */
    method Peek(dst: array<byte>, count: nat) returns (ok: bool)
      requires Valid() && dst != buf && count <= dst.Length
      modifies dst
      ensures Valid() && Contents() == old(Contents())
      ensures ok == (count <= |Contents()|)
      ensures dst[..] == if ok then Contents()[..count] + old(dst[count..]) else old(dst[..])
    {
      ok := Readable(count);
      if ok {
        forall i | 0 <= i < count {
          dst[i] := buf[rd + i];
        }
        assert dst[..count] == Contents()[..count] && dst[count..] == old(dst[count..]);
        assert dst[..] == dst[..count] + dst[count..];
      }
    }

    /** memmove of the unread bytes to the front of the array. */
    method Arrange()
      requires Valid()
      modifies this`rd, this`wr, buf
      ensures Valid() && At() == old(At()).Arranged()
      ensures Contents() == old(Contents())
    {
      if rd == wr {
        Clear();
      } else {
        var count := Size();
        forall i | 0 <= i < count {
          buf[i] := buf[rd + i];
        }
        rd := 0;
        wr := count;
      }
    }

    /** The source's guard compares size() + count; the copy itself needs count <= remainWriteSize(). */
    method Write(src: seq<byte>) returns (threw: bool)
      requires Valid()
      requires Size() + |src| <= MAX_BUFFER_SIZE ==> |src| <= RemainWriteSize()
      modifies this`wr, buf
      ensures Valid() && threw == (old(Size()) + |src| > MAX_BUFFER_SIZE)
      ensures At() == Offsets(rd, if threw then old(wr) else old(wr) + |src|)
      ensures Contents() == if threw then old(Contents()) else old(Contents()) + src
    {
      if MAX_BUFFER_SIZE < Size() + |src| {
        return true;
      }
      forall i | 0 <= i < |src| {
        buf[wr + i] := src[i];
      }
      wr := wr + |src|;
      threw := false;
    }

    /** write(count): accept count bytes that something else stored at enableBuffer(). */
    method Accept(count: nat) returns (threw: bool)
      requires Valid()
      requires Size() + count <= MAX_BUFFER_SIZE ==> count <= RemainWriteSize()
      modifies this`wr
      ensures Valid() && threw == (old(Size()) + count > MAX_BUFFER_SIZE)
      ensures At() == Offsets(rd, if threw then old(wr) else old(wr) + count)
      ensures Contents() == if threw then old(Contents()) else old(Contents()) + buf[old(wr)..old(wr) + count]
    {
      if MAX_BUFFER_SIZE < Size() + count {
        return true;
      }
      wr := wr + count;
      threw := false;
    }

    /** The compaction at the start of both `read`. */
    method MakeRoom()
      requires Valid()
      modifies this`rd, this`wr, buf
      ensures Valid() && At() == old(At()).BeforeConsuming()
      ensures Contents() == old(Contents())
      ensures RemainWriteSize() >= 21844 || RemainWriteSize() == 32768 - |Contents()|
    {
      if RemainWriteSize() < ARRANGE_BELOW {
        Arrange();
      }
    }

    /** read(dst, count), storing at dst[at..]. */
    method Read(dst: array<byte>, at: nat, count: nat) returns (threw: bool)
      requires Valid() && dst != buf
      requires count <= Size() ==> at + count <= dst.Length
      modifies this`rd, this`wr, buf, dst
      ensures Valid() && threw == (count > |old(Contents())|)
      ensures threw ==> unchanged(this) && unchanged(buf) && unchanged(dst)
      ensures !threw ==> Contents() == old(Contents())[count..]
      ensures !threw ==> At() == Offsets(old(At()).BeforeConsuming().rd + count, old(At()).BeforeConsuming().wr)
      ensures !threw ==> dst[..] == old(dst[..at]) + old(Contents())[..count] + old(dst[at + count..])
    {
      if !Readable(count) {
        return true;
      }
      MakeRoom();
      CopyOut(dst, at, count);
      rd := rd + count;
      threw := false;
    }

    /** memcpy from _read. */
    method CopyOut(dst: array<byte>, at: nat, count: nat)
      requires Valid() && dst != buf && count <= Size() && at + count <= dst.Length
      modifies dst
      ensures dst[..] == old(dst[..at]) + Contents()[..count] + old(dst[at + count..])
    {
      forall i | 0 <= i < count {
        dst[at + i] := buf[rd + i];
      }
      Spliced(old(dst[..]), dst[..], at, Contents()[..count]);
    }

    /** read(count): consume without copying. */
    method Skip(count: nat) returns (threw: bool)
      requires Valid()
      modifies this`rd, this`wr, buf
      ensures Valid() && threw == (count > |old(Contents())|)
      ensures threw ==> unchanged(this) && unchanged(buf)
      ensures !threw ==> Contents() == old(Contents())[count..]
      ensures !threw ==> At() == Offsets(old(At()).BeforeConsuming().rd + count, old(At()).BeforeConsuming().wr)
    {
      if !Readable(count) {
        return true;
      }
      MakeRoom();
      rd := rd + count;
      threw := false;
    }

    method ReadAll()
      requires Valid()
      modifies this`rd, this`wr
      ensures Valid() && At() == Offsets(0, 0) && Contents() == []
    {
      rd, wr := 0, 0;
    }

    /** facilitate: with a manipulator, the first 8 bytes from _read on become the two words. */
    method Facilitate()
      requires Valid()
      requires rd + HEADER_SIZE <= MAX_BUFFER_SIZE
      modifies buf
      ensures manip == None ==> unchanged(buf)
      ensures manip.Some? ==>
        buf[..] == old(buf[..rd]) + manip.value.Header(Size()) + old(buf[rd + HEADER_SIZE..])
    {
      if manip.Some? {
        var h := manip.value.Header(Size());
        forall i | 0 <= i < HEADER_SIZE {
          buf[rd + i] := h[i];
        }
      }
    }
  }

  /** Overwriting a stretch of a sequence. */
  lemma Spliced(was: seq<byte>, now: seq<byte>, at: nat, mid: seq<byte>)
    requires |now| == |was| && at + |mid| <= |was|
    requires forall i | 0 <= i < |mid| :: now[at + i] == mid[i]
    requires forall i | 0 <= i < |was| && !(at <= i < at + |mid|) :: now[i] == was[i]
    ensures now == was[..at] + mid + was[at + |mid|..]
  {
    var after := was[..at] + mid + was[at + |mid|..];
    forall i | 0 <= i < |was| ensures now[i] == after[i] {
      if at <= i < at + |mid| {
        assert now[at + (i - at)] == mid[i - at];
      }
    }
  }

  // ---- The buffer as a bounded FIFO queue ----

  datatype Op =
    | Write(src: seq<byte>)
    | Receive(filled: seq<byte>)   // bytes stored at enableBuffer() by the socket, then write(count)
    | Read(count: nat)
    | Skip(count: nat)
    | Peek(count: nat)
    | Arrange
    | ReadAll

  datatype Reply = Done | Data(bytes: seq<byte>) | Refused | Threw

  /** One operation on the queue: a capacity of MAX_BUFFER_SIZE bytes, first in first out, no offsets. */
  function Serve(q: seq<byte>, op: Op): (seq<byte>, Reply) {
    match op
    case Write(src) => if |q| + |src| > MAX_BUFFER_SIZE then (q, Threw) else (q + src, Done)
    case Receive(filled) => if |q| + |filled| > MAX_BUFFER_SIZE then (q, Threw) else (q + filled, Done)
    case Read(count) => if count > |q| then (q, Threw) else (q[count..], Data(q[..count]))
    case Skip(count) => if count > |q| then (q, Threw) else (q[count..], Done)
    case Peek(count) => if count > |q| then (q, Refused) else (q, Data(q[..count]))
    case Arrange => (q, Done)
    case ReadAll => ([], Done)
  }

  function ServeAll(q: seq<byte>, ops: seq<Op>): (seq<byte>, seq<Reply>) {
    if ops == [] then
      (q, [])
    else
      var (before, replies) := ServeAll(q, ops[..|ops| - 1]);
      var (after, reply) := Serve(before, ops[|ops| - 1]);
      (after, replies + [reply])
  }

  /** Where the offsets are after an operation; contents play no part. */
  function Move(o: Offsets, op: Op): (o': Offsets)
    requires o.Valid() && Respects(o, op)
    ensures o'.Valid()
  {
    var size := o.wr - o.rd;
    match op
    case Write(src) => if size + |src| > MAX_BUFFER_SIZE then o else Offsets(o.rd, o.wr + |src|)
    case Receive(filled) => if size + |filled| > MAX_BUFFER_SIZE then o else Offsets(o.rd, o.wr + |filled|)
    case Read(count) => if count > size then o else Offsets(o.BeforeConsuming().rd + count, o.BeforeConsuming().wr)
    case Skip(count) => if count > size then o else Offsets(o.BeforeConsuming().rd + count, o.BeforeConsuming().wr)
    case Peek(count) => o
    case Arrange => o.Arranged()
    case ReadAll => Offsets(0, 0)
  }

  /** The demand `write` leaves to its callers: what its guard lets through fits behind _write. */
  predicate Respects(o: Offsets, op: Op)
    requires o.Valid()
  {
    var n := if op.Write? then |op.src| else if op.Receive? then |op.filled| else 0;
    o.wr - o.rd + n <= MAX_BUFFER_SIZE ==> n <= MAX_BUFFER_SIZE - o.wr
  }

  predicate RespectsAll(o: Offsets, ops: seq<Op>)
    requires o.Valid()
    decreases |ops|
  {
    ops == [] || (Respects(o, ops[0]) && RespectsAll(Move(o, ops[0]), ops[1..]))
  }

  /** Any operation sequence that respects remainWriteSize is answered as the queue answers it. */
  method Perform(b: MessageBuffer, ops: seq<Op>) returns (replies: seq<Reply>)
    requires b.Valid() && RespectsAll(b.At(), ops)
    modifies b`rd, b`wr, b.buf
    ensures b.Valid()
    ensures (b.Contents(), replies) == ServeAll(old(b.Contents()), ops)
  {
    replies := [];
    for i := 0 to |ops|
      invariant b.Valid() && RespectsAll(b.At(), ops[i..])
      invariant (b.Contents(), replies) == ServeAll(old(b.Contents()), ops[..i])
    {
      assert ops[i..][1..] == ops[i + 1..];
      assert ops[..i + 1][..i] == ops[..i];
      var reply := PerformOne(b, ops[i]);
      replies := replies + [reply];
    }
    assert ops[..|ops|] == ops;
  }

  method PerformOne(b: MessageBuffer, op: Op) returns (reply: Reply)
    requires b.Valid() && Respects(b.At(), op)
    modifies b`rd, b`wr, b.buf
    ensures b.Valid() && b.At() == Move(old(b.At()), op)
    ensures (b.Contents(), reply) == Serve(old(b.Contents()), op)
  {
    match op
    case Write(src) =>
      var threw := b.Write(src);
      reply := if threw then Threw else Done;
    case Receive(filled) =>
      reply := Received(b, filled);
    case Read(count) =>
      reply := ReadOut(b, count);
    case Skip(count) =>
      var threw := b.Skip(count);
      reply := if threw then Threw else Done;
    case Peek(count) =>
      var dst := new byte[count];
      var ok := b.Peek(dst, count);
      assert ok ==> dst[..] == b.Contents()[..count];
      reply := if ok then Data(dst[..]) else Refused;
    case Arrange =>
      b.Arrange();
      reply := Done;
    case ReadAll =>
      b.ReadAll();
      reply := Done;
  }

  method Received(b: MessageBuffer, filled: seq<byte>) returns (reply: Reply)
    requires b.Valid() && Respects(b.At(), Receive(filled))
    modifies b`wr, b.buf
    ensures b.Valid() && b.At() == Move(old(b.At()), Receive(filled))
    ensures (b.Contents(), reply) == Serve(old(b.Contents()), Receive(filled))
  {
    if |filled| <= b.RemainWriteSize() {
      forall i | 0 <= i < |filled| {
        b.buf[b.wr + i] := filled[i];
      }
      assert b.buf[b.wr..b.wr + |filled|] == filled;
    }
    assert b.Contents() == old(b.Contents());
    var threw := b.Accept(|filled|);
    reply := if threw then Threw else Done;
  }

  method ReadOut(b: MessageBuffer, count: nat) returns (reply: Reply)
    requires b.Valid()
    modifies b`rd, b`wr, b.buf
    ensures b.Valid() && b.At() == Move(old(b.At()), Read(count))
    ensures (b.Contents(), reply) == Serve(old(b.Contents()), Read(count))
  {
    var dst := new byte[if b.Readable(count) then count else 0];
    var threw := b.Read(dst, 0, count);
    assert !threw ==> dst[..] == old(b.Contents())[..count];
    reply := if threw then Threw else Data(dst[..]);
  }

  // ---- What the offsets cost ----

  /** What compaction is for: behind a successful read or skip there is room for 21844 bytes, or for all the buffer can
      still hold. */
  lemma RoomAfterConsuming(o: Offsets, op: Op)
    requires o.Valid() && Respects(o, op) && (op.Read? || op.Skip?) && op.count <= o.wr - o.rd
    ensures var room := 32768 - Move(o, op).wr; room >= 21844 || room == 32768 - (o.wr - o.rd)
    ensures 32768 - Move(o, op).wr >= 32768 - o.wr
  {
  }

  /** `write`'s own guard keeps every copy inside the array exactly when nothing has been consumed since the
      offsets were last at the front. */
  lemma WriteGuardSuffices(o: Offsets)
    requires o.Valid()
    ensures (forall op: Op :: op.Write? ==> Respects(o, op)) <==> o.rd == 0
  {
    if o.rd > 0 {
      // The guard admits this write; it is o.rd bytes longer than the room behind _write.
      var tooLong := Write(seq(MAX_BUFFER_SIZE - (o.wr - o.rd), i => 0));
      assert !Respects(o, tooLong);
    }
  }

  /** The copy constructor preserves the contents, whatever they are, exactly when it reads from the front or there
      is nothing to copy. */
  lemma CopyPreserves(o: Offsets)
    requires o.Valid()
    ensures (forall bytes: seq<byte> | |bytes| == MAX_BUFFER_SIZE :: bytes[..o.wr - o.rd] == bytes[o.rd..o.wr])
            <==> o.rd == 0 || o.rd == o.wr
  {
    if 0 < o.rd < o.wr {
      var bytes: seq<byte> := seq(MAX_BUFFER_SIZE, i requires 0 <= i => if i == o.rd then 1 else 0);
      assert bytes[..o.wr - o.rd][0] != bytes[o.rd..o.wr][0];
    }
  }
}
