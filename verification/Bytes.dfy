/** Bytes, fixed-width little-endian integers and concatenation: the vocabulary of the wire format. */
module Bytes {

  const U16_MOD: nat := 0x1_0000
  const U32_MOD: nat := 0x1_0000_0000

  type byte = x: int | 0 <= x < 256
  type u16 = x: int | 0 <= x < U16_MOD
  type u32 = x: int | 0 <= x < U32_MOD

  /** uint32_t addition and subtraction. */
  function Add32(a: u32, b: u32): u32 {
    if a + b < U32_MOD then a + b else a + b - U32_MOD
  }

  function Sub32(a: u32, b: u32): u32 {
    if a >= b then a - b else a - b + U32_MOD
  }

  const BASE: nat := 256
  const HALF_WIDTH: nat := 2
  const WORD_WIDTH: nat := 4

  function Pow256(k: nat): nat {
    if k == 0 then 1 else 256 * Pow256(k - 1)
  }

  /** The `width` low bytes of n, least significant first. */
  function LittleEndian(n: nat, width: nat): (s: seq<byte>)
    ensures |s| == width
  {
    if width == 0 then [] else [n % BASE] + LittleEndian(n / BASE, width - 1)
  }

  function Value(s: seq<byte>): (n: nat)
    ensures n < Pow256(|s|)
  {
    if s == [] then 0 else s[0] as int + 256 * Value(s[1..])
  }

  lemma {:induction false} ValueOfLittleEndian(n: nat, width: nat)
    requires n < Pow256(width)
    ensures Value(LittleEndian(n, width)) == n
  {
    if width == 0 {
    } else {
      ValueOfLittleEndian(n / 256, width - 1);
      assert LittleEndian(n, width)[1..] == LittleEndian(n / 256, width - 1);
    }
  }

  lemma {:induction false} LittleEndianOfValue(s: seq<byte>)
    ensures LittleEndian(Value(s), |s|) == s
  {
    if s == [] {
    } else {
      LittleEndianOfValue(s[1..]);
      assert Value(s) % 256 == s[0] && Value(s) / 256 == Value(s[1..]);
      assert s == [s[0]] + s[1..];
    }
  }

  lemma Widths()
    ensures Pow256(HALF_WIDTH) == U16_MOD && Pow256(WORD_WIDTH) == U32_MOD
  {
    assert Pow256(3) == 256 * Pow256(2) && Pow256(2) == 256 * Pow256(1) && Pow256(1) == 256;
  }

  function Le16(n: u16): (s: seq<byte>)
    ensures |s| == 2
  {
    LittleEndian(n, HALF_WIDTH)
  }

  function FromLe16(s: seq<byte>): u16
    requires |s| >= 2
  {
    Widths();
    Value(s[..HALF_WIDTH])
  }

  function Le32(n: u32): (s: seq<byte>)
    ensures |s| == 4
  {
    LittleEndian(n, WORD_WIDTH)
  }

  function FromLe32(s: seq<byte>): u32
    requires |s| >= 4
  {
    Widths();
    Value(s[..WORD_WIDTH])
  }

  lemma Le16Inverse(n: u16, tail: seq<byte>)
    ensures FromLe16(Le16(n) + tail) == n
  {
    Widths();
    ValueOfLittleEndian(n, HALF_WIDTH);
    assert (Le16(n) + tail)[..HALF_WIDTH] == Le16(n);
  }

  lemma Le32Inverse(n: u32, tail: seq<byte>)
    ensures FromLe32(Le32(n) + tail) == n
  {
    Widths();
    ValueOfLittleEndian(n, WORD_WIDTH);
    assert (Le32(n) + tail)[..WORD_WIDTH] == Le32(n);
  }

  /** The other direction: four bytes are the encoding of the number they spell. */
  lemma Le32OfFromLe32(s: seq<byte>)
    requires |s| >= 4
    ensures Le32(FromLe32(s)) == s[..4]
  {
    LittleEndianOfValue(s[..WORD_WIDTH]);
  }

  lemma Associates<T>(a: seq<T>, b: seq<T>, c: seq<T>)
    ensures a + b + c == a + (b + c)
  {
  }

  function Concat(ss: seq<seq<byte>>): seq<byte> {
    if ss == [] then [] else ss[0] + Concat(ss[1..])
  }

  lemma {:induction false} ConcatAppend(a: seq<seq<byte>>, b: seq<seq<byte>>)
    ensures Concat(a + b) == Concat(a) + Concat(b)
  {
    if a == [] {
      assert a + b == b;
    } else {
      assert (a + b)[1..] == a[1..] + b;
      ConcatAppend(a[1..], b);
    }
  }
}
