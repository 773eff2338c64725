/** The mask of packetParser_xor. */
module Xor {
  import opened Bytes

  /** "IgNiS" */
  const KEYS: seq<byte> := [0x49, 0x67, 0x4e, 0x69, 0x53]
  /** What the five keys amount to. */
  const MASK: byte := 0x5a

  /** Bitwise exclusive or of the `width` low bits. */
  function XorBits(a: nat, k: nat, width: nat): nat {
    if width == 0 then 0
    else (if a % 2 == k % 2 then 0 else 1) + 2 * XorBits(a / 2, k / 2, width - 1)
  }

  function Pow2(n: nat): nat {
    if n == 0 then 1 else 2 * Pow2(n - 1)
  }

  lemma {:induction false} XorBitsInRange(a: nat, k: nat, width: nat)
    ensures XorBits(a, k, width) < Pow2(width)
  {
    if width > 0 {
      XorBitsInRange(a / 2, k / 2, width - 1);
    }
  }

  lemma {:induction false} XorBitsTwice(a: nat, j: nat, k: nat, width: nat)
    ensures XorBits(XorBits(a, j, width), k, width) == XorBits(a, XorBits(j, k, width), width)
  {
    if width > 0 {
      var aj, jk := XorBits(a, j, width), XorBits(j, k, width);
      assert aj / 2 == XorBits(a / 2, j / 2, width - 1) && jk / 2 == XorBits(j / 2, k / 2, width - 1);
      XorBitsTwice(a / 2, j / 2, k / 2, width - 1);
    }
  }

  lemma {:induction false} XorBitsSelf(k: nat, width: nat)
    ensures XorBits(k, k, width) == 0
  {
    if width > 0 {
      XorBitsSelf(k / 2, width - 1);
    }
  }

  lemma {:induction false} XorBitsZero(a: nat, width: nat)
    requires a < Pow2(width)
    ensures XorBits(a, 0, width) == a
  {
    if width > 0 {
      XorBitsZero(a / 2, width - 1);
    }
  }

  lemma EightBits()
    ensures Pow2(8) == 256
  {
    assert Pow2(4) == 16 by { assert Pow2(2) == 4; }
    assert Pow2(6) == 64;
  }

  const BITS: nat := 8

  function XorByte(a: byte, k: byte): byte {
    EightBits();
    XorBitsInRange(a, k, BITS);
    XorBits(a, k, BITS)
  }

  function Mask(s: seq<byte>, k: byte): (m: seq<byte>)
    ensures |m| == |s|
  {
    seq(|s|, i requires 0 <= i < |s| => XorByte(s[i], k))
  }

  /** The passes of the loop nest: keys[j-1] first, keys[0] last. */
  function Passes(s: seq<byte>, keys: seq<byte>): (m: seq<byte>)
    ensures |m| == |s|
    decreases |keys|
  {
    if keys == [] then s else Passes(Mask(s, keys[|keys| - 1]), keys[..|keys| - 1])
  }

  /** Bit i of a number. */
  function Bit(n: nat, i: nat): nat {
    if i == 0 then n % 2 else Bit(n / 2, i - 1)
  }

  /** Every bit of the result is set exactly if it differs in the two. */
  lemma {:induction false} BitOfXor(a: nat, k: nat, width: nat, i: nat)
    requires i < width
    ensures Bit(XorBits(a, k, width), i) == if Bit(a, i) == Bit(k, i) then 0 else 1
    decreases width
  {
    var rest := XorBits(a / 2, k / 2, width - 1);
    var low := if a % 2 == k % 2 then 0 else 1;
    assert XorBits(a, k, width) == low + 2 * rest;
    if i > 0 {
      BitOfXor(a / 2, k / 2, width - 1, i - 1);
    }
  }

  /** Masking is the bitwise exclusive or, byte by byte. */
  lemma MaskIsXor(s: seq<byte>, k: byte, j: nat, i: nat)
    requires j < |s| && i < 8
    ensures Bit(Mask(s, k)[j], i) == if Bit(s[j], i) == Bit(k, i) then 0 else 1
  {
    BitOfXor(s[j], k, BITS, i);
  }

  lemma MaskTwice(s: seq<byte>, j: byte, k: byte)
    ensures Mask(Mask(s, j), k) == Mask(s, XorByte(j, k))
  {
    forall i | 0 <= i < |s| ensures Mask(Mask(s, j), k)[i] == Mask(s, XorByte(j, k))[i] {
      XorBitsTwice(s[i], j, k, BITS);
    }
  }

  /** Masking is its own inverse, whatever the key. */
  lemma MaskUndoesItself(s: seq<byte>, k: byte)
    ensures Mask(Mask(s, k), k) == s
  {
    MaskTwice(s, k, k);
    XorBitsSelf(k, BITS);
    EightBits();
    forall i | 0 <= i < |s| ensures Mask(s, 0)[i] == s[i] {
      XorBitsZero(s[i], BITS);
    }
  }

  /** The passes with 'S', 'i', 'N', 'g' and 'I', in this order, are one pass with 0x5a. */
  lemma FivePassesAreOne(s: seq<byte>)
    ensures Passes(s, KEYS) == Mask(Mask(Mask(Mask(Mask(s, 0x53), 0x69), 0x4e), 0x67), 0x49)
    ensures Passes(s, KEYS) == Mask(s, 0x5a) == Mask(s, MASK)
  {
    PassesUnfold(s, 0x49, 0x67, 0x4e, 0x69, 0x53);
    MaskTwice(s, 0x53, 0x69);
    MaskTwice(s, 0x3a, 0x4e);
    MaskTwice(s, 0x74, 0x67);
    MaskTwice(s, 0x13, 0x49);
    KeysFold();
  }

  lemma PassesUnfold(s: seq<byte>, a: byte, b: byte, c: byte, d: byte, e: byte)
    ensures Passes(s, [a, b, c, d, e]) == Mask(Mask(Mask(Mask(Mask(s, e), d), c), b), a)
  {
    assert [a, b, c, d, e][..4] == [a, b, c, d];
    assert [a, b, c, d][..3] == [a, b, c];
    assert [a, b, c][..2] == [a, b];
    assert [a, b][..1] == [a];
    assert [a][..0] == [];
    var s4 := Mask(s, e);
    var s3 := Mask(s4, d);
    var s2 := Mask(s3, c);
    var s1 := Mask(s2, b);
    assert Passes(s1, [a]) == Mask(s1, a);
    assert Passes(s2, [a, b]) == Passes(s1, [a]);
    assert Passes(s3, [a, b, c]) == Passes(s2, [a, b]);
    assert Passes(s4, [a, b, c, d]) == Passes(s3, [a, b, c]);
  }

  lemma Fold1()
    ensures XorBits(0x53, 0x69, 8) == 0x3a
  {
    assert XorBits(1, 1, 2) == 0;
    assert XorBits(5, 6, 4) == 3;
    assert XorBits(20, 26, 6) == 14;
  }

  lemma Fold2()
    ensures XorBits(0x3a, 0x4e, 8) == 0x74
  {
    assert XorBits(0, 1, 2) == 1;
    assert XorBits(3, 4, 4) == 7;
    assert XorBits(14, 19, 6) == 29;
  }

  lemma Fold3()
    ensures XorBits(0x74, 0x67, 8) == 0x13
  {
    assert XorBits(1, 1, 2) == 0;
    assert XorBits(7, 6, 4) == 1;
    assert XorBits(29, 25, 6) == 4;
  }

  lemma Fold4()
    ensures XorBits(0x13, 0x49, 8) == 0x5a
  {
    assert XorBits(0, 1, 2) == 1;
    assert XorBits(1, 4, 4) == 5;
    assert XorBits(4, 18, 6) == 22;
  }

  lemma KeysFold()
    ensures XorByte(0x53, 0x69) == 0x3a && XorByte(0x3a, 0x4e) == 0x74
    ensures XorByte(0x74, 0x67) == 0x13 && XorByte(0x13, 0x49) == MASK
  {
    Fold1();
    Fold2();
    Fold3();
    Fold4();
  }
}
