/** The two 32-bit words in front of every packet: mainKey and partKey.
    `&` and `|` with 0xffff0000 and 0x0000ffff select 16-bit halves, which is subtracting and taking the remainder by 2^16. */
module Keys {
  import opened Bytes

  const MAIN_KEY: u32 := 0xffff_0000
  const PART_KEY: u32 := 0xfff3_0000
  const PARTKEY_SIZE: nat := 4
  const HEADER_SIZE: nat := 8

  /** JSON_PARSER_KEY_MAKEKEY and SIMPLE_PARSER_KEY_MAKEKEY */
  function MakeKey(key: u32, len: u32): u32 {
    KeyTag(key) + KeyLength(len)
  }

  /** ..._KEY_GETKEY */
  function KeyTag(key: u32): u32 {
    key - key % U16_MOD
  }

  /** ..._KEY_GETLENGTH */
  function KeyLength(key: u32): u32 {
    key % U16_MOD
  }

  /** The manipulator pairs: Tagged words carry a 16-bit marker and a 16-bit length,
      Plain words (the `_Test` manipulator) are the length itself. */
  datatype KeyStyle = Tagged | Plain {
    function MainWord(len: u32): u32 {
      if Tagged? then MakeKey(MAIN_KEY, len) else len
    }

    function PartWord(len: u32): u32 {
      if Tagged? then MakeKey(PART_KEY, len) else len
    }

    predicate IsMain(word: u32) {
      Tagged? ==> KeyTag(word) == MAIN_KEY
    }

    predicate IsPart(word: u32) {
      Tagged? ==> KeyTag(word) == PART_KEY
    }

    function Length(word: u32): u32 {
      if Tagged? then KeyLength(word) else word
    }

    /** The largest length a word of this style can carry. */
    function MaxLength(): nat {
      if Tagged? then U16_MOD - 1 else U32_MOD - 1
    }

    /** What `facilitate` stores at the front of a buffer of `size` bytes. */
    function Header(size: u32): (h: seq<byte>)
      ensures |h| == HEADER_SIZE
    {
      var bodySize := Sub32(size, HEADER_SIZE);
      Le32(MainWord(Add32(PARTKEY_SIZE, bodySize))) + Le32(PartWord(bodySize))
    }

    /** A word and its length determine each other, exactly up to the style's capacity. */
    lemma WordsRecoverLength(len: u32)
      ensures IsMain(MainWord(len)) && IsPart(PartWord(len))
      ensures Length(MainWord(len)) == len <==> len <= MaxLength()
      ensures Length(PartWord(len)) == len <==> len <= MaxLength()
    {
      if Tagged? {
        var lo := len % U16_MOD;
        assert KeyTag(MAIN_KEY) == MAIN_KEY && KeyTag(PART_KEY) == PART_KEY;
        assert (MAIN_KEY + lo) % U16_MOD == lo && (PART_KEY + lo) % U16_MOD == lo;
      }
    }

    lemma WordsAreCanonical(word: u32)
      ensures IsMain(word) ==> MainWord(Length(word)) == word && Length(word) <= MaxLength()
      ensures IsPart(word) ==> PartWord(Length(word)) == word && Length(word) <= MaxLength()
    {
    }
  }

  /** `facilitate` followed by the parser's two reads: for every body that fits behind the reserved header in one
      buffer both markers and both lengths come back, and neither length leaves 16 bits. */
  lemma HeaderRecovered(style: KeyStyle, bodySize: nat)
    requires bodySize <= 1024 * 32 - HEADER_SIZE
    ensures var h := style.Header(HEADER_SIZE + bodySize);
            && style.IsMain(FromLe32(h)) && style.Length(FromLe32(h)) == PARTKEY_SIZE + bodySize
            && style.IsPart(FromLe32(h[4..])) && style.Length(FromLe32(h[4..])) == bodySize
            && PARTKEY_SIZE + bodySize < U16_MOD
  {
    var main, part := style.MainWord(PARTKEY_SIZE + bodySize), style.PartWord(bodySize);
    var h := style.Header(HEADER_SIZE + bodySize);
    assert h == Le32(main) + Le32(part);
    assert h[4..] == Le32(part) + [];
    Le32Inverse(main, Le32(part));
    Le32Inverse(part, []);
    style.WordsRecoverLength(PARTKEY_SIZE + bodySize);
    style.WordsRecoverLength(bodySize);
  }
}
