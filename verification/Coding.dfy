/**
 Bytes, and how numbers and strings are written as bytes: fixed-width little-endian, varint, and
 length-prefixed.
 */
module Coding {
  import opened Basics

  // ----- Fixed width

  function Pow256(n: nat): (p: nat)
    ensures p > 0
  {
    if n == 0 then 1 else 256 * Pow256(n - 1)
  }

  /** Little-endian, n bytes. */
  function EncodeFixed(v: nat, n: nat): (r: Bytes)
    ensures |r| == n
  {
    if n == 0 then [] else [v % 256] + EncodeFixed(v / 256, n - 1)
  }

  function DecodeFixed(b: Bytes): nat {
    if b == [] then 0 else b[0] + 256 * DecodeFixed(b[1..])
  }

  lemma {:induction false} FixedRoundTrip(v: nat, n: nat)
    requires v < Pow256(n)
    ensures DecodeFixed(EncodeFixed(v, n)) == v
  {
    if n > 0 {
      FixedRoundTrip(v / 256, n - 1);
      assert EncodeFixed(v, n)[1..] == EncodeFixed(v / 256, n - 1);
    }
  }

  const MAX_UINT32: nat := 0xFFFF_FFFF
  const MAX_UINT64: nat := 0xFFFF_FFFF_FFFF_FFFF

  lemma Pow256Step(n: nat, p: nat)
    requires n > 0 && Pow256(n - 1) == p
    ensures Pow256(n) == 256 * p
  {
  }

  lemma Pow256Values()
    ensures Pow256(4) == MAX_UINT32 + 1 && Pow256(8) == MAX_UINT64 + 1
  {
    Pow256Step(1, 1);
    Pow256Step(2, 0x100);
    Pow256Step(3, 0x1_0000);
    Pow256Step(4, 0x100_0000);
    Pow256Step(5, 0x1_0000_0000);
    Pow256Step(6, 0x100_0000_0000);
    Pow256Step(7, 0x1_0000_0000_0000);
    Pow256Step(8, 0x100_0000_0000_0000);
  }

  lemma FixedStep(low: Byte, high: nat, n: nat)
    ensures EncodeFixed(low + 256 * high, n + 1) == [low] + EncodeFixed(high, n)
  {
    assert (low + 256 * high) % 256 == low && (low + 256 * high) / 256 == high;
  }

  /** The lowest byte comes first. */
  lemma FixedLayout(a: Byte, b: Byte, c: Byte, d: Byte)
    ensures EncodeFixed(a + 0x100 * b + 0x1_0000 * c + 0x100_0000 * d, 4) == [a, b, c, d]
  {
    FixedStep(a, b + 256 * (c + 256 * d), 3);
    FixedStep(b, c + 256 * d, 2);
    FixedStep(c, d, 1);
    FixedStep(d, 0, 0);
  }

  // ----- Varint

  function EncodeVarint(v: nat): (r: Bytes)
    ensures r != []
  {
    if v < 128 then [v] else [v % 128 + 128] + EncodeVarint(v / 128)
  }

  datatype Parsed<+T> = Failed | Parsed(value: T, rest: Bytes)

  /** At most max bytes; the bits beyond the word are lost when the caller truncates the sum. */
  function DecodeVarint(b: Bytes, max: nat): (r: Parsed<nat>)
    ensures r.Parsed? ==> |r.rest| < |b|
    decreases max
  {
    if max == 0 || b == [] then Failed
    else if b[0] < 128 then Parsed(b[0], b[1..])
    else
      match DecodeVarint(b[1..], max - 1)
      case Failed => Failed
      case Parsed(v, rest) => Parsed(b[0] - 128 + 128 * v, rest)
  }

  /** A parsed number, cut to a word of the given size. */
  function Cut(p: Parsed<nat>, word: nat): Parsed<nat>
    requires word > 0
  {
    match p
    case Failed => Failed
    case Parsed(v, rest) => Parsed(v % word, rest)
  }

  lemma CutSmall(v: nat, rest: Bytes, word: nat)
    requires v < word
    ensures Cut(Parsed(v, rest), word) == Parsed(v, rest)
  {
  }

  function GetVarint32(b: Bytes): Parsed<nat> {
    Cut(DecodeVarint(b, 5), MAX_UINT32 + 1)
  }

  function GetVarint64(b: Bytes): Parsed<nat> {
    Cut(DecodeVarint(b, 10), MAX_UINT64 + 1)
  }

  function Pow128(n: nat): (p: nat)
    ensures p > 0
  {
    if n == 0 then 1 else 128 * Pow128(n - 1)
  }

  lemma {:induction false} VarintRoundTrip(v: nat, max: nat, rest: Bytes)
    requires v < Pow128(max) && max > 0
    ensures DecodeVarint(EncodeVarint(v) + rest, max) == Parsed(v, rest)
  {
    var b := EncodeVarint(v) + rest;
    if v < 128 {
      assert b[1..] == rest;
    } else {
      assert max > 1 by {
        assert Pow128(0) == 1;
      }
      VarintRoundTrip(v / 128, max - 1, rest);
      assert b[1..] == EncodeVarint(v / 128) + rest;
    }
  }

  lemma Pow128Step(n: nat, p: nat)
    requires n > 0 && Pow128(n - 1) == p
    ensures Pow128(n) == 128 * p
  {
  }

  lemma Pow128Values()
    ensures Pow128(5) == 0x8_0000_0000 && Pow128(10) == 0x40_0000_0000_0000_0000
  {
    Pow128Step(1, 1);
    Pow128Step(2, 0x80);
    Pow128Step(3, 0x4000);
    Pow128Step(4, 0x20_0000);
    Pow128Step(5, 0x1000_0000);
    Pow128Step(6, 0x8_0000_0000);
    Pow128Step(7, 0x400_0000_0000);
    Pow128Step(8, 0x2_0000_0000_0000);
    Pow128Step(9, 0x100_0000_0000_0000);
    Pow128Step(10, 0x8000_0000_0000_0000);
  }

  /** A number of too many digits is refused. */
  lemma {:induction false} VarintTooLong(v: nat, max: nat, rest: Bytes)
    requires v >= Pow128(max)
    ensures DecodeVarint(EncodeVarint(v) + rest, max).Failed?
    decreases max
  {
    var b := EncodeVarint(v) + rest;
    if max > 0 {
      assert Pow128(max) >= 128;
      VarintTooLong(v / 128, max - 1, rest);
      assert b[1..] == EncodeVarint(v / 128) + rest;
    }
  }

  /** Of a number of five digits the lower 32 bits are read, of one of ten the lower 64. */
  lemma VarintsAreCut(v: nat, rest: Bytes)
    ensures GetVarint32(EncodeVarint(v) + rest)
         == if v < 0x8_0000_0000 then Parsed(v % 0x1_0000_0000, rest) else Failed
    ensures GetVarint64(EncodeVarint(v) + rest)
         == if v < 0x40_0000_0000_0000_0000 then Parsed(v % 0x1_0000_0000_0000_0000, rest) else Failed
  {
    Pow128Values();
    hide Pow128, EncodeVarint, DecodeVarint;
    if v < 0x8_0000_0000 {
      VarintRoundTrip(v, 5, rest);
    } else {
      VarintTooLong(v, 5, rest);
    }
    if v < 0x40_0000_0000_0000_0000 {
      VarintRoundTrip(v, 10, rest);
    } else {
      VarintTooLong(v, 10, rest);
    }
  }

  lemma Varint32RoundTrip(v: nat, rest: Bytes)
    requires v <= MAX_UINT32
    ensures GetVarint32(EncodeVarint(v) + rest) == Parsed(v, rest)
  {
    Pow128Values();
    VarintRoundTrip(v, 5, rest);
    CutSmall(v, rest, MAX_UINT32 + 1);
  }

  lemma Varint64RoundTrip(v: nat, rest: Bytes)
    requires v <= MAX_UINT64
    ensures GetVarint64(EncodeVarint(v) + rest) == Parsed(v, rest)
  {
    Pow128Values();
    VarintRoundTrip(v, 10, rest);
    CutSmall(v, rest, MAX_UINT64 + 1);
  }

  // ----- Length-prefixed strings

  function LengthPrefixed(s: Bytes): (r: Bytes)
    ensures r != []
  {
    EncodeVarint(|s|) + s
  }

  function GetLengthPrefixed(b: Bytes): (r: Parsed<Bytes>)
    ensures r.Parsed? ==> |r.rest| < |b|
  {
    match GetVarint32(b)
    case Failed => Failed
    case Parsed(len, rest) => if |rest| >= len then Parsed(rest[..len], rest[len..]) else Failed
  }

  lemma LengthPrefixedRoundTrip(s: Bytes, rest: Bytes)
    requires |s| <= MAX_UINT32
    ensures GetLengthPrefixed(LengthPrefixed(s) + rest) == Parsed(s, rest)
  {
    assert LengthPrefixed(s) + rest == EncodeVarint(|s|) + (s + rest);
    Varint32RoundTrip(|s|, s + rest);
  }

  // ----- Arrays of fixed-width numbers

  /** Each in four bytes. */
  function EncodeWords(words: seq<nat>): (r: Bytes)
    ensures |r| == 4 * |words|
  {
    if words == [] then [] else EncodeWords(words[..|words| - 1]) + EncodeFixed(words[|words| - 1], 4)
  }

  lemma NoWords()
    ensures EncodeWords([]) == []
  {
  }

  lemma WordsSnoc(words: seq<nat>, i: nat)
    requires i < |words|
    ensures EncodeWords(words[..i + 1]) == EncodeWords(words[..i]) + EncodeFixed(words[i], 4)
  {
    assert words[..i + 1][..i] == words[..i];
  }

  lemma {:induction false} WordAt(words: seq<nat>, j: nat)
    requires j < |words| && words[j] <= MAX_UINT32
    ensures DecodeFixed(EncodeWords(words)[4 * j..4 * j + 4]) == words[j]
  {
    hide DecodeFixed, EncodeFixed;
    var n := |words| - 1;
    var init, last := EncodeWords(words[..n]), EncodeFixed(words[n], 4);
    assert EncodeWords(words) == init + last && |init| == 4 * n;
    if j < n {
      WordAt(words[..n], j);
      assert (init + last)[4 * j..4 * j + 4] == init[4 * j..4 * j + 4];
    } else {
      Pow256Values();
      FixedRoundTrip(words[n], 4);
      assert (init + last)[4 * n..4 * n + 4] == last;
    }
  }

  // ----- Masked checksums

  const MASK_DELTA: nat := 0xa282ead8

  // ----- Bytes that end too early

  lemma {:induction false} CutVarint(v: nat, max: nat, n: nat)
    requires n < |EncodeVarint(v)|
    ensures DecodeVarint(EncodeVarint(v)[..n], max).Failed?
  {
    var b := EncodeVarint(v);
    if n > 0 && max > 0 {
      assert b[..n][1..] == EncodeVarint(v / 128)[..n - 1];
      CutVarint(v / 128, max - 1, n - 1);
    }
  }

  lemma PrefixOfSum(a: Bytes, b: Bytes, n: nat)
    requires n <= |a + b|
    ensures (a + b)[..n] == if n <= |a| then a[..n] else a + b[..n - |a|]
  {
  }

  /** A string whose length or bytes are cut off cannot be read. */
  lemma CutPrefixed(s: Bytes, n: nat)
    requires |s| <= MAX_UINT32 && n < |LengthPrefixed(s)|
    ensures GetLengthPrefixed(LengthPrefixed(s)[..n]).Failed?
  {
    PrefixOfSum(EncodeVarint(|s|), s, n);
    if n < |EncodeVarint(|s|)| {
      CutVarint(|s|, 5, n);
    } else {
      assert LengthPrefixed(s)[..n] == EncodeVarint(|s|) + s[..n - |EncodeVarint(|s|)|];
      Varint32RoundTrip(|s|, s[..n - |EncodeVarint(|s|)|]);
    }
  }

  /** crc32c::Mask: rotate right by 15 bits and add a constant, in 32 bits. */
  function Mask(crc: nat): (m: nat)
    requires crc <= MAX_UINT32
    ensures m <= MAX_UINT32
  {
    (crc / 0x8000 + crc % 0x8000 * 0x2_0000 + MASK_DELTA) % (MAX_UINT32 + 1)
  }

  function Unmask(m: nat): (crc: nat)
    requires m <= MAX_UINT32
    ensures crc <= MAX_UINT32
  {
    var rot := (m + (MAX_UINT32 + 1) - MASK_DELTA) % (MAX_UINT32 + 1);
    rot / 0x2_0000 + rot % 0x2_0000 * 0x8000
  }

  lemma UnmaskUndoesMask(crc: nat)
    requires crc <= MAX_UINT32
    ensures Unmask(Mask(crc)) == crc
  {
    var hi, lo := crc / 0x8000, crc % 0x8000;
    var rot := hi + lo * 0x2_0000;
    DeltaCancels(rot);
    HalvesApart(hi, lo);
  }

  lemma DeltaCancels(rot: nat)
    requires rot <= MAX_UINT32
    ensures ((rot + MASK_DELTA) % (MAX_UINT32 + 1) + (MAX_UINT32 + 1) - MASK_DELTA) % (MAX_UINT32 + 1) == rot
  {
  }

  lemma HalvesApart(hi: nat, lo: nat)
    requires hi < 0x2_0000
    ensures (hi + lo * 0x2_0000) / 0x2_0000 == lo && (hi + lo * 0x2_0000) % 0x2_0000 == hi
  {
  }
}
