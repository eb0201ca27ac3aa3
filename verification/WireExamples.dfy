/**
 The examples of the "Encoding" specification of Protocol Buffers, byte by byte.
 */
module WireExamples {
  import opened Basics
  import opened Coding
  import opened Messages

  const TEST1: seq<Field> := [Field(1, Optional, Varint(4))]

  lemma TwoDigits(low: nat, high: nat)
    requires low < 128 && 0 < high < 128
    ensures EncodeVarint(low + 128 * high) == [low + 128, high]
  {
    assert (low + 128 * high) / 128 == high;
  }

  lemma ThreeDigits(low: nat, middle: nat, high: nat)
    requires low < 128 && middle < 128 && 0 < high < 128
    ensures EncodeVarint(low + 128 * (middle + 128 * high)) == [low + 128, middle + 128, high]
  {
    TwoDigits(middle, high);
    assert (low + 128 * (middle + 128 * high)) / 128 == middle + 128 * high;
  }

  lemma OneDigit(tag: nat, wire: nat)
    requires 0 < tag < 16 && wire < 8
    ensures EncodeTag(wire, tag) == [8 * tag + wire]
  {
  }

  /** An int32 field 1 with the value 150. */
  lemma VarintExample()
    ensures EncodeItem(TEST1[0], Number(150)) == [0x08, 0x96, 0x01]
  {
    OneDigit(1, 0);
    TwoDigits(22, 1);
    hide EncodeTag, EncodeVarint;
    assert Unsigned(150) == 150;
  }

  /** A string field 2 with the value "testing". */
  lemma StringExample()
    ensures EncodeItem(Field(2, Optional, StringIn(8)), Blob([0x74, 0x65, 0x73, 0x74, 0x69, 0x6e, 0x67]))
         == [0x12, 0x07] + [0x74, 0x65, 0x73, 0x74, 0x69, 0x6e, 0x67]
  {
    OneDigit(2, 2);
    assert EncodeVarint(7) == [0x07];
    hide EncodeTag, EncodeVarint;
  }

  lemma {:induction false} OneItem(f: Field, v: Value)
    requires FitsValue(f.kind, v) && f.rule.Optional?
    ensures Fits([f], [[v]]) && Encode([f], [[v]]) == EncodeItem(f, v)
  {
    assert FitsSlot(f, [v]) && [v][1..] == [];
    assert EncodeSlot(f, [v]) == EncodeItems(f, [v]) == EncodeItem(f, v) + EncodeItems(f, []);
    assert EncodeFrom([f], [[v]], 0) == EncodeSlot(f, [v]) + EncodeFrom([f], [[v]], 1);
  }

  /** A field 3 that holds the message of the first example. */
  lemma SubmessageExample()
    ensures Fits(TEST1, [[Number(150)]])
    ensures EncodeItem(Field(3, Optional, Submessage(TEST1)), Message([[Number(150)]]))
         == [0x1a, 0x03, 0x08, 0x96, 0x01]
  {
    VarintExample();
    OneItem(TEST1[0], Number(150));
    OneDigit(3, 2);
    assert EncodeVarint(3) == [0x03];
    hide EncodeTag, EncodeVarint, EncodeItems, Encode, Fits;
  }

  /** The packed values 3, 270 and 86942, with their length before them. */
  lemma PackedExample()
    ensures EncodePacked(Uvarint(4), [Number(3), Number(270), Number(86942)]) == [0x03, 0x8e, 0x02, 0x9e, 0xa7, 0x05]
  {
    var slot := [Number(3), Number(270), Number(86942)];
    TwoDigits(14, 2);
    ThreeDigits(30, 39, 5);
    assert EncodeVarint(3) == [0x03];
    hide EncodeVarint;
    assert slot[1..] == [Number(270), Number(86942)] && slot[1..][1..] == [Number(86942)];
    assert slot[1..][1..][1..] == [];
  }

  lemma {:induction false} Ones(k: nat, p: nat)
    requires p == Pow128(k)
    ensures EncodeVarint(2 * p - 1) == seq(k, _ => 0xff) + [0x01]
  {
    if k > 0 {
      var q := Pow128(k - 1);
      Ones(k - 1, q);
      assert (2 * p - 1) / 128 == 2 * q - 1 && (2 * p - 1) % 128 == 127;
      assert seq(k, _ => 0xff) == [0xff] + seq(k - 1, _ => 0xff);
    }
  }

  /** The value -1 takes ten bytes. */
  lemma NegativeExample()
    ensures EncodeVarint(Unsigned(-1)) == seq(9, _ => 0xff) + [0x01]
  {
    hide EncodeVarint;
    Pow128Values();
    Ones(9, Pow128(9));
  }

  /** Small absolute values get small numbers. */
  lemma ZigZagExample()
    ensures ZigZag(0) == 0 && ZigZag(-1) == 1 && ZigZag(1) == 2 && ZigZag(-2) == 3
    ensures ZigZag(2147483647) == 4294967294 && ZigZag(-2147483648) == 4294967295
  {
  }
}
