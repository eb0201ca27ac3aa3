/**
 What the decoder takes for a field, whatever the bytes: varints that are padded, negative, too large or too long,
 and fields that are cut off.
 */
module WireFields {
  import opened Basics
  import opened Coding
  import opened Messages
  import opened MessageDecoding
  import opened MessageRoundTrips
  import opened RequiredFields

  const WORD := MAX_UINT32 + 1

  /** The number that the digits of a varint spell, however many they are. */
  function Spelled(b: Bytes): nat {
    if b == [] then 0 else if b[0] < 128 then b[0] else b[0] - 128 + 128 * Spelled(b[1..])
  }

  /** How many bytes the varint has. */
  function Size(b: Bytes): (n: nat)
    requires SkipVarint(b).Some?
    ensures n > 0
  {
    if b[0] < 128 then 1 else 1 + Size(b[1..])
  }

  // ----- 64 bits

  /** A varint is read exactly if it ends within the bytes allowed, as the number spelled. */
  lemma {:induction false} VarintReads(b: Bytes, max: nat)
    ensures DecodeVarint(b, max)
      == if SkipVarint(b).Some? && Size(b) <= max then Parsed(Spelled(b), SkipVarint(b).value) else Failed
    decreases max
  {
    if max > 0 && b != [] && b[0] >= 128 {
      VarintReads(b[1..], max - 1);
    }
  }

  // ----- 32 bits

  /** A zero, or a copy of the sign of a number sent in 64 bits. */
  predicate IsPadding(d: Byte, i: nat, negative: bool) {
    d % 128 == 0 || (negative && d == if i < 9 then 0xFF else 0x01)
  }

  /** The digits from the i-th on fit: the fifth is cut off only if bytes follow it, and these are padding. */
  predicate Fits32(b: Bytes, i: nat, negative: bool) {
    b != [] ==>
      && (i == 4 && b[0] < 128 ==> b[0] < 16)
      && (i > 4 ==> IsPadding(b[0], i, negative))
      && (b[0] >= 128 ==> Fits32(b[1..], i + 1, if i == 4 then b[0] % 16 >= 8 else negative))
  }

  lemma LaterStep(b: Bytes, result: nat, i: nat)
    requires b != [] && 5 <= i && result < WORD && if b[0] >= 128 then i < 36 else i <= 36
    ensures MoreVarint32(b, result, 7 * i)
      == if !IsPadding(b[0], i, result >= WORD / 2) then Failed
         else if b[0] >= 128 then MoreVarint32(b[1..], result, 7 * (i + 1))
         else Parsed(result, b[1..])
  {
    hide ShiftIn, Or, Pow2;
    assert (7 * i + 7) % 256 == if i < 36 then 7 * i + 7 else 3;
  }

  lemma {:induction false} PaddingReads(b: Bytes, result: nat, i: nat)
    requires SkipVarint(b).Some? && 5 <= i && i + Size(b) <= 37 && result < WORD
    ensures MoreVarint32(b, result, 7 * i)
      == if Fits32(b, i, result >= WORD / 2) then Parsed(result, SkipVarint(b).value) else Failed
    decreases |b|
  {
    hide MoreVarint32, IsPadding;
    LaterStep(b, result, i);
    if b[0] >= 128 {
      PaddingReads(b[1..], result, i + 1);
    }
  }

  lemma WordsAreCutOff(r: nat, k: nat)
    requires r < WORD
    ensures (r + k * WORD) % WORD == r
  {
  }

  lemma CutToWord(result: nat, low: nat, more: nat, n: nat)
    requires result < 0x1000_0000 && low < 128 && n == low + 128 * more
    ensures low * 0x1000_0000 % WORD == low % 16 * 0x1000_0000
    ensures (result + n * 0x1000_0000) % WORD == result + low % 16 * 0x1000_0000
  {
    var h, l := low / 16, low % 16;
    WordsAreCutOff(l * 0x1000_0000, h);
    WordsAreCutOff(result + l * 0x1000_0000, h + 8 * more);
    assert low * 0x1000_0000 == l * 0x1000_0000 + h * WORD;
    assert result + n * 0x1000_0000 == (result + l * 0x1000_0000) + (h + 8 * more) * WORD;
  }

  /** The fifth digit loses its upper three bits. */
  lemma FifthDigit(result: nat, low: nat, more: nat, n: nat)
    requires result < 0x1000_0000 && low < 128 && n == low + 128 * more
    ensures var next := ShiftIn(result, low, 28);
            && next == (result + n * 0x1000_0000) % WORD
            && (next >= WORD / 2 <==> low % 16 >= 8)
  {
    hide Or;
    Pow2Values();
    hide Pow2;
    OrApart(result, low % 16, 28);
    CutToWord(result, low, more, n);
  }

  lemma EarlierDigit(result: nat, low: nat, bitpos: nat, p: nat)
    requires bitpos in {7, 14, 21} && p == Pow2(bitpos) && result < p && low < 128
    ensures ShiftIn(result, low, bitpos) == result + low * p && result + low * p < 128 * p == Pow2(bitpos + 7)
  {
    hide Or;
    Pow2Values();
    OrApart(result, low, bitpos);
    assert low * p < WORD && (low * p) % WORD == low * p;
  }

  lemma Distribute(low: nat, more: nat, p: nat)
    ensures (low + 128 * more) * p == low * p + more * (128 * p)
  {
    assert (low + 128 * more) * p == low * p + 128 * more * p;
  }

  /** What the first digit adds, and what the rest of them. */
  lemma FirstDigit(b: Bytes, p: nat)
    requires b != []
    ensures Spelled(b) == b[0] % 128 + 128 * if b[0] < 128 then 0 else Spelled(b[1..])
    ensures Spelled(b) * p == b[0] % 128 * p + (if b[0] < 128 then 0 else Spelled(b[1..])) * (128 * p)
  {
    var low, more := b[0] % 128, if b[0] < 128 then 0 else Spelled(b[1..]);
    assert Spelled(b) == low + 128 * more;
    hide Spelled;
    Distribute(low, more, p);
  }

  lemma FifthStep(b: Bytes, result: nat)
    requires b != [] && result < 0x1000_0000
    ensures MoreVarint32(b, result, 28)
      == var next := ShiftIn(result, b[0] % 128, 28);
         if b[0] >= 128 then MoreVarint32(b[1..], next, 35) else if b[0] >= 16 then Failed else Parsed(next, b[1..])
  {
    hide ShiftIn, Or, Pow2;
  }

  lemma FifthValue(b: Bytes, result: nat)
    requires b != [] && result < 0x1000_0000
    ensures ShiftIn(result, b[0] % 128, 28) == (result + Spelled(b) * 0x1000_0000) % WORD
    ensures ShiftIn(result, b[0] % 128, 28) >= WORD / 2 <==> b[0] % 16 >= 8
  {
    hide ShiftIn, Spelled, Or, Pow2;
    FirstDigit(b, 1);
    assert b[0] % 128 % 16 == b[0] % 16 by {
      assert b[0] % 128 == if b[0] < 128 then b[0] else b[0] - 128;
    }
    FifthDigit(result, b[0] % 128, if b[0] < 128 then 0 else Spelled(b[1..]), Spelled(b));
  }

  lemma FifthReads(b: Bytes, result: nat)
    requires SkipVarint(b).Some? && 4 + Size(b) <= 37 && result < 0x1000_0000
    ensures MoreVarint32(b, result, 28)
      == if Fits32(b, 4, false) then Parsed((result + Spelled(b) * 0x1000_0000) % WORD, SkipVarint(b).value) else Failed
  {
    FifthValue(b, result);
    FifthStep(b, result);
    hide ShiftIn, Spelled, Or, Pow2, MoreVarint32;
    if b[0] >= 128 {
      PaddingReads(b[1..], ShiftIn(result, b[0] % 128, 28), 5);
    }
  }

  lemma InWord(n: nat)
    requires n < WORD
    ensures n % WORD == n
  {
  }

  lemma EarlierStep(b: Bytes, result: nat, bitpos: nat, p: nat)
    requires b != [] && bitpos in {7, 14, 21} && p == Pow2(bitpos) && result < p
    ensures var next := result + b[0] % 128 * p;
            && next < 128 * p == Pow2(bitpos + 7) && next < WORD
            && MoreVarint32(b, result, bitpos)
            == if b[0] >= 128 then MoreVarint32(b[1..], next, bitpos + 7) else Parsed(next, b[1..])
  {
    EarlierDigit(result, b[0] % 128, bitpos, p);
    Pow2Values();
    hide ShiftIn, Or, Pow2;
  }

  lemma {:induction false} MoreReads(b: Bytes, result: nat, i: nat, p: nat)
    requires SkipVarint(b).Some? && 1 <= i <= 4 && i + Size(b) <= 37 && p == Pow2(7 * i) && result < p
    ensures p < WORD && MoreVarint32(b, result, 7 * i)
      == if Fits32(b, i, false) then Parsed((result + Spelled(b) * p) % WORD, SkipVarint(b).value) else Failed
    decreases |b|
  {
    hide ShiftIn, Spelled, Or, MoreVarint32;
    Pow2Values();
    hide Pow2;
    if i == 4 {
      FifthReads(b, result);
    } else {
      EarlierStep(b, result, 7 * i, p);
      FirstDigit(b, p);
      var next := result + b[0] % 128 * p;
      if b[0] >= 128 {
        assert result + Spelled(b) * p == next + Spelled(b[1..]) * (128 * p);
        MoreReads(b[1..], next, i + 1, 128 * p);
      } else {
        assert result + Spelled(b) * p == next;
        InWord(next);
      }
    }
  }

  /** A 32-bit varint is read exactly if its digits fit, as the number spelled cut to 32 bits; this holds of all
      varints of at most 37 bytes, until the bit position starts over. */
  lemma Varint32Reads(b: Bytes)
    requires SkipVarint(b).Some? && Size(b) <= 37
    ensures DecodeVarint32(b)
      == if Fits32(b, 0, false) then Parsed(Spelled(b) % WORD, SkipVarint(b).value) else Failed
  {
    Pow2Values();
    hide ShiftIn, Or, Pow2, MoreVarint32;
    FirstDigit(b, 1);
    hide Spelled;
    if b[0] >= 128 {
      MoreReads(b[1..], b[0] - 128, 1, 128);
    } else {
      assert Spelled(b) % WORD == b[0];
    }
  }

  lemma Pow128FourNine()
    ensures Pow128(4) == 0x1000_0000 && Pow128(9) == 0x8000_0000_0000_0000
  {
    Pow128Values();
  }

  lemma {:induction false} ZeroFits(b: Bytes, i: nat, negative: bool)
    requires i > 4 && Spelled(b) == 0
    ensures Fits32(b, i, negative)
  {
    if b != [] && b[0] >= 128 {
      ZeroFits(b[1..], i + 1, negative);
    }
  }

  lemma {:induction false} SmallDigitsFit(b: Bytes, i: nat, p: nat)
    requires i <= 4 && p == Pow128(4 - i) && Spelled(b) < 16 * p
    ensures Fits32(b, i, false)
    decreases 4 - i
  {
    if b != [] && b[0] >= 128 {
      if i == 4 {
        ZeroFits(b[1..], 5, b[0] % 16 >= 8);
      } else {
        SmallDigitsFit(b[1..], i + 1, Pow128(3 - i));
      }
    }
  }

  /** Every number that fits into 32 bits is read, padded or not. */
  lemma SmallIsRead(b: Bytes)
    requires SkipVarint(b).Some? && Size(b) <= 37 && Spelled(b) <= MAX_UINT32
    ensures DecodeVarint32(b) == Parsed(Spelled(b), SkipVarint(b).value)
  {
    hide Size, Spelled, SkipVarint, DecodeVarint32, Fits32, Pow128;
    Pow128FourNine();
    SmallDigitsFit(b, 0, 0x1000_0000);
    Varint32Reads(b);
  }

  lemma {:induction false} OnesFit(b: Bytes, i: nat, p: nat)
    requires 5 <= i <= 9 && SkipVarint(b).Some? && Size(b) == 10 - i
    requires p == Pow128(9 - i) && Spelled(b) == 2 * p - 1
    ensures Fits32(b, i, true)
    decreases 9 - i
  {
    if i < 9 {
      OnesFit(b[1..], i + 1, Pow128(8 - i));
    }
  }

  lemma {:induction false} NegativeDigitsFit(b: Bytes, i: nat, p: nat, q: nat)
    requires i <= 4 && SkipVarint(b).Some? && Size(b) == 10 - i
    requires p == Pow128(4 - i) && q == Pow128(9 - i) && 2 * q - 8 * p <= Spelled(b) < 2 * q
    ensures Fits32(b, i, false)
    decreases 4 - i
  {
    if i == 4 {
      Pow128Values();
      OnesFit(b[1..], 5, Pow128(4));
    } else {
      NegativeDigitsFit(b[1..], i + 1, Pow128(3 - i), Pow128(8 - i));
    }
  }

  /** A negative 32-bit number, sent with its sign in 64 bits, is read as its 32-bit pattern. */
  lemma NegativeIsRead(b: Bytes, n: int)
    requires SkipVarint(b).Some? && Size(b) == 10 && -0x8000_0000 <= n < 0 && Spelled(b) == MAX_UINT64 + 1 + n
    ensures DecodeVarint32(b) == Parsed(WORD + n, SkipVarint(b).value)
  {
    hide Size, Spelled, SkipVarint, DecodeVarint32, Fits32, Pow128;
    Pow128FourNine();
    NegativeDigitsFit(b, 0, Pow128(4), Pow128(9));
    Varint32Reads(b);
  }

  // ----- Skipped fields

  /** How many bytes a field of a wire type has; group markers and unknown wire types have none that are known. */
  function FieldSize(wire: nat, b: Bytes): Option<nat> {
    match wire
    case 0 => if SkipVarint(b).Some? then Some(Size(b)) else None
    case 1 => Some(8)
    case 2 => if SkipVarint(b).Some? then Some(Size(b) + Spelled(b)) else None
    case 5 => Some(4)
    case _ => None
  }

  lemma {:induction false} VarintSkips(b: Bytes)
    ensures SkipVarint(b).None? <==> forall i :: 0 <= i < |b| ==> b[i] >= 128
    ensures SkipVarint(b).Some? ==> var n := Size(b);
              && n <= |b| && SkipVarint(b).value == b[n..]
              && b[n - 1] < 128 && forall i :: 0 <= i < n - 1 ==> b[i] >= 128
  {
    if b != [] && b[0] >= 128 {
      VarintSkips(b[1..]);
      assert forall i :: 1 <= i < |b| ==> b[i] == b[1..][i - 1];
    }
  }

  /** A field is passed over exactly if all its bytes are there, and then just these. */
  lemma SkipsWholeField(wire: nat, b: Bytes)
    requires wire == 2 && SkipVarint(b).Some? ==> Size(b) <= 37 && Spelled(b) <= MAX_UINT32
    ensures var size := FieldSize(wire, b);
            SkipField(wire, b) == if size.Some? && size.value <= |b| then Some(b[size.value..]) else None
  {
    hide SkipVarint, Size, Spelled, DecodeVarint32;
    if wire == 0 {
      VarintSkips(b);
    } else if wire == 2 {
      VarintSkips(b);
      if SkipVarint(b).Some? {
        SmallIsRead(b);
        assert Spelled(b) <= |b[Size(b)..]| ==> b[Size(b)..][Spelled(b)..] == b[Size(b) + Spelled(b)..];
      } else {
        UnendedFails(b);
      }
    }
  }

  lemma UnendedFails(b: Bytes)
    requires SkipVarint(b).None?
    ensures DecodeVarint32(b).Failed?
  {
    if DecodeVarint32(b).Parsed? {
      Varint32Takes(b);
    }
  }

  /** The bytes are whole fields, one after the other, up to where the message ends. */
  predicate WholeFields(fields: seq<Field>, b: Bytes)
    decreases |b|
  {
    match DecodeTag(b)
    case EndTag(_) => true
    case BadTag => false
    case Tag(tag, wire, rest) =>
      var left := SkipField(WireRead(fields, tag, wire), rest);
      left.Some? && WholeFields(fields, left.value)
  }

  lemma {:induction false} DecodedIsWhole(fields: seq<Field>, m: seq<seq<Value>>, seen: set<nat>, b: Bytes)
    requires |m| == |fields| && DecodeFields(fields, m, seen, b).Some?
    ensures WholeFields(fields, b)
    decreases |b|
  {
    hide SkipField, DecodeSlot;
    var tag := DecodeTag(b);
    if tag.Tag? {
      var index := IndexOf(fields, tag.tag);
      if index.None? {
        DecodedIsWhole(fields, m, seen, SkipField(tag.wire, tag.rest).value);
      } else {
        var j := index.value;
        var slot := DecodeSlot(fields[j], tag.wire, m[j], tag.rest);
        SlotTakes(fields[j], tag.wire, m[j], tag.rest);
        DecodedIsWhole(fields, m[j := slot.value], Seen(fields, j, seen), slot.rest);
      }
    }
  }

  /** A message with a field cut off, or of a wire type that cannot be passed over, is refused. */
  lemma AcceptedIsWhole(fields: seq<Field>, b: Bytes)
    requires Decode(fields, b).Some?
    ensures WholeFields(fields, b)
  {
    DecodedIsWhole(fields, Defaults(fields), {}, b);
  }

  // ----- Fields that are not sent

  /** False, zero, zeros, or a message of absent and zero values. */
  predicate IsZero(k: Kind, v: Value)
    decreases k
  {
    match v
    case Truth(b) => !b
    case Number(n) => n == 0
    case Blob(bytes) => forall i :: 0 <= i < |bytes| ==> bytes[i] == 0
    case Message(slots) =>
      k.Submessage? && |slots| == |k.fields| && forall i :: 0 <= i < |slots| ==> UnsentSlot(k.fields[i], slots[i])
  }

  predicate UnsentSlot(f: Field, slot: seq<Value>)
    decreases f
  {
    if f.rule.Required? then |slot| == 1 && IsZero(f.kind, slot[0]) else slot == []
  }

  lemma {:induction false} DefaultIsZero(k: Kind)
    ensures IsZero(k, DefaultValue(k))
    decreases k
  {
    if k.Submessage? {
      forall i | 0 <= i < |k.fields| ensures UnsentSlot(k.fields[i], Defaults(k.fields)[i]) {
        DefaultIsZero(k.fields[i].kind);
      }
    }
  }

  lemma {:induction false} UnsentStays(fields: seq<Field>, m: seq<seq<Value>>, seen: set<nat>, b: Bytes, i: nat)
    requires |m| == |fields| && i < |fields| && fields[i].tag !in TopTags(fields, b)
    requires DecodeFields(fields, m, seen, b).Some?
    ensures DecodeFields(fields, m, seen, b).value[i] == m[i]
    decreases |b|
  {
    hide SkipField, DecodeSlot;
    var tag := DecodeTag(b);
    if tag.Tag? {
      var index := IndexOf(fields, tag.tag);
      if index.None? {
        UnsentStays(fields, m, seen, SkipField(tag.wire, tag.rest).value, i);
      } else {
        var j := index.value;
        var slot := DecodeSlot(fields[j], tag.wire, m[j], tag.rest);
        SlotTakes(fields[j], tag.wire, m[j], tag.rest);
        UnsentStays(fields, m[j := slot.value], Seen(fields, j, seen), slot.rest, i);
      }
    }
  }

  /** A field without a tag in the message is absent, or zero if it is required and not watched. */
  lemma UnsentIsZero(fields: seq<Field>, b: Bytes, i: nat)
    requires i < |fields| && fields[i].tag !in TopTags(fields, b) && Decode(fields, b).Some?
    ensures UnsentSlot(fields[i], Decode(fields, b).value[i])
  {
    UnsentStays(fields, Defaults(fields), {}, b, i);
    DefaultIsZero(fields[i].kind);
    assert Defaults(fields)[i] == DefaultSlot(fields[i]);
  }

  // ----- What follows a message

  lemma AllRead(fields: seq<Field>, m: seq<seq<Value>>)
    requires Fits(fields, m)
    ensures Partial(fields, m, |fields|) == m && EncodeFrom(fields, m, |fields|) == []
    ensures TerminatedFrom(fields, m, |fields|)
  {
  }

  lemma {:induction false} ReadsUpTo(fields: seq<Field>, m: seq<seq<Value>>, i: nat, tail: Bytes)
    requires SchemaOk(fields) && Fits(fields, m) && i <= |fields| && |EncodeFrom(fields, m, i)| <= MAX_UINT32
    ensures DecodeFields(fields, Partial(fields, m, i), SeenUpTo(fields, i), EncodeFrom(fields, m, i) + tail)
         == if TerminatedFrom(fields, m, i) then DecodeFields(fields, m, SeenUpTo(fields, |fields|), tail) else None
    decreases |fields| - i
  {
    hide DecodeFields, EncodeSlot, FitsSlot, TerminatedSlot, TerminatedFrom, SchemaOk, Partial, SeenUpTo;
    if i == |fields| {
      AllRead(fields, m);
      assert [] + tail == tail;
    } else {
      Glue(EncodeSlot(fields[i], m[i]), EncodeFrom(fields, m, i + 1), tail);
      NextSlot(fields, m, i, EncodeFrom(fields, m, i + 1) + tail);
      TerminatedNext(fields, m, i);
      ReadsUpTo(fields, m, i + 1, tail);
    }
  }

  /** What follows a message is read as if it were part of it. */
  lemma ReadsOn(fields: seq<Field>, m: seq<seq<Value>>, tail: Bytes)
    requires SchemaOk(fields) && Fits(fields, m) && |Encode(fields, m)| <= MAX_UINT32
    ensures Decode(fields, Encode(fields, m) + tail)
         == if Terminated(fields, m) then DecodeFields(fields, m, SeenUpTo(fields, |fields|), tail) else None
  {
    assert Partial(fields, m, 0) == Defaults(fields);
    ReadsUpTo(fields, m, 0, tail);
  }

  /** A message ends at a zero tag, whatever follows. */
  lemma ZeroTagEnds(fields: seq<Field>, m: seq<seq<Value>>, junk: Bytes)
    requires SchemaOk(fields) && Fits(fields, m) && |Encode(fields, m)| <= MAX_UINT32 && Terminated(fields, m)
    ensures Decode(fields, Encode(fields, m) + ([0] + junk)) == Some(m)
  {
    ReadsOn(fields, m, [0] + junk);
    AllRequiredSeen(fields);
    hide AllSeen, SeenUpTo, Decode, Encode, SchemaOk, Terminated, Fits;
    assert ([0] + junk)[0] == 0;
  }

  lemma GroupFails(fields: seq<Field>, m: seq<seq<Value>>, seen: set<nat>, tag: nat, wire: nat, junk: Bytes)
    requires |m| == |fields| && 0 < tag < TAG_LIMIT && IndexOf(fields, tag).None? && wire in {3, 4, 6, 7}
    ensures DecodeFields(fields, m, seen, EncodeTag(wire, tag) + junk) == None
  {
    hide EncodeTag, DecodeTag, DecodeSlot;
    TagRoundTrip(wire, tag, junk);
  }

  /** Behind a message, a field that the receiver does not know is refused if it is of a wire type that has no size. */
  lemma GroupIsRefused(fields: seq<Field>, m: seq<seq<Value>>, tag: nat, wire: nat, junk: Bytes)
    requires SchemaOk(fields) && Fits(fields, m) && |Encode(fields, m)| <= MAX_UINT32
    requires 0 < tag < TAG_LIMIT && IndexOf(fields, tag).None? && wire in {3, 4, 6, 7}
    ensures Decode(fields, Encode(fields, m) + (EncodeTag(wire, tag) + junk)) == None
  {
    ReadsOn(fields, m, EncodeTag(wire, tag) + junk);
    GroupFails(fields, m, SeenUpTo(fields, |fields|), tag, wire, junk);
  }

  // ----- What is not refused

  function Padding(k: nat): (p: Bytes)
    ensures |p| == k
  {
    if k == 0 then [] else [0x80] + Padding(k - 1)
  }

  lemma PaddingFirst(k: nat, rest: Bytes)
    requires k > 0
    ensures Padding(k) + rest == [0x80] + (Padding(k - 1) + rest)
  {
  }

  /** A byte of padding leaves zero as it is. */
  lemma PaddingStep(rest: Bytes, bitpos: nat)
    ensures MoreVarint32([0x80] + rest, 0, bitpos) == MoreVarint32(rest, 0, (bitpos + 7) % 256)
  {
    assert ShiftIn(0, 0, bitpos) == 0;
    hide ShiftIn;
    var b := [0x80] + rest;
    assert b[0] == 0x80 && b[1..] == rest;
  }

  lemma Around(bitpos: nat, k: nat)
    requires bitpos < 256
    ensures ((bitpos + 7) % 256 + 7 * k) % 256 == (bitpos + 7 * (k + 1)) % 256
  {
    assert bitpos + 7 >= 256 ==> (bitpos + 7) % 256 == bitpos + 7 - 256;
  }

  lemma {:induction false} PaddingPasses(k: nat, bitpos: nat, rest: Bytes)
    requires bitpos < 256
    ensures MoreVarint32(Padding(k) + rest, 0, bitpos) == MoreVarint32(rest, 0, (bitpos + 7 * k) % 256)
    decreases k
  {
    hide MoreVarint32;
    if k == 0 {
      assert Padding(0) + rest == rest;
    } else {
      PaddingFirst(k, rest);
      PaddingStep(Padding(k - 1) + rest, bitpos);
      PaddingPasses(k - 1, (bitpos + 7) % 256, rest);
      Around(bitpos, k - 1);
    }
  }

  lemma LastDigit(d: Byte, rest: Bytes, bitpos: nat)
    requires d < 128 && bitpos < 28
    ensures MoreVarint32([d] + rest, 0, bitpos) == Parsed(ShiftIn(0, d, bitpos), rest)
  {
    hide ShiftIn;
    var b := [d] + rest;
    assert b[0] == d && b[1..] == rest;
  }

  lemma ShiftInThree(d: nat)
    requires d < 128
    ensures ShiftIn(0, d, 3) == 8 * d
  {
    hide Or;
    Pow2Values();
    hide Pow2;
    OrApart(0, d, 3);
  }

  /** After 37 bytes of padding the bit position starts over: a digit there is read as if it were an early one. */
  lemma PositionStartsOver(d: Byte, rest: Bytes)
    requires d < 128
    ensures DecodeVarint32(Padding(37) + ([d] + rest)) == Parsed(8 * d, rest)
  {
    hide MoreVarint32, ShiftIn, Padding;
    var last := [d] + rest;
    PaddingFirst(37, last);
    var b := [0x80] + (Padding(36) + last);
    assert b[0] == 0x80 && b[1..] == Padding(36) + last;
    PaddingPasses(36, 7, last);
    LastDigit(d, rest, 3);
    ShiftInThree(d);
  }

  lemma SpelledFirst(d: Byte, rest: Bytes)
    ensures Spelled([d] + rest) == if d < 128 then d else d - 128 + 128 * Spelled(rest)
  {
    var b := [d] + rest;
    assert b[0] == d && b[1..] == rest;
  }

  lemma FifthIsLost(rest: Bytes)
    ensures MoreVarint32([0x90, 0x00] + rest, 0, 28) == Parsed(0, rest)
  {
    CutToWord(0, 16, 0, 16);
    Pow2Values();
    assert ShiftIn(0, 16, 28) == 0;
    hide ShiftIn, Pow2, Or;
    var b := [0x90, 0x00] + rest;
    assert b[0] == 0x90 && b[1..] == [0x00] + rest && b[1..][1..] == rest;
    FifthStep(b, 0);
  }

  /** With padding behind it the fifth digit is not looked at: 2 to the 32nd is read as zero. */
  lemma LostBits(rest: Bytes)
    ensures var b := Padding(4) + ([0x90, 0x00] + rest);
            Spelled(b) == WORD && DecodeVarint32(b) == Parsed(0, rest)
  {
    hide MoreVarint32, Padding;
    var last := [0x90, 0x00] + rest;
    PaddingFirst(4, last);
    var b := [0x80] + (Padding(3) + last);
    assert b[0] == 0x80 && b[1..] == Padding(3) + last;
    PaddingPasses(3, 7, last);
    FifthIsLost(rest);
    hide DecodeVarint32;
    PaddingFirst(3, last);
    PaddingFirst(2, last);
    PaddingFirst(1, last);
    assert Padding(0) + last == last;
    assert last == [0x90] + ([0x00] + rest);
    SpelledFirst(0x00, rest);
    SpelledFirst(0x90, [0x00] + rest);
    SpelledFirst(0x80, last);
    SpelledFirst(0x80, Padding(1) + last);
    SpelledFirst(0x80, Padding(2) + last);
    SpelledFirst(0x80, Padding(3) + last);
  }
}
