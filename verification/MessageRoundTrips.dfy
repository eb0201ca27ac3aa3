/**
 Decoding what the encoder wrote gives the message back, exactly when every string in it is terminated
 within its room; fields the receiver does not know are passed over.
 */
module MessageRoundTrips {
  import opened Basics
  import opened Coding
  import opened Messages
  import opened MessageDecoding

  // ----- Varints

  lemma DigitsApart(v: nat, p: nat)
    ensures v * p == (v / 128) * (128 * p) + (v % 128) * p
    ensures (v % 128) * p <= v * p
  {
    var q, r := v / 128, v % 128;
    assert v == 128 * q + r;
    assert (128 * q + r) * p == q * (128 * p) + r * p;
    assert q * (128 * p) >= 0;
  }

  lemma ShiftInExact(result: nat, low: nat, bitpos: nat, add: nat)
    requires result < Pow2(bitpos) && add == low * Pow2(bitpos) && result + add <= MAX_UINT32
    ensures ShiftIn(result, low, bitpos) == result + add
  {
    hide Or;
    OrApart(result, low, bitpos);
    assert add % (MAX_UINT32 + 1) == add;
  }

  lemma OneMoreByte(b: Bytes, result: nat, bitpos: nat, add: nat)
    requires b != [] && bitpos < 32 && result <= MAX_UINT32
    requires ShiftIn(result, b[0] % 128, bitpos) == result + add
    requires b[0] < 128 && bitpos == 28 ==> b[0] < 16
    ensures MoreVarint32(b, result, bitpos)
         == if b[0] >= 128 then MoreVarint32(b[1..], result + add, bitpos + 7) else Parsed(result + add, b[1..])
  {
    hide ShiftIn;
  }

  lemma {:induction false} MoreVarint32RoundTrip(v: nat, result: nat, bitpos: nat, p: nat, rest: Bytes)
    requires bitpos in {7, 14, 21, 28} && p == Pow2(bitpos)
    requires result < p && v * p + result <= MAX_UINT32
    ensures MoreVarint32(EncodeVarint(v) + rest, result, bitpos) == Parsed(v * p + result, rest)
    decreases v
  {
    hide MoreVarint32, ShiftIn;
    var b := EncodeVarint(v) + rest;
    Pow2Values();
    DigitsApart(v, p);
    ShiftInExact(result, v % 128, bitpos, v % 128 * p);
    OneMoreByte(b, result, bitpos, v % 128 * p);
    if v < 128 {
      assert b[1..] == rest;
    } else {
      assert b[1..] == EncodeVarint(v / 128) + rest;
      assert bitpos < 28 by {
        assert bitpos == 28 ==> v * p >= 128 * 0x1000_0000;
      }
      MoreVarint32RoundTrip(v / 128, result + v % 128 * p, bitpos + 7, 128 * p, rest);
    }
  }

  lemma DecodeVarint32RoundTrip(v: nat, rest: Bytes)
    requires v <= MAX_UINT32
    ensures DecodeVarint32(EncodeVarint(v) + rest) == Parsed(v, rest)
  {
    var b := EncodeVarint(v) + rest;
    if v < 128 {
      assert b[1..] == rest;
    } else {
      assert b[1..] == EncodeVarint(v / 128) + rest;
      Pow2Values();
      MoreVarint32RoundTrip(v / 128, v % 128, 7, 0x80, rest);
    }
  }

  lemma SubstreamRoundTrip(s: Bytes, rest: Bytes)
    requires |s| <= MAX_UINT32
    ensures Substream(LengthPrefixed(s) + rest) == Parsed(s, rest)
  {
    assert LengthPrefixed(s) + rest == EncodeVarint(|s|) + (s + rest);
    DecodeVarint32RoundTrip(|s|, s + rest);
  }

  lemma TagRoundTrip(wire: nat, tag: nat, rest: Bytes)
    requires wire < 8 && 0 < tag < TAG_LIMIT
    ensures DecodeTag(EncodeTag(wire, tag) + rest) == Tag(tag, wire, rest)
  {
    DecodeVarint32RoundTrip(tag * 8 + wire, rest);
  }

  // ----- Values

  predicate TerminatedValue(k: Kind, v: Value)
    decreases k
  {
    && (k.StringIn? && v.Blob? ==> |v.bytes| < k.cap)
    && (k.Submessage? && v.Message? ==> Terminated(k.fields, v.slots))
  }

  predicate TerminatedSlot(f: Field, slot: seq<Value>)
    decreases f
  {
    forall i :: 0 <= i < |slot| ==> TerminatedValue(f.kind, slot[i])
  }

  /** Every string leaves room for its terminating zero. */
  predicate Terminated(fields: seq<Field>, m: seq<seq<Value>>)
    decreases fields
  {
    |m| == |fields| ==> forall i :: 0 <= i < |fields| ==> TerminatedSlot(fields[i], m[i])
  }

  lemma UnsignedIs(n: int)
    requires -TWO_64 <= n < TWO_64
    ensures Unsigned(n) == if n < 0 then n + TWO_64 else n
  {
  }

  lemma CutTo32(n: int)
    requires -0x8000_0000 <= n < 0
    ensures (n + TWO_64) % 0x1_0000_0000 == n + 0x1_0000_0000
  {
    assert n + TWO_64 == 0xFFFF_FFFF * 0x1_0000_0000 + (n + 0x1_0000_0000);
  }

  lemma SignedUndoesUnsigned(w: Width, n: int)
    requires -Bound(w) <= n < Bound(w)
    ensures Sent(w, Unsigned(n)) == n
  {
    UnsignedIs(n);
    hide Unsigned;
    if w != 8 && n < 0 {
      CutTo32(n);
    }
  }

  lemma NumberRoundTrip(k: Kind, v: Value, rest: Bytes)
    requires Packable(k) && FitsValue(k, v)
    ensures DecodeNumber(k, EncodeValue(k, v) + rest) == Parsed(v, rest)
  {
    var b := EncodeValue(k, v) + rest;
    match k
    case Bool =>
      DecodeVarint32RoundTrip(if v.b then 1 else 0, rest);
    case Varint(w) =>
      Varint64RoundTrip(Unsigned(v.n), rest);
      SignedUndoesUnsigned(w, v.n);
    case Uvarint(w) =>
      Varint64RoundTrip(v.n, rest);
    case Svarint(w) =>
      ZigZagPairs(v.n);
      Varint64RoundTrip(ZigZag(v.n), rest);
    case Fixed32 =>
      assert b[..4] == EncodeFixed(v.n, 4) && b[4..] == rest;
      Pow256Values();
      FixedRoundTrip(v.n, 4);
    case Fixed64 =>
      assert b[..8] == EncodeFixed(v.n, 8) && b[8..] == rest;
      Pow256Values();
      FixedRoundTrip(v.n, 8);
    case _ =>
  }

  lemma {:induction false} NoZeroKept(s: Bytes)
    requires 0 !in s
    ensures UpToZero(s) == s
  {
    if s != [] {
      assert 0 !in s[1..] && s == [s[0]] + s[1..];
      NoZeroKept(s[1..]);
    }
  }

  lemma {:induction false} BlobRoundTrip(k: Kind, v: Value, rest: Bytes)
    requires k.BytesIn? || k.StringIn? || k.FixedBytes?
    requires FitsValue(k, v) && |v.bytes| <= MAX_UINT32
    ensures DecodeBlob(k, EncodeValue(k, v) + rest) == if TerminatedValue(k, v) then Parsed(v, rest) else Failed
  {
    var s := v.bytes;
    assert LengthPrefixed(s) + rest == EncodeVarint(|s|) + (s + rest);
    DecodeVarint32RoundTrip(|s|, s + rest);
    assert (s + rest)[..|s|] == s && (s + rest)[|s|..] == rest;
    assert v == Blob(s) && (k.FixedBytes? && s == [] ==> DefaultValue(k).bytes == s);
    if k.StringIn? {
      NoZeroKept(s);
    }
  }

  lemma {:induction false} PackedRoundTrip(k: Kind, done: seq<Value>, vs: seq<Value>, max: nat)
    requires Packable(k) && AllFit(k, vs) && |done| + |vs| <= max
    ensures DecodePacked(k, done, max, EncodePacked(k, vs)) == Some(done + vs)
    decreases |vs|
  {
    if vs == [] {
      assert done + vs == done;
    } else {
      PackedStep(k, done, vs, max);
      PackedRoundTrip(k, done + [vs[0]], vs[1..], max);
      assert done + [vs[0]] + vs[1..] == done + vs;
      hide DecodePacked, EncodePacked;
    }
  }

  lemma PackedStep(k: Kind, done: seq<Value>, vs: seq<Value>, max: nat)
    requires Packable(k) && AllFit(k, vs) && |done| < max && vs != []
    ensures DecodePacked(k, done, max, EncodePacked(k, vs))
         == DecodePacked(k, done + [vs[0]], max, EncodePacked(k, vs[1..]))
  {
    NumberRoundTrip(k, vs[0], EncodePacked(k, vs[1..]));
    hide DecodeNumber, EncodeValue;
    assert EncodeValue(k, vs[0]) + EncodePacked(k, vs[1..]) != [] by {
      NumberNotEmpty(k, EncodeValue(k, vs[0]) + EncodePacked(k, vs[1..]));
    }
  }

  lemma NumberNotEmpty(k: Kind, b: Bytes)
    requires Packable(k) && DecodeNumber(k, b).Parsed?
    ensures b != []
  {
  }

  // ----- Fields

  /** What decoding gives: the thing itself, if its strings are terminated. */
  function Back<T>(terminated: bool, value: T, rest: Bytes): Parsed<T> {
    if terminated then Parsed(value, rest) else Failed
  }

  /** Going on with the rest of the message, if the part before it is accepted. */
  function Continue(fields: seq<Field>, terminated: bool, m: seq<seq<Value>>, seen: set<nat>, rest: Bytes)
    : Option<seq<seq<Value>>>
    requires |m| == |fields|
  {
    if terminated then DecodeFields(fields, m, seen, rest) else None
  }

  lemma FieldStep(
      fields: seq<Field>, m: seq<seq<Value>>, seen: set<nat>, i: nat, wire: nat, body: Bytes, terminated: bool,
      slot: seq<Value>, rest: Bytes)
    requires SchemaOk(fields) && |m| == |fields| && i < |fields| && wire < 8
    requires DecodeSlot(fields[i], wire, m[i], body + rest) == Back(terminated, slot, rest)
    ensures DecodeFields(fields, m, seen, (EncodeTag(wire, fields[i].tag) + body) + rest)
         == Continue(fields, terminated, m[i := slot], Seen(fields, i, seen), rest)
  {
    hide EncodeTag, DecodeTag, DecodeSlot, IndexOf, Seen;
    assert FieldOk(fields[i]);
    Glue(EncodeTag(wire, fields[i].tag), body, rest);
    TagRoundTrip(wire, fields[i].tag, body + rest);
    FieldFound(fields, i);
  }

  lemma SlotStep(f: Field, slot: seq<Value>, v: Value, rest: Bytes, t: bool)
    requires FitsValue(f.kind, v)
    requires f.rule.Repeated? ==> |slot| < f.rule.max && !Packable(f.kind)
    requires !f.rule.Repeated? ==> slot == DefaultSlot(f)
    requires DecodeValue(f.kind, DefaultValue(f.kind), EncodeValue(f.kind, v) + rest) == Back(t, v, rest)
    ensures DecodeSlot(f, WireType(f.kind), slot, EncodeValue(f.kind, v) + rest)
         == Back(t, if f.rule.Repeated? then slot + [v] else [v], rest)
  {
    hide DecodeValue, EncodeValue, FitsValue, DefaultValue;
  }

  lemma NoneUnterminated(f: Field)
    ensures TerminatedSlot(f, [])
  {
  }

  lemma TerminatedCons(f: Field, vs: seq<Value>)
    requires vs != []
    ensures TerminatedSlot(f, vs) <==> TerminatedValue(f.kind, vs[0]) && TerminatedSlot(f, vs[1..])
  {
    hide TerminatedValue;
    assert forall i :: 0 < i < |vs| ==> vs[i] == vs[1..][i - 1];
  }

  lemma {:induction false} ValueRoundTrip(k: Kind, v: Value, rest: Bytes)
    requires KindOk(k) && FitsValue(k, v) && |EncodeValue(k, v)| <= MAX_UINT32
    ensures DecodeValue(k, DefaultValue(k), EncodeValue(k, v) + rest) == Back(TerminatedValue(k, v), v, rest)
    decreases k, 0, 0
  {
    if Packable(k) {
      NumberRoundTrip(k, v, rest);
    } else if !k.Submessage? {
      BlobRoundTrip(k, v, rest);
    } else {
      var inner := Encode(k.fields, v.slots);
      SubstreamRoundTrip(inner, rest);
      RoundTrip(k.fields, v.slots);
    }
  }

  lemma {:induction false} ItemRoundTrip(fields: seq<Field>, m: seq<seq<Value>>, seen: set<nat>, i: nat, v: Value,
                                         rest: Bytes)
    requires SchemaOk(fields) && |m| == |fields| && i < |fields|
    requires FitsValue(fields[i].kind, v) && |EncodeValue(fields[i].kind, v)| <= MAX_UINT32
    requires fields[i].rule.Repeated? ==> |m[i]| < fields[i].rule.max && !Packable(fields[i].kind)
    requires !fields[i].rule.Repeated? ==> m[i] == DefaultSlot(fields[i])
    ensures DecodeFields(fields, m, seen, EncodeItem(fields[i], v) + rest)
         == Continue(fields, TerminatedValue(fields[i].kind, v),
                     m[i := if fields[i].rule.Repeated? then m[i] + [v] else [v]], Seen(fields, i, seen), rest)
    decreases fields[i], 0, 0
  {
    hide DecodeFields, DecodeSlot, DecodeValue, EncodeValue, EncodeTag, DefaultSlot, Seen, Packable, WireType;
    var f := fields[i];
    assert FieldOk(f);
    var t := TerminatedValue(f.kind, v);
    ValueRoundTrip(f.kind, v, rest);
    SlotStep(f, m[i], v, rest, t);
    FieldStep(fields, m, seen, i, WireType(f.kind), EncodeValue(f.kind, v), t,
              if f.rule.Repeated? then m[i] + [v] else [v], rest);
  }

  lemma NotRequiredUnseen(fields: seq<Field>, i: nat, seen: set<nat>)
    requires i < |fields| && !fields[i].rule.Required?
    ensures Seen(fields, i, seen) == seen
  {
  }

  /** An unpacked array. */
  lemma {:induction false} ItemsRoundTrip(fields: seq<Field>, m: seq<seq<Value>>, seen: set<nat>, i: nat,
                                          vs: seq<Value>, rest: Bytes)
    requires SchemaOk(fields) && |m| == |fields| && i < |fields|
    requires fields[i].rule.Repeated? && |m[i]| + |vs| <= fields[i].rule.max && !Packable(fields[i].kind)
    requires AllFit(fields[i].kind, vs) && |EncodeItems(fields[i], vs)| <= MAX_UINT32
    ensures DecodeFields(fields, m, seen, EncodeItems(fields[i], vs) + rest)
         == Continue(fields, TerminatedSlot(fields[i], vs), m[i := m[i] + vs], seen, rest)
    decreases fields[i], 1, |vs|
  {
    hide DecodeFields, EncodeItem, Packable, TerminatedSlot;
    var f := fields[i];
    if vs == [] {
      NoneUnterminated(f);
      assert EncodeItems(f, vs) + rest == rest;
      assert m[i] + vs == m[i] && m[i := m[i]] == m;
    } else {
      var left := EncodeItems(f, vs[1..]);
      Glue(EncodeItem(f, vs[0]), left, rest);
      ItemFits(f, vs);
      ItemRoundTrip(fields, m, seen, i, vs[0], left + rest);
      NotRequiredUnseen(fields, i, seen);
      TerminatedCons(f, vs);
      if TerminatedValue(f.kind, vs[0]) {
        var next := m[i := m[i] + [vs[0]]];
        ItemsRoundTrip(fields, next, seen, i, vs[1..], rest);
        assert m[i] + [vs[0]] + vs[1..] == m[i] + vs;
        assert next[i := next[i] + vs[1..]] == m[i := m[i] + vs];
      }
    }
  }

  lemma ItemFits(f: Field, vs: seq<Value>)
    requires vs != [] && AllFit(f.kind, vs)
    ensures |EncodeItems(f, vs)| == |EncodeItem(f, vs[0])| + |EncodeItems(f, vs[1..])|
    ensures |EncodeValue(f.kind, vs[0])| <= |EncodeItem(f, vs[0])|
  {
  }

  lemma PackedTerminated(f: Field, slot: seq<Value>)
    requires Packable(f.kind)
    ensures TerminatedSlot(f, slot)
  {
  }

  lemma PackedSlotRoundTrip(fields: seq<Field>, m: seq<seq<Value>>, seen: set<nat>, i: nat, slot: seq<Value>,
                            rest: Bytes)
    requires SchemaOk(fields) && |m| == |fields| && i < |fields|
    requires fields[i].rule.Repeated? && |slot| <= fields[i].rule.max && Packable(fields[i].kind) && m[i] == []
    requires AllFit(fields[i].kind, slot) && |EncodePacked(fields[i].kind, slot)| <= MAX_UINT32
    ensures DecodeFields(fields, m, seen,
                         (EncodeTag(WIRE_STRING, fields[i].tag) + LengthPrefixed(EncodePacked(fields[i].kind, slot)))
                           + rest)
         == DecodeFields(fields, m[i := slot], seen, rest)
  {
    hide DecodeFields, EncodeTag, LengthPrefixed, EncodePacked, DecodePacked, Substream, Packable;
    var f := fields[i];
    var packed := EncodePacked(f.kind, slot);
    PackedRoundTrip(f.kind, [], slot, f.rule.max);
    assert [] + slot == slot;
    SubstreamRoundTrip(packed, rest);
    FieldStep(fields, m, seen, i, WIRE_STRING, LengthPrefixed(packed), true, slot, rest);
    NotRequiredUnseen(fields, i, seen);
  }

  lemma {:induction false} SlotRoundTrip(fields: seq<Field>, m: seq<seq<Value>>, seen: set<nat>, i: nat,
                                         slot: seq<Value>, rest: Bytes)
    requires SchemaOk(fields) && |m| == |fields| && i < |fields|
    requires FitsSlot(fields[i], slot) && m[i] == DefaultSlot(fields[i])
    requires |EncodeSlot(fields[i], slot)| <= MAX_UINT32
    ensures DecodeFields(fields, m, seen, EncodeSlot(fields[i], slot) + rest)
         == Continue(fields, TerminatedSlot(fields[i], slot), m[i := slot], Seen(fields, i, seen), rest)
    decreases fields[i], 2, 0
  {
    var f := fields[i];
    if f.rule.Repeated? && Packable(f.kind) && slot != [] {
      PackedTerminated(f, slot);
      PackedSlotRoundTrip(fields, m, seen, i, slot, rest);
      NotRequiredUnseen(fields, i, seen);
    } else if f.rule.Repeated? && !Packable(f.kind) {
      ItemsRoundTrip(fields, m, seen, i, slot, rest);
      assert [] + slot == slot;
      NotRequiredUnseen(fields, i, seen);
    } else if slot == [] {
      NotRequiredUnseen(fields, i, seen);
      assert m[i := slot] == m && [] + rest == rest;
    } else {
      assert slot == [slot[0]] && slot[1..] == [];
      ItemFits(f, slot);
      assert EncodeItems(f, slot) == EncodeItem(f, slot[0]);
      ItemRoundTrip(fields, m, seen, i, slot[0], rest);
      TerminatedCons(f, slot);
    }
  }

  // ----- Messages

  /** The message after its first i fields have been decoded. */
  function Partial(fields: seq<Field>, m: seq<seq<Value>>, i: nat): (r: seq<seq<Value>>)
    requires |m| == |fields| && i <= |fields|
    ensures |r| == |fields|
  {
    m[..i] + Defaults(fields)[i..]
  }

  function SeenUpTo(fields: seq<Field>, i: nat): set<nat>
    requires i <= |fields|
  {
    if i == 0 then {} else Seen(fields, i - 1, SeenUpTo(fields, i - 1))
  }

  lemma {:induction false} SeenUpToIsAll(fields: seq<Field>, i: nat, n: nat)
    requires i <= |fields|
    ensures n in SeenUpTo(fields, i) <==> n < RequiredBefore(fields, i) && n < MAX_REQUIRED
  {
    if i > 0 {
      SeenUpToIsAll(fields, i - 1, n);
    }
  }

  lemma AllRequiredSeen(fields: seq<Field>)
    ensures AllSeen(fields, SeenUpTo(fields, |fields|))
  {
    forall n: nat | n < RequiredBefore(fields, |fields|) && n < MAX_REQUIRED ensures n in SeenUpTo(fields, |fields|) {
      SeenUpToIsAll(fields, |fields|, n);
    }
  }

  lemma PartialNext(fields: seq<Field>, m: seq<seq<Value>>, i: nat)
    requires i < |fields| == |m|
    ensures Partial(fields, m, i)[i] == DefaultSlot(fields[i])
    ensures Partial(fields, m, i)[i := m[i]] == Partial(fields, m, i + 1)
  {
  }

  predicate TerminatedFrom(fields: seq<Field>, m: seq<seq<Value>>, i: nat)
    requires |m| == |fields|
  {
    forall j :: i <= j < |fields| ==> TerminatedSlot(fields[j], m[j])
  }

  lemma TerminatedNext(fields: seq<Field>, m: seq<seq<Value>>, i: nat)
    requires i < |fields| == |m|
    ensures TerminatedFrom(fields, m, i) <==> TerminatedSlot(fields[i], m[i]) && TerminatedFrom(fields, m, i + 1)
  {
    hide TerminatedSlot;
  }

  lemma {:induction false} NextSlot(fields: seq<Field>, m: seq<seq<Value>>, i: nat, rest: Bytes)
    requires SchemaOk(fields) && i < |fields| == |m|
    requires FitsSlot(fields[i], m[i]) && |EncodeSlot(fields[i], m[i])| <= MAX_UINT32
    ensures DecodeFields(fields, Partial(fields, m, i), SeenUpTo(fields, i), EncodeSlot(fields[i], m[i]) + rest)
         == Continue(fields, TerminatedSlot(fields[i], m[i]), Partial(fields, m, i + 1), SeenUpTo(fields, i + 1), rest)
    decreases fields[i], 3, 0
  {
    hide DecodeFields, EncodeSlot, FitsSlot, TerminatedSlot, SchemaOk, Partial, DefaultSlot, Seen;
    PartialNext(fields, m, i);
    SlotRoundTrip(fields, Partial(fields, m, i), SeenUpTo(fields, i), i, m[i], rest);
  }

  lemma AllDecoded(fields: seq<Field>, m: seq<seq<Value>>)
    requires |m| == |fields|
    ensures DecodeFields(fields, Partial(fields, m, |fields|), SeenUpTo(fields, |fields|), []) == Some(m)
    ensures TerminatedFrom(fields, m, |fields|)
  {
    AllRequiredSeen(fields);
    assert Partial(fields, m, |fields|) == m;
  }

  lemma {:induction false} RoundTripFrom(fields: seq<Field>, m: seq<seq<Value>>, i: nat)
    requires SchemaOk(fields) && Fits(fields, m) && i <= |fields| && |EncodeFrom(fields, m, i)| <= MAX_UINT32
    ensures DecodeFields(fields, Partial(fields, m, i), SeenUpTo(fields, i), EncodeFrom(fields, m, i))
         == if TerminatedFrom(fields, m, i) then Some(m) else None
    decreases fields, 4, |fields| - i
  {
    hide DecodeFields, EncodeSlot, FitsSlot, TerminatedSlot, TerminatedFrom, SchemaOk, Partial, SeenUpTo;
    if i == |fields| {
      AllDecoded(fields, m);
    } else {
      NextSlot(fields, m, i, EncodeFrom(fields, m, i + 1));
      TerminatedNext(fields, m, i);
      RoundTripFrom(fields, m, i + 1);
    }
  }

  /**
   Decoding the encoder's bytes gives the message back if and only if each of its strings is terminated
   within its room: one that fills the room is sent, and refused by the receiver.
   */
  lemma {:induction false} RoundTrip(fields: seq<Field>, m: seq<seq<Value>>)
    requires SchemaOk(fields) && Fits(fields, m) && |Encode(fields, m)| <= MAX_UINT32
    ensures Decode(fields, Encode(fields, m)) == if Terminated(fields, m) then Some(m) else None
    decreases fields, 5, 0
  {
    assert Partial(fields, m, 0) == Defaults(fields);
    RoundTripFrom(fields, m, 0);
  }

  /** A string of one byte in a room of one byte: sent, and refused by a receiver with the same table. */
  lemma FullStringIsRefused()
    ensures var fields, m := [Field(1, Required, StringIn(1))], [[Blob([65])]];
            SchemaOk(fields) && Fits(fields, m) && Decode(fields, Encode(fields, m)) == None
  {
    var f, slot := Field(1, Required, StringIn(1)), [Blob([65])];
    assert FieldOk(f) && FitsValue(f.kind, slot[0]) && FitsSlot(f, slot);
    assert !TerminatedValue(f.kind, slot[0]);
    assert !TerminatedSlot(f, slot);
    assert EncodeFrom([f], [slot], 1) == [];
    OneByteString(f, slot);
    RoundTrip([f], [slot]);
  }

  lemma OneByteString(f: Field, slot: seq<Value>)
    requires f == Field(1, Required, StringIn(1)) && slot == [Blob([65])]
    requires FitsSlot(f, slot)
    ensures |EncodeSlot(f, slot)| == 3
  {
    assert slot[1..] == [];
    assert EncodeItems(f, slot[1..]) == [];
    assert EncodeTag(WIRE_STRING, 1) == [10];
    assert LengthPrefixed([65]) == [1, 65];
  }

  // ----- Fields the receiver does not know

  lemma {:induction false} VarintSkipped(v: nat, rest: Bytes)
    ensures SkipVarint(EncodeVarint(v) + rest) == Some(rest)
  {
    var b := EncodeVarint(v) + rest;
    if v < 128 {
      assert b[1..] == rest;
    } else {
      VarintSkipped(v / 128, rest);
      assert b[1..] == EncodeVarint(v / 128) + rest;
    }
  }

  lemma PrefixedSkipped(s: Bytes, rest: Bytes)
    requires |s| <= MAX_UINT32
    ensures SkipField(WIRE_STRING, LengthPrefixed(s) + rest) == Some(rest)
  {
    assert LengthPrefixed(s) + rest == EncodeVarint(|s|) + (s + rest);
    DecodeVarint32RoundTrip(|s|, s + rest);
    assert (s + rest)[|s|..] == rest;
  }

  lemma ValueSkipped(k: Kind, v: Value, rest: Bytes)
    requires FitsValue(k, v) && |EncodeValue(k, v)| <= MAX_UINT32
    ensures SkipField(WireType(k), EncodeValue(k, v) + rest) == Some(rest)
  {
    var b := EncodeValue(k, v) + rest;
    if k.Fixed32? {
      assert b[4..] == rest;
    } else if k.Fixed64? {
      assert b[8..] == rest;
    } else if Packable(k) {
      ZigZagPairs(if v.Number? then v.n else 0);
      VarintSkipped(if k.Bool? then if v.b then 1 else 0
                    else if k.Varint? then Unsigned(v.n)
                    else if k.Uvarint? then v.n
                    else ZigZag(v.n), rest);
    } else {
      PrefixedSkipped(if k.Submessage? then Encode(k.fields, v.slots) else v.bytes, rest);
    }
  }

  lemma UnknownStep(known: seq<Field>, m: seq<seq<Value>>, seen: set<nat>, wire: nat, tag: nat, body: Bytes,
                    rest: Bytes)
    requires |m| == |known| && wire < 8 && 0 < tag < TAG_LIMIT && IndexOf(known, tag).None?
    requires SkipField(wire, body + rest) == Some(rest)
    ensures DecodeFields(known, m, seen, (EncodeTag(wire, tag) + body) + rest) == DecodeFields(known, m, seen, rest)
  {
    hide EncodeTag, DecodeTag, IndexOf, SkipField;
    Glue(EncodeTag(wire, tag), body, rest);
    TagRoundTrip(wire, tag, body + rest);
  }

  lemma ItemIs(f: Field, v: Value)
    requires FitsValue(f.kind, v)
    ensures EncodeItem(f, v) == EncodeTag(WireType(f.kind), f.tag) + EncodeValue(f.kind, v)
  {
  }

  lemma {:induction false} ItemsSkipped(known: seq<Field>, m: seq<seq<Value>>, seen: set<nat>, f: Field,
                                        vs: seq<Value>, rest: Bytes)
    requires |m| == |known| && FieldOk(f) && IndexOf(known, f.tag).None?
    requires AllFit(f.kind, vs) && |EncodeItems(f, vs)| <= MAX_UINT32
    ensures DecodeFields(known, m, seen, EncodeItems(f, vs) + rest) == DecodeFields(known, m, seen, rest)
    decreases |vs|
  {
    hide DecodeFields, EncodeItem, IndexOf;
    if vs == [] {
      assert [] + rest == rest;
    } else {
      var left := EncodeItems(f, vs[1..]);
      Glue(EncodeItem(f, vs[0]), left, rest);
      ItemFits(f, vs);
      ValueSkipped(f.kind, vs[0], left + rest);
      ItemIs(f, vs[0]);
      UnknownStep(known, m, seen, WireType(f.kind), f.tag, EncodeValue(f.kind, vs[0]), left + rest);
      ItemsSkipped(known, m, seen, f, vs[1..], rest);
    }
  }

  lemma SlotSkipped(known: seq<Field>, m: seq<seq<Value>>, seen: set<nat>, f: Field, slot: seq<Value>, rest: Bytes)
    requires |m| == |known| && FieldOk(f) && IndexOf(known, f.tag).None?
    requires FitsSlot(f, slot) && |EncodeSlot(f, slot)| <= MAX_UINT32
    ensures DecodeFields(known, m, seen, EncodeSlot(f, slot) + rest) == DecodeFields(known, m, seen, rest)
  {
    if f.rule.Repeated? && Packable(f.kind) && slot != [] {
      var packed := EncodePacked(f.kind, slot);
      PrefixedSkipped(packed, rest);
      UnknownStep(known, m, seen, WIRE_STRING, f.tag, LengthPrefixed(packed), rest);
    } else {
      ItemsSkipped(known, m, seen, f, slot, rest);
    }
  }

  /** The fields among the first i whose tags the receiver knows, and what is in them. */
  function Known(fields: seq<Field>, tags: set<nat>, i: nat): (r: seq<Field>)
    requires i <= |fields|
    ensures |r| <= i
  {
    if i == 0 then [] else Known(fields, tags, i - 1) + if fields[i - 1].tag in tags then [fields[i - 1]] else []
  }

  function KnownSlots(fields: seq<Field>, tags: set<nat>, m: seq<seq<Value>>, i: nat): (r: seq<seq<Value>>)
    requires i <= |fields| == |m|
    ensures |r| == |Known(fields, tags, i)|
  {
    if i == 0 then [] else KnownSlots(fields, tags, m, i - 1) + if fields[i - 1].tag in tags then [m[i - 1]] else []
  }

  predicate FromFirst(fields: seq<Field>, tags: set<nat>, i: nat, f: Field)
    requires i <= |fields|
  {
    f.tag in tags && FieldOk(f) && exists j :: 0 <= j < i && fields[j] == f
  }

  lemma {:induction false} KnownOk(fields: seq<Field>, tags: set<nat>, i: nat)
    requires SchemaOk(fields) && i <= |fields|
    ensures SchemaOk(Known(fields, tags, i))
    ensures forall a :: 0 <= a < |Known(fields, tags, i)| ==> FromFirst(fields, tags, i, Known(fields, tags, i)[a])
  {
    if i > 0 {
      KnownOk(fields, tags, i - 1);
      var f, before := fields[i - 1], Known(fields, tags, i - 1);
      assert FieldOk(f);
      forall a | 0 <= a < |before| ensures before[a].tag != f.tag && FromFirst(fields, tags, i, before[a]) {
        assert FromFirst(fields, tags, i - 1, before[a]);
      }
      assert f.tag in tags ==> FromFirst(fields, tags, i, f);
    }
  }

  lemma {:induction false} KnownPrefix(fields: seq<Field>, tags: set<nat>, m: seq<seq<Value>>, i: nat, j: nat)
    requires i <= j <= |fields| == |m|
    ensures Known(fields, tags, i) <= Known(fields, tags, j)
    ensures KnownSlots(fields, tags, m, i) <= KnownSlots(fields, tags, m, j)
    decreases j
  {
    if i < j {
      KnownPrefix(fields, tags, m, i, j - 1);
    }
  }

  lemma KnownNext(fields: seq<Field>, tags: set<nat>, m: seq<seq<Value>>, i: nat)
    requires i < |fields| == |m| && fields[i].tag in tags
    ensures var k, known := |Known(fields, tags, i)|, Known(fields, tags, |fields|);
            |Known(fields, tags, i + 1)| == k + 1 <= |known| && known[k] == fields[i]
              && KnownSlots(fields, tags, m, |fields|)[k] == m[i]
  {
    var k := |Known(fields, tags, i)|;
    KnownPrefix(fields, tags, m, i + 1, |fields|);
    assert Known(fields, tags, i + 1)[k] == fields[i] && KnownSlots(fields, tags, m, i + 1)[k] == m[i];
  }

  lemma UnknownNext(fields: seq<Field>, tags: set<nat>, i: nat)
    requires i < |fields| && fields[i].tag !in tags
    ensures Known(fields, tags, i + 1) == Known(fields, tags, i)
  {
  }

  lemma UnknownAbsent(fields: seq<Field>, tags: set<nat>, tag: nat)
    requires SchemaOk(fields) && tag !in tags
    ensures IndexOf(Known(fields, tags, |fields|), tag).None?
  {
    var known := Known(fields, tags, |fields|);
    KnownOk(fields, tags, |fields|);
    var found := IndexOf(known, tag);
    assert found.Some? ==> FromFirst(fields, tags, |fields|, known[found.value]);
  }

  lemma {:induction false} ReceivedFrom(fields: seq<Field>, tags: set<nat>, m: seq<seq<Value>>, i: nat,
                                        known: seq<Field>, km: seq<seq<Value>>, k: nat)
    requires SchemaOk(fields) && Fits(fields, m) && i <= |fields| && |EncodeFrom(fields, m, i)| <= MAX_UINT32
    requires SchemaOk(known) && known == Known(fields, tags, |fields|) && km == KnownSlots(fields, tags, m, |fields|)
    requires k == |Known(fields, tags, i)| <= |known|
    ensures DecodeFields(known, Partial(known, km, k), SeenUpTo(known, k), EncodeFrom(fields, m, i))
         == if TerminatedFrom(known, km, k) then Some(km) else None
    decreases |fields| - i
  {
    hide DecodeFields, EncodeSlot, FitsSlot, TerminatedSlot, TerminatedFrom, Partial, SeenUpTo, FieldOk, Known,
      KnownSlots, IndexOf;
    if i == |fields| {
      AllDecoded(known, km);
    } else {
      var left := EncodeFrom(fields, m, i + 1);
      assert FitsSlot(fields[i], m[i]) && FieldOk(fields[i]);
      if fields[i].tag in tags {
        KnownNext(fields, tags, m, i);
        NextSlot(known, km, k, left);
        TerminatedNext(known, km, k);
        ReceivedFrom(fields, tags, m, i + 1, known, km, k + 1);
      } else {
        UnknownAbsent(fields, tags, fields[i].tag);
        SlotSkipped(known, Partial(known, km, k), SeenUpTo(known, k), fields[i], m[i], left);
        UnknownNext(fields, tags, i);
        ReceivedFrom(fields, tags, m, i + 1, known, km, k);
      }
    }
  }

  /** A receiver whose table lacks some of the sender's fields gets the others as they were sent. */
  lemma UnknownFieldsAreSkipped(fields: seq<Field>, tags: set<nat>, m: seq<seq<Value>>)
    requires SchemaOk(fields) && Fits(fields, m) && |Encode(fields, m)| <= MAX_UINT32
    ensures var known, km := Known(fields, tags, |fields|), KnownSlots(fields, tags, m, |fields|);
            Decode(known, Encode(fields, m)) == if Terminated(known, km) then Some(km) else None
  {
    var known, km := Known(fields, tags, |fields|), KnownSlots(fields, tags, m, |fields|);
    KnownOk(fields, tags, |fields|);
    assert Partial(known, km, 0) == Defaults(known);
    ReceivedFrom(fields, tags, m, 0, known, km, 0);
  }
}
