/**
 Protocol buffer messages: what a table of fields describes, the messages that fit it, and the bytes
 the encoder writes for one.
 */
module Messages {
  import opened Basics
  import opened Coding

  // ----- The schema

  /** Bytes of an integer in the structure. */
  type Width = w: nat | w == 1 || w == 2 || w == 4 || w == 8 witness 1

  /** BytesIn and StringIn give the room in the structure; a string's includes its terminating zero. */
  datatype Kind =
    | Bool
    | Varint(width: Width)
    | Uvarint(width: Width)
    | Svarint(width: Width)
    | Fixed32
    | Fixed64
    | BytesIn(cap: nat)
    | StringIn(cap: nat)
    | FixedBytes(size: nat)
    | Submessage(fields: seq<Field>)

  datatype Rule = Required | Optional | Repeated(max: nat)

  datatype Field = Field(tag: nat, rule: Rule, kind: Kind)

  const TAG_LIMIT := 0x2000_0000

  predicate DistinctTags(fields: seq<Field>) {
    forall i, j :: 0 <= i < j < |fields| ==> fields[i].tag != fields[j].tag
  }

  predicate KindOk(k: Kind)
    decreases k
  {
    && (k.Submessage? ==> SchemaOk(k.fields))
    && (k.StringIn? ==> k.cap > 0)
  }

  predicate FieldOk(f: Field)
    decreases f
  {
    0 < f.tag < TAG_LIMIT && KindOk(f.kind)
  }

  predicate SchemaOk(fields: seq<Field>)
    decreases fields
  {
    && DistinctTags(fields)
    && forall i :: 0 <= i < |fields| ==> FieldOk(fields[i])
  }

  // ----- Values

  /**
   A field's value is the list of what it holds: one value if it is required, at most one if it is optional.
   A string is the part before its first zero byte.
   */
  datatype Value =
    | Truth(b: bool)
    | Number(n: int)
    | Blob(bytes: Bytes)
    | Message(slots: seq<seq<Value>>)

  function Bound(w: Width): (p: int)
    ensures p > 0
  {
    if w == 1 then 0x80 else if w == 2 then 0x8000 else if w == 4 then 0x8000_0000 else 0x8000_0000_0000_0000
  }

  /** Half the numbers of w bytes are negative. */
  lemma BoundIsHalf(w: Width)
    ensures 2 * Bound(w) == Pow256(w)
  {
    Pow256Values();
    Pow256Step(1, 1);
    Pow256Step(2, 0x100);
    hide Pow256;
  }

  predicate FitsValue(k: Kind, v: Value)
    decreases k
  {
    match k
    case Bool => v.Truth?
    case Varint(w) => v.Number? && -Bound(w) <= v.n < Bound(w)
    case Uvarint(w) => v.Number? && 0 <= v.n < 2 * Bound(w)
    case Svarint(w) => v.Number? && -Bound(w) <= v.n < Bound(w)
    case Fixed32 => v.Number? && 0 <= v.n <= MAX_UINT32
    case Fixed64 => v.Number? && 0 <= v.n <= MAX_UINT64
    case BytesIn(cap) => v.Blob? && |v.bytes| <= cap
    case StringIn(cap) => v.Blob? && |v.bytes| <= cap && 0 !in v.bytes
    case FixedBytes(size) => v.Blob? && |v.bytes| == size
    case Submessage(fields) => v.Message? && Fits(fields, v.slots)
  }

  predicate FitsSlot(f: Field, slot: seq<Value>)
    decreases f
  {
    && (f.rule.Required? ==> |slot| == 1)
    && (f.rule.Optional? ==> |slot| <= 1)
    && (f.rule.Repeated? ==> |slot| <= f.rule.max)
    && forall i :: 0 <= i < |slot| ==> FitsValue(f.kind, slot[i])
  }

  /** A message the structure can hold, within its declared sizes. */
  predicate Fits(fields: seq<Field>, m: seq<seq<Value>>)
    decreases fields
  {
    && |m| == |fields|
    && forall i :: 0 <= i < |fields| ==> FitsSlot(fields[i], m[i])
  }

  // ----- Numbers on the wire

  const TWO_64: int := MAX_UINT64 + 1

  /** Two's complement in 64 bits. */
  function Unsigned(n: int): (r: nat)
    ensures r < TWO_64
  {
    n % TWO_64
  }

  function ZigZag(n: int): int {
    if n < 0 then -2 * n - 1 else 2 * n
  }

  function UnZigZag(n: nat): int {
    if n % 2 == 1 then -(n / 2) - 1 else n / 2
  }

  lemma ZigZagPairs(n: int)
    ensures ZigZag(n) >= 0 && UnZigZag(ZigZag(n)) == n
    ensures forall w: Width :: -Bound(w) <= n < Bound(w) ==> ZigZag(n) < 2 * Bound(w)
  {
  }

  // ----- Encoding

  const WIRE_VARINT := 0
  const WIRE_64BIT := 1
  const WIRE_STRING := 2
  const WIRE_32BIT := 5

  function WireType(k: Kind): (w: nat)
    ensures w < 8
  {
    match k
    case Bool => WIRE_VARINT
    case Varint(_) => WIRE_VARINT
    case Uvarint(_) => WIRE_VARINT
    case Svarint(_) => WIRE_VARINT
    case Fixed32 => WIRE_32BIT
    case Fixed64 => WIRE_64BIT
    case _ => WIRE_STRING
  }

  predicate Packable(k: Kind) {
    WireType(k) != WIRE_STRING
  }

  function EncodeTag(wire: nat, tag: nat): (r: Bytes)
    ensures r != []
  {
    EncodeVarint(tag * 8 + wire)
  }

  function EncodeValue(k: Kind, v: Value): (r: Bytes)
    requires FitsValue(k, v)
    ensures r != []
    decreases k, 0, 0
  {
    match k
    case Bool => EncodeVarint(if v.b then 1 else 0)
    case Varint(_) => EncodeVarint(Unsigned(v.n))
    case Uvarint(_) => EncodeVarint(v.n)
    case Svarint(_) => ZigZagPairs(v.n); EncodeVarint(ZigZag(v.n))
    case Fixed32 => EncodeFixed(v.n, 4)
    case Fixed64 => EncodeFixed(v.n, 8)
    case BytesIn(_) => LengthPrefixed(v.bytes)
    case StringIn(_) => LengthPrefixed(v.bytes)
    case FixedBytes(_) => LengthPrefixed(v.bytes)
    case Submessage(fields) => LengthPrefixed(Encode(fields, v.slots))
  }

  predicate AllFit(k: Kind, vs: seq<Value>) {
    forall i :: 0 <= i < |vs| ==> FitsValue(k, vs[i])
  }

  /** The elements of a packed array. */
  function EncodePacked(k: Kind, vs: seq<Value>): Bytes
    requires AllFit(k, vs)
    decreases k, 1, |vs|
  {
    if vs == [] then [] else EncodeValue(k, vs[0]) + EncodePacked(k, vs[1..])
  }

  function EncodeItem(f: Field, v: Value): Bytes
    requires FitsValue(f.kind, v)
    decreases f, 0, 0
  {
    EncodeTag(WireType(f.kind), f.tag) + EncodeValue(f.kind, v)
  }

  /** Each value after a tag of its own. */
  function EncodeItems(f: Field, vs: seq<Value>): Bytes
    requires AllFit(f.kind, vs)
    decreases f, 1, |vs|
  {
    if vs == [] then [] else EncodeItem(f, vs[0]) + EncodeItems(f, vs[1..])
  }

  function EncodeSlot(f: Field, slot: seq<Value>): Bytes
    requires FitsSlot(f, slot)
    decreases f, 2, 0
  {
    if f.rule.Repeated? && Packable(f.kind) && slot != [] then
      EncodeTag(WIRE_STRING, f.tag) + LengthPrefixed(EncodePacked(f.kind, slot))
    else EncodeItems(f, slot)
  }

  function Encode(fields: seq<Field>, m: seq<seq<Value>>): Bytes
    requires Fits(fields, m)
    decreases fields, 3, 0
  {
    EncodeFrom(fields, m, 0)
  }

  function EncodeFrom(fields: seq<Field>, m: seq<seq<Value>>, i: nat): Bytes
    requires Fits(fields, m) && i <= |fields|
    decreases fields, 2, |fields| - i
  {
    if i == |fields| then [] else EncodeSlot(fields[i], m[i]) + EncodeFrom(fields, m, i + 1)
  }
}
