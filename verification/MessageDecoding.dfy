/**
 What the decoder makes of a string of bytes: varints, skipped fields, single fields, and whole messages.
 Every function takes what is left of the stream and gives back what it leaves.
 */
module MessageDecoding {
  import opened Basics
  import opened Coding
  import opened Messages

  // ----- Varints

  function Pow2(n: nat): (p: nat)
    ensures p > 0
  {
    if n == 0 then 1 else 2 * Pow2(n - 1)
  }

  /** Bitwise or. */
  function Or(a: nat, b: nat): nat {
    if a == 0 && b == 0 then 0
    else (if a % 2 == 1 || b % 2 == 1 then 1 else 0) + 2 * Or(a / 2, b / 2)
  }

  lemma {:induction false} OrBelow(a: nat, b: nat, n: nat)
    requires a < Pow2(n) && b < Pow2(n)
    ensures Or(a, b) < Pow2(n)
  {
    if n > 0 && (a > 0 || b > 0) {
      OrBelow(a / 2, b / 2, n - 1);
    }
  }

  lemma {:induction false} OrNothing(b: nat)
    ensures Or(0, b) == b
  {
    if b > 0 {
      OrNothing(b / 2);
    }
  }

  /** Bits that are apart are added. */
  lemma {:induction false} OrApart(a: nat, k: nat, n: nat)
    requires a < Pow2(n)
    ensures Or(a, k * Pow2(n)) == a + k * Pow2(n)
  {
    if n == 0 {
      OrNothing(k);
    } else if a > 0 || k > 0 {
      var p := Pow2(n - 1);
      assert k * Pow2(n) == 2 * (k * p);
      OrApart(a / 2, k, n - 1);
    }
  }

  lemma Pow2Step(n: nat, p: nat)
    requires Pow2(n) == p
    ensures Pow2(n + 7) == 128 * p
  {
    assert Pow2(n + 1) == 2 * p && Pow2(n + 2) == 4 * p;
    assert Pow2(n + 3) == 8 * p && Pow2(n + 4) == 16 * p;
    assert Pow2(n + 5) == 32 * p && Pow2(n + 6) == 64 * p;
  }

  /** The powers of two at which the digits of a 32-bit varint stand. */
  lemma Pow2Values()
    ensures Pow2(3) == 8 && Pow2(7) == 0x80 && Pow2(14) == 0x4000 && Pow2(21) == 0x20_0000
    ensures Pow2(28) == 0x1000_0000 && Pow2(32) == MAX_UINT32 + 1
  {
    assert Pow2(0) == 1;
    Pow2Step(0, 1);
    Pow2Step(7, 0x80);
    Pow2Step(14, 0x4000);
    Pow2Step(21, 0x20_0000);
    assert Pow2(30) == 4 * Pow2(28);
  }

  /** Or in seven bits at their place in a 32-bit word; what is beyond the word is lost. */
  function ShiftIn(result: nat, low: nat, bitpos: nat): (r: nat)
    requires result <= MAX_UINT32
    ensures r <= MAX_UINT32
  {
    var bits := low * Pow2(bitpos) % (MAX_UINT32 + 1);
    Pow2Values(); OrBelow(result, bits, 32);
    Or(result, bits)
  }

  /** The bytes of a 32-bit varint from bit position bitpos on, whose earlier bits are in result. The position is
      kept in eight bits. */
  function MoreVarint32(b: Bytes, result: nat, bitpos: nat): (r: Parsed<nat>)
    requires result <= MAX_UINT32
    ensures r.Parsed? ==> |r.rest| < |b| && r.value <= MAX_UINT32
    decreases |b|
  {
    if b == [] then Failed
    else
      var low := b[0] % 128;
      // Past the 32nd bit only padding may come: zeros, or the copies of a set sign bit.
      if bitpos >= 32 && low != 0 && (result < 0x8000_0000 || b[0] != if bitpos < 63 then 0xFF else 0x01) then Failed
      else
        var next := if bitpos >= 32 then result else ShiftIn(result, low, bitpos);
        var after := (bitpos + 7) % 256;
        if b[0] >= 128 then MoreVarint32(b[1..], next, after)
        else if after == 35 && low >= 16 then Failed
        else Parsed(next, b[1..])
  }

  function DecodeVarint32(b: Bytes): (r: Parsed<nat>)
    ensures r.Parsed? ==> |r.rest| < |b| && r.value <= MAX_UINT32
  {
    if b == [] then Failed
    else if b[0] < 128 then Parsed(b[0], b[1..])
    else MoreVarint32(b[1..], b[0] - 128, 7)
  }

  // ----- Skipping

  function Skip(b: Bytes, count: nat): Option<Bytes> {
    if count <= |b| then Some(b[count..]) else None
  }

  function SkipVarint(b: Bytes): Option<Bytes> {
    if b == [] then None else if b[0] >= 128 then SkipVarint(b[1..]) else Some(b[1..])
  }

  function SkipField(wire: nat, b: Bytes): (r: Option<Bytes>)
    ensures r.Some? ==> |r.value| <= |b|
  {
    if wire == WIRE_VARINT then SkipVarintShorter(b); SkipVarint(b)
    else if wire == WIRE_64BIT then Skip(b, 8)
    else if wire == WIRE_STRING then
      var size := DecodeVarint32(b);
      if size.Failed? then None else Skip(size.rest, size.value)
    else if wire == WIRE_32BIT then Skip(b, 4)
    else None
  }

  lemma {:induction false} SkipVarintShorter(b: Bytes)
    ensures SkipVarint(b).Some? ==> |SkipVarint(b).value| < |b|
  {
    if b != [] && b[0] >= 128 {
      SkipVarintShorter(b[1..]);
    }
  }

  // ----- Tags

  /** A zero tag ends the message; so does running out of bytes before one. */
  datatype TagParse = Tag(tag: nat, wire: nat, rest: Bytes) | EndTag(rest: Bytes) | BadTag

  function DecodeTag(b: Bytes): (r: TagParse)
    ensures r.Tag? ==> |r.rest| < |b|
  {
    if b == [] then EndTag([])
    else
      var v := DecodeVarint32(b);
      if v.Failed? then BadTag else if v.value == 0 then EndTag(v.rest) else Tag(v.value / 8, v.value % 8, v.rest)
  }

  // ----- Values

  /** The number a bit pattern stands for in a signed integer of w bytes. */
  function Signed(w: Width, n: nat): int {
    var cut := n % (2 * Bound(w));
    if cut < Bound(w) then cut else cut - 2 * Bound(w)
  }

  /** The value before the cut to w bytes; narrow fields accept a negative number sent as 32 bits. */
  function Sent(w: Width, n: nat): int {
    if w == 8 then Signed(8, n) else Signed(4, n)
  }

  function UpToZero(s: Bytes): Bytes {
    if s == [] || s[0] == 0 then [] else [s[0]] + UpToZero(s[1..])
  }

  /** A structure's values before decoding. */
  function DefaultValue(k: Kind): Value
    decreases k
  {
    match k
    case Bool => Truth(false)
    case Submessage(fields) => Message(Defaults(fields))
    case BytesIn(_) => Blob([])
    case StringIn(_) => Blob([])
    case FixedBytes(size) => Blob(seq(size, _ => 0))
    case _ => Number(0)
  }

  function DefaultSlot(f: Field): (slot: seq<Value>)
    decreases f
  {
    if f.rule.Required? then [DefaultValue(f.kind)] else []
  }

  function Defaults(fields: seq<Field>): (m: seq<seq<Value>>)
    ensures |m| == |fields|
    decreases fields
  {
    seq(|fields|, i requires 0 <= i < |fields| => DefaultSlot(fields[i]))
  }

  /** The message already in a field's place. */
  function SlotsOf(k: Kind, v: Value): (m: seq<seq<Value>>)
    requires k.Submessage?
    ensures |m| == |k.fields|
  {
    if v.Message? && |v.slots| == |k.fields| then v.slots else Defaults(k.fields)
  }

  function Map(p: Parsed<nat>, f: nat -> Value): (r: Parsed<Value>)
    ensures r.Parsed? ==> p.Parsed? && r.rest == p.rest
  {
    match p
    case Failed => Failed
    case Parsed(n, rest) => Parsed(f(n), rest)
  }

  function InRange(w: Width, n: int, rest: Bytes): (r: Parsed<Value>)
    ensures r.Parsed? ==> r.rest == rest
  {
    if -Bound(w) <= n < Bound(w) then Parsed(Number(n), rest) else Failed
  }

  function DecodeNumber(k: Kind, b: Bytes): (r: Parsed<Value>)
    requires Packable(k)
    ensures r.Parsed? ==> |r.rest| < |b|
  {
    if k.Bool? then Map(DecodeVarint32(b), n => Truth(n != 0))
    else if k.Fixed32? then if |b| < 4 then Failed else Parsed(Number(DecodeFixed(b[..4])), b[4..])
    else if k.Fixed64? then if |b| < 8 then Failed else Parsed(Number(DecodeFixed(b[..8])), b[8..])
    else
      var v := GetVarint64(b);
      if v.Failed? then Failed
      else if k.Varint? then InRange(k.width, Sent(k.width, v.value), v.rest)
      else if k.Svarint? then InRange(k.width, UnZigZag(v.value), v.rest)
      else if v.value < 2 * Bound(k.width) then Parsed(Number(v.value), v.rest)
      else Failed
  }

  /** A length and that many bytes. */
  function Substream(b: Bytes): (r: Parsed<Bytes>)
    ensures r.Parsed? ==> |r.rest| < |b| && |r.value| < |b|
  {
    var size := DecodeVarint32(b);
    if size.Failed? || |size.rest| < size.value then Failed
      else Parsed(size.rest[..size.value], size.rest[size.value..])
  }

  function DecodeBlob(k: Kind, b: Bytes): (r: Parsed<Value>)
    requires k.BytesIn? || k.StringIn? || k.FixedBytes?
    ensures r.Parsed? ==> |r.rest| < |b|
  {
    var size := DecodeVarint32(b);
    if size.Failed? then Failed
    else if k.FixedBytes? && size.value == 0 then Parsed(DefaultValue(k), size.rest)
    else if k.FixedBytes? && size.value != k.size then Failed
    else if k.BytesIn? && size.value > k.cap then Failed
    else if k.StringIn? && size.value + 1 > k.cap then Failed
    else if |size.rest| < size.value then Failed
    else
      var bytes := size.rest[..size.value];
      Parsed(Blob(if k.StringIn? then UpToZero(bytes) else bytes), size.rest[size.value..])
  }

  /** Over the value already there, which only a submessage keeps parts of. */
  function DecodeValue(k: Kind, current: Value, b: Bytes): (r: Parsed<Value>)
    ensures r.Parsed? ==> |r.rest| < |b|
    decreases |b|, 0
  {
    if Packable(k) then DecodeNumber(k, b)
    else if !k.Submessage? then DecodeBlob(k, b)
    else
      var sub := Substream(b);
      if sub.Failed? then Failed
      else
        var m := DecodeFields(k.fields, SlotsOf(k, current), {}, sub.value);
        if m.None? then Failed else Parsed(Message(m.value), sub.rest)
  }

  // ----- Fields

  /** The elements of a packed array, appended while there is room. */
  function DecodePacked(k: Kind, slot: seq<Value>, max: nat, b: Bytes): Option<seq<Value>>
    decreases |b|, 1
  {
    if b == [] then Some(slot)
    else if |slot| >= max then None
    else
      var v := DecodeValue(k, DefaultValue(k), b);
      if v.Failed? then None else DecodePacked(k, slot + [v.value], max, v.rest)
  }

  function DecodeSlot(f: Field, wire: nat, slot: seq<Value>, b: Bytes): (r: Parsed<seq<Value>>)
    ensures r.Parsed? ==> |r.rest| < |b|
    decreases |b|, 2
  {
    if !f.rule.Repeated? then
      var v := DecodeValue(f.kind, if slot == [] then DefaultValue(f.kind) else slot[0], b);
      if v.Failed? then Failed else Parsed([v.value], v.rest)
    else if wire == WIRE_STRING && Packable(f.kind) then
      var sub := Substream(b);
      if sub.Failed? then Failed
      else
        var all := DecodePacked(f.kind, slot, f.rule.max, sub.value);
        if all.None? then Failed else Parsed(all.value, sub.rest)
    else if |slot| >= f.rule.max then Failed
    else
      var v := DecodeValue(f.kind, DefaultValue(f.kind), b);
      if v.Failed? then Failed else Parsed(slot + [v.value], v.rest)
  }

  // ----- Messages

  function IndexOf(fields: seq<Field>, tag: nat): (r: Option<nat>)
    ensures r.Some? ==> r.value < |fields| && fields[r.value].tag == tag
    ensures r.None? ==> forall i :: 0 <= i < |fields| ==> fields[i].tag != tag
  {
    if fields == [] then None
    else if fields[0].tag == tag then Some(0)
    else
      match IndexOf(fields[1..], tag)
      case None => None
      case Some(i) => Some(i + 1)
  }

  lemma FieldFound(fields: seq<Field>, i: nat)
    requires i < |fields| && DistinctTags(fields)
    ensures IndexOf(fields, fields[i].tag) == Some(i)
  {
    var r := IndexOf(fields, fields[i].tag);
    if r.Some? {
      assert !(r.value < i) && !(i < r.value);
    }
  }

  /** How many of the first i fields are required. */
  function RequiredBefore(fields: seq<Field>, i: nat): (n: nat)
    requires i <= |fields|
    ensures n <= i
  {
    if i == 0 then 0 else RequiredBefore(fields, i - 1) + if fields[i - 1].rule.Required? then 1 else 0
  }

  const MAX_REQUIRED := 64

  /** The decoder remembers only the first 64 required fields. */
  function Seen(fields: seq<Field>, i: nat, seen: set<nat>): set<nat>
    requires i < |fields|
  {
    if fields[i].rule.Required? && RequiredBefore(fields, i) < MAX_REQUIRED then seen + {RequiredBefore(fields, i)}
    else seen
  }

  predicate AllSeen(fields: seq<Field>, seen: set<nat>) {
    forall n :: 0 <= n < RequiredBefore(fields, |fields|) && n < MAX_REQUIRED ==> n in seen
  }

  function DecodeFields(fields: seq<Field>, m: seq<seq<Value>>, seen: set<nat>, b: Bytes): (r: Option<seq<seq<Value>>>)
    requires |m| == |fields|
    ensures r.Some? ==> |r.value| == |fields|
    decreases |b|, 3
  {
    match DecodeTag(b)
    case BadTag => None
    case EndTag(_) => if AllSeen(fields, seen) then Some(m) else None
    case Tag(tag, wire, rest) =>
      match IndexOf(fields, tag)
      case None =>
        var left := SkipField(wire, rest);
        if left.None? then None else DecodeFields(fields, m, seen, left.value)
      case Some(i) =>
        var slot := DecodeSlot(fields[i], wire, m[i], rest);
        if slot.Failed? then None else DecodeFields(fields, m[i := slot.value], Seen(fields, i, seen), slot.rest)
  }

  function Decode(fields: seq<Field>, b: Bytes): (r: Option<seq<seq<Value>>>)
    ensures r.Some? ==> |r.value| == |fields|
  {
    DecodeFields(fields, Defaults(fields), {}, b)
  }
}
