/**
 pb_ostream_t and the encoder: a stream that writes into a buffer up to a limit, or only counts. Every
 operation emits exactly the bytes Messages.Encode gives, and fails only for lack of room or because the
 message exceeds its declared sizes; a sizing stream counts exactly what a writing one writes.
 */
module OStreams {
  import opened Basics
  import opened Coding
  import opened Messages
  import opened FieldIters
  import M = Messages
  import C = Coding

  // ----- Messages of the right type, whatever their sizes

  predicate TypedValue(k: Kind, v: Value)
    decreases k, 0
  {
    match k
    case BytesIn(_) => v.Blob?
    case Submessage(fields) => v.Message? && Typed(fields, v.slots)
    case _ => FitsValue(k, v)
  }

  predicate AllTyped(k: Kind, vs: seq<Value>)
    decreases k, 1
  {
    forall i :: 0 <= i < |vs| ==> TypedValue(k, vs[i])
  }

  predicate TypedSlot(f: Field, slot: seq<Value>)
    decreases f
  {
    && (f.rule.Required? ==> |slot| == 1)
    && (f.rule.Optional? ==> |slot| <= 1)
    && AllTyped(f.kind, slot)
  }

  predicate Typed(fields: seq<Field>, m: seq<seq<Value>>)
    decreases fields
  {
    |m| == |fields| && forall i :: 0 <= i < |fields| ==> TypedSlot(fields[i], m[i])
  }

  lemma {:induction false} FitsIsTyped(fields: seq<Field>, m: seq<seq<Value>>)
    requires Fits(fields, m)
    ensures Typed(fields, m)
    decreases fields
  {
    forall i | 0 <= i < |fields| ensures TypedSlot(fields[i], m[i]) {
      SlotFitsIsTyped(fields[i], m[i]);
    }
  }

  lemma {:induction false} SlotFitsIsTyped(f: Field, slot: seq<Value>)
    requires FitsSlot(f, slot)
    ensures TypedSlot(f, slot)
    decreases f
  {
    forall j | 0 <= j < |slot| && f.kind.Submessage? ensures TypedValue(f.kind, slot[j]) {
      assert FitsValue(f.kind, slot[j]);
      FitsIsTyped(f.kind.fields, slot[j].slots);
    }
  }

  // ----- The stream

  class OStream {
    const data: array<Byte>
    const sizing: bool
    const maxSize: nat
    var pos: nat
    var bytesWritten: nat

    ghost predicate Valid()
      reads this
    {
      && pos <= data.Length
      && (!sizing ==> bytesWritten <= maxSize && pos + (maxSize - bytesWritten) <= data.Length)
    }

    /** Where writing must stop. */
    ghost function Limit(): nat
      reads this
      requires Valid()
    {
      if sizing then 0 else pos + (maxSize - bytesWritten)
    }

    ghost predicate Room(n: nat)
      reads this
    {
      sizing || bytesWritten + n <= maxSize
    }

    /** The bytes b have been appended, or only counted. */
    twostate predicate Emitted(b: Bytes)
      requires old(Valid()) && Valid()
      reads this, data
    {
      && bytesWritten == old(bytesWritten) + |b|
      && (if sizing then pos == old(pos) else data[..pos] == old(data[..pos]) + b)
    }

    /** Nothing before the old position or after the limit has been touched. */
    twostate predicate Within()
      requires old(Valid()) && Valid()
      reads this, data
    {
      && Limit() == old(Limit())
      && (if sizing then data[..] == old(data[..])
          else old(pos) <= pos && data[..old(pos)] == old(data[..pos]) && data[Limit()..] == old(data[Limit()..]))
    }

    constructor FromBuffer(data: array<Byte>, pos: nat, size: nat)
      requires pos + size <= data.Length
      ensures Valid() && this.data == data && !sizing && maxSize == size && this.pos == pos && bytesWritten == 0
    {
      this.data, sizing, maxSize, this.pos, bytesWritten := data, false, size, pos, 0;
    }

    constructor Sizing()
      ensures Valid() && sizing && bytesWritten == 0 && fresh(data)
    {
      data := new Byte[0];
      sizing, maxSize, pos, bytesWritten := true, 0, 0, 0;
    }

    method BufWrite(b: Bytes)
      requires pos + |b| <= data.Length
      modifies this`pos, data
      ensures pos == old(pos) + |b|
      ensures data[..pos] == old(data[..pos]) + b && data[pos..] == old(data[..])[pos..]
    {
      var start := pos;
      pos := pos + |b|;
      for i := 0 to |b|
        invariant pos == start + |b|
        invariant forall j :: 0 <= j < data.Length ==>
          data[j] == if start <= j < start + i then b[j - start] else old(data[j])
      {
        data[start + i] := b[i];
      }
    }

    method Write(b: Bytes) returns (ok: bool)
      requires Valid()
      modifies this, data
      ensures Valid() && Within()
      ensures ok <==> old(Room(|b|))
      ensures ok ==> Emitted(b)
    {
      if |b| > 0 && !sizing {
        if bytesWritten + |b| > maxSize {
          return false;
        }
        BufWrite(b);
      }
      bytesWritten := bytesWritten + |b|;
      return true;
    }

    // ----- Numbers and strings

    method EncodeVarint(value: nat) returns (ok: bool)
      requires Valid()
      modifies this, data
      ensures Valid() && Within()
      ensures ok <==> old(Room(|C.EncodeVarint(value)|))
      ensures ok ==> Emitted(C.EncodeVarint(value))
    {
      if value <= 0x7F {
        ok := Write([value]);
        return;
      }
      var buffer: seq<Byte> := [];
      var v := value;
      while v != 0
        invariant v != 0 ==> C.EncodeVarint(value) == buffer + C.EncodeVarint(v)
        invariant v == 0 ==> |buffer| > 0 && buffer[|buffer| - 1] >= 128
        invariant v == 0 ==> C.EncodeVarint(value) == buffer[..|buffer| - 1] + [buffer[|buffer| - 1] - 128]
      {
        assert v >= 128 ==> C.EncodeVarint(v) == [v % 128 + 128] + C.EncodeVarint(v / 128);
        ghost var before := buffer;
        buffer := buffer + [v % 128 + 128];
        assert buffer[..|buffer| - 1] == before;
        v := v / 128;
      }
      buffer := buffer[..|buffer| - 1] + [buffer[|buffer| - 1] - 128];
      ok := Write(buffer);
    }

    method EncodeSvarint(value: int) returns (ok: bool)
      requires Valid() && FitsValue(Svarint(8), Number(value))
      modifies this, data
      ensures Valid() && Within()
      ensures ok <==> old(Room(|M.EncodeValue(Svarint(8), Number(value))|))
      ensures ok ==> Emitted(M.EncodeValue(Svarint(8), Number(value)))
    {
      ZigZagPairs(value);
      ok := EncodeVarint(ZigZag(value));
    }

    method EncodeFixed32(v: nat) returns (ok: bool)
      requires Valid() && v <= MAX_UINT32
      modifies this, data
      ensures Valid() && Within()
      ensures ok <==> old(Room(4))
      ensures ok ==> Emitted(EncodeFixed(v, 4))
    {
      FourBytes(v);
      ok := Write([v % 256, v / 0x100 % 256, v / 0x1_0000 % 256, v / 0x100_0000 % 256]);
    }

    method EncodeFixed64(v: nat) returns (ok: bool)
      requires Valid() && v <= MAX_UINT64
      modifies this, data
      ensures Valid() && Within()
      ensures ok <==> old(Room(8))
      ensures ok ==> Emitted(EncodeFixed(v, 8))
    {
      EightBytes(v);
      var high := v / 0x1_0000_0000;
      ok := Write([v % 256, v / 0x100 % 256, v / 0x1_0000 % 256, v / 0x100_0000 % 256,
                   high % 256, high / 0x100 % 256, high / 0x1_0000 % 256, high / 0x100_0000 % 256]);
    }

    method EncodeTag(wire: nat, tag: nat) returns (ok: bool)
      requires Valid() && wire < 8 && tag < TAG_LIMIT
      modifies this, data
      ensures Valid() && Within()
      ensures ok <==> old(Room(|M.EncodeTag(wire, tag)|))
      ensures ok ==> Emitted(M.EncodeTag(wire, tag))
    {
      ok := EncodeVarint(tag * 8 + wire);
    }

    method EncodeString(b: Bytes) returns (ok: bool)
      requires Valid()
      modifies this, data
      ensures Valid() && Within()
      ensures ok <==> old(Room(|LengthPrefixed(b)|))
      ensures ok ==> Emitted(LengthPrefixed(b))
    {
      ok := EncodeVarint(|b|);
      if ok {
        ok := Write(b);
      }
    }

    // ----- Values

    method EncodeValue(k: Kind, v: Value) returns (ok: bool)
      requires Valid() && TypedValue(k, v) && KindOk(k)
      modifies this, data
      ensures Valid() && Within()
      ensures ok <==> FitsValue(k, v) && old(Room(|M.EncodeValue(k, v)|))
      ensures ok ==> Emitted(M.EncodeValue(k, v))
      decreases k, 0, 0
    {
      match k
      case Bool => ok := EncodeVarint(if v.b then 1 else 0);
      case Varint(_) => ok := EncodeVarint(Unsigned(v.n));
      case Uvarint(_) => ok := EncodeVarint(v.n);
      case Svarint(_) => ok := EncodeSvarint(v.n);
      case Fixed32 => ok := EncodeFixed32(v.n);
      case Fixed64 => ok := EncodeFixed64(v.n);
      case BytesIn(cap) =>
        if |v.bytes| > cap {
          return false;
        }
        ok := EncodeString(v.bytes);
      case StringIn(_) => ok := EncodeString(v.bytes);
      case FixedBytes(_) => ok := EncodeString(v.bytes);
      case Submessage(fields) => ok := EncodeSubmessage(fields, v.slots);
    }

    method EncodeSubmessage(fields: seq<Field>, m: seq<seq<Value>>) returns (ok: bool)
      requires Valid() && Typed(fields, m) && SchemaOk(fields)
      modifies this, data
      ensures Valid() && Within()
      ensures ok <==> Fits(fields, m) && old(Room(|LengthPrefixed(M.Encode(fields, m))|))
      ensures ok ==> Emitted(LengthPrefixed(M.Encode(fields, m)))
      decreases fields, 5, 0
    {
      var substream := new OStream.Sizing();
      ok := substream.Encode(fields, m);
      if !ok {
        return;
      }
      ok := EncodeSized(fields, m, substream.bytesWritten);
    }

    method EncodeSized(fields: seq<Field>, m: seq<seq<Value>>, size: nat) returns (ok: bool)
      requires Valid() && Typed(fields, m) && SchemaOk(fields) && Fits(fields, m) && size == |M.Encode(fields, m)|
      modifies this, data
      ensures Valid() && Within()
      ensures ok <==> old(Room(|LengthPrefixed(M.Encode(fields, m))|))
      ensures ok ==> Emitted(LengthPrefixed(M.Encode(fields, m)))
      decreases fields, 4, 2
    {
      ok := EncodeVarint(size);
      if !ok {
        return;
      }
      if sizing {
        bytesWritten := bytesWritten + size;
      } else {
        ok := EncodeWithin(fields, m, size);
      }
    }

    /** On a stream of its own, limited to the size found before. */
    method EncodeWithin(fields: seq<Field>, m: seq<seq<Value>>, size: nat) returns (ok: bool)
      requires Valid() && Typed(fields, m) && SchemaOk(fields) && Fits(fields, m) && size == |M.Encode(fields, m)|
      requires !sizing
      modifies this, data
      ensures Valid() && Within()
      ensures ok <==> old(Room(size))
      ensures ok ==> Emitted(M.Encode(fields, m))
      decreases fields, 4, 1
    {
      if bytesWritten + size > maxSize {
        return false;
      }
      var substream := new OStream.FromBuffer(data, pos, size);
      ok := substream.Encode(fields, m);
      bytesWritten := bytesWritten + substream.bytesWritten;
      pos := substream.pos;
      // The size cannot have changed between the two passes.
      assert substream.bytesWritten == size && ok;
    }

    // ----- Fields

    /** Adds up the elements on a sizing stream of its own. */
    static method PackedSize(k: Kind, vs: seq<Value>) returns (size: nat)
      requires Packable(k) && AllFit(k, vs)
      ensures size == |EncodePacked(k, vs)|
      decreases k, 0, 2
    {
      if k.Fixed32? {
        FixedPacked(k, vs, 4);
        return 4 * |vs|;
      } else if k.Fixed64? {
        FixedPacked(k, vs, 8);
        return 8 * |vs|;
      }
      var sizestream := new OStream.Sizing();
      var ok := sizestream.EncodePackedItems(k, vs);
      return sizestream.bytesWritten;
    }

    method EncodePackedItems(k: Kind, vs: seq<Value>) returns (ok: bool)
      requires Valid() && Packable(k) && AllFit(k, vs)
      modifies this, data
      ensures Valid() && Within()
      ensures ok <==> old(Room(|EncodePacked(k, vs)|))
      ensures ok ==> Emitted(EncodePacked(k, vs))
      decreases k, 0, 1
    {
      PackableTyped(k, vs);
      hide PackedThen, M.EncodeValue, FitsValue, TypedValue, KindOk, Packable;
      ghost var done: Bytes := [];
      PackedStart(k, vs);
      for i := 0 to |vs|
        invariant Valid() && Within() && Emitted(done)
        invariant PackedThen(done, k, vs, i)
      {
        PackedNext(k, vs, i, done);
        ok := EncodeValue(k, vs[i]);
        if !ok {
          return;
        }
        Glue(old(data[..pos]), done, M.EncodeValue(k, vs[i]));
        done := done + M.EncodeValue(k, vs[i]);
      }
      PackedEnd(k, vs, done);
      return true;
    }

    method EncodeItem(f: Field, v: Value) returns (ok: bool)
      requires Valid() && TypedValue(f.kind, v) && FieldOk(f)
      modifies this, data
      ensures Valid() && Within()
      ensures ok <==> FitsValue(f.kind, v) && old(Room(|M.EncodeItem(f, v)|))
      ensures ok ==> Emitted(M.EncodeItem(f, v))
      decreases f, 1, 0
    {
      ok := EncodeTag(WireType(f.kind), f.tag);
      if ok {
        ok := EncodeValue(f.kind, v);
      }
      if FitsValue(f.kind, v) {
        Glue(old(data[..pos]), M.EncodeTag(WireType(f.kind), f.tag), M.EncodeValue(f.kind, v));
      }
    }

    method EncodeItems(f: Field, vs: seq<Value>) returns (ok: bool)
      requires Valid() && AllTyped(f.kind, vs) && FieldOk(f)
      modifies this, data
      ensures Valid() && Within()
      ensures ok <==> AllFit(f.kind, vs) && old(Room(|M.EncodeItems(f, vs)|))
      ensures ok ==> Emitted(M.EncodeItems(f, vs))
      decreases f, 2, 0
    {
      hide M.EncodeItem, FitsValue, TypedValue;
      ghost var done: Bytes := [];
      for i := 0 to |vs|
        invariant Valid() && Within() && Emitted(done)
        invariant forall j :: 0 <= j < i ==> FitsValue(f.kind, vs[j])
        invariant AllFit(f.kind, vs) ==> M.EncodeItems(f, vs) == done + M.EncodeItems(f, vs[i..])
      {
        ok := EncodeItem(f, vs[i]);
        if AllFit(f.kind, vs) {
          assert vs[i..] == [vs[i]] + vs[i + 1..];
          Glue(done, M.EncodeItem(f, vs[i]), M.EncodeItems(f, vs[i + 1..]));
        }
        if !ok {
          return;
        }
        Glue(old(data[..pos]), done, M.EncodeItem(f, vs[i]));
        done := done + M.EncodeItem(f, vs[i]);
      }
      assert done == M.EncodeItems(f, vs);
      return true;
    }

    method EncodePackedArray(f: Field, vs: seq<Value>) returns (ok: bool)
      requires Valid() && Packable(f.kind) && AllFit(f.kind, vs) && FieldOk(f)
      modifies this, data
      ensures Valid() && Within()
      ensures ok <==> old(Room(|M.EncodeTag(WIRE_STRING, f.tag) + LengthPrefixed(EncodePacked(f.kind, vs))|))
      ensures ok ==> Emitted(M.EncodeTag(WIRE_STRING, f.tag) + LengthPrefixed(EncodePacked(f.kind, vs)))
      decreases f, 2, 0
    {
      ok := EncodeTag(WIRE_STRING, f.tag);
      if !ok {
        return;
      }
      ok := EncodePackedBody(f.kind, vs);
      Glue(old(data[..pos]), M.EncodeTag(WIRE_STRING, f.tag), LengthPrefixed(EncodePacked(f.kind, vs)));
    }

    method EncodePackedBody(k: Kind, vs: seq<Value>) returns (ok: bool)
      requires Valid() && Packable(k) && AllFit(k, vs)
      modifies this, data
      ensures Valid() && Within()
      ensures ok <==> old(Room(|LengthPrefixed(EncodePacked(k, vs))|))
      ensures ok ==> Emitted(LengthPrefixed(EncodePacked(k, vs)))
      decreases k, 0, 3
    {
      hide FitsValue;
      var size := PackedSize(k, vs);
      ok := EncodeVarint(size);
      if !ok {
        return;
      }
      if sizing {
        bytesWritten := bytesWritten + size;
      } else {
        ok := EncodePackedItems(k, vs);
      }
    }

    method EncodeArray(f: Field, vs: seq<Value>) returns (ok: bool)
      requires Valid() && f.rule.Repeated? && TypedSlot(f, vs) && FieldOk(f)
      modifies this, data
      ensures Valid() && Within()
      ensures ok <==> FitsSlot(f, vs) && old(Room(|EncodeSlot(f, vs)|))
      ensures ok ==> Emitted(EncodeSlot(f, vs))
      decreases f, 3, 0
    {
      if |vs| == 0 {
        return true;
      }
      if |vs| > f.rule.max {
        return false;
      }
      if Packable(f.kind) {
        ok := EncodePackedArray(f, vs);
      } else {
        ok := EncodeItems(f, vs);
      }
    }

    method EncodeField(f: Field, slot: seq<Value>) returns (ok: bool)
      requires Valid() && TypedSlot(f, slot) && FieldOk(f)
      modifies this, data
      ensures Valid() && Within()
      ensures ok <==> FitsSlot(f, slot) && old(Room(|EncodeSlot(f, slot)|))
      ensures ok ==> Emitted(EncodeSlot(f, slot))
      decreases f, 4, 0
    {
      if f.rule.Repeated? {
        ok := EncodeArray(f, slot);
      } else if slot == [] {
        return true;
      } else {
        assert slot == [slot[0]] && slot[1..] == [];
        ok := EncodeItem(f, slot[0]);
        if FitsSlot(f, slot) {
          OneItem(f, slot);
        }
      }
    }

    // ----- Messages

    method Encode(fields: seq<Field>, m: seq<seq<Value>>) returns (ok: bool)
      requires Valid() && Typed(fields, m) && SchemaOk(fields)
      modifies this, data
      ensures Valid() && Within()
      ensures ok <==> Fits(fields, m) && old(Room(|M.Encode(fields, m)|))
      ensures ok ==> Emitted(M.Encode(fields, m))
      decreases fields, 4, 0
    {
      var iter := new FieldIter(fields);
      if fields == [] {
        return true;
      }
      ok := EncodeAll(iter, m);
    }

    method EncodeAll(iter: FieldIter, m: seq<seq<Value>>) returns (ok: bool)
      requires Valid() && iter.Valid() && iter.pos == 0 && iter.fields != []
      requires Typed(iter.fields, m) && SchemaOk(iter.fields)
      modifies this, data, iter
      ensures Valid() && Within()
      ensures ok <==> Fits(iter.fields, m) && old(Room(|M.Encode(iter.fields, m)|))
      ensures ok ==> Emitted(M.Encode(iter.fields, m))
      decreases iter.fields, 3, 0
    {
      hide Fits, AndThen, FitsSlot, TypedSlot, EncodeSlot, FieldOk, DistinctTags, EncodeFrom;
      ghost var fields, i, done: Bytes := iter.fields, 0, [];
      var more := true;
      NoneEncoded(fields, m);
      while more
        invariant Valid() && Within() && Emitted(done)
        invariant iter.Valid() && i <= |fields|
        invariant if more then i < |fields| && iter.pos == i else i == |fields|
        invariant FitsUpTo(fields, m, i)
        invariant Fits(fields, m) ==> AndThen(done, fields, m, i)
        decreases |fields| - i
      {
        assert FieldOk(fields[i]) && TypedSlot(fields[i], m[i]);
        if Fits(fields, m) {
          NextEncoded(fields, m, i, done);
        }
        ok := EncodeField(iter.fields[iter.pos], m[iter.pos]);
        if !ok {
          return;
        }
        Glue(old(data[..pos]), done, EncodeSlot(fields[i], m[i]));
        done := done + EncodeSlot(fields[i], m[i]);
        more := iter.Next();
        i := i + 1;
      }
      AllEncoded(fields, m, done);
      return true;
    }
  }

  predicate PackedThen(done: Bytes, k: Kind, vs: seq<Value>, i: nat)
    requires AllFit(k, vs) && i <= |vs|
  {
    EncodePacked(k, vs) == done + EncodePacked(k, vs[i..])
  }

  lemma PackedStart(k: Kind, vs: seq<Value>)
    requires AllFit(k, vs)
    ensures PackedThen([], k, vs, 0)
  {
    assert vs[0..] == vs;
  }

  lemma PackedEnd(k: Kind, vs: seq<Value>, done: Bytes)
    requires AllFit(k, vs) && PackedThen(done, k, vs, |vs|)
    ensures done == EncodePacked(k, vs)
  {
  }

  lemma PackedNext(k: Kind, vs: seq<Value>, i: nat, done: Bytes)
    requires AllFit(k, vs) && i < |vs| && PackedThen(done, k, vs, i)
    ensures PackedThen(done + M.EncodeValue(k, vs[i]), k, vs, i + 1)
    ensures |EncodePacked(k, vs)| >= |done| + |M.EncodeValue(k, vs[i])|
  {
    assert vs[i..] == [vs[i]] + vs[i + 1..];
    Glue(done, M.EncodeValue(k, vs[i]), EncodePacked(k, vs[i + 1..]));
  }

  lemma PackableTyped(k: Kind, vs: seq<Value>)
    requires Packable(k) && AllFit(k, vs)
    ensures AllTyped(k, vs) && KindOk(k)
  {
  }

  lemma OneItem(f: Field, slot: seq<Value>)
    requires |slot| == 1 && FitsSlot(f, slot) && !f.rule.Repeated?
    ensures EncodeSlot(f, slot) == M.EncodeItem(f, slot[0])
  {
    assert M.EncodeItems(f, slot[1..]) == [];
  }

  /** What has been written, and what comes from the i-th field on, make up the message. */
  predicate AndThen(done: Bytes, fields: seq<Field>, m: seq<seq<Value>>, i: nat)
    requires Fits(fields, m) && i <= |fields|
  {
    M.Encode(fields, m) == done + EncodeFrom(fields, m, i)
  }

  lemma NoneEncoded(fields: seq<Field>, m: seq<seq<Value>>)
    ensures Fits(fields, m) ==> AndThen([], fields, m, 0)
  {
  }

  lemma NextEncoded(fields: seq<Field>, m: seq<seq<Value>>, i: nat, done: Bytes)
    requires Fits(fields, m) && i < |fields| && AndThen(done, fields, m, i)
    ensures FitsSlot(fields[i], m[i]) && AndThen(done + EncodeSlot(fields[i], m[i]), fields, m, i + 1)
    ensures |M.Encode(fields, m)| >= |done| + |EncodeSlot(fields[i], m[i])|
  {
    Glue(done, EncodeSlot(fields[i], m[i]), EncodeFrom(fields, m, i + 1));
  }

  lemma AllEncoded(fields: seq<Field>, m: seq<seq<Value>>, done: Bytes)
    requires |m| == |fields| && FitsUpTo(fields, m, |fields|)
    ensures Fits(fields, m) && (AndThen(done, fields, m, |fields|) ==> done == M.Encode(fields, m))
  {
  }

  predicate FitsUpTo(fields: seq<Field>, m: seq<seq<Value>>, n: nat)
    requires |m| == |fields|
  {
    forall i :: 0 <= i < n && i < |fields| ==> FitsSlot(fields[i], m[i])
  }

  lemma {:induction false} FixedPacked(k: Kind, vs: seq<Value>, n: nat)
    requires AllFit(k, vs) && n == if k.Fixed32? then 4 else 8
    requires k.Fixed32? || k.Fixed64?
    ensures |EncodePacked(k, vs)| == n * |vs|
  {
    if vs != [] {
      FixedPacked(k, vs[1..], n);
    }
  }

  lemma FourBytes(v: nat)
    ensures EncodeFixed(v, 4) == [v % 256, v / 0x100 % 256, v / 0x1_0000 % 256, v / 0x100_0000 % 256]
  {
    var v1 := v / 256;
    var v2 := v1 / 256;
    var v3 := v2 / 256;
    assert v2 == v / 0x1_0000 && v3 == v / 0x100_0000;
    assert EncodeFixed(v3, 1) == [v3 % 256] + EncodeFixed(v3 / 256, 0);
    assert EncodeFixed(v2, 2) == [v2 % 256] + EncodeFixed(v3, 1);
    assert EncodeFixed(v1, 3) == [v1 % 256] + EncodeFixed(v2, 2);
  }

  lemma {:induction false} FixedApart(v: nat, n: nat)
    requires n >= 4
    ensures EncodeFixed(v, n) == EncodeFixed(v, 4) + EncodeFixed(v / 0x1_0000_0000, n - 4)
  {
    var v1 := v / 256;
    var v2 := v1 / 256;
    var v3 := v2 / 256;
    var v4 := v3 / 256;
    FourBytes(v);
    assert v2 == v / 0x1_0000 && v3 == v / 0x100_0000 && v4 == v / 0x1_0000_0000;
    assert EncodeFixed(v3, n - 3) == [v3 % 256] + EncodeFixed(v4, n - 4);
    assert EncodeFixed(v2, n - 2) == [v2 % 256] + EncodeFixed(v3, n - 3);
    assert EncodeFixed(v1, n - 1) == [v1 % 256] + EncodeFixed(v2, n - 2);
  }

  lemma EightBytes(v: nat)
    ensures var high := v / 0x1_0000_0000;
            EncodeFixed(v, 8) == [v % 256, v / 0x100 % 256, v / 0x1_0000 % 256, v / 0x100_0000 % 256,
                                  high % 256, high / 0x100 % 256, high / 0x1_0000 % 256, high / 0x100_0000 % 256]
  {
    FixedApart(v, 8);
    FourBytes(v);
    FourBytes(v / 0x1_0000_0000);
  }

  /** pb_get_encoded_size. */
  method GetEncodedSize(fields: seq<Field>, m: seq<seq<Value>>) returns (ok: bool, size: nat)
    requires Typed(fields, m) && SchemaOk(fields)
    ensures ok <==> Fits(fields, m)
    ensures ok ==> size == |M.Encode(fields, m)|
  {
    var stream := new OStream.Sizing();
    ok := stream.Encode(fields, m);
    size := stream.bytesWritten;
  }

  /** A buffer of a given room holds exactly the message's encoding, if the message fits it. */
  method EncodeIntoNew(fields: seq<Field>, m: seq<seq<Value>>, room: nat)
    returns (ok: bool, size: nat, buffer: array<Byte>)
    requires Typed(fields, m) && SchemaOk(fields)
    ensures buffer.Length == room
    ensures ok <==> Fits(fields, m) && |M.Encode(fields, m)| <= room
    ensures ok ==> size == |M.Encode(fields, m)| && buffer[..size] == M.Encode(fields, m)
  {
    buffer := new Byte[room];
    var stream := new OStream.FromBuffer(buffer, 0, room);
    label Before:
    ok := stream.Encode(fields, m);
    size := stream.bytesWritten;
    assert old@Before(buffer[..0]) == [];
  }
}
