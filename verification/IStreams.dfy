/**
 pb_istream_t and the decoder: every operation takes from the stream exactly what the functions of
 MessageDecoding take from what is left in it, and fails exactly when they do.
 */
module IStreams {
  import opened Basics
  import opened Coding
  import opened Messages
  import opened FieldIters
  import opened MessageRoundTrips
  import opened OStreams
  import C = Coding
  import D = MessageDecoding

  function Left<T>(p: Parsed<T>): Option<Bytes> {
    if p.Parsed? then Some(p.rest) else None
  }

  class IStream {
    const source: Bytes
    var pos: nat
    var bytesLeft: nat

    ghost predicate Valid()
      reads this
    {
      pos + bytesLeft <= |source|
    }

    ghost function Rest(): (r: Bytes)
      reads this
      requires Valid()
      ensures |r| == bytesLeft
    {
      source[pos..pos + bytesLeft]
    }

    /** The stream has the same end, and nothing is unread. */
    twostate predicate Within()
      requires old(Valid()) && Valid()
      reads this
    {
      pos + bytesLeft == old(pos) + old(bytesLeft) && bytesLeft <= old(bytesLeft)
    }

    twostate predicate NoFurther()
      requires old(Valid()) && Valid()
      reads this
    {
      pos + bytesLeft <= old(pos) + old(bytesLeft)
    }

    /**
     The stream stands where a function that left these bytes would leave it. After a failure inside a
     substream its end may have moved up, since the substream's length has been taken off already.
     */
    twostate predicate Took(ok: bool, new left: Option<Bytes>)
      requires old(Valid()) && Valid()
      reads this
    {
      && (ok <==> left.Some?)
      && (ok ==> Rest() == left.value && Within())
      && NoFurther()
    }

    constructor FromBuffer(source: Bytes)
      ensures Valid() && Rest() == source
    {
      this.source, pos, bytesLeft := source, 0, |source|;
    }

    constructor Part(source: Bytes, pos: nat, bytesLeft: nat)
      requires pos + bytesLeft <= |source|
      ensures Valid() && this.source == source && this.pos == pos && this.bytesLeft == bytesLeft
    {
      this.source, this.pos, this.bytesLeft := source, pos, bytesLeft;
    }

    // ----- Bytes

    method Read(count: nat) returns (ok: bool, b: Bytes)
      requires Valid()
      modifies this
      ensures Valid() && Within()
      ensures ok <==> count <= |old(Rest())|
      ensures ok ==> b == old(Rest())[..count] && Rest() == old(Rest())[count..]
    {
      if bytesLeft < count {
        return false, [];
      }
      b := source[pos..pos + count];
      pos, bytesLeft := pos + count, bytesLeft - count;
      return true, b;
    }

    method ReadByte() returns (ok: bool, b: Byte)
      requires Valid()
      modifies this
      ensures Valid() && Within()
      ensures ok <==> old(Rest()) != []
      ensures ok ==> b == old(Rest())[0] && Rest() == old(Rest())[1..]
      ensures !ok ==> Rest() == []
    {
      if bytesLeft == 0 {
        return false, 0;
      }
      b := source[pos];
      pos, bytesLeft := pos + 1, bytesLeft - 1;
      return true, b;
    }

    // ----- Varints

    method DecodeVarint32() returns (ok: bool, dest: nat)
      requires Valid()
      modifies this
      ensures Valid() && Took(ok, Left(D.DecodeVarint32(old(Rest()))))
      ensures ok ==> dest == D.DecodeVarint32(old(Rest())).value
    {
      hide D.ShiftIn;
      var b: Byte;
      ok, b := ReadByte();
      if !ok {
        return false, 0;
      }
      if b < 128 {
        return true, b;
      }
      var result: nat, bitpos := b - 128, 7;
      ghost var goal := D.MoreVarint32(Rest(), result, 7);
      while true
        invariant Valid() && Within() && result <= MAX_UINT32 && bitpos >= 0
        invariant D.MoreVarint32(Rest(), result, bitpos) == goal
        decreases bytesLeft
      {
        ok, b := ReadByte();
        if !ok {
          return false, 0;
        }
        var low := b % 128;
        if bitpos >= 32 {
          if low != 0 && (result < 0x8000_0000 || b != if bitpos < 63 then 0xFF else 0x01) {
            return false, 0;
          }
        } else {
          result := D.ShiftIn(result, low, bitpos);
        }
        bitpos := (bitpos + 7) % 256;
        if b < 128 {
          if bitpos == 35 && low >= 16 {
            return false, 0;
          }
          return true, result;
        }
      }
    }

    method DecodeVarint() returns (ok: bool, dest: nat)
      requires Valid()
      modifies this
      ensures Valid() && Took(ok, Left(GetVarint64(old(Rest()))))
      ensures ok ==> dest == GetVarint64(old(Rest())).value
    {
      PlusNothing(C.DecodeVarint(Rest(), 10));
      hide C.DecodeVarint, Plus, OrIn;
      // The place of the next seven bits is kept as a power of two.
      var count: nat, result: nat, place: nat := 0, 0, 1;
      while true
        invariant Valid() && Within() && count <= 10
        invariant Plus(C.DecodeVarint(Rest(), 10 - count), result, place) == C.DecodeVarint(old(Rest()), 10)
        decreases bytesLeft
      {
        if count >= 10 {
          PlusEnd(Rest(), 0, result, place);
          return false, 0;
        }
        ghost var before := Rest();
        var b;
        ok, b := ReadByte();
        if !ok {
          PlusEnd(before, 10 - count, result, place);
          return false, 0;
        }
        PlusByte(before, 10 - count, result, place);
        result, place, count := OrIn(result, b, place), 128 * place, count + 1;
        if b < 128 {
          return true, result % (MAX_UINT64 + 1);
        }
      }
    }

    // ----- Skipping

    method SkipVarint() returns (ok: bool)
      requires Valid()
      modifies this
      ensures Valid() && Took(ok, D.SkipVarint(old(Rest())))
    {
      while true
        invariant Valid() && Within()
        invariant D.SkipVarint(Rest()) == D.SkipVarint(old(Rest()))
        decreases bytesLeft
      {
        var b;
        ok, b := ReadByte();
        if !ok || b < 128 {
          return;
        }
      }
    }

    method SkipString() returns (ok: bool)
      requires Valid()
      modifies this
      ensures Valid() && Took(ok, D.SkipField(WIRE_STRING, old(Rest())))
    {
      var length, skipped;
      ok, length := DecodeVarint32();
      if ok {
        ok, skipped := Read(length);
      }
    }

    method SkipField(wire: nat) returns (ok: bool)
      requires Valid()
      modifies this
      ensures Valid() && Took(ok, D.SkipField(wire, old(Rest())))
    {
      var skipped;
      if wire == WIRE_VARINT {
        ok := SkipVarint();
      } else if wire == WIRE_64BIT {
        ok, skipped := Read(8);
      } else if wire == WIRE_STRING {
        ok := SkipString();
      } else if wire == WIRE_32BIT {
        ok, skipped := Read(4);
      } else {
        return false;
      }
    }

    /** In a message with bytes left, only a zero tag ends it. */
    method DecodeTag() returns (ok: bool, wire: nat, tag: nat, eof: bool)
      requires Valid()
      modifies this
      ensures Valid() && NoFurther()
      ensures ok || eof ==> Within()
      ensures match D.DecodeTag(old(Rest()))
              case BadTag => !ok && !eof
              case EndTag(_) => !ok && eof
              case Tag(t, w, rest) => ok && tag == t && wire == w && Rest() == rest
    {
      eof, wire, tag := false, 0, 0;
      if bytesLeft == 0 {
        return false, 0, 0, true;
      }
      var temp;
      ok, temp := DecodeVarint32();
      if !ok {
        return;
      }
      if temp == 0 {
        return false, 0, 0, true;
      }
      tag, wire := temp / 8, temp % 8;
    }

    // ----- Substreams

    method MakeStringSubstream() returns (ok: bool, substream: IStream?)
      requires Valid()
      modifies this
      ensures Valid() && (ok <==> D.Substream(old(Rest())).Parsed?)
      ensures ok ==> substream != null && fresh(substream) && substream.Valid() && substream.source == source
      ensures ok ==> substream.Rest() == D.Substream(old(Rest())).value && pos == substream.pos
      ensures ok ==> substream.pos + substream.bytesLeft + bytesLeft == old(pos) + old(bytesLeft)
      ensures ok ==> bytesLeft < old(bytesLeft)
      ensures ok ==> |D.Substream(old(Rest())).rest| == bytesLeft
      ensures ok ==> var end := substream.pos + substream.bytesLeft;
                     source[end..end + bytesLeft] == D.Substream(old(Rest())).rest
      ensures !ok ==> NoFurther()
    {
      var size;
      ok, size := DecodeVarint32();
      if !ok {
        return false, null;
      }
      if bytesLeft < size {
        return false, null;
      }
      substream := new IStream.Part(source, pos, size);
      bytesLeft := bytesLeft - size;
    }

    /** Passes over what the substream has not read. */
    method CloseStringSubstream(substream: IStream)
      requires substream != this && substream.Valid() && substream.source == source
      requires substream.pos + substream.bytesLeft + bytesLeft <= |source|
      modifies this, substream
      ensures Valid() && bytesLeft == old(bytesLeft) && pos == old(substream.pos) + old(substream.bytesLeft)
    {
      if substream.bytesLeft != 0 {
        var ok, skipped := substream.Read(substream.bytesLeft);
      }
      pos := substream.pos;
    }

    // ----- Values

    method DecodeFixed(n: nat) returns (ok: bool, dest: nat)
      requires Valid()
      modifies this
      ensures Valid() && Within() && (ok <==> |old(Rest())| >= n)
      ensures ok ==> dest == C.DecodeFixed(old(Rest())[..n]) && Rest() == old(Rest())[n..]
    {
      var b;
      ok, b := Read(n);
      dest := 0;
      if ok {
        dest := C.DecodeFixed(b);
      }
    }

    method DecodeSvarint() returns (ok: bool, dest: int)
      requires Valid()
      modifies this
      ensures Valid() && Took(ok, Left(GetVarint64(old(Rest()))))
      ensures ok ==> dest == UnZigZag(GetVarint64(old(Rest())).value)
    {
      var v;
      ok, v := DecodeVarint();
      dest := 0;
      if ok {
        dest := UnZigZag(v);
      }
    }

    method DecodeNumber(k: Kind) returns (ok: bool, dest: Value)
      requires Valid() && Packable(k)
      modifies this
      ensures Valid() && Took(ok, Left(D.DecodeNumber(k, old(Rest()))))
      ensures ok ==> dest == D.DecodeNumber(k, old(Rest())).value
    {
      var n: int;
      if k.Bool? {
        ok, n := DecodeVarint32();
        return ok, Truth(n != 0);
      } else if k.Fixed32? {
        ok, n := DecodeFixed(4);
        return ok, Number(n);
      } else if k.Fixed64? {
        ok, n := DecodeFixed(8);
        return ok, Number(n);
      } else if k.Uvarint? {
        ok, n := DecodeVarint();
        return ok && n < 2 * Bound(k.width), Number(n);
      } else if k.Svarint? {
        ok, n := DecodeSvarint();
        return ok && -Bound(k.width) <= n < Bound(k.width), Number(n);
      }
      var v;
      ok, v := DecodeVarint();
      n := D.Sent(k.width, v);
      return ok && -Bound(k.width) <= n < Bound(k.width), Number(n);
    }

    method DecodeBlob(k: Kind) returns (ok: bool, dest: Value)
      requires Valid() && (k.BytesIn? || k.StringIn? || k.FixedBytes?)
      modifies this
      ensures Valid() && Took(ok, Left(D.DecodeBlob(k, old(Rest()))))
      ensures ok ==> dest == D.DecodeBlob(k, old(Rest())).value
    {
      var size;
      dest := Blob([]);
      ok, size := DecodeVarint32();
      if !ok {
        return;
      }
      if k.FixedBytes? {
        if size == 0 {
          return true, D.DefaultValue(k);
        }
        if size != k.size {
          return false, dest;
        }
      } else if k.BytesIn? {
        if size > k.cap {
          return false, dest;
        }
      } else if size + 1 > k.cap {
        return false, dest;
      }
      var b;
      ok, b := Read(size);
      dest := Blob(if k.StringIn? then D.UpToZero(b) else b);
    }

    method DecodeValue(k: Kind, current: Value) returns (ok: bool, dest: Value)
      requires Valid() && KindOk(k)
      modifies this
      ensures Valid() && Took(ok, Left(D.DecodeValue(k, current, old(Rest()))))
      ensures ok ==> dest == D.DecodeValue(k, current, old(Rest())).value
      decreases bytesLeft, 1
    {
      if Packable(k) {
        ok, dest := DecodeNumber(k);
      } else if k.Submessage? {
        ok, dest := DecodeSubmessage(k, current);
      } else {
        ok, dest := DecodeBlob(k);
      }
    }

    method DecodeSubmessage(k: Kind, current: Value) returns (ok: bool, dest: Value)
      requires Valid() && k.Submessage? && KindOk(k)
      modifies this
      ensures Valid() && Took(ok, Left(D.DecodeValue(k, current, old(Rest()))))
      ensures ok ==> dest == D.DecodeValue(k, current, old(Rest())).value
      decreases bytesLeft, 0
    {
      var substream, m;
      dest := current;
      ok, substream := MakeStringSubstream();
      if !ok {
        return;
      }
      ok, m := substream.DecodeNoInit(k.fields, D.SlotsOf(k, current));
      CloseStringSubstream(substream);
      dest := Message(m);
    }

    // ----- Fields

    method DecodePacked(k: Kind, slot: seq<Value>, max: nat) returns (ok: bool, dest: seq<Value>)
      requires Valid() && Packable(k)
      modifies this
      ensures Valid() && NoFurther()
      ensures ok ==> Within()
      ensures ok <==> D.DecodePacked(k, slot, max, old(Rest())).Some?
      ensures ok ==> dest == D.DecodePacked(k, slot, max, old(Rest())).value
    {
      dest := slot;
      while bytesLeft > 0 && |dest| < max
        invariant Valid() && Within()
        invariant D.DecodePacked(k, dest, max, Rest()) == D.DecodePacked(k, slot, max, old(Rest()))
        decreases bytesLeft
      {
        var v;
        ok, v := DecodeNumber(k);
        if !ok {
          return;
        }
        dest := dest + [v];
      }
      return bytesLeft == 0, dest;
    }

    method DecodePackedField(f: Field, slot: seq<Value>) returns (ok: bool, dest: seq<Value>)
      requires Valid() && f.rule.Repeated? && Packable(f.kind)
      modifies this
      ensures Valid() && Took(ok, Left(D.DecodeSlot(f, WIRE_STRING, slot, old(Rest()))))
      ensures ok ==> dest == D.DecodeSlot(f, WIRE_STRING, slot, old(Rest())).value
    {
      var substream;
      dest := slot;
      ok, substream := MakeStringSubstream();
      if !ok {
        return;
      }
      ok, dest := substream.DecodePacked(f.kind, slot, f.rule.max);
      if !ok {
        return;
      }
      CloseStringSubstream(substream);
    }

    method DecodeStaticField(f: Field, wire: nat, slot: seq<Value>) returns (ok: bool, dest: seq<Value>)
      requires Valid() && FieldOk(f)
      modifies this
      ensures Valid() && Took(ok, Left(D.DecodeSlot(f, wire, slot, old(Rest()))))
      ensures ok ==> dest == D.DecodeSlot(f, wire, slot, old(Rest())).value
      decreases bytesLeft, 2
    {
      var v;
      dest := slot;
      if !f.rule.Repeated? {
        ok, v := DecodeValue(f.kind, if slot == [] then D.DefaultValue(f.kind) else slot[0]);
        dest := [v];
      } else if wire == WIRE_STRING && Packable(f.kind) {
        ok, dest := DecodePackedField(f, slot);
      } else {
        if |slot| >= f.rule.max {
          return false, slot;
        }
        ok, v := DecodeValue(f.kind, D.DefaultValue(f.kind));
        dest := slot + [v];
      }
    }

    // ----- Messages

    method DecodeNoInit(fields: seq<Field>, m: seq<seq<Value>>) returns (ok: bool, dest: seq<seq<Value>>)
      requires Valid() && SchemaOk(fields) && |m| == |fields|
      modifies this
      ensures Valid() && |dest| == |fields| && NoFurther()
      ensures ok ==> Within()
      ensures ok <==> D.DecodeFields(fields, m, {}, old(Rest())).Some?
      ensures ok ==> dest == D.DecodeFields(fields, m, {}, old(Rest())).value
      decreases bytesLeft, 3
    {
      hide D.DecodeSlot, D.SkipField, D.AllSeen, FieldOk;
      var iter := new FieldIter(fields);
      var seen: set<nat> := {};
      dest := m;
      while bytesLeft > 0
        invariant Valid() && Within() && iter.Valid() && iter.fields == fields && |dest| == |fields|
        invariant D.DecodeFields(fields, dest, seen, Rest()) == D.DecodeFields(fields, m, {}, old(Rest()))
        decreases bytesLeft
      {
        var wire, tag, eof, found, slot;
        ok, wire, tag, eof := DecodeTag();
        if !ok {
          if eof {
            break;
          }
          return;
        }
        found := iter.Find(tag);
        if !found {
          ok := SkipField(wire);
          if !ok {
            return;
          }
        } else {
          if fields[iter.pos].rule.Required? && iter.requiredIndex < D.MAX_REQUIRED {
            seen := seen + {iter.requiredIndex};
          }
          assert FieldOk(fields[iter.pos]);
          ok, slot := DecodeStaticField(fields[iter.pos], wire, dest[iter.pos]);
          if !ok {
            return;
          }
          dest := dest[iter.pos := slot];
        }
      }
      ok := AllRequired(iter, seen);
    }

    method Decode(fields: seq<Field>) returns (ok: bool, dest: seq<seq<Value>>)
      requires Valid() && SchemaOk(fields)
      modifies this
      ensures Valid()
      ensures ok <==> D.Decode(fields, old(Rest())).Some?
      ensures ok ==> dest == D.Decode(fields, old(Rest())).value
    {
      ok, dest := DecodeNoInit(fields, D.Defaults(fields));
    }
  }

  /** Goes on to the last field to learn how many are required, and looks for each of them. */
  method AllRequired(iter: FieldIter, seen: set<nat>) returns (ok: bool)
    requires iter.Valid()
    modifies iter
    ensures iter.Valid()
    ensures ok <==> D.AllSeen(iter.fields, seen)
  {
    if iter.fields == [] {
      return true;
    }
    var count, last, more := 0, 0, true;
    while more
      invariant iter.Valid()
      invariant !more ==> last + 1 == |iter.fields| && count == D.RequiredBefore(iter.fields, last)
      decreases if more then |iter.fields| - iter.pos else 0
    {
      count, last := iter.requiredIndex, iter.pos;
      more := iter.Next();
    }
    if iter.fields[last].rule.Required? {
      count := count + 1;
    }
    if count > D.MAX_REQUIRED {
      count := D.MAX_REQUIRED;
    }
    return forall n :: 0 <= n < count ==> n in seen;
  }

  /** The low seven bits of b, or-ed in at a place above every bit of result. */
  function OrIn(result: nat, b: Byte, place: nat): nat {
    result + b % 128 * place
  }

  /** A number whose lower bits are in result, and whose others are still to be read. */
  function Plus(p: Parsed<nat>, result: nat, place: nat): Parsed<nat> {
    match p
    case Failed => Failed
    case Parsed(v, rest) => Parsed(result + v * place, rest)
  }

  lemma PlusNothing(p: Parsed<nat>)
    ensures Plus(p, 0, 1) == p
  {
  }

  lemma PlusEnd(b: Bytes, max: nat, result: nat, place: nat)
    requires b == [] || max == 0
    ensures Plus(DecodeVarint(b, max), result, place).Failed?
  {
  }

  lemma PlusByte(b: Bytes, max: nat, result: nat, place: nat)
    requires b != [] && max > 0
    ensures Plus(DecodeVarint(b, max), result, place)
         == if b[0] < 128 then Parsed(OrIn(result, b[0], place), b[1..])
            else Plus(DecodeVarint(b[1..], max - 1), OrIn(result, b[0], place), 128 * place)
  {
    var r := DecodeVarint(b[1..], max - 1);
    if b[0] >= 128 && r.Parsed? {
      Distribute(b[0] - 128, r.value, place);
    }
  }

  lemma Distribute(low: nat, v: nat, p: nat)
    ensures (low + 128 * v) * p == low * p + v * (128 * p)
  {
  }

  /**
   A message encoded into a buffer of the size found by sizing, and decoded from it: what is received is
   what was sent, unless a size is exceeded or a string not terminated, and then an error is reported.
   */
  method SendAndReceive(fields: seq<Field>, m: seq<seq<Value>>) returns (ok: bool, received: seq<seq<Value>>)
    requires SchemaOk(fields) && Typed(fields, m)
    requires Fits(fields, m) ==> |Encode(fields, m)| <= MAX_UINT32
    ensures ok <==> Fits(fields, m) && Terminated(fields, m)
    ensures ok ==> received == m
  {
    received := [];
    var size, buffer;
    ok, size := GetEncodedSize(fields, m);
    if !ok {
      return;
    }
    ok, size, buffer := EncodeIntoNew(fields, m, size);
    RoundTrip(fields, m);
    var stream := new IStream.FromBuffer(buffer[..size]);
    ok, received := stream.Decode(fields);
  }
}
