/**
 Whatever bytes arrive, what the decoder accepts fits the structure: no array above its size, no string
 or byte field above its room, every string terminated, every number within its width.
 */
module MessageSafety {
  import opened Basics
  import opened Coding
  import opened Messages
  import opened MessageDecoding
  import opened MessageRoundTrips

  predicate SafeValue(k: Kind, v: Value) {
    FitsValue(k, v) && TerminatedValue(k, v)
  }

  predicate SafeSlot(f: Field, slot: seq<Value>) {
    FitsSlot(f, slot) && TerminatedSlot(f, slot)
  }

  predicate Safe(fields: seq<Field>, m: seq<seq<Value>>) {
    Fits(fields, m) && Terminated(fields, m)
  }

  lemma SafeSlots(fields: seq<Field>, m: seq<seq<Value>>)
    requires |m| == |fields|
    ensures Safe(fields, m) <==> forall i :: 0 <= i < |fields| ==> SafeSlot(fields[i], m[i])
  {
    hide FitsSlot, TerminatedSlot;
    if Safe(fields, m) {
      forall i | 0 <= i < |fields| ensures SafeSlot(fields[i], m[i]) {
        assert FitsSlot(fields[i], m[i]) && TerminatedSlot(fields[i], m[i]);
      }
    }
    if forall i :: 0 <= i < |fields| ==> SafeSlot(fields[i], m[i]) {
      forall i | 0 <= i < |fields| ensures FitsSlot(fields[i], m[i]) && TerminatedSlot(fields[i], m[i]) {
        assert SafeSlot(fields[i], m[i]);
      }
    }
  }

  lemma OneValueSafe(f: Field, v: Value)
    requires SafeValue(f.kind, v) && !f.rule.Repeated?
    ensures SafeSlot(f, [v])
  {
    hide FitsValue, TerminatedValue;
  }

  lemma SlotGrows(f: Field, slot: seq<Value>, v: Value)
    requires f.rule.Repeated? && SafeSlot(f, slot) && SafeValue(f.kind, v) && |slot| < f.rule.max
    ensures SafeSlot(f, slot + [v])
  {
    hide FitsValue, TerminatedValue;
  }

  // ----- Defaults

  lemma {:induction false} DefaultValueSafe(k: Kind)
    requires KindOk(k)
    ensures SafeValue(k, DefaultValue(k))
    decreases k
  {
    if k.Submessage? {
      DefaultsSafe(k.fields);
    }
  }

  lemma {:induction false} DefaultsSafe(fields: seq<Field>)
    requires SchemaOk(fields)
    ensures Safe(fields, Defaults(fields))
    decreases fields
  {
    hide SafeSlot, DefaultSlot;
    forall i | 0 <= i < |fields| ensures SafeSlot(fields[i], DefaultSlot(fields[i])) {
      assert FieldOk(fields[i]);
      DefaultSlotSafe(fields[i]);
    }
    SafeSlots(fields, Defaults(fields));
  }

  lemma {:induction false} DefaultSlotSafe(f: Field)
    requires FieldOk(f)
    ensures SafeSlot(f, DefaultSlot(f))
    decreases f
  {
    DefaultValueSafe(f.kind);
  }

  // ----- Single values

  lemma {:induction false} NoZeroBefore(s: Bytes)
    ensures 0 !in UpToZero(s) && |UpToZero(s)| <= |s|
  {
    if s != [] {
      NoZeroBefore(s[1..]);
    }
  }

  lemma FixedInRange(b: Bytes, n: nat)
    requires |b| == n
    ensures DecodeFixed(b) < Pow256(n)
  {
    if n > 0 {
      FixedInRange(b[1..], n - 1);
    }
  }

  lemma NumberSafe(k: Kind, b: Bytes)
    requires Packable(k) && DecodeNumber(k, b).Parsed?
    ensures SafeValue(k, DecodeNumber(k, b).value)
  {
    Pow256Values();
    if k.Fixed32? {
      FixedInRange(b[..4], 4);
    } else if k.Fixed64? {
      FixedInRange(b[..8], 8);
    }
  }

  lemma BlobSafe(k: Kind, b: Bytes)
    requires (k.BytesIn? || k.StringIn? || k.FixedBytes?) && DecodeBlob(k, b).Parsed?
    ensures SafeValue(k, DecodeBlob(k, b).value)
  {
    var size := DecodeVarint32(b);
    if k.StringIn? {
      NoZeroBefore(size.rest[..size.value]);
    }
  }

  lemma {:induction false} ValueSafe(k: Kind, current: Value, b: Bytes)
    requires KindOk(k) && SafeValue(k, current) && DecodeValue(k, current, b).Parsed?
    ensures SafeValue(k, DecodeValue(k, current, b).value)
    decreases |b|, 0
  {
    if Packable(k) {
      NumberSafe(k, b);
    } else if !k.Submessage? {
      BlobSafe(k, b);
    } else {
      FieldsSafe(k.fields, current.slots, {}, Substream(b).value);
    }
  }

  // ----- Fields and messages

  lemma {:induction false} PackedSafe(f: Field, slot: seq<Value>, b: Bytes)
    requires f.rule.Repeated? && Packable(f.kind) && KindOk(f.kind) && SafeSlot(f, slot)
    requires DecodePacked(f.kind, slot, f.rule.max, b).Some?
    ensures SafeSlot(f, DecodePacked(f.kind, slot, f.rule.max, b).value)
    decreases |b|
  {
    hide SafeSlot, Packable;
    if b != [] {
      var v := DecodeValue(f.kind, DefaultValue(f.kind), b);
      NumberSafe(f.kind, b);
      SlotGrows(f, slot, v.value);
      PackedSafe(f, slot + [v.value], v.rest);
    }
  }

  lemma {:induction false} SlotSafe(f: Field, wire: nat, slot: seq<Value>, b: Bytes)
    requires FieldOk(f) && SafeSlot(f, slot) && DecodeSlot(f, wire, slot, b).Parsed?
    ensures SafeSlot(f, DecodeSlot(f, wire, slot, b).value)
    decreases |b|, 2
  {
    DefaultValueSafe(f.kind);
    if !f.rule.Repeated? {
      var current := if slot == [] then DefaultValue(f.kind) else slot[0];
      ValueSafe(f.kind, current, b);
      OneValueSafe(f, DecodeValue(f.kind, current, b).value);
    } else if wire == WIRE_STRING && Packable(f.kind) {
      PackedSafe(f, slot, Substream(b).value);
    } else {
      ValueSafe(f.kind, DefaultValue(f.kind), b);
      SlotGrows(f, slot, DecodeValue(f.kind, DefaultValue(f.kind), b).value);
    }
  }

  lemma {:induction false} FieldsSafe(fields: seq<Field>, m: seq<seq<Value>>, seen: set<nat>, b: Bytes)
    requires SchemaOk(fields) && Safe(fields, m) && DecodeFields(fields, m, seen, b).Some?
    ensures Safe(fields, DecodeFields(fields, m, seen, b).value)
    decreases |b|, 3
  {
    var tag := DecodeTag(b);
    if tag.Tag? {
      var index := IndexOf(fields, tag.tag);
      if index.None? {
        FieldsSafe(fields, m, seen, SkipField(tag.wire, tag.rest).value);
      } else {
        var i := index.value;
        SafeSlots(fields, m);
        assert FieldOk(fields[i]);
        SlotSafe(fields[i], tag.wire, m[i], tag.rest);
        var slot := DecodeSlot(fields[i], tag.wire, m[i], tag.rest);
        SafeSlots(fields, m[i := slot.value]);
        FieldsSafe(fields, m[i := slot.value], Seen(fields, i, seen), slot.rest);
      }
    }
  }

  lemma AcceptedFits(fields: seq<Field>, b: Bytes)
    requires SchemaOk(fields) && Decode(fields, b).Some?
    ensures Fits(fields, Decode(fields, b).value) && Terminated(fields, Decode(fields, b).value)
  {
    DefaultsSafe(fields);
    FieldsSafe(fields, Defaults(fields), {}, b);
  }

  /** Encoding an accepted message anew, whatever bytes it came from, and decoding that changes nothing. */
  lemma ReencodingIsFaithful(fields: seq<Field>, b: Bytes)
    requires SchemaOk(fields) && Decode(fields, b).Some?
    ensures var m := Decode(fields, b).value;
            Fits(fields, m) && (|Encode(fields, m)| <= MAX_UINT32 ==> Decode(fields, Encode(fields, m)) == Some(m))
  {
    AcceptedFits(fields, b);
    var m := Decode(fields, b).value;
    if |Encode(fields, m)| <= MAX_UINT32 {
      RoundTrip(fields, m);
    }
  }
}
