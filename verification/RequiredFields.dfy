/**
 Required fields: a message is accepted only with a tag of each of them, and a table that asks for no field accepts
 exactly what lacks nothing else.
 */
module RequiredFields {
  import opened Basics
  import opened Coding
  import opened Messages
  import opened MessageDecoding
  import opened MessageRoundTrips

  // ----- The bytes of a field

  /** The wire type by which a field is read: its own, whatever was sent, unless an array comes packed. */
  function WireOf(f: Field, wire: nat): nat {
    if f.rule.Repeated? && wire == WIRE_STRING && Packable(f.kind) then WIRE_STRING else WireType(f.kind)
  }

  lemma {:induction false} MoreVarint32Takes(b: Bytes, result: nat, bitpos: nat)
    requires result <= MAX_UINT32 && MoreVarint32(b, result, bitpos).Parsed?
    ensures SkipVarint(b) == Some(MoreVarint32(b, result, bitpos).rest)
    decreases |b|
  {
    hide ShiftIn;
    if b[0] >= 128 {
      var next := if bitpos >= 32 then result else ShiftIn(result, b[0] % 128, bitpos);
      MoreVarint32Takes(b[1..], next, (bitpos + 7) % 256);
    }
  }

  lemma Varint32Takes(b: Bytes)
    requires DecodeVarint32(b).Parsed?
    ensures SkipVarint(b) == Some(DecodeVarint32(b).rest)
  {
    if b[0] >= 128 {
      MoreVarint32Takes(b[1..], b[0] - 128, 7);
    }
  }

  lemma {:induction false} VarintTakes(b: Bytes, max: nat)
    requires DecodeVarint(b, max).Parsed?
    ensures SkipVarint(b) == Some(DecodeVarint(b, max).rest)
  {
    if b[0] >= 128 {
      VarintTakes(b[1..], max - 1);
    }
  }

  lemma NumberTakes(k: Kind, b: Bytes)
    requires Packable(k) && DecodeNumber(k, b).Parsed?
    ensures SkipField(WireType(k), b) == Some(DecodeNumber(k, b).rest)
  {
    if k.Bool? {
      Varint32Takes(b);
    } else if !k.Fixed32? && !k.Fixed64? {
      VarintTakes(b, 10);
    }
  }

  lemma ValueTakes(k: Kind, current: Value, b: Bytes)
    requires DecodeValue(k, current, b).Parsed?
    ensures SkipField(WireType(k), b) == Some(DecodeValue(k, current, b).rest)
  {
    if Packable(k) {
      NumberTakes(k, b);
    }
  }

  /** A field that is read takes the bytes that skipping it would take. */
  lemma SlotTakes(f: Field, wire: nat, slot: seq<Value>, b: Bytes)
    requires DecodeSlot(f, wire, slot, b).Parsed?
    ensures SkipField(WireOf(f, wire), b) == Some(DecodeSlot(f, wire, slot, b).rest)
  {
    hide DecodeValue, DecodePacked;
    if !f.rule.Repeated? {
      ValueTakes(f.kind, if slot == [] then DefaultValue(f.kind) else slot[0], b);
    } else if !(wire == WIRE_STRING && Packable(f.kind)) {
      ValueTakes(f.kind, DefaultValue(f.kind), b);
    }
  }

  // ----- The tags of a message

  function WireRead(fields: seq<Field>, tag: nat, wire: nat): nat {
    var i := IndexOf(fields, tag);
    if i.None? then wire else WireOf(fields[i.value], wire)
  }

  /** The tags a message has at its top level, up to where it ends or cannot be read. */
  function TopTags(fields: seq<Field>, b: Bytes): set<nat>
    decreases |b|
  {
    match DecodeTag(b)
    case Tag(tag, wire, rest) =>
      var left := SkipField(WireRead(fields, tag, wire), rest);
      {tag} + if left.None? then {} else TopTags(fields, left.value)
    case _ => {}
  }

  /** A required field the decoder watches: one with fewer than 64 required ones before it. */
  predicate Watched(fields: seq<Field>, i: nat) {
    i < |fields| && fields[i].rule.Required? && RequiredBefore(fields, i) < MAX_REQUIRED
  }

  /** Every watched field has a tag in the message. */
  predicate HasWatched(fields: seq<Field>, tags: set<nat>) {
    forall i {:trigger fields[i]} :: 0 <= i < |fields| && Watched(fields, i) ==> fields[i].tag in tags
  }

  lemma {:induction false} RequiredGrows(fields: seq<Field>, i: nat, j: nat)
    requires i <= j <= |fields|
    ensures RequiredBefore(fields, i) <= RequiredBefore(fields, j)
    ensures i < j && fields[i].rule.Required? ==> RequiredBefore(fields, i) < RequiredBefore(fields, j)
  {
    if i < j {
      RequiredGrows(fields, i, j - 1);
    }
  }

  lemma WatchedOnce(fields: seq<Field>, i: nat, j: nat)
    requires Watched(fields, i) && Watched(fields, j) && RequiredBefore(fields, i) == RequiredBefore(fields, j)
    ensures i == j
  {
    if i < j {
      RequiredGrows(fields, i, j);
    } else {
      RequiredGrows(fields, j, i);
    }
  }

  lemma WatchedMustBeSeen(fields: seq<Field>, seen: set<nat>, i: nat)
    requires Watched(fields, i) && AllSeen(fields, seen)
    ensures RequiredBefore(fields, i) in seen
  {
    RequiredGrows(fields, i, |fields|);
  }

  lemma {:induction false} WatchedArrives(fields: seq<Field>, m: seq<seq<Value>>, seen: set<nat>, b: Bytes, i: nat)
    requires |m| == |fields| && Watched(fields, i) && DecodeFields(fields, m, seen, b).Some?
    ensures RequiredBefore(fields, i) in seen || fields[i].tag in TopTags(fields, b)
    decreases |b|
  {
    var tag := DecodeTag(b);
    if tag.EndTag? {
      WatchedMustBeSeen(fields, seen, i);
    } else if tag.Tag? {
      var index := IndexOf(fields, tag.tag);
      if index.None? {
        WatchedArrives(fields, m, seen, SkipField(tag.wire, tag.rest).value, i);
      } else {
        var j := index.value;
        var slot := DecodeSlot(fields[j], tag.wire, m[j], tag.rest);
        SlotTakes(fields[j], tag.wire, m[j], tag.rest);
        WatchedArrives(fields, m[j := slot.value], Seen(fields, j, seen), slot.rest, i);
        if RequiredBefore(fields, i) in Seen(fields, j, seen) && RequiredBefore(fields, i) !in seen {
          WatchedOnce(fields, i, j);
        }
      }
    }
  }

  /** Whatever the bytes, what is accepted has a tag of every required field, as far as the decoder watches them. */
  lemma RequiredFieldsArrive(fields: seq<Field>, b: Bytes)
    requires Decode(fields, b).Some?
    ensures HasWatched(fields, TopTags(fields, b))
  {
    forall i | 0 <= i < |fields| && Watched(fields, i) ensures fields[i].tag in TopTags(fields, b) {
      WatchedArrives(fields, Defaults(fields), {}, b, i);
    }
  }

  // ----- Nothing else is asked for

  function Relaxed(fields: seq<Field>): (r: seq<Field>)
    ensures |r| == |fields|
    ensures forall i :: 0 <= i < |fields| ==> r[i] == RelaxedField(fields[i])
  {
    seq(|fields|, i requires 0 <= i < |fields| => RelaxedField(fields[i]))
  }

  /** The same field, which may be missing. */
  function RelaxedField(f: Field): Field {
    if f.rule.Required? then f.(rule := Optional) else f
  }

  /** The same but for required fields still at their defaults. */
  ghost predicate Alike(fields: seq<Field>, m: seq<seq<Value>>, m': seq<seq<Value>>) {
    && |m| == |m'| == |fields|
    && forall i :: 0 <= i < |fields| ==>
         m'[i] == m[i] || (fields[i].rule.Required? && m'[i] == [] && m[i] == [DefaultValue(fields[i].kind)])
  }

  lemma {:induction false} RelaxedIndex(fields: seq<Field>, tag: nat)
    ensures IndexOf(Relaxed(fields), tag) == IndexOf(fields, tag)
  {
    if fields != [] {
      assert Relaxed(fields)[1..] == Relaxed(fields[1..]);
      RelaxedIndex(fields[1..], tag);
    }
  }

  lemma {:induction false} RelaxedRequiresNone(fields: seq<Field>, i: nat)
    requires i <= |fields|
    ensures RequiredBefore(Relaxed(fields), i) == 0
  {
    if i > 0 {
      RelaxedRequiresNone(fields, i - 1);
    }
  }

  lemma RelaxedSlot(f: Field, wire: nat, slot: seq<Value>, slot': seq<Value>, b: Bytes)
    requires slot' == slot || (f.rule.Required? && slot' == [] && slot == [DefaultValue(f.kind)])
    ensures DecodeSlot(RelaxedField(f), wire, slot', b) == DecodeSlot(f, wire, slot, b)
  {
    hide DecodeValue, DecodePacked, DefaultValue;
  }

  /** Every watched field was seen before, or has a tag in what is left. */
  ghost predicate SeenOrIn(fields: seq<Field>, seen: set<nat>, tags: set<nat>) {
    forall i {:trigger fields[i]} :: 0 <= i < |fields| && Watched(fields, i) ==>
      RequiredBefore(fields, i) in seen || fields[i].tag in tags
  }

  lemma {:induction false} RequiredAt(fields: seq<Field>, k: nat, n: nat) returns (i: nat)
    requires k <= |fields| && n < RequiredBefore(fields, k)
    ensures i < k && fields[i].rule.Required? && RequiredBefore(fields, i) == n
  {
    if n < RequiredBefore(fields, k - 1) {
      i := RequiredAt(fields, k - 1, n);
    } else {
      i := k - 1;
    }
  }

  lemma AllSeenIffWatchedSeen(fields: seq<Field>, seen: set<nat>)
    ensures AllSeen(fields, seen) <==> SeenOrIn(fields, seen, {})
  {
    if AllSeen(fields, seen) {
      forall i | 0 <= i < |fields| && Watched(fields, i) ensures RequiredBefore(fields, i) in seen {
        WatchedMustBeSeen(fields, seen, i);
      }
    }
    if SeenOrIn(fields, seen, {}) {
      forall n: nat | n < RequiredBefore(fields, |fields|) && n < MAX_REQUIRED ensures n in seen {
        var i := RequiredAt(fields, |fields|, n);
        assert Watched(fields, i) && fields[i].tag !in {};
      }
    }
  }

  lemma SeenNext(fields: seq<Field>, seen: set<nat>, tags: set<nat>, j: nat)
    requires DistinctTags(fields) && j < |fields|
    ensures SeenOrIn(fields, Seen(fields, j, seen), tags) <==> SeenOrIn(fields, seen, {fields[j].tag} + tags)
  {
    forall i | 0 <= i < |fields| && Watched(fields, i)
      ensures RequiredBefore(fields, i) in Seen(fields, j, seen) || fields[i].tag in tags
         <==> RequiredBefore(fields, i) in seen || fields[i].tag in {fields[j].tag} + tags
    {
      if fields[i].tag == fields[j].tag {
        assert i == j;
      } else if RequiredBefore(fields, i) in Seen(fields, j, seen) && RequiredBefore(fields, i) !in seen {
        WatchedOnce(fields, i, j);
      }
    }
  }

  lemma SeenUnknown(fields: seq<Field>, seen: set<nat>, tags: set<nat>, tag: nat)
    requires IndexOf(fields, tag).None?
    ensures SeenOrIn(fields, seen, tags) <==> SeenOrIn(fields, seen, {tag} + tags)
  {
  }

  lemma {:induction false} RelaxedDecodes(fields: seq<Field>, m: seq<seq<Value>>, m': seq<seq<Value>>, seen: set<nat>,
                                          b: Bytes)
    requires DistinctTags(fields) && Alike(fields, m, m')
    ensures var r, r' := DecodeFields(fields, m, seen, b), DecodeFields(Relaxed(fields), m', {}, b);
            && (r.Some? <==> r'.Some? && SeenOrIn(fields, seen, TopTags(fields, b)))
            && (r.Some? ==> Alike(fields, r.value, r'.value))
    decreases |b|
  {
    hide DecodeSlot, SkipField, SeenOrIn, Alike, DecodeTag, IndexOf, Seen, Watched, AllSeen, Relaxed;
    var tag := DecodeTag(b);
    if tag.EndTag? {
      AllSeenIffWatchedSeen(fields, seen);
      NothingRequired(fields);
    } else if tag.Tag? {
      RelaxedIndex(fields, tag.tag);
      var index := IndexOf(fields, tag.tag);
      if index.None? {
        var left := SkipField(tag.wire, tag.rest);
        if left.Some? {
          RelaxedDecodes(fields, m, m', seen, left.value);
          SeenUnknown(fields, seen, TopTags(fields, left.value), tag.tag);
        }
      } else {
        RelaxedFieldDecodes(fields, m, m', seen, b, index.value);
      }
    }
  }

  lemma NothingRequired(fields: seq<Field>)
    ensures AllSeen(Relaxed(fields), {})
  {
    RelaxedRequiresNone(fields, |fields|);
  }

  lemma AlikeAt(fields: seq<Field>, m: seq<seq<Value>>, m': seq<seq<Value>>, j: nat, slot: seq<Value>)
    requires Alike(fields, m, m') && j < |fields|
    ensures |m| == |m'| == |fields|
    ensures m'[j] == m[j] || (fields[j].rule.Required? && m'[j] == [] && m[j] == [DefaultValue(fields[j].kind)])
    ensures Alike(fields, m[j := slot], m'[j := slot])
  {
  }

  lemma {:induction false} RelaxedFieldDecodes(fields: seq<Field>, m: seq<seq<Value>>, m': seq<seq<Value>>,
                                               seen: set<nat>, b: Bytes, j: nat)
    requires DistinctTags(fields) && Alike(fields, m, m') && DecodeTag(b).Tag?
    requires IndexOf(fields, DecodeTag(b).tag) == Some(j) == IndexOf(Relaxed(fields), DecodeTag(b).tag)
    ensures var r, r' := DecodeFields(fields, m, seen, b), DecodeFields(Relaxed(fields), m', {}, b);
            && (r.Some? <==> r'.Some? && SeenOrIn(fields, seen, TopTags(fields, b)))
            && (r.Some? ==> Alike(fields, r.value, r'.value))
    decreases |b|, 0
  {
    hide DecodeSlot, SkipField, SeenOrIn, Alike, DecodeTag, IndexOf, Seen, Watched, AllSeen, WireOf;
    var tag := DecodeTag(b);
    AlikeAt(fields, m, m', j, []);
    var slot := DecodeSlot(fields[j], tag.wire, m[j], tag.rest);
    RelaxedSlot(fields[j], tag.wire, m[j], m'[j], tag.rest);
    RelaxedSees(fields, j);
    if slot.Parsed? {
      SlotTakes(fields[j], tag.wire, m[j], tag.rest);
      AlikeAt(fields, m, m', j, slot.value);
      RelaxedDecodes(fields, m[j := slot.value], m'[j := slot.value], Seen(fields, j, seen), slot.rest);
      SeenNext(fields, seen, TopTags(fields, slot.rest), j);
    }
  }

  lemma RelaxedSees(fields: seq<Field>, j: nat)
    requires j < |fields|
    ensures Seen(Relaxed(fields), j, {}) == {}
  {
  }

  /**
   A message is accepted exactly if it would be with no field required, and has a tag of every required field that
   the decoder watches; what is decoded is then the same.
   */
  lemma AcceptedIffComplete(fields: seq<Field>, b: Bytes)
    requires DistinctTags(fields)
    ensures Decode(fields, b).Some?
       <==> Decode(Relaxed(fields), b).Some? && HasWatched(fields, TopTags(fields, b))
    ensures Decode(fields, b).Some? ==> Alike(fields, Decode(fields, b).value, Decode(Relaxed(fields), b).value)
  {
    assert Alike(fields, Defaults(fields), Defaults(Relaxed(fields)));
    RelaxedDecodes(fields, Defaults(fields), Defaults(Relaxed(fields)), {}, b);
    assert SeenOrIn(fields, {}, TopTags(fields, b)) <==> HasWatched(fields, TopTags(fields, b));
  }

  // ----- A sender without the field

  /** Where both tables have a tag, they have it for fields that look alike on the wire. */
  predicate Compatible(sender: seq<Field>, receiver: seq<Field>) {
    forall i, j :: 0 <= i < |sender| && 0 <= j < |receiver| && sender[i].tag == receiver[j].tag ==>
      && WireType(sender[i].kind) == WireType(receiver[j].kind)
      && (sender[i].rule.Repeated? ==> receiver[j].rule.Repeated?)
  }

  function Tags(fields: seq<Field>): set<nat> {
    set i | 0 <= i < |fields| :: fields[i].tag
  }

  lemma TagsOfField(receiver: seq<Field>, wire: nat, tag: nat, body: Bytes, rest: Bytes)
    requires wire < 8 && 0 < tag < TAG_LIMIT
    requires SkipField(WireRead(receiver, tag, wire), body + rest) == Some(rest)
    ensures TopTags(receiver, (EncodeTag(wire, tag) + body) + rest) == {tag} + TopTags(receiver, rest)
  {
    hide EncodeTag, DecodeTag, SkipField, WireRead;
    Glue(EncodeTag(wire, tag), body, rest);
    TagRoundTrip(wire, tag, body + rest);
  }

  lemma {:induction false} TagsOfItems(receiver: seq<Field>, f: Field, vs: seq<Value>, rest: Bytes)
    requires FieldOk(f) && WireRead(receiver, f.tag, WireType(f.kind)) == WireType(f.kind)
    requires AllFit(f.kind, vs) && |EncodeItems(f, vs)| <= MAX_UINT32
    ensures TopTags(receiver, EncodeItems(f, vs) + rest) <= {f.tag} + TopTags(receiver, rest)
    decreases |vs|
  {
    hide TopTags, EncodeItem, WireRead;
    if vs == [] {
      assert [] + rest == rest;
    } else {
      var left := EncodeItems(f, vs[1..]);
      Glue(EncodeItem(f, vs[0]), left, rest);
      ItemFits(f, vs);
      ValueSkipped(f.kind, vs[0], left + rest);
      ItemIs(f, vs[0]);
      TagsOfField(receiver, WireType(f.kind), f.tag, EncodeValue(f.kind, vs[0]), left + rest);
      TagsOfItems(receiver, f, vs[1..], rest);
    }
  }

  lemma ReadAsSent(sender: seq<Field>, receiver: seq<Field>, i: nat)
    requires Compatible(sender, receiver) && i < |sender|
    ensures WireRead(receiver, sender[i].tag, WireType(sender[i].kind)) == WireType(sender[i].kind)
    ensures sender[i].rule.Repeated? && Packable(sender[i].kind) ==>
      WireRead(receiver, sender[i].tag, WIRE_STRING) == WIRE_STRING
  {
  }

  lemma TagsOfSlot(sender: seq<Field>, receiver: seq<Field>, i: nat, slot: seq<Value>, rest: Bytes)
    requires Compatible(sender, receiver) && i < |sender| && FieldOk(sender[i])
    requires FitsSlot(sender[i], slot) && |EncodeSlot(sender[i], slot)| <= MAX_UINT32
    ensures TopTags(receiver, EncodeSlot(sender[i], slot) + rest) <= {sender[i].tag} + TopTags(receiver, rest)
  {
    var f := sender[i];
    ReadAsSent(sender, receiver, i);
    hide TopTags, WireRead, EncodeTag, EncodePacked;
    if f.rule.Repeated? && Packable(f.kind) && slot != [] {
      var packed := EncodePacked(f.kind, slot);
      PrefixedSkipped(packed, rest);
      TagsOfField(receiver, WIRE_STRING, f.tag, LengthPrefixed(packed), rest);
    } else {
      TagsOfItems(receiver, f, slot, rest);
    }
  }

  lemma {:induction false} OnlyOwnTags(sender: seq<Field>, receiver: seq<Field>, m: seq<seq<Value>>, i: nat)
    requires SchemaOk(sender) && Fits(sender, m) && Compatible(sender, receiver) && i <= |sender|
    requires |EncodeFrom(sender, m, i)| <= MAX_UINT32
    ensures TopTags(receiver, EncodeFrom(sender, m, i)) <= Tags(sender)
    decreases |sender| - i
  {
    hide TopTags, EncodeSlot, FitsSlot, FieldOk;
    if i == |sender| {
      NoTags(receiver);
    } else {
      assert FitsSlot(sender[i], m[i]) && FieldOk(sender[i]);
      OnlyOwnTags(sender, receiver, m, i + 1);
      TagsOfSlot(sender, receiver, i, m[i], EncodeFrom(sender, m, i + 1));
    }
  }

  lemma NoTags(receiver: seq<Field>)
    ensures TopTags(receiver, []) == {}
  {
  }

  /** What a sender sends without a field that the receiver requires, the receiver refuses. */
  lemma MissingRequiredIsRefused(sender: seq<Field>, receiver: seq<Field>, m: seq<seq<Value>>, i: nat)
    requires SchemaOk(sender) && Fits(sender, m) && |Encode(sender, m)| <= MAX_UINT32
    requires Compatible(sender, receiver) && Watched(receiver, i) && receiver[i].tag !in Tags(sender)
    ensures Decode(receiver, Encode(sender, m)) == None
  {
    OnlyOwnTags(sender, receiver, m, 0);
    if Decode(receiver, Encode(sender, m)).Some? {
      RequiredFieldsArrive(receiver, Encode(sender, m));
    }
  }
}
