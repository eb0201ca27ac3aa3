/**
 Table blocks: entries with their keys' shared prefixes left out, restart points where keys are whole, and
 the iterator that reads them in both directions and seeks by the restart points.
 */
module Blocks {
  import opened Basics
  import opened Coding

  datatype Entry = Entry(key: Bytes, value: Bytes)

  /** Where the comparator puts a key. */
  type KeyRank = Bytes -> real

  // ----- One entry

  function EncodeEntry(shared: nat, delta: Bytes, value: Bytes): (r: Bytes)
    ensures |r| >= 3 + |delta| + |value|
  {
    EncodeVarint(shared) + (EncodeVarint(|delta|) + (EncodeVarint(|value|) + (delta + value)))
  }

  datatype EntryParse = BadEntry | EntryParse(shared: nat, delta: Bytes, value: Bytes, rest: Bytes)

  /** The three lengths, each in one byte if all are below 128. */
  function ParseLengths(b: Bytes): (r: Parsed<(nat, nat, nat)>) {
    if |b| < 3 then Failed
    else if b[0] < 128 && b[1] < 128 && b[2] < 128 then Parsed((b[0], b[1], b[2]), b[3..])
    else
      var shared := GetVarint32(b);
      if shared.Failed? then Failed
      else
        var delta := GetVarint32(shared.rest);
        if delta.Failed? then Failed
        else
          var value := GetVarint32(delta.rest);
          if value.Failed? then Failed else Parsed((shared.value, delta.value, value.value), value.rest)
  }

  /** DecodeEntry: b is what lies before the restart array. */
  function DecodeEntry(b: Bytes): EntryParse {
    var lengths := ParseLengths(b);
    if lengths.Failed? then BadEntry
    else
      var (shared, delta, value) := lengths.value;
      var rest := lengths.rest;
      if |rest| < delta + value then BadEntry
      else EntryParse(shared, rest[..delta], rest[delta..delta + value], rest[delta + value..])
  }

  lemma LengthsRoundTrip(a: nat, b: nat, c: nat, rest: Bytes)
    requires a <= MAX_UINT32 && b <= MAX_UINT32 && c <= MAX_UINT32
    ensures ParseLengths(EncodeVarint(a) + (EncodeVarint(b) + (EncodeVarint(c) + rest))) == Parsed((a, b, c), rest)
  {
    var s := EncodeVarint(a) + (EncodeVarint(b) + (EncodeVarint(c) + rest));
    Varint32RoundTrip(a, EncodeVarint(b) + (EncodeVarint(c) + rest));
    Varint32RoundTrip(b, EncodeVarint(c) + rest);
    Varint32RoundTrip(c, rest);
    FirstByte(a);
    if a < 128 {
      FirstByte(b);
      assert s[1] == EncodeVarint(b)[0];
      if b < 128 {
        FirstByte(c);
        assert s[2] == EncodeVarint(c)[0];
        if c < 128 {
          assert s[3..] == rest;
        }
      }
    }
  }

  lemma FirstByte(v: nat)
    ensures v < 128 ==> EncodeVarint(v) == [v]
    ensures v >= 128 ==> EncodeVarint(v)[0] >= 128
  {
  }

  lemma EntryRoundTrip(shared: nat, delta: Bytes, value: Bytes, rest: Bytes)
    requires shared <= MAX_UINT32 && |delta| <= MAX_UINT32 && |value| <= MAX_UINT32
    ensures DecodeEntry(EncodeEntry(shared, delta, value) + rest) == EntryParse(shared, delta, value, rest)
  {
    var body := (delta + value) + rest;
    hide EncodeVarint, ParseLengths;
    Glue(EncodeVarint(|value|), delta + value, rest);
    Glue(EncodeVarint(|delta|), EncodeVarint(|value|) + (delta + value), rest);
    Glue(EncodeVarint(shared), EncodeVarint(|delta|) + (EncodeVarint(|value|) + (delta + value)), rest);
    LengthsRoundTrip(shared, |delta|, |value|, body);
    assert body[..|delta|] == delta && body[|delta|..|delta| + |value|] == value && body[|delta| + |value|..] == rest;
  }

  // ----- The layout of a block

  /** The entries of a block, where each starts and the last ends, and which of them are restart points. */
  datatype Layout = Layout(entries: seq<Entry>, starts: seq<nat>, heads: seq<nat>)

  /** The key an entry's prefix refers to. */
  function PrevKey(l: Layout, i: nat): Bytes
    requires i < |l.entries|
  {
    if i == 0 || i in l.heads then [] else l.entries[i - 1].key
  }

  /** The bytes from one offset to the next are the entry, but for what its key shares with the one before. */
  ghost predicate LaidWith(data: Bytes, from: nat, to: nat, prev: Bytes, e: Entry, shared: nat) {
    && from <= to <= |data| && Shares(prev, e.key, shared)
    && data[from..to] == EncodeEntry(shared, e.key[shared..], e.value)
  }

  ghost predicate EntryLaid(data: Bytes, from: nat, to: nat, prev: Bytes, e: Entry) {
    exists shared: nat :: LaidWith(data, from, to, prev, e, shared)
  }

  predicate Shares(a: Bytes, b: Bytes, n: nat) {
    n <= |a| && n <= |b| && a[..n] == b[..n]
  }

  ghost predicate EntryOk(l: Layout, data: Bytes, i: nat) {
    i < |l.entries| && i + 1 < |l.starts| && EntryLaid(data, l.starts[i], l.starts[i + 1], PrevKey(l, i), l.entries[i])
  }

  ghost predicate EntriesLaid(l: Layout, data: Bytes) {
    && |l.starts| == |l.entries| + 1 && l.starts[0] == 0 && l.starts[|l.entries|] == |data|
    && forall i :: 0 <= i < |l.entries| ==> EntryOk(l, data, i)
  }

  /** The restart points are starts of entries, in order; the first is that of the first entry, if any. */
  ghost predicate RestartsLaid(l: Layout, restarts: seq<nat>) {
    && |restarts| == |l.heads| > 0 && |l.starts| == |l.entries| + 1
    && l.heads[0] == 0
    && (forall j :: 0 < j < |l.heads| ==> l.heads[j] < |l.entries|)
    && (forall i, j :: 0 <= i < j < |l.heads| ==> l.heads[i] < l.heads[j])
    && forall j :: 0 <= j < |restarts| ==> l.heads[j] <= |l.entries| && restarts[j] == l.starts[l.heads[j]]
  }

  ghost predicate Ascending(rank: KeyRank, entries: seq<Entry>) {
    forall i, j :: 0 <= i < j < |entries| ==> rank(entries[i].key) < rank(entries[j].key)
  }

  lemma {:induction false} StartsAscend(l: Layout, data: Bytes, i: nat, j: nat)
    requires EntriesLaid(l, data) && i <= j <= |l.entries|
    ensures l.starts[i] + 3 * (j - i) <= l.starts[j] <= |data|
    decreases |l.entries| - i
  {
    if i < j {
      var shared := EntryAt(l, data, i);
      StartsAscend(l, data, i + 1, j);
    } else if i < |l.entries| {
      var shared := EntryAt(l, data, i);
      StartsAscend(l, data, i + 1, |l.entries|);
    }
  }

  lemma EntryAt(l: Layout, data: Bytes, i: nat) returns (shared: nat)
    requires EntriesLaid(l, data) && i < |l.entries|
    ensures LaidWith(data, l.starts[i], l.starts[i + 1], PrevKey(l, i), l.entries[i], shared)
    ensures l.starts[i] + 3 <= l.starts[i + 1] <= |data|
  {
    assert EntryOk(l, data, i);
    shared :| LaidWith(data, l.starts[i], l.starts[i + 1], PrevKey(l, i), l.entries[i], shared);
    assert |data[l.starts[i]..l.starts[i + 1]]| >= 3;
  }

  /** Offsets compare as the entries' places do. */
  lemma StartsCompare(l: Layout, data: Bytes, i: nat, j: nat)
    requires EntriesLaid(l, data) && i <= |l.entries| && j <= |l.entries|
    ensures l.starts[i] < l.starts[j] <==> i < j
    ensures l.starts[i] <= l.starts[j] <==> i <= j
  {
    if i <= j {
      StartsAscend(l, data, i, j);
    } else {
      StartsAscend(l, data, j, i);
    }
  }

  // ----- Reading an entry

  lemma SliceThen(data: Bytes, from: nat, to: nat)
    requires from <= to <= |data|
    ensures data[from..] == data[from..to] + data[to..]
  {
  }

  /** Decoding an entry's bytes gives the entry, on top of the key before it. */
  lemma DecodeLaid(data: Bytes, from: nat, to: nat, prev: Bytes, e: Entry, shared: nat) returns (p: EntryParse)
    requires LaidWith(data, from, to, prev, e, shared) && |data| <= MAX_UINT32 && |e.key| <= MAX_UINT32
    ensures p == DecodeEntry(data[from..]) && p == EntryParse(shared, e.key[shared..], e.value, data[to..])
    ensures |e.value| <= to && data[to - |e.value|..to] == e.value
  {
    assert |EncodeEntry(shared, e.key[shared..], e.value)| == to - from;
    SliceThen(data, from, to);
    ValueAtEnd(data, from, to, shared, e.key[shared..], e.value);
    hide EncodeEntry, DecodeEntry;
    EntryRoundTrip(shared, e.key[shared..], e.value, data[to..]);
    p := DecodeEntry(data[from..]);
  }

  lemma ValueAtEnd(data: Bytes, from: nat, to: nat, shared: nat, delta: Bytes, value: Bytes)
    requires from <= to <= |data| && data[from..to] == EncodeEntry(shared, delta, value)
    ensures |value| <= to && data[to - |value|..to] == value
  {
    hide EncodeVarint;
    var r := EncodeEntry(shared, delta, value);
    assert |r| == to - from;
    assert r[|r| - |value|..] == value;
    assert data[to - |value|..to] == data[from..to][|r| - |value|..];
  }

  lemma DeltaSize(data: Bytes, from: nat, to: nat, prev: Bytes, e: Entry, shared: nat)
    requires LaidWith(data, from, to, prev, e, shared)
    ensures |e.key| <= |prev| + (to - from) && to <= |data|
  {
    hide EncodeEntry;
    assert |EncodeEntry(shared, e.key[shared..], e.value)| == to - from;
  }

  /** Keys are built up from bytes of the block, so their lengths are within its own. */
  lemma {:induction false} KeyFits(l: Layout, data: Bytes, i: nat)
    requires EntriesLaid(l, data) && i < |l.entries|
    ensures |l.entries[i].key| <= l.starts[i + 1] <= |data|
    decreases i
  {
    hide PrevKey;
    var shared := EntryAt(l, data, i);
    DeltaSize(data, l.starts[i], l.starts[i + 1], PrevKey(l, i), l.entries[i], shared);
    hide EntriesLaid, LaidWith;
    if i > 0 {
      KeyFits(l, data, i - 1);
    }
    PrevIsShort(l, i, if i > 0 then |l.entries[i - 1].key| else 0);
  }

  lemma PrevIsShort(l: Layout, i: nat, n: nat)
    requires i < |l.entries| && n == if i > 0 then |l.entries[i - 1].key| else 0
    ensures |PrevKey(l, i)| <= n
  {
  }

  lemma Rebuilt(prev: Bytes, key: Bytes, e: Entry, shared: nat)
    requires Shares(prev, e.key, shared) && (prev == [] || key == prev)
    ensures shared <= |key| && key[..shared] + e.key[shared..] == e.key && (prev == [] ==> shared == 0)
  {
  }

  /** What the iterator does with the entry at a place: cut the key before it, and append the rest. */
  lemma ReadEntry(l: Layout, data: Bytes, i: nat, key: Bytes) returns (p: EntryParse)
    requires EntriesLaid(l, data) && |data| <= MAX_UINT32 && i < |l.entries|
    requires i == 0 || i in l.heads || key == l.entries[i - 1].key
    ensures l.starts[i] < |data| && p == DecodeEntry(data[l.starts[i]..]) && p.EntryParse?
    ensures p.shared <= |key| && key[..p.shared] + p.delta == l.entries[i].key
    ensures p.value == l.entries[i].value && |p.rest| == |data| - l.starts[i + 1]
    ensures i == 0 || i in l.heads ==> p.shared == 0
    ensures |p.value| <= l.starts[i + 1] <= |data| && data[l.starts[i + 1] - |p.value|..l.starts[i + 1]] == p.value
  {
    KeyFits(l, data, i);
    var shared := EntryAt(l, data, i);
    p := ReadLaid(data, l.starts[i], l.starts[i + 1], PrevKey(l, i), key, l.entries[i], shared);
  }

  lemma ReadLaid(data: Bytes, from: nat, to: nat, prev: Bytes, key: Bytes, e: Entry, shared: nat)
    returns (p: EntryParse)
    requires LaidWith(data, from, to, prev, e, shared) && |data| <= MAX_UINT32 && |e.key| <= MAX_UINT32
    requires prev == [] || key == prev
    ensures p == DecodeEntry(data[from..]) && p.EntryParse?
    ensures p.shared <= |key| && key[..p.shared] + p.delta == e.key && (prev == [] ==> p.shared == 0)
    ensures p.value == e.value && |p.rest| == |data| - to
    ensures |p.value| <= to && data[to - |p.value|..to] == p.value
  {
    p := DecodeLaid(data, from, to, prev, e, shared);
    Rebuilt(prev, key, e, shared);
    hide LaidWith, DecodeEntry;
  }
}
