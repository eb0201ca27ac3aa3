/**
 BlockBuilder: appending entries to a block, and closing it with its restart array.
 */
module BlockBuilders {
  import opened Basics
  import opened Coding
  import opened Blocks

  function Finished(data: Bytes, restarts: seq<nat>): Bytes {
    data + EncodeWords(restarts) + EncodeFixed(|restarts|, 4)
  }

  ghost function Extend(l: Layout, e: Entry, end: nat, head: bool): Layout {
    Layout(l.entries + [e], l.starts + [end], if head then l.heads + [|l.entries|] else l.heads)
  }

  lemma EntryStays(data: Bytes, more: Bytes, from: nat, to: nat, prev: Bytes, e: Entry)
    requires EntryLaid(data, from, to, prev, e)
    ensures EntryLaid(data + more, from, to, prev, e)
  {
    var shared: nat :| LaidWith(data, from, to, prev, e, shared);
    assert (data + more)[from..to] == data[from..to];
    assert LaidWith(data + more, from, to, prev, e, shared);
  }

  lemma EntryAppended(data: Bytes, prev: Bytes, e: Entry, shared: nat)
    requires Shares(prev, e.key, shared)
    ensures var bytes := EncodeEntry(shared, e.key[shared..], e.value);
            EntryLaid(data + bytes, |data|, |data + bytes|, prev, e)
  {
    var bytes := EncodeEntry(shared, e.key[shared..], e.value);
    assert (data + bytes)[|data|..] == bytes;
    assert LaidWith(data + bytes, |data|, |data + bytes|, prev, e, shared);
  }

  /** The key the next entry's prefix refers to. */
  function LastKey(l: Layout, head: bool): Bytes {
    if head || l.entries == [] then [] else l.entries[|l.entries| - 1].key
  }

  lemma SamePrevKey(l: Layout, e: Entry, end: nat, head: bool, i: nat)
    requires i < |l.entries|
    ensures PrevKey(Extend(l, e, end, head), i) == PrevKey(l, i)
  {
  }

  lemma NewPrevKey(l: Layout, restarts: seq<nat>, e: Entry, end: nat, head: bool)
    requires RestartsLaid(l, restarts)
    ensures PrevKey(Extend(l, e, end, head), |l.entries|) == LastKey(l, head)
  {
    assert |l.entries| > 0 ==> |l.entries| !in l.heads;
  }

  lemma OldEntryOk(l: Layout, data: Bytes, e: Entry, bytes: Bytes, head: bool, i: nat)
    requires |l.starts| == |l.entries| + 1 && EntryOk(l, data, i)
    ensures EntryOk(Extend(l, e, |data + bytes|, head), data + bytes, i)
  {
    hide EntryLaid, PrevKey;
    EntryStays(data, bytes, l.starts[i], l.starts[i + 1], PrevKey(l, i), l.entries[i]);
    SamePrevKey(l, e, |data + bytes|, head, i);
  }

  lemma NewEntryOk(l: Layout, data: Bytes, restarts: seq<nat>, e: Entry, bytes: Bytes, head: bool)
    requires EntriesLaid(l, data) && RestartsLaid(l, restarts)
    requires EntryLaid(data + bytes, |data|, |data + bytes|, LastKey(l, head), e)
    ensures EntryOk(Extend(l, e, |data + bytes|, head), data + bytes, |l.entries|)
  {
    NewPrevKey(l, restarts, e, |data + bytes|, head);
    hide EntryLaid, PrevKey, LastKey, RestartsLaid;
  }

  lemma MoreEntriesLaid(l: Layout, data: Bytes, restarts: seq<nat>, e: Entry, bytes: Bytes, head: bool)
    requires EntriesLaid(l, data) && RestartsLaid(l, restarts)
    requires EntryLaid(data + bytes, |data|, |data + bytes|, LastKey(l, head), e)
    ensures EntriesLaid(Extend(l, e, |data + bytes|, head), data + bytes)
  {
    var n, end := |l.entries|, |data + bytes|;
    var l' := Extend(l, e, end, head);
    NewEntryOk(l, data, restarts, e, bytes, head);
    hide EntryOk, EntryLaid, RestartsLaid, LastKey;
    forall i | 0 <= i < n + 1 ensures EntryOk(l', data + bytes, i) {
      if i < n {
        OldEntryOk(l, data, e, bytes, head, i);
      }
    }
  }

  lemma MoreRestartsLaid(l: Layout, restarts: seq<nat>, e: Entry, end: nat, head: bool)
    requires RestartsLaid(l, restarts) && (head ==> l.entries != [])
    ensures RestartsLaid(Extend(l, e, end, head), if head then restarts + [l.starts[|l.entries|]] else restarts)
  {
  }

  lemma OneMoreEntry(l: Layout, data: Bytes, restarts: seq<nat>, e: Entry, shared: nat, head: bool)
    requires EntriesLaid(l, data) && RestartsLaid(l, restarts) && (head ==> l.entries != [])
    requires Shares(LastKey(l, head), e.key, shared)
    ensures var bytes := EncodeEntry(shared, e.key[shared..], e.value);
            var l' := Extend(l, e, |data + bytes|, head);
            && EntriesLaid(l', data + bytes)
            && RestartsLaid(l', if head then restarts + [|data|] else restarts)
  {
    var bytes := EncodeEntry(shared, e.key[shared..], e.value);
    EntryAppended(data, LastKey(l, head), e, shared);
    MoreEntriesLaid(l, data, restarts, e, bytes, head);
    MoreRestartsLaid(l, restarts, e, |data + bytes|, head);
  }

  /** Every interval-th entry is a restart point. */
  ghost predicate Spaced(heads: seq<nat>, interval: nat) {
    heads != [] && forall j :: 0 <= j < |heads| ==> heads[j] == j * interval
  }

  lemma NextSpaced(heads: seq<nat>, interval: nat, n: nat)
    requires Spaced(heads, interval) && n == heads[|heads| - 1] + interval
    ensures Spaced(heads + [n], interval)
  {
    var j := |heads|;
    assert (j - 1) * interval + interval == j * interval;
  }

  /** The most bytes that two keys have in common at their start. */
  ghost predicate SharesMost(a: Bytes, b: Bytes, shared: nat) {
    Shares(a, b, shared) && (shared < |a| && shared < |b| ==> a[shared] != b[shared])
  }

  /** The bytes grow by an entry that leaves out all that its key shares with prev. */
  ghost predicate GrowsBy(before: Bytes, after: Bytes, prev: Bytes, e: Entry) {
    exists shared: nat ::
      SharesMost(prev, e.key, shared) && after == before + EncodeEntry(shared, e.key[shared..], e.value)
  }

  class BlockBuilder {
    const restartInterval: nat
    var buffer: Bytes
    var restarts: seq<nat>
    var counter: nat
    var lastKey: Bytes
    ghost var layout: Layout

    ghost predicate Valid()
      reads this
    {
      && restartInterval >= 1 && counter <= restartInterval
      && EntriesLaid(layout, buffer) && RestartsLaid(layout, restarts)
      && Spaced(layout.heads, restartInterval)
      && |layout.entries| == layout.heads[|layout.heads| - 1] + counter
      && lastKey == LastKey(layout, false)
    }

    constructor (restartInterval: nat)
      requires restartInterval >= 1
      ensures Valid() && layout.entries == [] && this.restartInterval == restartInterval
    {
      this.restartInterval, buffer, restarts, counter, lastKey := restartInterval, [], [0], 0, [];
      layout := Layout([], [0], [0]);
    }

    /** How many bytes two keys have in common at their start. */
    static method SharedLength(a: Bytes, b: Bytes) returns (shared: nat)
      ensures SharesMost(a, b, shared)
    {
      var minLength := if |a| < |b| then |a| else |b|;
      shared := 0;
      while shared < minLength && a[shared] == b[shared]
        invariant shared <= minLength && a[..shared] == b[..shared]
      {
        shared := shared + 1;
      }
    }

    method Add(key: Bytes, value: Bytes)
      requires Valid()
      modifies this
      ensures Valid() && layout.entries == old(layout.entries) + [Entry(key, value)]
      ensures GrowsBy(old(buffer), buffer, PrevKey(layout, |old(layout.entries)|), Entry(key, value))
    {
      hide EntriesLaid, RestartsLaid, EncodeEntry;
      var shared := 0;
      ghost var head := false;
      var restarts' := restarts;
      if counter < restartInterval {
        shared := SharedLength(lastKey, key);
      } else {
        head := true;
        assert layout.entries != [];
        NextSpaced(layout.heads, restartInterval, |layout.entries|);
        restarts' := restarts + [|buffer|];
        counter := 0;
      }
      var bytes := EncodeEntry(shared, key[shared..], value);
      OneMoreEntry(layout, buffer, restarts, Entry(key, value), shared, head);
      NewPrevKey(layout, restarts, Entry(key, value), |buffer + bytes|, head);
      layout := Extend(layout, Entry(key, value), |buffer + bytes|, head);
      restarts, buffer := restarts', buffer + bytes;
      lastKey := lastKey[..shared] + key[shared..];
      assert key[..shared] + key[shared..] == key;
      counter := counter + 1;
    }

    method Finish() returns (contents: Bytes)
      requires Valid()
      modifies this
      ensures contents == Finished(old(buffer), old(restarts))
    {
      hide EntriesLaid, RestartsLaid, EncodeFixed, EncodeWords;
      ghost var data := buffer;
      NoWords();
      for i := 0 to |restarts|
        invariant restarts == old(restarts) && buffer == data + EncodeWords(restarts[..i])
      {
        WordsSnoc(restarts, i);
        buffer := buffer + EncodeFixed(restarts[i], 4);
      }
      assert restarts[..|restarts|] == restarts;
      buffer := buffer + EncodeFixed(|restarts|, 4);
      contents := buffer;
    }
  }

  // ----- The restart array read back

  lemma CountAtEnd(data: Bytes, restarts: seq<nat>)
    requires |restarts| <= MAX_UINT32
    ensures var c := Finished(data, restarts);
            |c| == |data| + 4 * |restarts| + 4 && DecodeFixed(c[|c| - 4..]) == |restarts|
  {
    var c := Finished(data, restarts);
    Pow256Values();
    FixedRoundTrip(|restarts|, 4);
    assert c[|c| - 4..] == EncodeFixed(|restarts|, 4);
  }

  lemma RestartInBlock(data: Bytes, restarts: seq<nat>, j: nat)
    requires j < |restarts| && restarts[j] <= MAX_UINT32
    ensures var c, p := Finished(data, restarts), |data| + 4 * j;
            p + 4 <= |c| && DecodeFixed(c[p..p + 4]) == restarts[j]
  {
    var c, p := Finished(data, restarts), |data| + 4 * j;
    WordAt(restarts, j);
    assert c[p..p + 4] == EncodeWords(restarts)[4 * j..4 * j + 4];
  }
}
