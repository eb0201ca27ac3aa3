/**
 Block::Iter: a cursor over a finished block.  It stands on the builder's entries, in both directions, and
 seeks to the first key at or after a target.
 */
module BlockIters {
  import opened Basics
  import opened Coding
  import opened Blocks
  import opened BlockBuilders

  /** A block as read: the offset of its restart array, and its restart points. */
  ghost predicate IsBlock(contents: Bytes, restartOffset: nat, restarts: seq<nat>, l: Layout) {
    && restartOffset <= |contents| <= MAX_UINT32
    && contents == Finished(contents[..restartOffset], restarts)
    && EntriesLaid(l, contents[..restartOffset]) && RestartsLaid(l, restarts)
  }

  /** Restart point ri is the last one before the entry at offset current, or one is the entry itself. */
  ghost predicate InRegion(restarts: seq<nat>, ri: nat, current: nat) {
    && ri < |restarts| && restarts[ri] <= current
    && (ri + 1 < |restarts| ==> current <= restarts[ri + 1])
  }

  lemma RestartBound(l: Layout, data: Bytes, restarts: seq<nat>, j: nat)
    requires EntriesLaid(l, data) && RestartsLaid(l, restarts) && j < |restarts|
    ensures restarts[j] <= |data| && l.heads[j] <= |l.entries| && restarts[j] == l.starts[l.heads[j]]
  {
    StartsAscend(l, data, l.heads[j], |l.entries|);
  }

  /** The entry at a place, read from the whole block. */
  lemma ReadAt(contents: Bytes, restartOffset: nat, restarts: seq<nat>, l: Layout, i: nat, key: Bytes)
    returns (p: EntryParse)
    requires IsBlock(contents, restartOffset, restarts, l) && i <= |l.entries|
    requires i > 0 && i !in l.heads && i < |l.entries| ==> key == l.entries[i - 1].key
    ensures |l.starts| == |l.entries| + 1 && l.starts[i] <= restartOffset <= |contents|
    ensures l.starts[i] < restartOffset <==> i < |l.entries|
    ensures i < |l.entries| ==>
      && p == DecodeEntry(contents[l.starts[i]..restartOffset]) && p.EntryParse? && |p.rest| <= restartOffset
      && p.shared <= |key| && key[..p.shared] + p.delta == l.entries[i].key
      && restartOffset - |p.rest| == l.starts[i + 1]
      && |p.value| <= l.starts[i + 1] && contents[l.starts[i + 1] - |p.value|..l.starts[i + 1]] == l.entries[i].value
  {
    var data := contents[..restartOffset];
    StartsCompare(l, data, i, |l.entries|);
    p := BadEntry;
    if i < |l.entries| {
      assert contents[l.starts[i]..restartOffset] == data[l.starts[i]..];
      p := ReadEntry(l, data, i, key);
      var to := l.starts[i + 1];
      assert contents[to - |p.value|..to] == data[to - |p.value|..to];
    }
  }

  lemma StartOf(contents: Bytes, restartOffset: nat, restarts: seq<nat>, l: Layout, i: nat)
    requires IsBlock(contents, restartOffset, restarts, l) && i <= |l.entries|
    ensures |l.starts| == |l.entries| + 1 && l.starts[i] <= restartOffset <= |contents|
    ensures l.starts[i] < restartOffset <==> i < |l.entries|
  {
    StartsCompare(l, contents[..restartOffset], i, |l.entries|);
  }

  class BlockIter {
    const contents: Bytes
    const restartOffset: nat
    const numRestarts: nat
    const rank: KeyRank
    var current: nat
    var restartIndex: nat
    var key: Bytes
    var valueStart: nat
    var valueSize: nat

    ghost const layout: Layout
    ghost const restarts: seq<nat>

    /** The place of the entry it stands on; past the last one if it is not valid. */
    ghost var at: nat

    ghost predicate Good() {
      && IsBlock(contents, restartOffset, restarts, layout) && numRestarts == |restarts|
      && Ascending(rank, layout.entries)
    }

    ghost predicate Valid()
      reads this
    {
      && Good() && at <= |layout.entries|
      && (at == |layout.entries| ==> current == restartOffset)
      && (at < |layout.entries| ==> Stands())
    }

    ghost predicate Stands()
      requires Good() && at < |layout.entries|
      reads this
    {
      && current == layout.starts[at] < restartOffset && key == layout.entries[at].key
      && valueStart + valueSize == layout.starts[at + 1] <= restartOffset
      && contents[valueStart..valueStart + valueSize] == layout.entries[at].value
      && InRegion(restarts, restartIndex, current)
    }

    /** The next entry to be read is the i-th. */
    ghost predicate Before(i: nat)
      requires Good()
      reads this
    {
      && i <= |layout.entries| && valueStart + valueSize == layout.starts[i]
      && (i > 0 && i !in layout.heads && i < |layout.entries| ==> key == layout.entries[i - 1].key)
      && restartIndex < numRestarts && restarts[restartIndex] <= layout.starts[i]
    }

    /** Valid(): is there an entry? */
    predicate HasEntry()
      reads this
    {
      current < restartOffset
    }

    /** key() and value(), when there is one. */
    ghost function At(): Option<Entry>
      requires Valid()
      reads this
    {
      if at < |layout.entries| then Some(layout.entries[at]) else None
    }

    constructor (contents: Bytes, rank: KeyRank, ghost data: Bytes, ghost restarts: seq<nat>, ghost layout: Layout)
      requires contents == Finished(data, restarts) && |contents| <= MAX_UINT32
      requires EntriesLaid(layout, data) && RestartsLaid(layout, restarts) && Ascending(rank, layout.entries)
      ensures Valid() && At() == None && this.layout == layout
    {
      CountAtEnd(data, restarts);
      var n := DecodeFixed(contents[|contents| - 4..]);
      this.contents, this.rank, numRestarts := contents, rank, n;
      restartOffset := |contents| - (1 + n) * 4;
      current, restartIndex := |contents| - (1 + n) * 4, n;
      key, valueStart, valueSize := [], 0, 0;
      this.layout, this.restarts, at := layout, restarts, |layout.entries|;
      assert contents[..|contents| - (1 + n) * 4] == data;
    }

    method GetRestartPoint(index: nat) returns (offset: nat)
      requires Good() && index < numRestarts
      ensures offset == restarts[index] <= restartOffset
    {
      RestartBound(layout, contents[..restartOffset], restarts, index);
      RestartInBlock(contents[..restartOffset], restarts, index);
      offset := DecodeFixed(contents[restartOffset + 4 * index..restartOffset + 4 * index + 4]);
    }

    method SeekToRestartPoint(index: nat)
      requires Good() && index < numRestarts
      modifies this`key, this`restartIndex, this`valueStart, this`valueSize
      ensures Before(layout.heads[index]) && restartIndex == index
    {
      RestartBound(layout, contents[..restartOffset], restarts, index);
      key, restartIndex := [], index;
      var offset := GetRestartPoint(index);
      valueStart, valueSize := offset, 0;
    }

    method ParseNextKey(ghost i: nat) returns (ok: bool)
      requires Good() && Before(i)
      modifies this
      ensures Valid() && at == i && (ok <==> i < |layout.entries|)
    {
      StartOf(contents, restartOffset, restarts, layout, i);
      hide IsBlock, Ascending, InRegion;
      current, at := valueStart + valueSize, i;
      if current >= restartOffset {
        current, restartIndex := restartOffset, numRestarts;
        return false;
      }
      ReadHere(i);
      FindRegion();
      return true;
    }

    /** Decode the entry at the current offset. */
    method ReadHere(ghost i: nat)
      requires Good() && Before(i) && i < |layout.entries| && current == layout.starts[i]
      modifies this`key, this`valueStart, this`valueSize
      ensures key == layout.entries[i].key
      ensures valueStart + valueSize == layout.starts[i + 1] <= restartOffset <= |contents|
      ensures contents[valueStart..valueStart + valueSize] == layout.entries[i].value
    {
      hide IsBlock, Ascending, DecodeEntry;
      ghost var q := ReadAt(contents, restartOffset, restarts, layout, i, key);
      var p := DecodeEntry(contents[current..restartOffset]);
      key := key[..p.shared] + p.delta;
      var end := restartOffset - |p.rest|;
      valueStart, valueSize := end - |p.value|, |p.value|;
    }

    /** Move the restart index up to the region of the current entry. */
    method FindRegion()
      requires Good() && restartIndex < numRestarts && restarts[restartIndex] <= current
      modifies this`restartIndex
      ensures InRegion(restarts, restartIndex, current)
    {
      while restartIndex + 1 < numRestarts
        invariant restartIndex < numRestarts && restarts[restartIndex] <= current
        decreases numRestarts - restartIndex
      {
        var next := GetRestartPoint(restartIndex + 1);
        if next >= current {
          return;
        }
        restartIndex := restartIndex + 1;
      }
    }

    lemma EntryThere()
      requires Valid()
      ensures HasEntry() <==> at < |layout.entries|
      ensures HasEntry() ==> Before(at + 1)
    {
      if at < |layout.entries| {
        StartOf(contents, restartOffset, restarts, layout, at + 1);
        StartsCompare(layout, contents[..restartOffset], at, at + 1);
      }
    }

    function Key(): (k: Bytes)
      requires Valid() && HasEntry()
      reads this
      ensures at < |layout.entries| && k == layout.entries[at].key
    {
      EntryThere();
      key
    }

    function Value(): (v: Bytes)
      requires Valid() && HasEntry()
      reads this
      ensures at < |layout.entries| && v == layout.entries[at].value
    {
      EntryThere();
      contents[valueStart..valueStart + valueSize]
    }

    method SeekToFirst()
      requires Valid()
      modifies this
      ensures Valid() && at == 0
    {
      SeekToRestartPoint(0);
      var ok := ParseNextKey(0);
    }

    method Next()
      requires Valid() && HasEntry()
      modifies this
      ensures Valid() && at == old(at) + 1
    {
      EntryThere();
      var ok := ParseNextKey(at + 1);
    }

    /** Where an entry has to end for the scan to stop there. */
    ghost predicate Ends(offset: nat, last: nat)
      requires Good()
    {
      if layout.entries == [] then last == 0 else last < |layout.entries| && offset == layout.starts[last + 1]
    }

    lemma EndsAfter(offset: nat, last: nat, i: nat)
      requires Good() && Ends(offset, last) && i <= last && i < |layout.entries|
      ensures layout.starts[i + 1] < offset <==> i < last
    {
      StartsCompare(layout, contents[..restartOffset], i + 1, last + 1);
    }

    /** Read one entry; stop at the last one there is, or one that ends at or after the offset. */
    method ScanOn(offset: nat, ghost last: nat, ghost i: nat) returns (more: bool)
      requires Good() && Ends(offset, last) && Before(i) && i <= last
      modifies this
      ensures Valid() && at == i && (more <==> i < last) && (more ==> Before(i + 1))
    {
      more := ParseNextKey(i);
      if more {
        EndsAfter(offset, last, i);
        EntryThere();
        more := valueStart + valueSize < offset;
      }
    }

    /** Scan on from a restart point until the entry read ends at or after an offset. */
    method ScanTo(index: nat, offset: nat, ghost last: nat)
      requires Good() && Ends(offset, last) && index < numRestarts && layout.heads[index] <= last
      modifies this
      ensures Valid() && at == last
    {
      SeekToRestartPoint(index);
      hide IsBlock, Ascending, InRegion;
      ghost var i := layout.heads[index];
      var more := ScanOn(offset, last, i);
      while more
        invariant Valid() && at == i <= last && (more <==> i < last) && (more ==> Before(i + 1))
        decreases last - i
      {
        i := i + 1;
        more := ScanOn(offset, last, i);
      }
    }

    /** To the entry before; before the first one it becomes invalid. */
    method Prev()
      requires Valid() && HasEntry()
      modifies this
      ensures Valid() && at == if old(at) == 0 then |layout.entries| else old(at) - 1
    {
      EntryThere();
      var original := current;
      ghost var from := at;
      while true
        invariant restartIndex < numRestarts && at == from && current == original
        decreases restartIndex
      {
        var offset := GetRestartPoint(restartIndex);
        RestartBound(layout, contents[..restartOffset], restarts, restartIndex);
        StartsCompare(layout, contents[..restartOffset], from, layout.heads[restartIndex]);
        if offset < original {
          break;
        }
        if restartIndex == 0 {
          current, restartIndex, at := restartOffset, numRestarts, |layout.entries|;
          return;
        }
        restartIndex := restartIndex - 1;
      }
      ScanTo(restartIndex, original, from - 1);
    }

    method SeekToLast()
      requires Valid()
      modifies this
      ensures Valid() && at == if layout.entries == [] then 0 else |layout.entries| - 1
    {
      RestartBound(layout, contents[..restartOffset], restarts, numRestarts - 1);
      ScanTo(numRestarts - 1, restartOffset, if layout.entries == [] then 0 else |layout.entries| - 1);
    }

    // ----- Seek

    /** The whole key at a restart point, the first excepted. */
    method KeyAtRestart(index: nat) returns (midKey: Bytes)
      requires Good() && 0 < index < numRestarts
      ensures midKey == layout.entries[layout.heads[index]].key
    {
      var offset := GetRestartPoint(index);
      RestartBound(layout, contents[..restartOffset], restarts, index);
      ghost var q := ReadAt(contents, restartOffset, restarts, layout, layout.heads[index], []);
      var p := DecodeEntry(contents[offset..restartOffset]);
      assert p.EntryParse? && p.shared == 0;
      midKey := p.delta;
    }

    /** The last restart point whose key is before the target, by binary search. */
    method FindRestart(target: Bytes) returns (left: nat)
      requires Good()
      ensures left < numRestarts
      ensures left > 0 ==> rank(layout.entries[layout.heads[left]].key) < rank(target)
      ensures left + 1 < numRestarts ==> !(rank(layout.entries[layout.heads[left + 1]].key) < rank(target))
    {
      left := 0;
      var right := numRestarts - 1;
      while left < right
        invariant left <= right < numRestarts
        invariant left > 0 ==> rank(layout.entries[layout.heads[left]].key) < rank(target)
        invariant right + 1 < numRestarts ==> !(rank(layout.entries[layout.heads[right + 1]].key) < rank(target))
      {
        var mid := (left + right + 1) / 2;
        var midKey := KeyAtRestart(mid);
        if rank(midKey) < rank(target) {
          left := mid;
        } else {
          right := mid - 1;
        }
      }
    }

    /** The first entry whose key is at or after the target. */
    method SeekTo(target: Bytes)
      requires Valid()
      modifies this
      ensures Valid()
      ensures forall i :: 0 <= i < at ==> rank(layout.entries[i].key) < rank(target)
      ensures at < |layout.entries| ==> !(rank(layout.entries[at].key) < rank(target))
    {
      var left := FindRestart(target);
      SeekToRestartPoint(left);
      ghost var i := layout.heads[left];
      KeysBefore(rank, layout.entries, i, rank(target), left > 0);
      while true
        invariant Before(i)
        invariant forall j :: 0 <= j < i ==> rank(layout.entries[j].key) < rank(target)
        decreases |layout.entries| - i
      {
        var ok := ParseNextKey(i);
        if !ok || !(rank(key) < rank(target)) {
          return;
        }
        EntryThere();
        i := i + 1;
      }
    }
  }

  lemma KeysBefore(rank: KeyRank, entries: seq<Entry>, i: nat, target: real, less: bool)
    requires Ascending(rank, entries) && i <= |entries|
    requires if less then i < |entries| && rank(entries[i].key) < target else i == 0
    ensures forall j :: 0 <= j < i ==> rank(entries[j].key) < target
  {
  }

  /** A block of any strictly ascending entries, at any restart interval, reads back as those entries. */
  method BuildAndRead(entries: seq<Entry>, restartInterval: nat, rank: KeyRank)
    returns (contents: Bytes, read: seq<Entry>)
    requires restartInterval >= 1 && Ascending(rank, entries)
    ensures |contents| <= MAX_UINT32 ==> read == entries
  {
    var builder := new BlockBuilder(restartInterval);
    for i := 0 to |entries|
      invariant builder.Valid() && fresh(builder) && builder.layout.entries == entries[..i]
    {
      builder.Add(entries[i].key, entries[i].value);
    }
    assert entries[..|entries|] == entries;
    ghost var data, restarts, layout := builder.buffer, builder.restarts, builder.layout;
    contents := builder.Finish();
    read := [];
    if |contents| <= MAX_UINT32 {
      read := ReadBlock(contents, rank, data, restarts, layout);
    }
  }

  method ReadBlock(contents: Bytes, rank: KeyRank, ghost data: Bytes, ghost restarts: seq<nat>, ghost layout: Layout)
    returns (read: seq<Entry>)
    requires contents == Finished(data, restarts) && |contents| <= MAX_UINT32
    requires EntriesLaid(layout, data) && RestartsLaid(layout, restarts) && Ascending(rank, layout.entries)
    ensures read == layout.entries
  {
    var it := new BlockIter(contents, rank, data, restarts, layout);
    it.SeekToFirst();
    read := [];
    it.EntryThere();
    while it.HasEntry()
      invariant it.Valid() && fresh(it) && it.layout == layout && it.at <= |layout.entries|
      invariant it.HasEntry() <==> it.at < |layout.entries|
      invariant read == layout.entries[..it.at]
      decreases |layout.entries| - it.at
    {
      read := read + [Entry(it.Key(), it.Value())];
      it.Next();
      it.EntryThere();
    }
  }
}
