/**
 Choosing where a flushed memtable goes and which files a compaction reads.
 */
module CompactionInputs {
  import opened Basics
  import opened InternalKeys
  import opened Tables
  import opened Versions
  import opened Overlap

  // ----- Flush level

  ghost predicate NoOverlap(files: seq<File>, lo: UserKey, hi: UserKey) {
    forall f :: f in files ==> !Overlaps(f, Some(lo), Some(hi))
  }

  /** A flush may go to level 0, or to a level with no overlap from level 0 down to and including it. */
  ghost predicate FlushLevelOk(v: Version, level: nat, lo: UserKey, hi: UserKey)
    requires |v| == NUM_LEVELS
  {
    level <= MAX_MEM_COMPACT_LEVEL && (level > 0 ==> forall l :: 0 <= l <= level ==> NoOverlap(v[l], lo, hi))
  }

  /** The limits let a flush of [lo, hi] go to this level: nothing overlaps on the way down, and nowhere on the
      way does a later compaction find too much two levels further down. */
  ghost predicate MayFlushTo(v: Version, level: nat, lo: UserKey, hi: UserKey, maxBytes: nat)
    requires |v| == NUM_LEVELS
  {
    FlushLevelOk(v, level, lo, hi) && forall l :: 0 <= l < level ==> FewBytesBelow(v, l, lo, hi, maxBytes)
  }

  ghost predicate FewBytesBelow(v: Version, level: nat, lo: UserKey, hi: UserKey, maxBytes: nat)
    requires |v| == NUM_LEVELS
  {
    level + 2 < NUM_LEVELS ==> TotalFileSize(Overlapping(v[level + 2], Some(lo), Some(hi))) <= maxBytes
  }

  /** The deepest level the limits allow. */
  ghost predicate DeepestFlushLevel(v: Version, level: nat, lo: UserKey, hi: UserKey, maxBytes: nat)
    requires |v| == NUM_LEVELS
  {
    MayFlushTo(v, level, lo, hi, maxBytes) && forall l: nat :: level < l ==> !MayFlushTo(v, l, lo, hi, maxBytes)
  }

  lemma GoesNoDeeper(v: Version, level: nat, lo: UserKey, hi: UserKey, maxBytes: nat)
    requires |v| == NUM_LEVELS && level < MAX_MEM_COMPACT_LEVEL
    requires !NoOverlap(v[level + 1], lo, hi) || !FewBytesBelow(v, level, lo, hi, maxBytes) || !NoOverlap(v[0], lo, hi)
    ensures forall l: nat :: level < l ==> !MayFlushTo(v, l, lo, hi, maxBytes)
  {
  }

  /** Version::PickLevelForMemTableOutput; maxBytes is MaxGrandParentOverlapBytes. */
  method PickLevelForMemTableOutput(v: Version, lo: UserKey, hi: UserKey, maxBytes: nat) returns (level: nat)
    requires Ordered(v)
    ensures FlushLevelOk(v, level, lo, hi) && DeepestFlushLevel(v, level, lo, hi, maxBytes)
  {
    level := 0;
    var overlap := SomeFileOverlapsRange(false, v[0], Some(lo), Some(hi));
    if overlap {
      GoesNoDeeper(v, 0, lo, hi, maxBytes);
    } else {
      while level < MAX_MEM_COMPACT_LEVEL
        invariant level <= MAX_MEM_COMPACT_LEVEL
        invariant forall l :: 0 <= l <= level ==> NoOverlap(v[l], lo, hi)
        invariant forall l :: 0 <= l < level ==> FewBytesBelow(v, l, lo, hi, maxBytes)
      {
        overlap := SomeFileOverlapsRange(true, v[level + 1], Some(lo), Some(hi));
        if overlap {
          GoesNoDeeper(v, level, lo, hi, maxBytes);
          break;
        }
        if level + 2 < NUM_LEVELS {
          var overlaps, _, _ := GetOverlappingInputs(level + 2, v[level + 2], Some(lo), Some(hi));
          if TotalFileSize(overlaps) > maxBytes {
            GoesNoDeeper(v, level, lo, hi, maxBytes);
            break;
          }
        }
        level := level + 1;
      }
    }
  }

  // ----- Files of a sorted level

  lemma LevelUserOrder(files: seq<File>, a: nat, b: nat)
    requires LevelSorted(files) && a <= b < |files|
    ensures files[a].Smallest().user <= files[b].Smallest().user
    ensures files[a].Largest().user <= files[b].Largest().user
    ensures a < b ==> files[a].Largest().user <= files[b].Smallest().user
    ensures a < b ==> Less(files[a].Largest(), files[b].Smallest()) && Less(files[a].Smallest(), files[b].Smallest())
  {
    assert a < b ==> Precedes(files[a], files[b]);
    FileKeyOrder(files[a]);
    FileKeyOrder(files[b]);
  }

  lemma OverlappingParts(a: seq<File>, b: seq<File>, c: seq<File>, lo: Bound, hi: Bound)
    requires forall k :: 0 <= k < |a| ==> !Overlaps(a[k], lo, hi)
    requires forall k :: 0 <= k < |b| ==> Overlaps(b[k], lo, hi)
    requires forall k :: 0 <= k < |c| ==> !Overlaps(c[k], lo, hi)
    ensures Overlapping(a + b + c, lo, hi) == b
  {
    OverlappingConcat(a + b, c, lo, hi);
    OverlappingConcat(a, b, lo, hi);
    OverlappingNone(a, lo, hi);
    OverlappingAll(b, lo, hi);
    OverlappingNone(c, lo, hi);
  }

  /** In a sorted level the files that overlap a range are consecutive. */
  lemma OverlappingIsSlice(files: seq<File>, lo: Bound, hi: Bound) returns (i: nat, j: nat)
    requires LevelSorted(files)
    ensures i <= j <= |files| && Overlapping(files, lo, hi) == files[i..j]
    ensures forall k :: 0 <= k < i ==> AfterFile(lo, files[k])
    ensures forall k :: j <= k < |files| ==> BeforeFile(hi, files[k])
  {
    i := 0;
    while i < |files| && AfterFile(lo, files[i])
      invariant i <= |files| && forall k :: 0 <= k < i ==> AfterFile(lo, files[k])
    {
      i := i + 1;
    }
    j := i;
    while j < |files| && !BeforeFile(hi, files[j])
      invariant i <= j <= |files| && forall k :: i <= k < j ==> !BeforeFile(hi, files[k])
    {
      j := j + 1;
    }
    OverlapEndsOnce(files, lo, hi, i, j);
    OverlappingMiddle(files, i, j, lo, hi);
  }

  lemma OverlappingMiddle(files: seq<File>, i: nat, j: nat, lo: Bound, hi: Bound)
    requires i <= j <= |files|
    requires forall k :: 0 <= k < |files| ==> (Overlaps(files[k], lo, hi) <==> i <= k < j)
    ensures Overlapping(files, lo, hi) == files[i..j]
  {
    OverlappingParts(files[..i], files[i..j], files[j..], lo, hi);
    assert files == files[..i] + files[i..j] + files[j..];
  }

  lemma OverlapEndsOnce(files: seq<File>, lo: Bound, hi: Bound, i: nat, j: nat)
    requires LevelSorted(files) && i <= j <= |files|
    requires i < |files| ==> !AfterFile(lo, files[i])
    requires j < |files| ==> BeforeFile(hi, files[j])
    ensures forall k :: i <= k < |files| ==> !AfterFile(lo, files[k])
    ensures forall k :: j <= k < |files| ==> BeforeFile(hi, files[k])
  {
    forall k | i <= k < |files| ensures !AfterFile(lo, files[k]) {
      LevelUserOrder(files, i, k);
    }
    forall k | j <= k < |files| ensures BeforeFile(hi, files[k]) {
      LevelUserOrder(files, j, k);
    }
  }

  // ----- Key ranges

  ghost predicate IsRange(inputs: seq<File>, smallest: InternalKey, largest: InternalKey) {
    && (forall f :: f in inputs ==> !Less(f.Smallest(), smallest) && !Less(largest, f.Largest()))
    && (exists f :: f in inputs && f.Smallest() == smallest)
    && (exists f :: f in inputs && f.Largest() == largest)
  }

  /** VersionSet::GetRange. */
  method GetRange(inputs: seq<File>) returns (smallest: InternalKey, largest: InternalKey)
    requires inputs != []
    ensures IsRange(inputs, smallest, largest)
  {
    smallest, largest := inputs[0].Smallest(), inputs[0].Largest();
    assert inputs[0] in inputs;
    for i := 1 to |inputs|
      invariant forall k :: 0 <= k < i ==> !Less(inputs[k].Smallest(), smallest) && !Less(largest, inputs[k].Largest())
      invariant exists f :: f in inputs && f.Smallest() == smallest
      invariant exists f :: f in inputs && f.Largest() == largest
    {
      assert inputs[i] in inputs;
      if Less(inputs[i].Smallest(), smallest) {
        smallest := inputs[i].Smallest();
      }
      if Less(largest, inputs[i].Largest()) {
        largest := inputs[i].Largest();
      }
    }
  }

  // ----- Boundary files

  /** f starts with the user key that ends at largest, but with older entries of it. */
  predicate IsBoundary(f: File, largest: InternalKey) {
    Less(largest, f.Smallest()) && f.Smallest().user == largest.user
  }

  method FindSmallestBoundaryFile(levelFiles: seq<File>, largest: InternalKey) returns (r: Option<File>)
    ensures r.None? ==> forall f :: f in levelFiles ==> !IsBoundary(f, largest)
    ensures r.Some? ==> r.value in levelFiles && IsBoundary(r.value, largest)
    ensures r.Some? ==> forall f :: f in levelFiles && IsBoundary(f, largest) ==>
      !Less(f.Smallest(), r.value.Smallest())
  {
    r := None;
    for i := 0 to |levelFiles|
      invariant r.None? ==> forall k :: 0 <= k < i ==> !IsBoundary(levelFiles[k], largest)
      invariant r.Some? ==> r.value in levelFiles && IsBoundary(r.value, largest)
      invariant r.Some? ==> forall k :: 0 <= k < i && IsBoundary(levelFiles[k], largest) ==>
                  !Less(levelFiles[k].Smallest(), r.value.Smallest())
    {
      var f := levelFiles[i];
      if IsBoundary(f, largest) && (r.None? || Less(f.Smallest(), r.value.Smallest())) {
        assert f in levelFiles;
        r := Some(f);
      }
    }
  }

  /** How many files start after key: the measure of the search for boundary files. */
  ghost function StartingAfter(files: seq<File>, key: InternalKey): nat {
    if files == [] then 0 else (if Less(key, files[0].Smallest()) then 1 else 0) + StartingAfter(files[1..], key)
  }

  lemma {:induction false} LaterKeyStartsFewer(files: seq<File>, key: InternalKey, later: InternalKey)
    requires Less(key, later)
    ensures StartingAfter(files, later) <= StartingAfter(files, key)
    ensures (exists f :: f in files && Less(key, f.Smallest()) && !Less(later, f.Smallest())) ==>
              StartingAfter(files, later) < StartingAfter(files, key)
  {
    if files != [] {
      assert forall f :: f in files <==> f == files[0] || f in files[1..];
      LaterKeyStartsFewer(files[1..], key, later);
    }
  }

  /** Where a run of files that ends at index j ends once its boundary files are added. */
  ghost function BoundaryEnd(files: seq<File>, j: nat): (e: nat)
    requires 0 < j <= |files|
    ensures j <= e <= |files|
    decreases |files| - j
  {
    if j == |files| || files[j].Smallest().user != files[j - 1].Largest().user then j else BoundaryEnd(files, j + 1)
  }

  /** No file from index e on shares a user key with the files before it. */
  ghost predicate SeparatedAt(files: seq<File>, e: nat)
    requires 0 < e <= |files|
  {
    forall k :: e <= k < |files| ==> files[k].Smallest().user > files[e - 1].Largest().user
  }

  /** No file behind the extended run shares a user key with it. */
  lemma {:induction false} BoundaryEndSeparates(files: seq<File>, j: nat)
    requires LevelSorted(files) && 0 < j <= |files|
    ensures SeparatedAt(files, BoundaryEnd(files, j))
    decreases |files| - j
  {
    if j < |files| {
      if files[j].Smallest().user == files[j - 1].Largest().user {
        BoundaryEndSeparates(files, j + 1);
      } else {
        forall k | j <= k < |files| ensures files[k].Smallest().user > files[j - 1].Largest().user {
          LevelUserOrder(files, j - 1, j);
          LevelUserOrder(files, j, k);
        }
      }
    }
  }

  lemma NextBoundaryFile(files: seq<File>, j: nat, r: Option<File>)
    requires LevelSorted(files) && 0 < j <= |files|
    requires r.None? ==> forall f :: f in files ==> !IsBoundary(f, files[j - 1].Largest())
    requires r.Some? ==> r.value in files && IsBoundary(r.value, files[j - 1].Largest())
    requires r.Some? ==> forall f :: f in files && IsBoundary(f, files[j - 1].Largest()) ==>
      !Less(f.Smallest(), r.value.Smallest())
    ensures r.None? ==> BoundaryEnd(files, j) == j
    ensures r.Some? ==> j < |files| && r.value == files[j] && BoundaryEnd(files, j) == BoundaryEnd(files, j + 1)
  {
    if j < |files| {
      assert files[j] in files;
      LevelUserOrder(files, j - 1, j);
    }
    if r.Some? {
      var k :| 0 <= k < |files| && files[k] == r.value;
      if k < j {
        LevelUserOrder(files, k, j - 1);
        FileKeyOrder(files[j - 1]);
        assert false;
      } else if k > j {
        LevelUserOrder(files, j, k);
      }
    }
  }

  ghost predicate IsSlice(files: seq<File>, i: nat, j: nat, part: seq<File>) {
    i < j <= |files| && part == files[i..j]
  }

  /** Nothing outside part starts with a user key at which a file of part ends. */
  ghost predicate NoBoundary(files: seq<File>, part: seq<File>) {
    forall f, d :: f in files && d in part && f.Smallest().user == d.Largest().user ==> f in part
  }

  /** The slice [i..j] has grown to r, whose last key is largest. */
  ghost predicate Grown(files: seq<File>, i: nat, j: nat, r: seq<File>, largest: InternalKey) {
    && i < j <= i + |r| && IsSlice(files, i, i + |r|, r)
    && largest == files[i + |r| - 1].Largest()
    && BoundaryEnd(files, i + |r|) == BoundaryEnd(files, j)
  }

  /** Whatever slice of the sorted level part is, r is that slice grown. */
  ghost predicate GrownFrom(files: seq<File>, part: seq<File>, r: seq<File>, largest: InternalKey) {
    LevelSorted(files) ==> forall i: nat, j: nat :: IsSlice(files, i, j, part) ==> Grown(files, i, j, r, largest)
  }

  ghost predicate FullyGrownFrom(files: seq<File>, part: seq<File>, r: seq<File>) {
    LevelSorted(files) ==>
      forall i: nat, j: nat :: IsSlice(files, i, j, part) ==> IsSlice(files, i, BoundaryEnd(files, j), r)
  }

  lemma StartsGrown(files: seq<File>, part: seq<File>, largest: InternalKey)
    requires forall f :: f in part ==> !Less(largest, f.Largest())
    requires exists f :: f in part && f.Largest() == largest
    ensures GrownFrom(files, part, part, largest)
  {
    if LevelSorted(files) {
      forall i: nat, j: nat | IsSlice(files, i, j, part) ensures Grown(files, i, j, part, largest) {
        LastOfSlice(files, i, j, largest);
      }
    }
  }

  lemma StaysGrown(files: seq<File>, part: seq<File>, r: seq<File>, largest: InternalKey, next: Option<File>)
    requires GrownFrom(files, part, r, largest)
    requires next.None? ==> forall f :: f in files ==> !IsBoundary(f, largest)
    requires next.Some? ==> next.value in files && IsBoundary(next.value, largest)
    requires next.Some? ==> forall f :: f in files && IsBoundary(f, largest) ==>
      !Less(f.Smallest(), next.value.Smallest())
    ensures next.None? ==> FullyGrownFrom(files, part, r)
    ensures next.Some? ==> GrownFrom(files, part, r + [next.value], next.value.Largest())
  {
    if LevelSorted(files) {
      forall i: nat, j: nat | IsSlice(files, i, j, part)
        ensures next.None? ==> IsSlice(files, i, BoundaryEnd(files, j), r)
        ensures next.Some? ==> Grown(files, i, j, r + [next.value], next.value.Largest())
      {
        GrowsByOne(files, i, j, r, largest, next);
      }
    }
  }

  lemma GrowsByOne(files: seq<File>, i: nat, j: nat, r: seq<File>, largest: InternalKey, next: Option<File>)
    requires LevelSorted(files) && i < j <= |files| && Grown(files, i, j, r, largest)
    requires next.None? ==> forall f :: f in files ==> !IsBoundary(f, largest)
    requires next.Some? ==> next.value in files && IsBoundary(next.value, largest)
    requires next.Some? ==> forall f :: f in files && IsBoundary(f, largest) ==>
      !Less(f.Smallest(), next.value.Smallest())
    ensures next.None? ==> IsSlice(files, i, BoundaryEnd(files, j), r)
    ensures next.Some? ==> Grown(files, i, j, r + [next.value], next.value.Largest())
  {
    var m := i + |r|;
    NextBoundaryFile(files, m, next);
    hide LevelSorted, Less;
    if next.Some? {
      assert files[i..m + 1] == files[i..m] + [files[m]];
    }
  }

  /** AddBoundaryInputs: extend the inputs until no file of the level continues their last user key. */
  method AddBoundaryInputs(levelFiles: seq<File>, compactionFiles: seq<File>) returns (r: seq<File>)
    ensures NoBoundary(levelFiles, compactionFiles) ==> r == compactionFiles
    ensures compactionFiles != [] ==> FullyGrownFrom(levelFiles, compactionFiles, r)
  {
    r := compactionFiles;
    if compactionFiles == [] {
      return;
    }
    var _, largest := GetRange(compactionFiles);
    StartsGrown(levelFiles, compactionFiles, largest);
    while true
      invariant forall d :: d in compactionFiles ==> !Less(largest, d.Largest())
      invariant r == compactionFiles ==> exists d :: d in compactionFiles && d.Largest() == largest
      invariant NoBoundary(levelFiles, compactionFiles) ==> r == compactionFiles
      invariant GrownFrom(levelFiles, compactionFiles, r, largest)
      decreases StartingAfter(levelFiles, largest)
    {
      var next := FindSmallestBoundaryFile(levelFiles, largest);
      StaysGrown(levelFiles, compactionFiles, r, largest, next);
      if next.None? {
        return;
      }
      ClosedInputsHaveNoBoundary(levelFiles, compactionFiles, largest, next.value);
      FileKeyOrder(next.value);
      LaterKeyStartsFewer(levelFiles, largest, next.value.Largest());
      r := r + [next.value];
      largest := next.value.Largest();
    }
  }

  lemma ClosedInputsHaveNoBoundary(levelFiles: seq<File>, part: seq<File>, largest: InternalKey, next: File)
    requires forall d :: d in part ==> !Less(largest, d.Largest())
    requires next in levelFiles && IsBoundary(next, largest)
    ensures NoBoundary(levelFiles, part) ==> !exists d :: d in part && d.Largest() == largest
  {
    if next in part {
      FileKeyOrder(next);
    }
  }

  lemma LastOfSlice(files: seq<File>, i: nat, j: nat, largest: InternalKey)
    requires LevelSorted(files) && i < j <= |files|
    requires forall f :: f in files[i..j] ==> !Less(largest, f.Largest())
    requires exists f :: f in files[i..j] && f.Largest() == largest
    ensures largest == files[j - 1].Largest()
  {
    var f :| f in files[i..j] && f.Largest() == largest;
    var k :| i <= k < j && files[k] == f;
    assert files[j - 1] in files[i..j];
    if k < j - 1 {
      LargestAscends(files, j - 1);
    }
  }
}
