/**
 A version is the seven levels of table files.  This module holds the invariant that makes a
 level-by-level search correct, and the searches themselves.
 */
module Versions {
  import opened InternalKeys
  import opened Tables

  const NUM_LEVELS := 7
  const MAX_MEM_COMPACT_LEVEL := 2

  type Version = seq<seq<File>>

  ghost function LevelEntries(files: seq<File>): set<Entry> {
    set f, e | f in files && e in f.entries :: e
  }

  ghost function VersionEntries(v: Version): set<Entry> {
    set files, f, e | files in v && f in files && e in f.entries :: e
  }

  /** Levels above 0: files in key order with disjoint internal-key ranges. */
  ghost predicate LevelSorted(files: seq<File>) {
    forall i, j {:trigger Precedes(files[i], files[j])} :: 0 <= i < j < |files| ==> Precedes(files[i], files[j])
  }

  predicate Precedes(f: File, g: File) {
    Less(f.Largest(), g.Smallest())
  }

  /** Level 0: files may overlap, and a higher file number means newer data. */
  ghost predicate LevelZeroOrdered(files: seq<File>) {
    && (forall i, j :: 0 <= i < j < |files| ==> files[i].number != files[j].number)
    && forall f, g :: f in files && g in files && f.number > g.number ==>
         NewerThan(Elements(f.entries), Elements(g.entries))
  }

  ghost predicate SortedBelowZero(v: Version)
    requires |v| == NUM_LEVELS
  {
    forall l {:trigger LevelSorted(v[l])} :: 1 <= l < NUM_LEVELS ==> LevelSorted(v[l])
  }

  /** Shallower levels hold newer entries. */
  ghost predicate CrossLevel(v: Version)
    requires |v| == NUM_LEVELS
  {
    forall i, j {:trigger NewerThan(LevelEntries(v[i]), LevelEntries(v[j]))} ::
      0 <= i < j < NUM_LEVELS ==> NewerThan(LevelEntries(v[i]), LevelEntries(v[j]))
  }

  ghost predicate Ordered(v: Version) {
    && |v| == NUM_LEVELS
    && LevelZeroOrdered(v[0])
    && SortedBelowZero(v) && CrossLevel(v)
    && Distinct(VersionEntries(v))
  }

  lemma InVersion(v: Version, e: Entry)
    ensures e in VersionEntries(v) <==> exists l :: 0 <= l < |v| && e in LevelEntries(v[l])
  {
    if e in VersionEntries(v) {
      var files, f :| files in v && f in files && e in f.entries;
      var l :| 0 <= l < |v| && v[l] == files;
      assert e in LevelEntries(v[l]);
    }
  }

  // ----- Searching

  /** The first file whose largest key is at or after key, by binary search. */
  method FindFile(files: seq<File>, key: InternalKey) returns (index: nat)
    requires LevelSorted(files)
    ensures index <= |files|
    ensures forall i :: 0 <= i < index ==> Less(files[i].Largest(), key)
    ensures forall i :: index <= i < |files| ==> !Less(files[i].Largest(), key)
  {
    var left, right := 0, |files|;
    while left < right
      invariant 0 <= left <= right <= |files|
      invariant forall i :: 0 <= i < left ==> Less(files[i].Largest(), key)
      invariant forall i :: right <= i < |files| ==> !Less(files[i].Largest(), key)
    {
      var mid := (left + right) / 2;
      LargestAscends(files, mid);
      if Less(files[mid].Largest(), key) {
        left := mid + 1;
      } else {
        right := mid;
      }
    }
    return right;
  }

  lemma LargestAscends(files: seq<File>, m: nat)
    requires LevelSorted(files) && m < |files|
    ensures forall i :: 0 <= i < m ==> Less(files[i].Largest(), files[m].Largest())
    ensures forall i :: m < i < |files| ==> Less(files[m].Largest(), files[i].Largest())
  {
    forall i | 0 <= i < |files|
      ensures i < m ==> Less(files[i].Largest(), files[m].Largest())
      ensures m < i ==> Less(files[m].Largest(), files[i].Largest())
    {
      assert i < m ==> Precedes(files[i], files[m]);
      assert m < i ==> Precedes(files[m], files[i]);
      FileKeyOrder(files[i]);
      FileKeyOrder(files[m]);
    }
  }

  lemma FileKeyOrder(f: File)
    ensures f.Smallest() == f.Largest() || Less(f.Smallest(), f.Largest())
    ensures f.Smallest().user <= f.Largest().user
  {
    WithinFileRange(f, f.entries[|f.entries| - 1]);
  }

  predicate Covers(f: File, u: UserKey) {
    f.Smallest().user <= u <= f.Largest().user
  }

  ghost predicate NewestFirst(files: seq<File>) {
    forall j, k :: 0 <= j < k < |files| ==> files[j].number > files[k].number
  }

  /** Level 0: every file whose user-key range covers u, newest first. */
  method SearchLevelZero(files: seq<File>, u: UserKey, s: SequenceNumber) returns (r: LookupResult)
    requires LevelZeroOrdered(files)
    ensures Answers(r, LevelEntries(files), u, s)
  {
    var tmp: seq<File> := [];
    for i := 0 to |files|
      invariant forall f :: f in tmp <==> f in files[..i] && Covers(f, u)
      invariant NewestFirst(tmp)
    {
      if Covers(files[i], u) {
        tmp := InsertNewestFirst(tmp, files[i]);
      }
    }
    assert files[..|files|] == files;
    for i := 0 to |tmp|
      invariant forall k, e :: 0 <= k < i && e in tmp[k].entries ==> !Sees(e, u, s)
    {
      r := TableGet(tmp[i].entries, u, s);
      TableGetAnswers(tmp[i].entries, u, s);
      if !r.NotFound? {
        NewestFileHit(files, tmp, i, r, u, s);
        return;
      }
    }
    r := NotFound;
    OnlyCoveringFiles(files, tmp, u);
  }

  lemma OnlyCoveringFiles(files: seq<File>, tmp: seq<File>, u: UserKey)
    requires forall f :: f in tmp <==> f in files && Covers(f, u)
    ensures forall f, e :: f in files && e in f.entries && e.key.user == u ==> f in tmp
  {
    forall f, e | f in files && e in f.entries && e.key.user == u ensures f in tmp {
      WithinFileRange(f, e);
    }
  }

  lemma NewestFileHit(files: seq<File>, tmp: seq<File>, i: nat, r: LookupResult, u: UserKey, s: nat)
    requires LevelZeroOrdered(files) && i < |tmp| && NewestFirst(tmp)
    requires forall f :: f in tmp <==> f in files && Covers(f, u)
    requires forall k, e :: 0 <= k < i && e in tmp[k].entries ==> !Sees(e, u, s)
    requires !r.NotFound? && Answers(r, Elements(tmp[i].entries), u, s)
    ensures Answers(r, LevelEntries(files), u, s)
  {
    var e :| Newest(Elements(tmp[i].entries), u, s, e) && Reveals(e) == ToOption(r);
    OnlyCoveringFiles(files, tmp, u);
    assert tmp[i] in files;
    forall g | g in LevelEntries(files) && Sees(g, u, s) ensures g.key.sequence <= e.key.sequence {
      var f :| f in files && g in f.entries;
      var k :| 0 <= k < |tmp| && tmp[k] == f;
      if k > i {
        NewerFileHides(files, tmp[i], f, e, g);
      }
    }
    assert Newest(LevelEntries(files), u, s, e);
  }

  lemma NewerFileHides(files: seq<File>, newer: File, older: File, e: Entry, g: Entry)
    requires LevelZeroOrdered(files) && newer in files && older in files && newer.number > older.number
    requires e in newer.entries && g in older.entries && e.key.user == g.key.user
    ensures e.key.sequence > g.key.sequence
  {
    assert NewerThan(Elements(newer.entries), Elements(older.entries)) && Above(e, g);
  }

  /** One step of sorting the level-0 candidates by descending file number. */
  function InsertNewestFirst(tmp: seq<File>, f: File): (r: seq<File>)
    requires NewestFirst(tmp)
    ensures forall g :: g in r <==> g in tmp || g == f
    ensures (forall g :: g in tmp ==> g.number != f.number) ==> NewestFirst(r)
  {
    if tmp == [] || f.number > tmp[0].number then [f] + tmp
    else
      var rest := InsertNewestFirst(tmp[1..], f);
      assert forall g :: g in tmp <==> g == tmp[0] || g in tmp[1..];
      assert forall j :: 0 <= j < |rest| ==> rest[j] in rest;
      [tmp[0]] + rest
  }

  /** Deeper levels: only the one file that can hold the lookup key is read. */
  method SearchSortedLevel(files: seq<File>, u: UserKey, s: SequenceNumber) returns (r: LookupResult)
    requires LevelSorted(files)
    ensures Answers(r, LevelEntries(files), u, s)
  {
    var index := FindFile(files, LookupKey(u, s));
    OtherFilesAreOutOfReach(files, index, u, s);
    if index >= |files| {
      r := NotFound;
    } else if u < files[index].Smallest().user {
      r := NotFound;
      forall e | e in files[index].entries ensures !Sees(e, u, s) {
        WithinFileRange(files[index], e);
      }
      NothingAfter(files[index], u, s);
    } else {
      r := TableGet(files[index].entries, u, s);
      TableGetAnswers(files[index].entries, u, s);
      if r.NotFound? {
        NothingAfter(files[index], u, s);
      } else {
        OnlyFileHit(files, index, r, u, s);
      }
    }
  }

  /** Files before the found one end too early; visible entries of user key u in files after it come
      after its largest key. */
  lemma OtherFilesAreOutOfReach(files: seq<File>, index: nat, u: UserKey, s: SequenceNumber)
    requires LevelSorted(files) && index <= |files|
    requires forall i :: 0 <= i < index ==> Less(files[i].Largest(), LookupKey(u, s))
    ensures forall i, e :: 0 <= i < |files| && i != index && e in files[i].entries && Sees(e, u, s) ==>
              index < i && Less(files[index].Largest(), e.key)
  {
    forall i, e | 0 <= i < |files| && i != index && e in files[i].entries && Sees(e, u, s)
      ensures index < i && Less(files[index].Largest(), e.key)
    {
      WithinFileRange(files[i], e);
      LookupKeySplits(u, s, e.key);
      assert index < i ==> Precedes(files[index], files[i]);
    }
  }

  lemma OnlyFileHit(files: seq<File>, index: nat, r: LookupResult, u: UserKey, s: nat)
    requires LevelSorted(files) && index < |files|
    requires forall i, e :: 0 <= i < |files| && i != index && e in files[i].entries && Sees(e, u, s) ==>
               index < i && Less(files[index].Largest(), e.key)
    requires !r.NotFound? && Answers(r, Elements(files[index].entries), u, s)
    ensures Answers(r, LevelEntries(files), u, s)
  {
    var f := files[index];
    var e :| Newest(Elements(f.entries), u, s, e) && Reveals(e) == ToOption(r);
    WithinFileRange(f, e);
    forall g | g in LevelEntries(files) && Sees(g, u, s) ensures g.key.sequence <= e.key.sequence {
      var i :| 0 <= i < |files| && g in files[i].entries;
    }
    assert Newest(LevelEntries(files), u, s, e);
  }

  /** If the only file that reaches the lookup key shows nothing, its largest key is past user key u. */
  lemma NothingAfter(f: File, u: UserKey, s: SequenceNumber)
    requires !Less(f.Largest(), LookupKey(u, s))
    requires forall e :: e in f.entries ==> !Sees(e, u, s)
    ensures f.Largest().user > u
  {
    LookupKeySplits(u, s, f.Largest());
    assert f.entries[|f.entries| - 1] in f.entries;
  }

  /** Version::Get: levels in order, stopping at the first hit. */
  method Get(v: Version, u: UserKey, s: SequenceNumber) returns (r: LookupResult)
    requires Ordered(v)
    ensures Answers(r, VersionEntries(v), u, s)
  {
    for level := 0 to NUM_LEVELS
      invariant forall l, e :: 0 <= l < level && e in LevelEntries(v[l]) ==> !Sees(e, u, s)
    {
      if level == 0 {
        r := SearchLevelZero(v[0], u, s);
      } else {
        assert LevelEntries(v[level]) <= VersionEntries(v);
        r := SearchSortedLevel(v[level], u, s);
      }
      if !r.NotFound? {
        FirstHitIsNewest(v, level, r, u, s);
        return;
      }
    }
    r := NotFound;
    forall e | e in VersionEntries(v) ensures !Sees(e, u, s) {
      InVersion(v, e);
    }
  }

  lemma FirstHitIsNewest(v: Version, level: nat, r: LookupResult, u: UserKey, s: nat)
    requires Ordered(v) && level < NUM_LEVELS
    requires forall l, e :: 0 <= l < level && e in LevelEntries(v[l]) ==> !Sees(e, u, s)
    requires !r.NotFound? && Answers(r, LevelEntries(v[level]), u, s)
    ensures Answers(r, VersionEntries(v), u, s)
  {
    var e :| Newest(LevelEntries(v[level]), u, s, e) && Reveals(e) == ToOption(r);
    forall g | g in VersionEntries(v) && Sees(g, u, s) ensures g.key.sequence <= e.key.sequence {
      InVersion(v, g);
      var l :| 0 <= l < |v| && g in LevelEntries(v[l]);
      if l > level {
        assert NewerThan(LevelEntries(v[level]), LevelEntries(v[l])) && Above(e, g);
      }
    }
    InVersion(v, e);
    assert Newest(VersionEntries(v), u, s, e);
  }
}
