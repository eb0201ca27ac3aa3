/**
 The sorted runs that iterators over the store and over compaction inputs merge: memtables, level-0
 files one by one, and each deeper level as one run of consecutive files.
 */
module IteratorSources {
  import opened Basics
  import opened InternalKeys
  import opened Tables
  import opened Versions
  import opened CompactionSetup
  import opened VersionChanges
  import opened Stores
  import opened MergingIterators

  function EntriesOf(files: seq<File>): seq<seq<Entry>> {
    seq(|files|, i requires 0 <= i < |files| => files[i].entries)
  }

  /** A concatenating iterator over the files of a sorted level; none if the level is empty. */
  function LevelRun(files: seq<File>): seq<seq<Entry>> {
    if files == [] then [] else [Concat(files)]
  }

  /** The deeper levels from l on. */
  function DeepRuns(v: Version, l: nat): seq<seq<Entry>>
    decreases |v| - l
  {
    if l >= |v| then [] else LevelRun(v[l]) + DeepRuns(v, l + 1)
  }

  /** Version::AddIterators. */
  function VersionRuns(v: Version): seq<seq<Entry>>
    requires |v| == NUM_LEVELS
  {
    EntriesOf(v[0]) + DeepRuns(v, 1)
  }

  /** VersionSet::MakeInputIterator. */
  function InputRuns(level: nat, in0: seq<File>, in1: seq<File>): seq<seq<Entry>> {
    (if level == 0 then EntriesOf(in0) else LevelRun(in0)) + LevelRun(in1)
  }

  // ----- Putting runs together

  ghost predicate KeysApart(A: set<Entry>, B: set<Entry>) {
    forall e, f {:trigger SameKey(e, f)} :: e in A && f in B ==> !SameKey(e, f)
  }

  lemma NewerIsApart(A: set<Entry>, B: set<Entry>)
    requires NewerThan(A, B)
    ensures KeysApart(A, B)
  {
    forall e, f | e in A && f in B ensures !SameKey(e, f) {
      var above := Above(e, f);
    }
  }

  lemma UnionConcat(a: seq<seq<Entry>>, b: seq<seq<Entry>>)
    ensures Union(a + b) == Union(a) + Union(b)
  {
    forall e | e in Union(a) + Union(b) ensures e in Union(a + b) {
      if i :| 0 <= i < |a| && e in a[i] {
        assert (a + b)[i] == a[i];
      } else {
        var j :| 0 <= j < |b| && e in b[j];
        assert (a + b)[|a| + j] == b[j];
      }
    }
  }

  lemma MergeableConcat(a: seq<seq<Entry>>, b: seq<seq<Entry>>)
    requires Mergeable(a) && Mergeable(b) && KeysApart(Union(a), Union(b))
    ensures Mergeable(a + b) && Union(a + b) == Union(a) + Union(b)
  {
    var r := a + b;
    forall i, j, e, f | 0 <= i < j < |r| && e in r[i] && f in r[j] ensures !SameKey(e, f) {
      if j >= |a| {
        assert f in b[j - |a|];
        if i < |a| {
          assert e in Union(a) && f in Union(b);
        } else {
          assert e in b[i - |a|];
        }
      }
    }
    UnionConcat(a, b);
  }

  lemma MergeableOne(run: seq<Entry>)
    requires Sorted(run)
    ensures Mergeable([run]) && Union([run]) == Elements(run)
  {
    assert [run][0] == run;
  }

  // ----- Levels

  lemma {:induction false} ConcatSorted(files: seq<File>)
    requires LevelSorted(files)
    ensures Sorted(Concat(files))
  {
    if files != [] {
      var n := |files| - 1;
      SliceSorted(files, 0, n);
      ConcatSorted(files[..n]);
      ConcatEntries(files[..n]);
      forall e | e in Concat(files[..n]) ensures Less(e.key, files[n].Smallest()) {
        assert e in Elements(Concat(files[..n]));
        var f :| f in files[..n] && e in f.entries;
        var i :| 0 <= i < n && files[i] == f;
        assert Precedes(files[i], files[n]);
        WithinFileRange(f, e);
      }
      AppendSorted(Concat(files[..n]), files[n].entries);
    }
  }

  lemma AppendSorted(a: seq<Entry>, b: seq<Entry>)
    requires Sorted(a) && Sorted(b) && b != [] && forall e :: e in a ==> Less(e.key, b[0].key)
    ensures Sorted(a + b)
  {
    forall i, j | 0 <= i < |a| && 0 <= j < |b| ensures Less(a[i].key, b[j].key) {
      assert a[i] in a && (j == 0 || Less(b[0].key, b[j].key));
    }
  }

  lemma LevelRunMergeable(files: seq<File>)
    requires LevelSorted(files)
    ensures Mergeable(LevelRun(files)) && Union(LevelRun(files)) == LevelEntries(files)
  {
    if files != [] {
      ConcatSorted(files);
      ConcatEntries(files);
      MergeableOne(Concat(files));
    }
  }

  /** Level-0 files: the one with the higher number is newer, so no key is in two of them. */
  lemma LevelZeroMergeable(all: seq<File>, files: seq<File>)
    requires LevelZeroOrdered(all) && AllIn(files, all) && InputsInOrder(0, files)
    ensures Mergeable(EntriesOf(files)) && Union(EntriesOf(files)) == LevelEntries(files)
  {
    var runs := EntriesOf(files);
    forall i, j, e, f | 0 <= i < j < |runs| && e in runs[i] && f in runs[j] ensures !SameKey(e, f) {
      var g, h := files[i], files[j];
      assert g in files && h in files;
      if g.number > h.number {
        assert NewerThan(Elements(g.entries), Elements(h.entries));
        var above := Above(e, f);
      } else {
        assert NewerThan(Elements(h.entries), Elements(g.entries));
        var above := Above(f, e);
      }
    }
    forall e ensures e in Union(runs) <==> e in LevelEntries(files) {
      if e in LevelEntries(files) {
        var f :| f in files && e in f.entries;
        var i :| 0 <= i < |files| && files[i] == f;
        assert runs[i] == f.entries;
      }
    }
  }

  ghost function DeepEntries(v: Version, l: nat): set<Entry> {
    set i, e | l <= i < |v| && e in LevelEntries(v[i]) :: e
  }

  lemma {:induction false} DeepRunsMergeable(v: Version, l: nat)
    requires |v| == NUM_LEVELS && SortedBelowZero(v) && CrossLevel(v) && 1 <= l <= NUM_LEVELS
    ensures Mergeable(DeepRuns(v, l)) && Union(DeepRuns(v, l)) == DeepEntries(v, l)
    decreases NUM_LEVELS - l
  {
    if l < NUM_LEVELS {
      DeepRunsMergeable(v, l + 1);
      assert LevelSorted(v[l]);
      LevelRunMergeable(v[l]);
      LevelAboveDeeper(v, l);
      MergeableConcat(LevelRun(v[l]), DeepRuns(v, l + 1));
      assert DeepEntries(v, l) == LevelEntries(v[l]) + DeepEntries(v, l + 1);
    }
  }

  lemma LevelAboveDeeper(v: Version, l: nat)
    requires |v| == NUM_LEVELS && CrossLevel(v) && l < NUM_LEVELS
    ensures KeysApart(LevelEntries(v[l]), DeepEntries(v, l + 1))
  {
    forall e, f | e in LevelEntries(v[l]) && f in DeepEntries(v, l + 1) ensures Above(e, f) {
      var i :| l + 1 <= i < |v| && f in LevelEntries(v[i]);
      assert NewerThan(LevelEntries(v[l]), LevelEntries(v[i]));
    }
    NewerIsApart(LevelEntries(v[l]), DeepEntries(v, l + 1));
  }

  lemma VersionRunsMergeable(v: Version)
    requires Ordered(v)
    ensures Mergeable(VersionRuns(v)) && Union(VersionRuns(v)) == VersionEntries(v)
  {
    LevelZeroMergeable(v[0], v[0]);
    DeepRunsMergeable(v, 1);
    LevelAboveDeeper(v, 0);
    MergeableConcat(EntriesOf(v[0]), DeepRuns(v, 1));
    forall e ensures e in LevelEntries(v[0]) + DeepEntries(v, 1) <==> e in VersionEntries(v) {
      InVersion(v, e);
    }
  }

  /** The inputs of a compaction can be merged: they hold no key twice. */
  lemma InputRunsMergeable(v: Version, level: nat, in0: seq<File>, in1: seq<File>)
    requires Ordered(v) && Selected(v, level, in0, in1) && InputsInOrder(level, in0) && LevelSorted(in1)
    ensures Mergeable(InputRuns(level, in0, in1)) && Union(InputRuns(level, in0, in1)) == InputEntries(in0, in1)
  {
    if level == 0 {
      LevelZeroMergeable(v[0], in0);
    } else {
      LevelRunMergeable(in0);
    }
    LevelRunMergeable(in1);
    NewerParts(LevelEntries(v[level]), LevelEntries(v[level + 1]), LevelEntries(in0), LevelEntries(in1));
    NewerIsApart(LevelEntries(in0), LevelEntries(in1));
    MergeableConcat(if level == 0 then EntriesOf(in0) else LevelRun(in0), LevelRun(in1));
  }

  /** DBImpl::NewInternalIterator: everything a reader searches, with no key twice. */
  function StoreRuns(mem: seq<Entry>, imm: Option<seq<Entry>>, v: Version): seq<seq<Entry>>
    requires |v| == NUM_LEVELS
  {
    [mem] + ((if imm.Some? then [imm.value] else []) + VersionRuns(v))
  }

  lemma StoreRunsMergeable(st: Store)
    requires Inv(st)
    ensures var runs := StoreRuns(st.mem, st.imm, st.version); Mergeable(runs) && Union(runs) == AllEntries(st)
  {
    MemtablesAreNewer(st);
    VersionRunsMergeable(st.version);
    var F, M := VersionEntries(st.version), Elements(st.mem);
    var I := if st.imm.Some? then Elements(st.imm.value) else {};
    var older := if st.imm.Some? then [st.imm.value] else [];
    if st.imm.Some? {
      MergeableOne(st.imm.value);
      NewerIsApart(I, F);
    }
    MergeableConcat(older, VersionRuns(st.version));
    MergeableOne(st.mem);
    NewerIsApart(M, F);
    if st.imm.Some? {
      NewerIsApart(M, I);
    }
    MergeableConcat([st.mem], older + VersionRuns(st.version));
  }
}
