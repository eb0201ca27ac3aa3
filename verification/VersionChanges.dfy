/**
 How a flush and a compaction change a version, and why the version stays ordered.
 */
module VersionChanges {
  import opened InternalKeys
  import opened Tables
  import opened Versions
  import opened Overlap
  import opened CompactionInputs
  import opened CompactionSetup
  import opened CompactionWork
  import opened Builders

  ghost function Numbers(files: seq<File>): set<nat> {
    set f | f in files :: f.number
  }

  /** File numbers identify files. */
  ghost predicate NumbersUnique(v: Version) {
    forall l, m, f, g {:trigger Twins(f, l, g, m)} ::
      0 <= l < |v| && 0 <= m < |v| && f in v[l] && g in v[m] && Twins(f, l, g, m) ==> l == m && f == g
  }

  predicate Twins(f: File, l: int, g: File, m: int) {
    f.number == g.number
  }

  ghost predicate VersionOk(v: Version) {
    Ordered(v) && NumbersUnique(v) && InOrder(v[0])
  }

  lemma LevelsInOrder(v: Version, level: nat)
    requires VersionOk(v) && level < NUM_LEVELS
    ensures InOrder(v[level])
  {
    if level > 0 {
      SortedIsInOrder(v[level]);
    }
  }

  // ----- A level after an edit

  /** A level-0 file list is fixed by its members: in order, numbers distinct, newer numbers newer. */
  lemma LevelZeroFromMembers(files: seq<File>)
    requires InOrder(files)
    requires forall f, g :: f in files && g in files && f.number == g.number ==> f == g
    requires forall f, g :: f in files && g in files && f.number > g.number ==>
      NewerThan(Elements(f.entries), Elements(g.entries))
    ensures LevelZeroOrdered(files)
  {
    forall i, j | 0 <= i < j < |files| ensures files[i].number != files[j].number {
      assert BySmallest(files[i], files[j]);
      assert files[i] in files && files[j] in files;
    }
  }

  lemma LevelZeroNumbers(files: seq<File>)
    requires LevelZeroOrdered(files)
    ensures forall f, g :: f in files && g in files && f.number == g.number ==> f == g
  {
  }

  /** Removing files keeps a level well formed. */
  lemma RemovalKeepsLevel(v: Version, level: nat, deleted: set<nat>)
    requires VersionOk(v) && level < NUM_LEVELS
    ensures var r := SaveLevel(v[level], deleted, []);
            && InOrder(r) && (level == 0 ==> LevelZeroOrdered(r)) && (level > 0 ==> LevelSorted(r))
            && forall f :: f in r <==> f in v[level] && f.number !in deleted
  {
    var r := SaveLevel(v[level], deleted, []);
    LevelsInOrder(v, level);
    SaveLevelInOrder(v[level], deleted, []);
    SaveLevelMembers(v[level], deleted, []);
    if level == 0 {
      LevelZeroNumbers(v[0]);
      LevelZeroFromMembers(r);
    } else {
      SortedIsInOrder(v[level]);
      ApartIsSorted(r);
    }
  }

  /** Replacing files of a sorted level by others that keep apart from the rest keeps it sorted. */
  lemma ReplacementKeepsLevel(v: Version, level: nat, deleted: set<nat>, added: seq<File>)
    requires VersionOk(v) && 1 <= level < NUM_LEVELS && LevelSorted(added)
    requires forall f, g :: f in v[level] && g in added ==> f.number != g.number
    requires forall f :: f in added ==> f.number !in deleted
    requires forall f, g :: f in v[level] && f.number !in deleted && g in added ==> Precedes(f, g) || Precedes(g, f)
    ensures var r := SaveLevel(v[level], deleted, added);
            LevelSorted(r) && forall f :: f in r <==> (f in v[level] && f.number !in deleted) || f in added
  {
    var r := SaveLevel(v[level], deleted, added);
    LevelsInOrder(v, level);
    SortedIsInOrder(added);
    SaveLevelInOrder(v[level], deleted, added);
    SaveLevelMembers(v[level], deleted, added);
    SortedIsInOrder(v[level]);
    ApartIsSorted(r);
  }

  // ----- Flush

  ghost function AfterFlush(v: Version, level: nat, f: File): Version
    requires |v| == NUM_LEVELS && level < NUM_LEVELS
  {
    v[level := SaveLevel(v[level], {}, [f])]
  }

  /** f holds newer data than the version and has a fresh number. */
  ghost predicate FreshFile(v: Version, f: File) {
    && NewerThan(Elements(f.entries), VersionEntries(v))
    && Distinct(VersionEntries(v) + Elements(f.entries))
    && forall l, g :: 0 <= l < |v| && g in v[l] ==> g.number < f.number
  }

  lemma FlushedLevel(v: Version, level: nat, f: File)
    requires VersionOk(v) && level < NUM_LEVELS && FreshFile(v, f)
    requires FlushLevelOk(v, level, f.Smallest().user, f.Largest().user)
    ensures var r := SaveLevel(v[level], {}, [f]);
            && (level == 0 ==> LevelZeroOrdered(r) && InOrder(r)) && (level > 0 ==> LevelSorted(r))
            && forall g :: g in r <==> g in v[level] || g == f
  {
    if level == 0 {
      SaveLevelInOrder(v[0], {}, [f]);
      SaveLevelMembers(v[0], {}, [f]);
      LevelZeroNumbers(v[0]);
      forall g | g in v[0] ensures NewerThan(Elements(f.entries), Elements(g.entries)) {
        assert Elements(g.entries) <= VersionEntries(v);
      }
      LevelZeroFromMembers(SaveLevel(v[0], {}, [f]));
    } else {
      forall g | g in v[level] ensures Precedes(f, g) || Precedes(g, f) {
        assert NoOverlap(v[level], f.Smallest().user, f.Largest().user);
      }
      ReplacementKeepsLevel(v, level, {}, [f]);
    }
  }

  /** A level other than the flushed one, below or above, shares no older-newer conflict with f. */
  lemma FlushKeepsCrossLevel(v: Version, level: nat, f: File, i: nat, j: nat)
    requires VersionOk(v) && level < NUM_LEVELS && FreshFile(v, f)
    requires FlushLevelOk(v, level, f.Smallest().user, f.Largest().user)
    requires i < j < NUM_LEVELS
    ensures i == level ==> NewerThan(LevelEntries(v[i]) + Elements(f.entries), LevelEntries(v[j]))
    ensures j == level ==> NewerThan(LevelEntries(v[i]), LevelEntries(v[j]) + Elements(f.entries))
  {
    assert LevelEntries(v[j]) <= VersionEntries(v);
    if j == level {
      forall g, e, d | g in v[i] && e in g.entries && d in f.entries ensures e.key.user != d.key.user {
        assert NoOverlap(v[i], f.Smallest().user, f.Largest().user);
        WithinFileRange(g, e);
        WithinFileRange(f, d);
      }
      assert NewerThan(LevelEntries(v[i]), Elements(f.entries));
    }
    assert NewerThan(LevelEntries(v[i]), LevelEntries(v[j]));
  }

  lemma FlushKeepsVersionOk(v: Version, level: nat, f: File)
    requires VersionOk(v) && level < NUM_LEVELS && FreshFile(v, f)
    requires FlushLevelOk(v, level, f.Smallest().user, f.Largest().user)
    ensures VersionOk(AfterFlush(v, level, f))
    ensures VersionEntries(AfterFlush(v, level, f)) == VersionEntries(v) + Elements(f.entries)
  {
    var v' := AfterFlush(v, level, f);
    FlushedLevel(v, level, f);
    assert LevelEntries(v'[level]) == LevelEntries(v[level]) + Elements(f.entries);
    forall i, j | 0 <= i < j < NUM_LEVELS ensures NewerThan(LevelEntries(v'[i]), LevelEntries(v'[j])) {
      FlushKeepsCrossLevel(v, level, f, i, j);
    }
    forall e ensures e in VersionEntries(v') <==> e in VersionEntries(v) || e in f.entries {
      EntriesAfterFlush(v, v', level, f, e);
    }
    FlushKeepsNumbers(v, v', level, f);
  }

  lemma EntriesAfterFlush(v: Version, v': Version, level: nat, f: File, e: Entry)
    requires |v| == NUM_LEVELS == |v'| && level < NUM_LEVELS
    requires forall l :: 0 <= l < NUM_LEVELS && l != level ==> v'[l] == v[l]
    requires LevelEntries(v'[level]) == LevelEntries(v[level]) + Elements(f.entries)
    ensures e in VersionEntries(v') <==> e in VersionEntries(v) || e in f.entries
  {
    InVersion(v, e);
    InVersion(v', e);
    if e in VersionEntries(v) {
      var l :| 0 <= l < |v| && e in LevelEntries(v[l]);
      assert e in LevelEntries(v'[l]);
    }
    assert e in f.entries ==> e in LevelEntries(v'[level]);
  }

  lemma FlushKeepsNumbers(v: Version, v': Version, level: nat, f: File)
    requires |v| == NUM_LEVELS == |v'| && level < NUM_LEVELS && NumbersUnique(v)
    requires forall l :: 0 <= l < NUM_LEVELS && l != level ==> v'[l] == v[l]
    requires forall g :: g in v'[level] <==> g in v[level] || g == f
    requires forall l, g :: 0 <= l < |v| && g in v[l] ==> g.number < f.number
    ensures NumbersUnique(v')
  {
  }

  // ----- Compaction

  ghost function InputEntries(in0: seq<File>, in1: seq<File>): set<Entry> {
    LevelEntries(in0) + LevelEntries(in1)
  }

  /** The entries of all files that are not inputs. */
  ghost function RestEntries(v: Version, level: nat, in0: seq<File>, in1: seq<File>): set<Entry> {
    set e | e in VersionEntries(v) && exists l, f :: 0 <= l < |v| && f in v[l] && e in f.entries
                                        && !(l == level && f in in0) && !(l == level + 1 && f in in1)
  }

  ghost function AfterCompaction(v: Version, level: nat, in0: seq<File>, in1: seq<File>, outs: seq<File>): Version
    requires |v| == NUM_LEVELS && level + 1 < NUM_LEVELS
  {
    v[level := SaveLevel(v[level], Numbers(in0), [])][level + 1 := SaveLevel(v[level + 1], Numbers(in1), outs)]
  }

  /** Output files hold input entries only, in order, under numbers no other file has. */
  ghost predicate Outputs(v: Version, level: nat, in0: seq<File>, in1: seq<File>, outs: seq<File>)
    requires |v| == NUM_LEVELS && level + 1 < NUM_LEVELS
  {
    && LevelSorted(outs)
    && LevelEntries(outs) <= InputEntries(in0, in1)
    && (forall f, g :: f in outs && g in outs && f.number == g.number ==> f == g)
    && forall l, f, g {:trigger Twins(f, l, g, level + 1)} ::
         0 <= l < NUM_LEVELS && f in v[l] && g in outs && Twins(f, l, g, level + 1) ==> l == level && f in in0
  }

  lemma InputsRemoved(v: Version, level: nat, inputs: seq<File>)
    requires NumbersUnique(v) && level < |v| && AllIn(inputs, v[level])
    ensures forall f :: f in v[level] ==> (f.number in Numbers(inputs) <==> f in inputs)
  {
    forall f | f in v[level] && f.number in Numbers(inputs) ensures f in inputs {
      var g :| g in inputs && g.number == f.number;
      assert Twins(f, level, g, level);
    }
  }

  /** A file left in the next level lies to one side of every input entry. */
  lemma LeftFileBesideInputs(v: Version, level: nat, in0: seq<File>, in1: seq<File>, g: File)
    requires Ordered(v) && Selected(v, level, in0, in1) && g in v[level + 1] && g !in in1
    ensures || (forall e :: e in InputEntries(in0, in1) ==> Less(g.Largest(), e.key))
            || (forall e :: e in InputEntries(in0, in1) ==> Less(e.key, g.Smallest()))
  {
    SortedIsInOrder(v[level + 1]);
    FileKeyOrder(g);
    if forall d :: d in in0 ==> g.Largest().user < d.Smallest().user {
      forall h | h in in1 ensures Precedes(g, h) {
        FileKeyOrder(h);
        assert !Beside(h, in0);
      }
      forall e | e in InputEntries(in0, in1) ensures Less(g.Largest(), e.key) {
        var f :| (f in in0 || f in in1) && e in f.entries;
        WithinFileRange(f, e);
        assert f in in1 ==> Precedes(g, f);
      }
    } else {
      assert Beside(g, in0);
      forall h | h in in1 ensures Precedes(h, g) {
        FileKeyOrder(h);
        assert !Beside(h, in0);
      }
      forall e | e in InputEntries(in0, in1) ensures Less(e.key, g.Smallest()) {
        var f :| (f in in0 || f in in1) && e in f.entries;
        WithinFileRange(f, e);
        assert f in in1 ==> Precedes(f, g);
      }
    }
  }

  lemma OutputsApart(v: Version, level: nat, in0: seq<File>, in1: seq<File>, outs: seq<File>, g: File, o: File)
    requires Ordered(v) && Selected(v, level, in0, in1) && Outputs(v, level, in0, in1, outs)
    requires g in v[level + 1] && g !in in1 && o in outs
    ensures Precedes(g, o) || Precedes(o, g)
  {
    LeftFileBesideInputs(v, level, in0, in1, g);
    var first, last := o.entries[0], o.entries[|o.entries| - 1];
    assert first in o.entries && last in o.entries;
    assert first in LevelEntries(outs) && last in LevelEntries(outs);
  }

  lemma OutputLevel(v: Version, level: nat, in0: seq<File>, in1: seq<File>, outs: seq<File>)
    requires VersionOk(v) && Selected(v, level, in0, in1) && Outputs(v, level, in0, in1, outs)
    ensures var r := SaveLevel(v[level + 1], Numbers(in1), outs);
            LevelSorted(r) && forall f :: f in r <==> (f in v[level + 1] && f !in in1) || f in outs
  {
    InputsRemoved(v, level + 1, in1);
    forall f, g | f in v[level + 1] && g in outs ensures f.number != g.number {
      var twins := Twins(f, level + 1, g, level + 1);
    }
    forall f, g | f in v[level + 1] && f.number !in Numbers(in1) && g in outs ensures Precedes(f, g) || Precedes(g, f) {
      OutputsApart(v, level, in0, in1, outs, f, g);
    }
    ReplacementKeepsLevel(v, level + 1, Numbers(in1), outs);
  }

  lemma InputLevel(v: Version, level: nat, in0: seq<File>)
    requires VersionOk(v) && level < NUM_LEVELS && AllIn(in0, v[level])
    ensures var r := SaveLevel(v[level], Numbers(in0), []);
            && InOrder(r) && (level == 0 ==> LevelZeroOrdered(r)) && (level > 0 ==> LevelSorted(r))
            && forall f :: f in r <==> f in v[level] && f !in in0
  {
    InputsRemoved(v, level, in0);
    RemovalKeepsLevel(v, level, Numbers(in0));
  }

  // ----- Order across levels, as sets of entries

  lemma NewerParts(a: set<Entry>, b: set<Entry>, a': set<Entry>, b': set<Entry>)
    requires NewerThan(a, b) && a' <= a && b' <= b
    ensures NewerThan(a', b')
  {
  }

  lemma LeftIsNewerThanInputs(files: seq<File>, left: seq<File>, in0: seq<File>)
    requires LeavesNewer(files, in0) && forall f :: f in left <==> f in files && f !in in0
    ensures NewerThan(LevelEntries(left), LevelEntries(in0))
  {
    forall e, f | e in LevelEntries(left) && f in LevelEntries(in0) ensures Above(e, f) {
      var g :| g in left && e in g.entries;
      var d :| d in in0 && f in d.entries;
      assert NewerThan(Elements(g.entries), Elements(d.entries));
    }
  }

  /** Moving entries from a set to the one below it, leaving only newer ones behind, keeps CrossLevel. */
  lemma MoveDownKeepsCrossLevel(v: Version, v': Version, level: nat, moved: set<Entry>)
    requires |v| == NUM_LEVELS == |v'| && level + 1 < NUM_LEVELS && CrossLevel(v)
    requires forall l :: 0 <= l < NUM_LEVELS && l != level && l != level + 1 ==> v'[l] == v[l]
    requires LevelEntries(v'[level]) <= LevelEntries(v[level])
    requires moved <= LevelEntries(v[level]) && NewerThan(LevelEntries(v'[level]), moved)
    requires LevelEntries(v'[level + 1]) <= LevelEntries(v[level + 1]) + moved
    ensures CrossLevel(v')
  {
    var A, B := LevelEntries(v[level]), LevelEntries(v[level + 1]);
    forall i, j | 0 <= i < j < NUM_LEVELS ensures NewerThan(LevelEntries(v'[i]), LevelEntries(v'[j])) {
      var X, Y := LevelEntries(v'[i]), LevelEntries(v'[j]);
      if i < level && j == level {
        NewerParts(LevelEntries(v[i]), A, X, Y);
      } else if i < level && j == level + 1 {
        assert NewerThan(LevelEntries(v[i]), A) && NewerThan(LevelEntries(v[i]), B);
        NewerParts(LevelEntries(v[i]), A + B, X, Y);
      } else if i == level && j == level + 1 {
        NewerParts(A, B, X, B);
        NewerParts(X, B + moved, X, Y);
      } else if i == level {
        NewerParts(A, LevelEntries(v[j]), X, Y);
      } else if i == level + 1 {
        assert NewerThan(A, LevelEntries(v[j])) && NewerThan(B, LevelEntries(v[j]));
        NewerParts(A + B, LevelEntries(v[j]), X, Y);
      } else {
        assert NewerThan(LevelEntries(v[i]), LevelEntries(v[j]));
      }
    }
  }

  // ----- The version after a compaction

  /** v' is v with the inputs replaced by the outputs. */
  ghost predicate Replaced(v: Version, v': Version, level: nat, in0: seq<File>, in1: seq<File>, outs: seq<File>)
    requires |v| == NUM_LEVELS && level + 1 < NUM_LEVELS
  {
    && |v'| == NUM_LEVELS
    && (forall l :: 0 <= l < NUM_LEVELS && l != level && l != level + 1 ==> v'[l] == v[l])
    && (forall f :: f in v'[level] <==> f in v[level] && f !in in0)
    && (forall f :: f in v'[level + 1] <==> (f in v[level + 1] && f !in in1) || f in outs)
  }

  lemma EntriesAfterComeFrom(v: Version, v': Version, level: nat, in0: seq<File>, in1: seq<File>, outs: seq<File>,
                             e: Entry)
    requires |v| == NUM_LEVELS && level + 1 < NUM_LEVELS && Replaced(v, v', level, in0, in1, outs)
    requires e in VersionEntries(v')
    ensures e in RestEntries(v, level, in0, in1) || e in LevelEntries(outs)
  {
    InVersion(v', e);
    var l :| 0 <= l < |v'| && e in LevelEntries(v'[l]);
    var f :| f in v'[l] && e in f.entries;
    if !(l == level + 1 && f in outs) {
      assert f in v[l];
    }
  }

  lemma EntriesStay(v: Version, v': Version, level: nat, in0: seq<File>, in1: seq<File>, outs: seq<File>, e: Entry)
    requires |v| == NUM_LEVELS && level + 1 < NUM_LEVELS && Replaced(v, v', level, in0, in1, outs)
    requires e in RestEntries(v, level, in0, in1) || e in LevelEntries(outs)
    ensures e in VersionEntries(v')
  {
    if e in LevelEntries(outs) {
      var f :| f in outs && e in f.entries;
      assert f in v'[level + 1];
    } else {
      var l, f :| 0 <= l < |v| && f in v[l] && e in f.entries && !(l == level && f in in0)
                  && !(l == level + 1 && f in in1);
      assert f in v'[l];
    }
  }

  lemma EntriesBefore(v: Version, level: nat, in0: seq<File>, in1: seq<File>, e: Entry)
    requires |v| == NUM_LEVELS && level + 1 < NUM_LEVELS && AllIn(in0, v[level]) && AllIn(in1, v[level + 1])
    ensures e in VersionEntries(v) <==> e in RestEntries(v, level, in0, in1) || e in InputEntries(in0, in1)
  {
    if e in VersionEntries(v) {
      InVersion(v, e);
      var l :| 0 <= l < |v| && e in LevelEntries(v[l]);
      var f :| f in v[l] && e in f.entries;
    }
    if e in InputEntries(in0, in1) {
      var f :| (f in in0 || f in in1) && e in f.entries;
    }
  }

  lemma CompactionNumbers(v: Version, v': Version, level: nat, in0: seq<File>, in1: seq<File>, outs: seq<File>)
    requires |v| == NUM_LEVELS && level + 1 < NUM_LEVELS && NumbersUnique(v) && AllIn(in0, v[level])
    requires Outputs(v, level, in0, in1, outs) && Replaced(v, v', level, in0, in1, outs)
    ensures NumbersUnique(v')
  {
    forall l, m, f, g | 0 <= l < NUM_LEVELS && 0 <= m < NUM_LEVELS && f in v'[l] && g in v'[m] && Twins(f, l, g, m)
      ensures l == m && f == g
    {
      assert f in v[l] || (l == level + 1 && f in outs);
      assert g in v[m] || (m == level + 1 && g in outs);
      var twins := Twins(f, l, g, level + 1) && Twins(g, m, f, level + 1);
    }
  }

  lemma CompactionReplaces(v: Version, level: nat, in0: seq<File>, in1: seq<File>, outs: seq<File>)
    requires VersionOk(v) && Selected(v, level, in0, in1) && Outputs(v, level, in0, in1, outs)
    ensures var v' := AfterCompaction(v, level, in0, in1, outs);
            && Replaced(v, v', level, in0, in1, outs)
            && LevelZeroOrdered(v'[0]) && InOrder(v'[0]) && SortedBelowZero(v')
  {
    var v' := AfterCompaction(v, level, in0, in1, outs);
    InputLevel(v, level, in0);
    OutputLevel(v, level, in0, in1, outs);
    forall l | 1 <= l < NUM_LEVELS ensures LevelSorted(v'[l]) {
      assert l != level && l != level + 1 ==> LevelSorted(v[l]);
    }
  }

  lemma CompactionCrossLevel(v: Version, v': Version, level: nat, in0: seq<File>, in1: seq<File>, outs: seq<File>)
    requires |v| == NUM_LEVELS && Selected(v, level, in0, in1) && CrossLevel(v)
    requires Outputs(v, level, in0, in1, outs) && Replaced(v, v', level, in0, in1, outs)
    ensures CrossLevel(v')
  {
    LeftIsNewerThanInputs(v[level], v'[level], in0);
    assert LevelEntries(in1) <= LevelEntries(v[level + 1]);
    var after := LevelEntries(v'[level + 1]);
    forall e | e in after ensures e in LevelEntries(v[level + 1]) + LevelEntries(in0) {
      var f :| f in v'[level + 1] && e in f.entries;
      assert f in outs ==> e in LevelEntries(outs);
    }
    MoveDownKeepsCrossLevel(v, v', level, LevelEntries(in0));
  }

  /** Installing outputs made of input entries keeps the version well formed; the other files' entries stay. */
  lemma CompactionKeepsVersionOk(v: Version, level: nat, in0: seq<File>, in1: seq<File>, outs: seq<File>)
    requires VersionOk(v) && Selected(v, level, in0, in1) && Outputs(v, level, in0, in1, outs)
    ensures VersionOk(AfterCompaction(v, level, in0, in1, outs))
    ensures VersionEntries(AfterCompaction(v, level, in0, in1, outs))
      == RestEntries(v, level, in0, in1) + LevelEntries(outs)
    ensures VersionEntries(v) == RestEntries(v, level, in0, in1) + InputEntries(in0, in1)
  {
    var v' := AfterCompaction(v, level, in0, in1, outs);
    CompactionReplaces(v, level, in0, in1, outs);
    CompactionCrossLevel(v, v', level, in0, in1, outs);
    CompactionNumbers(v, v', level, in0, in1, outs);
    forall e ensures e in VersionEntries(v') <==> e in RestEntries(v, level, in0, in1) + LevelEntries(outs) {
      if e in VersionEntries(v') {
        EntriesAfterComeFrom(v, v', level, in0, in1, outs, e);
      } else if e in RestEntries(v, level, in0, in1) + LevelEntries(outs) {
        EntriesStay(v, v', level, in0, in1, outs, e);
      }
    }
    forall e ensures e in VersionEntries(v) <==> e in RestEntries(v, level, in0, in1) + InputEntries(in0, in1) {
      EntriesBefore(v, level, in0, in1, e);
    }
    assert VersionEntries(v') <= VersionEntries(v);
  }
}
