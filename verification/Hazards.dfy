/**
 Two choices the code makes without checking: the next level's boundary files are not compaction
 inputs, and a flush may land between the inputs of a running compaction.  What goes wrong, and when not.
 */
module Hazards {
  import opened Basics
  import opened InternalKeys
  import opened Tables
  import opened Versions
  import opened Overlap
  import opened CompactionInputs
  import opened CompactionSetup
  import opened CompactionWork
  import opened VersionChanges
  import opened Builders
  import MergingIterators

  // ----- Dropping deletion markers

  /** No next-level file left out of the compaction holds an older entry of a user key found in the inputs. */
  ghost predicate BoundaryTaken(v: Version, level: nat, in0: seq<File>, in1: seq<File>)
    requires |v| == NUM_LEVELS && level + 1 < NUM_LEVELS
  {
    forall g :: g in v[level + 1] && g !in in1 ==> NewerThan(Elements(g.entries), InputEntries(in0, in1))
  }

  /** With boundary files taken care of, no marker is dropped while something older remains. */
  lemma BoundaryTakenIsSafe(v: Version, level: nat, in0: seq<File>, in1: seq<File>, ss: nat)
    requires Ordered(v) && Selected(v, level, in0, in1) && BoundaryTaken(v, level, in0, in1)
    ensures SafeToDrop(v, level, RestEntries(v, level, in0, in1), InputEntries(in0, in1), ss)
  {
    var R, M := RestEntries(v, level, in0, in1), InputEntries(in0, in1);
    forall e, f | e in M && f in R && Obsolete(v, level, e.key, ss) && f.key.user == e.key.user
      ensures f.key.sequence > e.key.sequence
    {
      RestIsNewer(v, level, in0, in1, ss, e, f);
    }
  }

  lemma RestIsNewer(v: Version, level: nat, in0: seq<File>, in1: seq<File>, ss: nat, e: Entry, f: Entry)
    requires Ordered(v) && Selected(v, level, in0, in1) && BoundaryTaken(v, level, in0, in1)
    requires e in InputEntries(in0, in1) && f in RestEntries(v, level, in0, in1)
    requires Obsolete(v, level, e.key, ss) && f.key.user == e.key.user
    ensures f.key.sequence > e.key.sequence
  {
    hide Ordered, Obsolete, LeavesNewer, LeavesBeside, AllTouch, Less;
    var l, g :| 0 <= l < |v| && g in v[l] && f in g.entries && !(l == level && g in in0)
                && !(l == level + 1 && g in in1);
    if l == level + 1 {
      assert NewerThan(Elements(g.entries), InputEntries(in0, in1));
      NewerEntry(Elements(g.entries), InputEntries(in0, in1), f, e);
    } else {
      ElsewhereIsNewer(v, level, in0, in1, ss, e, f, l, g);
    }
  }

  lemma ElsewhereIsNewer(v: Version, level: nat, in0: seq<File>, in1: seq<File>, ss: nat, e: Entry, f: Entry, l: nat,
                         g: File)
    requires Ordered(v) && Selected(v, level, in0, in1)
    requires e in InputEntries(in0, in1) && Obsolete(v, level, e.key, ss) && f.key.user == e.key.user
    requires l < |v| && l != level + 1 && g in v[l] && f in g.entries && !(l == level && g in in0)
    ensures f.key.sequence > e.key.sequence
  {
    var covered := Covers(g, f.key.user);
    WithinFileRange(g, f);
    assert l <= level;
    var d :| (d in in0 || d in in1) && e in d.entries;
    if l == level && d in in0 {
      assert NewerThan(Elements(g.entries), Elements(d.entries));
      NewerEntry(Elements(g.entries), Elements(d.entries), f, e);
    } else {
      ShallowerIsNewer(v, l, if d in in0 then level else level + 1, g, d, f, e);
    }
  }

  lemma ShallowerIsNewer(v: Version, l: nat, m: nat, g: File, d: File, f: Entry, e: Entry)
    requires Ordered(v) && l < m < NUM_LEVELS && g in v[l] && d in v[m]
    requires f in g.entries && e in d.entries && f.key.user == e.key.user
    ensures f.key.sequence > e.key.sequence
  {
    assert NewerThan(LevelEntries(v[l]), LevelEntries(v[m]));
    NewerEntry(LevelEntries(v[l]), LevelEntries(v[m]), f, e);
  }

  lemma NewerEntry(a: set<Entry>, b: set<Entry>, f: Entry, e: Entry)
    requires NewerThan(a, b) && f in a && e in b && f.key.user == e.key.user
    ensures f.key.sequence > e.key.sequence
  {
    var above := Above(f, e);
  }

  /** Every user key of a level is in one file only. */
  ghost predicate UserKeysWhole(files: seq<File>) {
    forall f, g :: f in files && g in files && f != g ==>
      f.Largest().user < g.Smallest().user || g.Largest().user < f.Smallest().user
  }

  /** If the next level splits no user key between files, there is nothing to fear for a compaction into it. */
  lemma WholeKeysTakeBoundary(v: Version, level: nat, in0: seq<File>, in1: seq<File>)
    requires Selected(v, level, in0, in1) && UserKeysWhole(v[level + 1])
    ensures BoundaryTaken(v, level, in0, in1)
  {
    forall g | g in v[level + 1] && g !in in1 ensures NewerThan(Elements(g.entries), InputEntries(in0, in1)) {
      forall f, e | f in g.entries && e in InputEntries(in0, in1) ensures Above(f, e) {
        var d :| (d in in0 || d in in1) && e in d.entries;
        FileKeyOrder(g);
        FileKeyOrder(d);
        WithinFileRange(g, f);
        WithinFileRange(d, e);
        assert d in in0 ==> Beside(g, in0);
      }
    }
  }

  // ----- A deleted key comes back

  /** A version with files in two neighbouring levels only. */
  ghost function TwoLevels(at: nat, one: seq<File>, two: seq<File>): (v: Version)
    requires 1 <= at && at + 1 < NUM_LEVELS
    ensures |v| == NUM_LEVELS && v[at] == one && v[at + 1] == two
    ensures forall l :: 0 <= l < NUM_LEVELS && l != at && l != at + 1 ==> v[l] == []
  {
    seq(NUM_LEVELS, l => if l == at then one else if l == at + 1 then two else [])
  }

  lemma EntriesOfOne(f: File)
    ensures LevelEntries([f]) == Elements(f.entries)
  {
    assert forall g :: g in [f] <==> g == f;
  }

  lemma EntriesOfTwo(f: File, g: File)
    ensures LevelEntries([f, g]) == Elements(f.entries) + Elements(g.entries)
  {
    assert forall h :: h in [f, g] <==> h == f || h == g;
  }

  lemma TwoLevelsOrdered(at: nat, one: seq<File>, two: seq<File>)
    requires 1 <= at && at + 1 < NUM_LEVELS
    requires LevelSorted(one) && LevelSorted(two) && NewerThan(LevelEntries(one), LevelEntries(two))
    requires Distinct(LevelEntries(one) + LevelEntries(two))
    ensures Ordered(TwoLevels(at, one, two))
    ensures VersionEntries(TwoLevels(at, one, two)) == LevelEntries(one) + LevelEntries(two)
  {
    var v := TwoLevels(at, one, two);
    forall l | 1 <= l < NUM_LEVELS ensures LevelSorted(v[l]) {
    }
    forall i, j | 0 <= i < j < NUM_LEVELS ensures NewerThan(LevelEntries(v[i]), LevelEntries(v[j])) {
    }
    forall e ensures e in VersionEntries(v) <==> e in LevelEntries(one) + LevelEntries(two) {
      InVersion(v, e);
      assert e in LevelEntries(v[at]) || e in LevelEntries(v[at + 1]) ==> e in VersionEntries(v);
    }
  }

  /** The next-level files of a single input are those that overlap it. */
  lemma ParentsOfOne(x: File, y: File, z: File)
    requires y.Smallest().user <= x.Largest().user && x.Smallest().user <= y.Largest().user
    requires x.Largest().user < z.Smallest().user
    ensures ParentsOf([y, z], [x], [y])
  {
    assert IsRange([x], x.Smallest(), x.Largest()) by {
      assert x in [x];
      FileKeyOrder(x);
    }
    OverlappingParts([], [y], [z], Some(x.Smallest().user), Some(x.Largest().user));
    assert [] + [y] + [z] == [y, z];
  }

  /** A compaction of x, with y overlapping it and z after it, takes y and leaves z. */
  lemma TakesFirstOfTwo(at: nat, x: File, y: File, z: File)
    requires 1 <= at && at + 1 < NUM_LEVELS
    requires y.Smallest().user <= x.Largest().user && x.Smallest().user <= y.Largest().user
    requires x.Largest().user < z.Smallest().user
    ensures Selected(TwoLevels(at, [x], [y, z]), at, [x], [y])
  {
    assert x in [x] && y in [y];
    assert !Beside(y, [x]) && Beside(z, [x]);
  }

  lemma LeavesSecondOfTwo(at: nat, x: File, y: File, z: File)
    requires 1 <= at && at + 1 < NUM_LEVELS && y != z
    ensures RestEntries(TwoLevels(at, [x], [y, z]), at, [x], [y]) == Elements(z.entries)
    ensures InputEntries([x], [y]) == Elements(x.entries) + Elements(y.entries)
  {
    var v := TwoLevels(at, [x], [y, z]);
    EntriesOfOne(x);
    EntriesOfOne(y);
    assert v[at + 1][1] == z && z in v[at + 1] && v[at + 1] in v && z !in [y];
    forall e ensures e in RestEntries(v, at, [x], [y]) <==> e in z.entries {
      if e in RestEntries(v, at, [x], [y]) {
        var l: int, f: File :| 0 <= l < |v| && f in v[l] && e in f.entries && !(l == at && f in [x])
          && !(l == at + 1 && f in [y]);
        assert f == z;
      }
    }
  }

  const OLD := Entry(InternalKey(1.0, 1, Put), [1])
  const DELETED := Entry(InternalKey(2.0, 2, Put), [2])
  const MARKER := Entry(InternalKey(2.0, 3, Deletion), [])
  const NEW := Entry(InternalKey(1.0, 4, Put), [4])

  ghost const X: File := File(7, 1, [NEW])
  ghost const Y: File := File(4, 1, [OLD, MARKER])
  ghost const Z: File := File(5, 1, [DELETED])

  /** Level 3 splits user key 2 between two files: its deletion in Y, the older deleted value in Z. */
  ghost function Split(): Version {
    TwoLevels(2, [X], [Y, Z])
  }

  lemma SplitKeyIsOrdered()
    ensures Ordered(Split()) && VersionEntries(Split()) == {NEW, OLD, MARKER, DELETED}
  {
    hide Ordered, VersionEntries, LevelEntries;
    EntriesOfOne(X);
    EntriesOfTwo(Y, Z);
    assert Elements([NEW]) == {NEW} && Elements([OLD, MARKER]) == {OLD, MARKER} && Elements([DELETED]) == {DELETED};
    assert Precedes(Y, Z);
    assert LevelEntries([X]) == {NEW} && LevelEntries([Y, Z]) == {OLD, MARKER, DELETED};
    TwoLevelsOrdered(2, [X], [Y, Z]);
  }

  /** A compaction of X takes Y as its only next-level input, as SetupOtherInputs chooses it. */
  lemma SplitKeyIsSelected()
    ensures Ordered(Split()) && Selected(Split(), 2, [X], [Y]) && ParentsOf(Split()[3], [X], [Y])
  {
    SplitKeyIsOrdered();
    TakesFirstOfTwo(2, X, Y, Z);
    ParentsOfOne(X, Y, Z);
  }

  lemma SplitKeyAfter()
    ensures RestEntries(Split(), 2, [X], [Y]) == {DELETED} && InputEntries([X], [Y]) == {NEW, OLD, MARKER}
  {
    LeavesSecondOfTwo(2, X, Y, Z);
    SplitKeyParts();
  }

  /** That compaction drops the deletion and leaves the older value: a reader who saw nothing before it
      sees the deleted value after it. */
  lemma DeletedKeyComesBack()
    ensures View(VersionEntries(Split()), 2.0, 4) == None
    ensures View(RestEntries(Split(), 2, [X], [Y]) + KeptSet(Split(), 2, InputEntries([X], [Y]), 4), 2.0, 4)
      == Some([2])
  {
    SplitKeyIsOrdered();
    SplitKeyAfter();
    DroppedWhileOlderRemains(Split(), {DELETED}, {NEW, OLD, MARKER});
  }

  lemma SplitKeyParts()
    ensures Elements(Z.entries) == {DELETED} && Elements(X.entries) + Elements(Y.entries) == {NEW, OLD, MARKER}
  {
  }

  lemma DroppedWhileOlderRemains(v: Version, R: set<Entry>, M: set<Entry>)
    requires |v| == NUM_LEVELS && v[4] == v[5] == v[6] == []
    requires R == {DELETED} && M == {NEW, OLD, MARKER}
    ensures R + M == {NEW, OLD, MARKER, DELETED}
    ensures View(R + M, 2.0, 4) == None && View(R + KeptSet(v, 2, M, 4), 2.0, 4) == Some([2])
  {
    assert Newest(R + M, 2.0, 4, MARKER) && Newest(R, 2.0, 3, DELETED);
    assert Obsolete(v, 2, MARKER.key, 4);
    UnsafeDropChangesView(v, 2, R, M, 4, MARKER, DELETED);
  }

  // ----- A flush into a gap

  const A_OLD := Entry(InternalKey(1.0, 1, Put), [1])
  const C_OLD := Entry(InternalKey(5.0, 2, Put), [2])
  const A := Entry(InternalKey(1.0, 3, Put), [3])
  const C := Entry(InternalKey(5.0, 4, Put), [4])
  const B := Entry(InternalKey(3.0, 5, Put), [5])

  ghost const LEFT_OLD: File := File(3, 1, [A_OLD])
  ghost const RIGHT_OLD: File := File(5, 1, [C_OLD])
  ghost const LEFT: File := File(7, 1, [A])
  ghost const RIGHT: File := File(9, 1, [C])
  ghost const FLUSHED: File := File(11, 1, [B])
  ghost const OUTPUT: File := File(12, 1, [A, C])

  /** Levels 1 and 2 each hold user keys 1 and 5 in two files, all four inputs of a running compaction. */
  ghost function Gap(): Version {
    TwoLevels(1, [LEFT, RIGHT], [LEFT_OLD, RIGHT_OLD])
  }

  /** A memtable with only user key 3 may be flushed to level 2, in front of the compaction's output;
      the level is then no longer sorted into disjoint files. */
  lemma FlushIntoGapBreaksLevel()
    ensures var v, in0, in1 := Gap(), [LEFT, RIGHT], [LEFT_OLD, RIGHT_OLD];
            && Selected(v, 1, in0, in1) && FlushLevelOk(v, 2, 3.0, 3.0)
            && Outputs(AfterFlush(v, 2, FLUSHED), 1, in0, in1, [OUTPUT])
            && Elements(OUTPUT.entries) == KeptSet(v, 1, InputEntries(in0, in1), 4)
            && !LevelSorted(AfterCompaction(AfterFlush(v, 2, FLUSHED), 1, in0, in1, [OUTPUT])[2])
  {
    var v := Gap();
    var in0, in1 := [LEFT, RIGHT], [LEFT_OLD, RIGHT_OLD];
    GapIsOk();
    FlushedIsFresh();
    GapKeeps();
    assert LEFT in in0 && RIGHT in in0;
    assert LEFT.entries[0] == A && RIGHT.entries[0] == C && OUTPUT.entries[0] == A && OUTPUT.entries[1] == C;
    assert FLUSHED.Smallest() == B.key == FLUSHED.Largest() && LEFT.Largest() == A.key && RIGHT.Smallest() == C.key;
    FlushInGapAllowed();
    hide Selected, VersionOk, FreshFile, Outputs, LevelSorted, FlushLevelOk, KeptSet, InputEntries, AfterFlush;
    SplitOutputBreaksLevel(v, 1, in0, in1, FLUSHED, LEFT, RIGHT, OUTPUT);
  }

  lemma FlushInGapAllowed()
    ensures FlushLevelOk(Gap(), 2, 3.0, 3.0)
  {
    forall l | 0 <= l <= 2 ensures NoOverlap(Gap()[l], 3.0, 3.0) {
    }
  }

  lemma GapIsOrdered()
    ensures Ordered(Gap()) && VersionEntries(Gap()) == {A, C, A_OLD, C_OLD}
  {
    hide Ordered, VersionEntries, LevelEntries;
    EntriesOfTwo(LEFT, RIGHT);
    EntriesOfTwo(LEFT_OLD, RIGHT_OLD);
    assert Elements([A]) == {A} && Elements([C]) == {C} && Elements([A_OLD]) == {A_OLD} && Elements([C_OLD]) == {C_OLD};
    assert Precedes(LEFT, RIGHT) && Precedes(LEFT_OLD, RIGHT_OLD);
    assert LevelEntries([LEFT, RIGHT]) == {A, C} && LevelEntries([LEFT_OLD, RIGHT_OLD]) == {A_OLD, C_OLD};
    TwoLevelsOrdered(1, [LEFT, RIGHT], [LEFT_OLD, RIGHT_OLD]);
  }

  lemma GapIsSelected()
    ensures Selected(Gap(), 1, [LEFT, RIGHT], [LEFT_OLD, RIGHT_OLD])
  {
    var in0, in1 := [LEFT, RIGHT], [LEFT_OLD, RIGHT_OLD];
    assert LEFT in in0 && RIGHT in in0;
    assert !Beside(LEFT_OLD, in0) && !Beside(RIGHT_OLD, in0);
  }

  lemma GapIsOk()
    ensures VersionOk(Gap()) && Selected(Gap(), 1, [LEFT, RIGHT], [LEFT_OLD, RIGHT_OLD])
  {
    GapIsOrdered();
    GapIsSelected();
    hide Ordered, Selected;
    var v := Gap();
    forall l, m, f, g | 0 <= l < |v| && 0 <= m < |v| && f in v[l] && g in v[m] && Twins(f, l, g, m)
      ensures l == m && f == g
    {
      assert l == 1 || l == 2;
      assert m == 1 || m == 2;
    }
  }

  lemma FlushedIsFresh()
    ensures FreshFile(Gap(), FLUSHED)
  {
    GapIsOrdered();
    hide Ordered, VersionEntries;
    assert Elements([B]) == {B};
  }

  lemma GapKeeps()
    ensures KeptSet(Gap(), 1, InputEntries([LEFT, RIGHT], [LEFT_OLD, RIGHT_OLD]), 4) == {A, C} == Elements([A, C])
  {
    EntriesOfTwo(LEFT, RIGHT);
    EntriesOfTwo(LEFT_OLD, RIGHT_OLD);
    assert Elements([A]) == {A} && Elements([C]) == {C} && Elements([A_OLD]) == {A_OLD} && Elements([C_OLD]) == {C_OLD};
    var M := {A, C, A_OLD, C_OLD};
    assert InputEntries([LEFT, RIGHT], [LEFT_OLD, RIGHT_OLD]) == M;
    assert HiddenIn(M, A_OLD, 4) && HiddenIn(M, C_OLD, 4);
    assert !HiddenIn(M, A, 4) && !HiddenIn(M, C, 4);
    assert Elements([A, C]) == {A, C};
  }

  /** The files of Gap() as a version, for calls. */
  method MakeGap() returns (v: Version)
    ensures v == Gap()
  {
    v := [[], [File(7, 1, [A]), File(9, 1, [C])], [File(3, 1, [A_OLD]), File(5, 1, [C_OLD])], [], [], [], []];
  }

  /** A manual compaction of level 1 without range limits takes the four files as its inputs, unless one file
      alone reaches the size it stops at. */
  method GapIsPicked(fileSizeLimit: nat, sizeLimit: nat) returns (in0: seq<File>, in1: seq<File>)
    ensures Selected(Gap(), 1, in0, in1) && LEFT in in0
    ensures fileSizeLimit > 1 ==> in0 == [LEFT, RIGHT] && in1 == [LEFT_OLD, RIGHT_OLD]
  {
    GapIsOrdered();
    var v := MakeGap();
    var nothing, grandparents;
    nothing, in0, in1, grandparents := CompactRange(v, 1, None, None, fileSizeLimit, sizeLimit);
    if !nothing {
      ManualTakesUpToSize(v, 1, None, None, fileSizeLimit, sizeLimit, in0, in1);
    }
    PickedFromGap(fileSizeLimit, nothing, in0, in1);
  }

  lemma PickedFromGap(limit: nat, nothing: bool, in0: seq<File>, in1: seq<File>)
    requires nothing <==> NoneOverlaps([LEFT, RIGHT], None, None)
    requires !nothing ==> Selected(Gap(), 1, in0, in1) && InputsInOrder(1, in0)
    requires !nothing ==> TakesUpToSize(Overlapping([LEFT, RIGHT], None, None), limit, in0)
    requires !nothing ==> ParentsOf([LEFT_OLD, RIGHT_OLD], in0, in1)
    ensures Selected(Gap(), 1, in0, in1) && LEFT in in0
    ensures limit > 1 ==> in0 == [LEFT, RIGHT] && in1 == [LEFT_OLD, RIGHT_OLD]
  {
    assert LEFT in [LEFT, RIGHT];
    OverlappingAll([LEFT, RIGHT], None, None);
    hide Selected, ParentsOf;
    TakesLeft(limit, in0);
    if limit > 1 {
      assert AllIn(in0, [LEFT, RIGHT]) by {
        SelectedInGap(in0, in1);
      }
      TakesBoth(limit, in0);
      ParentsOfGap(in1);
    }
  }

  lemma SelectedInGap(in0: seq<File>, in1: seq<File>)
    requires Selected(Gap(), 1, in0, in1)
    ensures AllIn(in0, [LEFT, RIGHT])
  {
  }

  lemma TakesLeft(limit: nat, in0: seq<File>)
    requires TakesUpToSize([LEFT, RIGHT], limit, in0)
    ensures LEFT in in0
  {
    var both := [LEFT, RIGHT];
    var n: nat :| UpToSize(both, limit, n) && AllIn(both[..n], in0);
    assert both[..n][0] == LEFT;
  }

  lemma TakesBoth(limit: nat, in0: seq<File>)
    requires limit > 1 && TakesUpToSize([LEFT, RIGHT], limit, in0)
    requires AllIn(in0, [LEFT, RIGHT]) && LevelSorted(in0)
    ensures in0 == [LEFT, RIGHT]
  {
    var both := [LEFT, RIGHT];
    var n: nat :| UpToSize(both, limit, n) && AllIn(both[..n], in0);
    assert both[..1] == [LEFT];
    assert TotalFileSize([LEFT]) == 1;
    assert n == 2 && both[..2] == both;
    SortedIsInOrder(in0);
    assert BySmallest(LEFT, RIGHT);
    assert LEFT in both && RIGHT in both;
    InOrderIsUnique(in0, both);
  }

  lemma ParentsOfGap(in1: seq<File>)
    requires ParentsOf([LEFT_OLD, RIGHT_OLD], [LEFT, RIGHT], in1)
    ensures in1 == [LEFT_OLD, RIGHT_OLD]
  {
    var smallest, largest :| IsRange([LEFT, RIGHT], smallest, largest)
      && in1 == Overlapping([LEFT_OLD, RIGHT_OLD], Some(smallest.user), Some(largest.user));
    RangeOfGap(smallest, largest);
    OverlappingAll([LEFT_OLD, RIGHT_OLD], Some(1.0), Some(5.0));
  }

  lemma RangeOfGap(smallest: InternalKey, largest: InternalKey)
    requires IsRange([LEFT, RIGHT], smallest, largest)
    ensures smallest.user == 1.0 && largest.user == 5.0
  {
    assert LEFT in [LEFT, RIGHT] && RIGHT in [LEFT, RIGHT];
  }

  /** A memtable with only user key 3 goes to level 2, whatever the limit on overlapping grandparents. */
  method FlushLevelInGap(maxBytes: nat) returns (level: nat)
    ensures level == 2
  {
    GapIsOrdered();
    FlushInGapAllowed();
    var v := MakeGap();
    level := PickLevelForMemTableOutput(v, 3.0, 3.0, maxBytes);
    GapIsPassed(maxBytes);
  }

  lemma GapIsPassed(maxBytes: nat)
    ensures MayFlushTo(Gap(), 2, 3.0, 3.0, maxBytes)
  {
    FlushInGapAllowed();
    forall l | 0 <= l < 2 ensures FewBytesBelow(Gap(), l, 3.0, 3.0, maxBytes) {
      OverlappingNone(Gap()[l + 2], Some(3.0), Some(3.0));
    }
  }

  // ----- When a flush is safe

  /** If the compaction may produce these output files, they leave its output level sorted. */
  ghost predicate OutputsFit(v: Version, level: nat, in0: seq<File>, in1: seq<File>, outs: seq<File>)
    requires |v| == NUM_LEVELS && level + 1 < NUM_LEVELS
  {
    Outputs(v, level, in0, in1, outs) ==> LevelSorted(AfterCompaction(v, level, in0, in1, outs)[level + 1])
  }

  ghost predicate EveryOutputFits(v: Version, level: nat, in0: seq<File>, in1: seq<File>)
    requires |v| == NUM_LEVELS && level + 1 < NUM_LEVELS
  {
    forall outs: seq<File> :: OutputsFit(v, level, in0, in1, outs)
  }

  /** While a compaction is running, a flush to its output level is safe whatever part of its inputs the
      compaction will write exactly if the flushed keys lie to one side of the first inputs. */
  lemma FlushIsSafeIffBeside(v: Version, level: nat, in0: seq<File>, in1: seq<File>, f: File)
    requires VersionOk(v) && Selected(v, level, in0, in1) && FreshFile(v, f)
    requires FlushLevelOk(v, level + 1, f.Smallest().user, f.Largest().user)
    ensures Beside(f, in0) <==> EveryOutputFits(AfterFlush(v, level + 1, f), level, in0, in1)
  {
    hide VersionOk, Selected, FreshFile, FlushLevelOk, EveryOutputFits, Beside, AfterFlush;
    if Beside(f, in0) {
      BesideIsSafe(v, level, in0, in1, f);
    } else {
      BetweenIsUnsafe(v, level, in0, in1, f);
    }
  }

  lemma BesideIsSafe(v: Version, level: nat, in0: seq<File>, in1: seq<File>, f: File)
    requires VersionOk(v) && Selected(v, level, in0, in1) && FreshFile(v, f)
    requires FlushLevelOk(v, level + 1, f.Smallest().user, f.Largest().user) && Beside(f, in0)
    ensures EveryOutputFits(AfterFlush(v, level + 1, f), level, in0, in1)
  {
    var v' := AfterFlush(v, level + 1, f);
    FlushKeepsVersionOk(v, level + 1, f);
    FlushKeepsSelected(v, level, in0, in1, f);
    hide VersionOk, Selected, FreshFile, FlushLevelOk, Beside, AfterFlush, Outputs, LevelSorted;
    forall outs: seq<File> ensures OutputsFit(v', level, in0, in1, outs) {
      if Outputs(v', level, in0, in1, outs) {
        OutputLevel(v', level, in0, in1, outs);
      }
    }
  }

  lemma BetweenIsUnsafe(v: Version, level: nat, in0: seq<File>, in1: seq<File>, f: File)
    requires VersionOk(v) && Selected(v, level, in0, in1) && FreshFile(v, f)
    requires FlushLevelOk(v, level + 1, f.Smallest().user, f.Largest().user) && !Beside(f, in0)
    ensures !EveryOutputFits(AfterFlush(v, level + 1, f), level, in0, in1)
  {
    var l, r := OnBothSides(v, level, in0, f);
    FileKeyOrder(f);
    FileKeyOrder(l);
    assert Sorted([l.entries[0], r.entries[0]]);
    var o: File := File(f.number + 1, 1, [l.entries[0], r.entries[0]]);
    hide VersionOk, Selected, FreshFile, FlushLevelOk, Beside, AfterFlush, Outputs, LevelSorted;
    SplitOutputBreaksLevel(v, level, in0, in1, f, l, r, o);
    assert !OutputsFit(AfterFlush(v, level + 1, f), level, in0, in1, [o]);
  }

  lemma FlushKeepsSelected(v: Version, level: nat, in0: seq<File>, in1: seq<File>, f: File)
    requires VersionOk(v) && Selected(v, level, in0, in1) && FreshFile(v, f) && Beside(f, in0)
    requires FlushLevelOk(v, level + 1, f.Smallest().user, f.Largest().user)
    ensures Selected(AfterFlush(v, level + 1, f), level, in0, in1)
  {
    FlushedLevel(v, level + 1, f);
  }

  /** A flushed file that overlaps no input and does not lie to one side of them lies between two. */
  lemma OnBothSides(v: Version, level: nat, in0: seq<File>, f: File) returns (l: File, r: File)
    requires |v| == NUM_LEVELS && level + 1 < NUM_LEVELS && AllIn(in0, v[level]) && !Beside(f, in0)
    requires FlushLevelOk(v, level + 1, f.Smallest().user, f.Largest().user)
    ensures l in in0 && r in in0 && l.Largest().user < f.Smallest().user && f.Largest().user < r.Smallest().user
  {
    l :| l in in0 && !(f.Largest().user < l.Smallest().user);
    r :| r in in0 && !(f.Smallest().user > r.Largest().user);
    assert NoOverlap(v[level], f.Smallest().user, f.Largest().user);
  }

  /** One output file with an entry from each side is a possible output. */
  lemma SplitOutput(v: Version, level: nat, in0: seq<File>, in1: seq<File>, f: File, l: File, r: File, o: File)
    requires VersionOk(v) && Selected(v, level, in0, in1) && FreshFile(v, f)
    requires FlushLevelOk(v, level + 1, f.Smallest().user, f.Largest().user)
    requires l in in0 && r in in0
    requires o.number == f.number + 1 && o.entries == [l.entries[0], r.entries[0]]
    ensures Outputs(AfterFlush(v, level + 1, f), level, in0, in1, [o])
  {
    var v' := AfterFlush(v, level + 1, f);
    FlushedLevel(v, level + 1, f);
    forall e | e in LevelEntries([o]) ensures e in InputEntries(in0, in1) {
      assert e in o.entries;
      assert l.entries[0] in l.entries && r.entries[0] in r.entries;
    }
    forall m, g | 0 <= m < NUM_LEVELS && g in v'[m] ensures !Twins(g, m, o, level + 1) {
      assert g in v[m] || g == f;
    }
  }

  /** It does not fit beside the flushed file. */
  lemma SplitOutputBreaksLevel(v: Version, level: nat, in0: seq<File>, in1: seq<File>, f: File, l: File, r: File,
                               o: File)
    requires VersionOk(v) && Selected(v, level, in0, in1) && FreshFile(v, f)
    requires FlushLevelOk(v, level + 1, f.Smallest().user, f.Largest().user)
    requires l in in0 && r in in0 && l.Largest().user < f.Smallest().user && f.Largest().user < r.Smallest().user
    requires o.number == f.number + 1 && o.entries == [l.entries[0], r.entries[0]]
    ensures var v' := AfterFlush(v, level + 1, f);
            && Outputs(v', level, in0, in1, [o])
            && !LevelSorted(AfterCompaction(v', level, in0, in1, [o])[level + 1])
  {
    SplitOutput(v, level, in0, in1, f, l, r, o);
    FlushedLevel(v, level + 1, f);
    FileKeyOrder(l);
    FileKeyOrder(f);
    hide Selected, FreshFile, Outputs, VersionOk, Less;
    assert !Precedes(f, o) && !Precedes(o, f) by {
      NotApart(f, l, r, o);
    }
    OldNumbersKept(v, level, in0, in1, f);
    BothInLevel(SaveLevel(v[level + 1], {}, [f]), Numbers(in1), f, o);
  }

  lemma NotApart(f: File, l: File, r: File, o: File)
    requires l.Largest().user < f.Smallest().user && f.Largest().user < r.Smallest().user
    requires o.entries == [l.entries[0], r.entries[0]]
    ensures !Precedes(f, o) && !Precedes(o, f)
  {
    FileKeyOrder(l);
    FileKeyOrder(f);
  }

  lemma OldNumbersKept(v: Version, level: nat, in0: seq<File>, in1: seq<File>, f: File)
    requires Selected(v, level, in0, in1) && FreshFile(v, f)
    ensures f.number !in Numbers(in1) && f.number + 1 !in Numbers(in1)
  {
  }

  lemma BothInLevel(files: seq<File>, deleted: set<nat>, f: File, o: File)
    requires f in files && f.number !in deleted && o.number !in deleted && f != o
    requires !Precedes(f, o) && !Precedes(o, f)
    ensures !LevelSorted(SaveLevel(files, deleted, [o]))
  {
    SaveLevelMembers(files, deleted, [o]);
    var level := SaveLevel(files, deleted, [o]);
    assert o in [o] && o in level && f in level;
    if LevelSorted(level) {
      SortedIsInOrder(level);
    }
  }

  // ----- What is written decides

  /** The output files hold exactly these entries. */
  ghost predicate CutOf(v: Version, level: nat, in0: seq<File>, in1: seq<File>, kept: set<Entry>, outs: seq<File>)
    requires |v| == NUM_LEVELS && level + 1 < NUM_LEVELS
  {
    Outputs(v, level, in0, in1, outs) && LevelEntries(outs) == kept
  }

  ghost predicate CutFits(v: Version, level: nat, in0: seq<File>, in1: seq<File>, kept: set<Entry>, outs: seq<File>)
    requires |v| == NUM_LEVELS && level + 1 < NUM_LEVELS
  {
    CutOf(v, level, in0, in1, kept, outs) ==> LevelSorted(AfterCompaction(v, level, in0, in1, outs)[level + 1])
  }

  /** However the compaction cuts these entries into files, they leave its output level sorted. */
  ghost predicate EveryCutFits(v: Version, level: nat, in0: seq<File>, in1: seq<File>, kept: set<Entry>)
    requires |v| == NUM_LEVELS && level + 1 < NUM_LEVELS
  {
    forall outs: seq<File> :: CutFits(v, level, in0, in1, kept, outs)
  }

  /** The entries are not on both sides of the file. */
  ghost predicate OnOneSide(f: File, kept: set<Entry>) {
    || (forall e :: e in kept ==> f.Largest().user < e.key.user)
    || (forall e :: e in kept ==> e.key.user < f.Smallest().user)
  }

  /** A flush to the output level of a running compaction is safe exactly if the entries the compaction keeps,
      of those it merges, are not on both sides of the flushed keys.  What is kept depends on the version the
      compaction was picked in and on the oldest snapshot of that time. */
  lemma FlushIsSafeIffKeptOnOneSide(picked: Version, ss: nat, v: Version, level: nat, in0: seq<File>, in1: seq<File>,
                                    f: File)
    requires VersionOk(v) && Selected(v, level, in0, in1) && FreshFile(v, f) && |picked| == NUM_LEVELS
    requires FlushLevelOk(v, level + 1, f.Smallest().user, f.Largest().user)
    ensures var kept := KeptSet(picked, level, InputEntries(in0, in1), ss);
            OnOneSide(f, kept) <==> EveryCutFits(AfterFlush(v, level + 1, f), level, in0, in1, kept)
  {
    var kept := KeptSet(picked, level, InputEntries(in0, in1), ss);
    assert kept <= InputEntries(in0, in1);
    hide VersionOk, Selected, FreshFile, FlushLevelOk, EveryCutFits, OnOneSide, AfterFlush, KeptSet, InputEntries;
    if OnOneSide(f, kept) {
      OneSideIsSafe(v, level, in0, in1, f, kept);
    } else {
      BothSidesAreUnsafe(v, level, in0, in1, f, kept);
    }
  }

  lemma OneSideIsSafe(v: Version, level: nat, in0: seq<File>, in1: seq<File>, f: File, kept: set<Entry>)
    requires VersionOk(v) && Selected(v, level, in0, in1) && FreshFile(v, f) && OnOneSide(f, kept)
    requires FlushLevelOk(v, level + 1, f.Smallest().user, f.Largest().user)
    ensures EveryCutFits(AfterFlush(v, level + 1, f), level, in0, in1, kept)
  {
    var v' := AfterFlush(v, level + 1, f);
    hide VersionOk, Selected, FreshFile, FlushLevelOk, OnOneSide, AfterFlush, CutOf, LevelSorted;
    forall outs: seq<File> ensures CutFits(v', level, in0, in1, kept, outs) {
      if CutOf(v', level, in0, in1, kept, outs) {
        CutOnOneSide(v, level, in0, in1, f, kept, outs);
      }
    }
  }

  lemma {:induction false} CutOnOneSide(v: Version, level: nat, in0: seq<File>, in1: seq<File>, f: File,
                                        kept: set<Entry>, outs: seq<File>)
    requires VersionOk(v) && Selected(v, level, in0, in1) && FreshFile(v, f) && OnOneSide(f, kept)
    requires FlushLevelOk(v, level + 1, f.Smallest().user, f.Largest().user)
    requires CutOf(AfterFlush(v, level + 1, f), level, in0, in1, kept, outs)
    ensures LevelSorted(AfterCompaction(AfterFlush(v, level + 1, f), level, in0, in1, outs)[level + 1])
  {
    var v' := AfterFlush(v, level + 1, f);
    assert |v'| == NUM_LEVELS && level + 1 < NUM_LEVELS;
    hide VersionOk, Selected, FreshFile, FlushLevelOk, OnOneSide, LevelSorted, SaveLevel, Precedes, AfterFlush, Outputs;
    hide LevelEntries, NumbersUnique, CutOf;
    FlushKeepsVersionOk(v, level + 1, f);
    CutParts(v', level, in0, in1, kept, outs);
    OutputsBefore(v, level, in0, in1, f, outs);
    InputsAfterFlush(v, level, in0, in1, f);
    NewNumbers(v', level, in0, in1, outs);
    NumbersAreUnique(v');
    InputsRemoved(v', level + 1, in1);
    forall g: File, o: File | g in v'[level + 1] && g.number !in Numbers(in1) && o in outs
      ensures Precedes(g, o) || Precedes(o, g)
    {
      ApartFromCut(v, level, in0, in1, f, kept, outs, g, o);
    }
    ReplacementKeepsLevel(v', level + 1, Numbers(in1), outs);
  }

  lemma CutParts(v: Version, level: nat, in0: seq<File>, in1: seq<File>, kept: set<Entry>, outs: seq<File>)
    requires |v| == NUM_LEVELS && level + 1 < NUM_LEVELS && CutOf(v, level, in0, in1, kept, outs)
    ensures Outputs(v, level, in0, in1, outs) && LevelSorted(outs) && LevelEntries(outs) == kept
  {
  }

  lemma NumbersAreUnique(v: Version)
    requires VersionOk(v)
    ensures NumbersUnique(v)
  {
  }

  lemma InputsAfterFlush(v: Version, level: nat, in0: seq<File>, in1: seq<File>, f: File)
    requires VersionOk(v) && Selected(v, level, in0, in1) && FreshFile(v, f)
    requires FlushLevelOk(v, level + 1, f.Smallest().user, f.Largest().user)
    ensures AllIn(in1, AfterFlush(v, level + 1, f)[level + 1])
  {
    FlushedLevel(v, level + 1, f);
    hide VersionOk, FreshFile, FlushLevelOk, SaveLevel;
  }

  lemma ApartFromCut(v: Version, level: nat, in0: seq<File>, in1: seq<File>, f: File, kept: set<Entry>,
                     outs: seq<File>, g: File, o: File)
    requires VersionOk(v) && Selected(v, level, in0, in1) && FreshFile(v, f) && OnOneSide(f, kept)
    requires FlushLevelOk(v, level + 1, f.Smallest().user, f.Largest().user)
    requires Outputs(v, level, in0, in1, outs) && LevelEntries(outs) == kept
    requires g in AfterFlush(v, level + 1, f)[level + 1] && g !in in1 && o in outs
    ensures Precedes(g, o) || Precedes(o, g)
  {
    FlushedLevel(v, level + 1, f);
    hide Selected, FreshFile, FlushLevelOk, OnOneSide, LevelSorted, SaveLevel, Precedes, Outputs, LevelEntries;
    if g == f {
      KeptApart(f, kept, outs, o);
    } else {
      OutputsApart(v, level, in0, in1, outs, g, o);
    }
  }

  lemma OutputsBefore(v: Version, level: nat, in0: seq<File>, in1: seq<File>, f: File, outs: seq<File>)
    requires VersionOk(v) && level + 1 < NUM_LEVELS && FreshFile(v, f)
    requires FlushLevelOk(v, level + 1, f.Smallest().user, f.Largest().user)
    requires Outputs(AfterFlush(v, level + 1, f), level, in0, in1, outs)
    ensures Outputs(v, level, in0, in1, outs)
  {
    FlushedLevel(v, level + 1, f);
    hide VersionOk, FreshFile, FlushLevelOk, LevelSorted, SaveLevel;
  }

  lemma NewNumbers(v: Version, level: nat, in0: seq<File>, in1: seq<File>, outs: seq<File>)
    requires |v| == NUM_LEVELS && level + 1 < NUM_LEVELS && AllIn(in1, v[level + 1])
    requires Outputs(v, level, in0, in1, outs)
    ensures forall g: File, o: File :: g in v[level + 1] && o in outs ==> g.number != o.number
    ensures forall o :: o in outs ==> o.number !in Numbers(in1)
  {
    hide LevelSorted;
    forall g: File, o: File | g in v[level + 1] && o in outs ensures g.number != o.number {
      var twins := Twins(g, level + 1, o, level + 1);
    }
  }

  lemma KeptApart(f: File, kept: set<Entry>, outs: seq<File>, o: File)
    requires OnOneSide(f, kept) && LevelEntries(outs) == kept && o in outs
    ensures Precedes(f, o) || Precedes(o, f)
  {
    var first, last := o.entries[0], o.entries[|o.entries| - 1];
    assert first in o.entries && last in o.entries;
    assert first in kept && last in kept;
    FileKeyOrder(o);
  }

  /** Written as one file, they reach across the flushed one. */
  lemma BothSidesAreUnsafe(v: Version, level: nat, in0: seq<File>, in1: seq<File>, f: File, kept: set<Entry>)
    requires VersionOk(v) && Selected(v, level, in0, in1) && FreshFile(v, f) && !OnOneSide(f, kept)
    requires FlushLevelOk(v, level + 1, f.Smallest().user, f.Largest().user) && kept <= InputEntries(in0, in1)
    ensures !EveryCutFits(AfterFlush(v, level + 1, f), level, in0, in1, kept)
  {
    KeptAreDistinct(v, level, in0, in1, kept);
    var es := MergingIterators.SortedSet(kept);
    var e :| e in kept && !(f.Largest().user < e.key.user);
    assert e in Elements(es);
    var o: File := File(f.number + 1, 1, es);
    OneFileCut(v, level, in0, in1, f, kept, o);
    OneFileReachesAcross(v, level, in0, in1, f, kept, o);
    hide VersionOk, Selected, FreshFile, FlushLevelOk, OnOneSide, AfterFlush, CutOf, LevelSorted;
    assert !CutFits(AfterFlush(v, level + 1, f), level, in0, in1, kept, [o]);
  }

  lemma KeptAreDistinct(v: Version, level: nat, in0: seq<File>, in1: seq<File>, kept: set<Entry>)
    requires VersionOk(v) && Selected(v, level, in0, in1) && kept <= InputEntries(in0, in1)
    ensures forall e, g {:trigger MergingIterators.SameKey(e, g)} ::
      e in kept && g in kept && MergingIterators.SameKey(e, g) ==> e == g
  {
    forall e, g | e in kept && g in kept && MergingIterators.SameKey(e, g) ensures e == g {
      EntriesBefore(v, level, in0, in1, e);
      EntriesBefore(v, level, in0, in1, g);
      assert SameSlot(e, g);
    }
  }

  lemma OneFileCut(v: Version, level: nat, in0: seq<File>, in1: seq<File>, f: File, kept: set<Entry>, o: File)
    requires VersionOk(v) && Selected(v, level, in0, in1) && FreshFile(v, f) && kept <= InputEntries(in0, in1)
    requires FlushLevelOk(v, level + 1, f.Smallest().user, f.Largest().user)
    requires o.number == f.number + 1 && Elements(o.entries) == kept
    ensures CutOf(AfterFlush(v, level + 1, f), level, in0, in1, kept, [o])
  {
    var v' := AfterFlush(v, level + 1, f);
    assert |v| == NUM_LEVELS && level + 1 < NUM_LEVELS;
    hide VersionOk, Selected, FlushLevelOk, SaveLevel, FreshFile, LevelEntries, InputEntries;
    EntriesOfOne(o);
    FlushedLevel(v, level + 1, f);
    NumberIsLargest(v, f);
    forall m, g | 0 <= m < NUM_LEVELS && g in v'[m] ensures !Twins(g, m, o, level + 1) {
      assert g in v[m] || g == f;
    }
  }

  lemma NumberIsLargest(v: Version, f: File)
    requires FreshFile(v, f)
    ensures forall l, g :: 0 <= l < |v| && g in v[l] ==> g.number < f.number
  {
  }

  lemma OneFileReachesAcross(v: Version, level: nat, in0: seq<File>, in1: seq<File>, f: File, kept: set<Entry>,
                             o: File)
    requires VersionOk(v) && Selected(v, level, in0, in1) && FreshFile(v, f) && !OnOneSide(f, kept)
    requires FlushLevelOk(v, level + 1, f.Smallest().user, f.Largest().user) && kept <= InputEntries(in0, in1)
    requires o.number == f.number + 1 && Elements(o.entries) == kept
    ensures !LevelSorted(AfterCompaction(AfterFlush(v, level + 1, f), level, in0, in1, [o])[level + 1])
  {
    assert |v| == NUM_LEVELS && level + 1 < NUM_LEVELS;
    hide FreshFile, VersionOk, Less, OnOneSide, AwayFrom, Selected, FlushLevelOk, InputEntries, LevelSorted, SaveLevel;
    hide Precedes, Numbers;
    FlushedLevel(v, level + 1, f);
    OldNumbersKept(v, level, in0, in1, f);
    forall e | e in kept ensures AwayFrom(f, e) {
      InputsAreAway(v, level, in0, in1, f, e);
    }
    NotBesideFile(f, kept, o);
    BothInLevel(SaveLevel(v[level + 1], {}, [f]), Numbers(in1), f, o);
  }

  ghost predicate AwayFrom(f: File, e: Entry) {
    e.key.user < f.Smallest().user || f.Largest().user < e.key.user
  }

  lemma InputsAreAway(v: Version, level: nat, in0: seq<File>, in1: seq<File>, f: File, e: Entry)
    requires |v| == NUM_LEVELS && Selected(v, level, in0, in1) && e in InputEntries(in0, in1)
    requires FlushLevelOk(v, level + 1, f.Smallest().user, f.Largest().user)
    ensures AwayFrom(f, e)
  {
    var g :| (g in in0 || g in in1) && e in g.entries;
    assert NoOverlap(v[level], f.Smallest().user, f.Largest().user);
    assert NoOverlap(v[level + 1], f.Smallest().user, f.Largest().user);
    WithinFileRange(g, e);
  }

  lemma NotBesideFile(f: File, kept: set<Entry>, o: File)
    requires !OnOneSide(f, kept) && Elements(o.entries) == kept && forall e :: e in kept ==> AwayFrom(f, e)
    ensures !Precedes(f, o) && !Precedes(o, f)
  {
    var low :| low in kept && !(f.Largest().user < low.key.user);
    var high :| high in kept && !(high.key.user < f.Smallest().user);
    FileKeyOrder(f);
    assert low in o.entries && high in o.entries;
    WithinFileRange(o, low);
    WithinFileRange(o, high);
  }
}
