/**
 The states in which a deleted key comes back, and in which a flush falls into a gap, are states the store
 can reach: runs that lead to them.
 */
module HazardRuns {
  import opened Basics
  import opened InternalKeys
  import opened Tables
  import opened Versions
  import opened CompactionInputs
  import opened CompactionSetup
  import opened CompactionWork
  import opened VersionChanges
  import opened Builders
  import opened Histories
  import opened Stores
  import opened Hazards

  ghost predicate Reachable(st: Store) {
    exists run: seq<Store>, actions: seq<Action> :: IsRun(run, actions) && run[|actions|] == st
  }

  lemma Reach(st: Store, a: Action, st': Store)
    requires Reachable(st) && Enabled(st, a) && st' == Step(st, a)
    ensures Reachable(st')
  {
    var run: seq<Store>, actions: seq<Action> :| IsRun(run, actions) && run[|actions|] == st;
    RunGoesOn(run, actions, a);
    assert (run + [st'])[|actions + [a]|] == st';
  }

  lemma ReachInsert(st: Store, op: Op, mem: seq<Entry>, history: History)
    requires Reachable(st) && |st.version| == NUM_LEVELS && |st.history| + 1 < MAX_SEQUENCE
    requires history == st.history + [Some(op)] && mem == InsertSorted(st.mem, EntryOf(op, |history|))
    ensures Reachable(st.(mem := mem, history := history))
  {
    Reach(st, Insert(op), st.(mem := mem, history := history));
  }

  lemma ReachPublish(st: Store, last: nat)
    requires Reachable(st) && |st.version| == NUM_LEVELS && st.lastSequence <= last <= |st.history|
    ensures Reachable(st.(lastSequence := last))
  {
    Reach(st, Publish(last), st.(lastSequence := last));
  }

  lemma ReachSnapshot(st: Store)
    requires Reachable(st) && |st.version| == NUM_LEVELS
    ensures Reachable(st.(snapshots := st.snapshots + [st.lastSequence]))
    ensures |st.snapshots| == 1 ==> Reachable(st.(snapshots := []))
  {
    Reach(st, TakeSnapshot, st.(snapshots := st.snapshots + [st.lastSequence]));
    if |st.snapshots| == 1 {
      Reach(st, ReleaseSnapshot(0), st.(snapshots := []));
    }
  }

  /** A switch followed by a flush. */
  lemma ReachFlushed(st: Store, level: nat, f: File, v: Version)
    requires Reachable(st) && |st.version| == NUM_LEVELS && st.imm.None? && st.running.None? && level < NUM_LEVELS
    requires f == File(st.nextFile + 1, 1, st.mem) && v == AfterFlush(st.version, level, f)
    requires FlushLevelOk(st.version, level, f.Smallest().user, f.Largest().user)
    ensures Reachable(st.(mem := [], version := v, nextFile := st.nextFile + 2, flushed := |st.history|,
                          switched := |st.history|))
  {
    var st1 := st.(mem := [], imm := Some(st.mem), switched := |st.history|, nextFile := st.nextFile + 1);
    Reach(st, SwitchMemtable, st1);
    assert FlushedFile(st1, 1) == f;
    Reach(st1, Flush(level, 1), st1.(imm := None, version := v, nextFile := st1.nextFile + 1, flushed := st1.switched));
  }

  lemma ReachReserve(st: Store)
    requires Reachable(st) && |st.version| == NUM_LEVELS && st.running.Some?
    ensures Reachable(st.(running := Some(st.running.value.(pending := st.running.value.pending + {st.nextFile})),
                          nextFile := st.nextFile + 1))
  {
    Reach(st, ReserveOutput,
          st.(running := Some(st.running.value.(pending := st.running.value.pending + {st.nextFile})),
              nextFile := st.nextFile + 1));
  }

  // ----- The run

  ghost function Empty(): Version {
    seq(NUM_LEVELS, _ => [])
  }

  lemma SaveOne(f: File)
    ensures SaveLevel([], {}, [f]) == [f]
  {
    assert [f][1..] == [];
    assert NotDeleted([f], {}) == [f] + NotDeleted([f][1..], {});
  }

  ghost const ALL: File := File(3, 1, [OLD, MARKER, DELETED])

  ghost function Writes(): History {
    [Some(OpPut(1.0, [1])), Some(OpPut(2.0, [2])), Some(OpDelete(2.0))]
  }

  /** Three writes to two keys, with a snapshot taken before the last of them. */
  ghost function Written(): Store {
    Store([OLD, MARKER, DELETED], None, Empty(), 3, 2, [2], None, Writes(), 0, 0)
  }

  lemma FirstTwoReachable()
    ensures Reachable(Store([OLD, DELETED], None, Empty(), 0, 2, [], None, Writes()[..2], 0, 0))
  {
    var st0 := Store([], None, Empty(), 0, 2, [], None, [], 0, 0);
    var none: seq<Action> := [];
    assert IsRun([st0], none) && [st0][|none|] == st0;
    var st1 := st0.(mem := [OLD], history := Writes()[..1]);
    hide Reachable, Enabled, Step, IsRun;
    ReachInsert(st0, OpPut(1.0, [1]), [OLD], Writes()[..1]);
    assert Seek([OLD], DELETED.key) == 1 by {
      assert [OLD][1..] == [];
    }
    assert Writes()[..2] == Writes()[..1] + [Some(OpPut(2.0, [2]))];
    ReachInsert(st1, OpPut(2.0, [2]), [OLD, DELETED], Writes()[..2]);
  }

  lemma WrittenIsReachable()
    ensures Reachable(Written())
  {
    hide Reachable, Enabled, Step, IsRun;
    FirstTwoReachable();
    var st2 := Store([OLD, DELETED], None, Empty(), 0, 2, [], None, Writes()[..2], 0, 0);
    ReachPublish(st2, 2);
    ReachSnapshot(st2.(lastSequence := 2));
    var st3 := st2.(lastSequence := 2, snapshots := [2]);
    assert [OLD, DELETED][1..] == [DELETED];
    assert Seek([DELETED], MARKER.key) == 0 && Seek([OLD, DELETED], MARKER.key) == 1;
    assert Writes() == Writes()[..2] + [Some(OpDelete(2.0))];
    ReachInsert(st3, OpDelete(2.0), [OLD, MARKER, DELETED], Writes());
    ReachPublish(st3.(mem := [OLD, MARKER, DELETED], history := Writes()), 3);
  }

  /** They are flushed to level 2 as one file. */
  ghost function Flushed(): Store {
    Written().(mem := [], version := Empty()[2 := [ALL]], nextFile := 4, flushed := 3, switched := 3)
  }

  lemma FlushedIsReachable()
    ensures Reachable(Flushed())
  {
    hide Reachable, Enabled, Step, IsRun;
    WrittenIsReachable();
    SaveOne(ALL);
    ReachFlushed(Written(), 2, ALL, Empty()[2 := [ALL]]);
  }

  /** A manual compaction of level 2 cuts its output between the entries of user key 2. */
  ghost function Compacted(): Store {
    Flushed().(version := TwoLevels(2, [], [Y, Z]), nextFile := 6)
  }

  ghost function Manual(pending: set<nat>): Plan {
    Plan(Empty()[2 := [ALL]], 2, [ALL], [], 2, pending)
  }

  lemma ManualIsEnabled()
    ensures Enabled(Flushed(), BeginCompaction(2, [ALL], []))
  {
    assert ALL in [ALL];
    forall e | e in InputEntries([ALL], []) ensures !Obsolete(Flushed().version, 2, e.key, 2) {
      assert e in ALL.entries;
    }
  }

  lemma ConcatOfTwo(f: File, g: File)
    ensures Concat([f]) == f.entries && Concat([f, g]) == f.entries + g.entries
  {
    assert [f, g][..1] == [f] && [f][..0] == [];
    assert Concat([]) == [];
    assert Concat([f]) == Concat([]) + f.entries;
    assert Concat([f, g]) == Concat([f]) + g.entries;
  }

  lemma ManualOutputs()
    ensures OutputOf(Manual({4, 5}), ALL.entries, [Y, Z])
  {
    var p := Manual({4, 5});
    EntriesOfOne(ALL);
    assert LevelEntries([]) == {};
    NothingDropped(p.version);
    ConcatOfTwo(Y, Z);
    assert Sorted(ALL.entries);
    assert Y.entries + Z.entries == ALL.entries;
    hide Kept, Sorted, LevelEntries, Concat;
  }

  lemma NothingDropped(v: Version)
    requires |v| == NUM_LEVELS
    ensures Kept(v, 2, ALL.entries, 2) == ALL.entries
  {
    var es := ALL.entries;
    assert es[..2] == [OLD, MARKER] && es[..2][..1] == [OLD] && [OLD][..0] == [];
    assert Kept(v, 2, [OLD], 2) == [OLD];
    assert Kept(v, 2, [OLD, MARKER], 2) == [OLD, MARKER];
  }

  lemma ManualResult()
    ensures AfterCompaction(Empty()[2 := [ALL]], 2, [ALL], [], [Y, Z]) == TwoLevels(2, [], [Y, Z])
  {
    assert ALL in [ALL] && ALL.number in Numbers([ALL]);
    assert [ALL][1..] == [];
    AllDeleted(ALL, Numbers([ALL]));
    NoneDeleted([Y, Z], Numbers([]));
    assert SaveLevel([], Numbers([]), [Y, Z]) == [Y, Z];
    assert AfterCompaction(Empty()[2 := [ALL]], 2, [ALL], [], [Y, Z]) == Empty()[2 := []][3 := [Y, Z]];
  }

  lemma AllDeleted(f: File, deleted: set<nat>)
    requires f.number in deleted
    ensures SaveLevel([f], deleted, []) == []
  {
    assert Merge([f], []) == [f] && [f][1..] == [];
    assert NotDeleted([f], deleted) == NotDeleted([f][1..], deleted);
  }

  lemma {:induction false} NoneDeleted(files: seq<File>, deleted: set<nat>)
    requires deleted == {}
    ensures NotDeleted(files, deleted) == files
  {
    if files != [] {
      NoneDeleted(files[1..], deleted);
    }
  }

  lemma ManualBegun()
    ensures Reachable(Flushed().(running := Some(Manual({}))))
  {
    FlushedIsReachable();
    ManualIsEnabled();
    Reach(Flushed(), BeginCompaction(2, [ALL], []), Flushed().(running := Some(Manual({}))));
  }

  lemma CompactedIsReachable()
    ensures Reachable(Compacted())
  {
    ManualBegun();
    hide Reachable, IsRun;
    var st1 := Flushed().(running := Some(Manual({})));
    ReachReserve(st1);
    assert {} + {4} == {4} && {4} + {5} == {4, 5};
    var st2 := st1.(running := Some(Manual({4})), nextFile := 5);
    ReachReserve(st2);
    var st3 := st2.(running := Some(Manual({4, 5})), nextFile := 6);
    ManualOutputs();
    ManualResult();
    ManualInstalled(st3);
  }

  lemma ManualInstalled(st: Store)
    requires Reachable(st) && st == Flushed().(running := Some(Manual({4, 5})), nextFile := 6)
    requires OutputOf(Manual({4, 5}), ALL.entries, [Y, Z])
    requires AfterCompaction(Empty()[2 := [ALL]], 2, [ALL], [], [Y, Z]) == TwoLevels(2, [], [Y, Z])
    ensures Reachable(Compacted())
  {
    hide Reachable, IsRun, OutputOf;
    Reach(st, InstallCompaction(ALL.entries, [Y, Z]), Compacted());
  }

  /** The snapshot is released, and user key 1 written again and flushed. */
  ghost function AtRisk(): Store {
    Store([], None, Split(), 4, 8, [], None, Writes() + [Some(OpPut(1.0, [4]))], 4, 4)
  }

  lemma AtRiskIsReachable()
    ensures Reachable(AtRisk())
  {
    hide Reachable, Enabled, Step, IsRun;
    CompactedIsReachable();
    ReachSnapshot(Compacted());
    var st1 := Compacted().(snapshots := []);
    assert Seek([], NEW.key) == 0;
    ReachInsert(st1, OpPut(1.0, [4]), [NEW], AtRisk().history);
    var st2 := st1.(mem := [NEW], history := AtRisk().history);
    ReachPublish(st2, 4);
    SaveOne(X);
    assert AfterFlush(TwoLevels(2, [], [Y, Z]), 2, X) == Split();
    ReachFlushed(st2.(lastSequence := 4), 2, X, Split());
  }

  lemma RiskIsRead()
    ensures ReadHistory(AtRisk().history, 2.0, 4) == None
  {
    var h := AtRisk().history;
    assert !Touches(h, 3, 2.0) && Touches(h, 2, 2.0);
    assert ReadHistory(h, 2.0, 3) == None;
  }

  /**
   A state of the store in which a reader finds user key 2 deleted, as the history says; and a compaction
   of the inputs the code takes there, by the rules the code drops entries by, after which the reader
   finds its deleted value.
   */
  lemma DeletedKeyCanComeBack()
    ensures Reachable(AtRisk())
    ensures ReadHistory(AtRisk().history, 2.0, 4) == None == View(VersionEntries(AtRisk().version), 2.0, 4)
    ensures Selected(AtRisk().version, 2, [X], [Y]) && ParentsOf(AtRisk().version[3], [X], [Y])
    ensures OldestSnapshot(AtRisk()) == 4
    ensures View(RestEntries(Split(), 2, [X], [Y]) + KeptSet(Split(), 2, InputEntries([X], [Y]), 4), 2.0, 4)
      == Some([2])
  {
    hide Reachable, ReadHistory, Selected, ParentsOf, View;
    AtRiskIsReachable();
    SplitKeyIsSelected();
    DeletedKeyComesBack();
    RiskIsRead();
  }

  // ----- The gap

  /** A write, and its memtable flushed. */
  ghost function OneMore(st: Store, op: Op, v: Version): Store
    requires |st.history| + 1 < MAX_SEQUENCE
  {
    var n := |st.history| + 1;
    st.(version := v, history := st.history + [Some(op)], lastSequence := n, nextFile := st.nextFile + 2, flushed := n,
        switched := n)
  }

  lemma ReachOneMore(st: Store, op: Op, level: nat, f: File, v: Version)
    requires Reachable(st) && |st.version| == NUM_LEVELS && st.imm.None? && st.running.None? && st.mem == []
    requires st.lastSequence <= |st.history| && |st.history| + 1 < MAX_SEQUENCE && level < NUM_LEVELS
    requires f == File(st.nextFile + 1, 1, [EntryOf(op, |st.history| + 1)]) && v == AfterFlush(st.version, level, f)
    requires FlushLevelOk(st.version, level, f.Smallest().user, f.Largest().user)
    ensures Reachable(OneMore(st, op, v))
  {
    hide Reachable, FlushLevelOk, AfterFlush;
    var e := EntryOf(op, |st.history| + 1);
    assert InsertSorted([], e) == [e];
    var history := st.history + [Some(op)];
    ReachInsert(st, op, [e], history);
    var st1 := st.(mem := [e], history := history);
    ReachPublish(st1, |history|);
    ReachFlushed(st1.(lastSequence := |history|), level, f, v);
  }

  ghost function FourWrites(): History {
    [Some(OpPut(1.0, [1])), Some(OpPut(5.0, [2])), Some(OpPut(1.0, [3])), Some(OpPut(5.0, [4]))]
  }

  ghost function Quiet(v: Version, n: nat): Store
    requires n <= 4
  {
    Store([], None, v, n, 2 + 2 * n, [], None, FourWrites()[..n], n, n)
  }

  lemma SaveTwo(f: File, g: File)
    requires BySmallest(f, g)
    ensures SaveLevel([f], {}, [g]) == [f, g]
  {
    assert Merge([f], [g]) == [f] + Merge([f][1..], [g]) == [f, g];
    NoneDeleted([f, g], {});
  }

  lemma OldFileReachable()
    ensures Reachable(Quiet(TwoLevels(1, [], [LEFT_OLD]), 1))
  {
    var st0, v1 := Store([], None, Empty(), 0, 2, [], None, [], 0, 0), TwoLevels(1, [], [LEFT_OLD]);
    var none: seq<Action> := [];
    assert IsRun([st0], none) && [st0][|none|] == st0;
    assert Reachable(st0);
    hide Reachable, IsRun, Enabled, Step;
    SaveOne(LEFT_OLD);
    assert v1 == AfterFlush(Empty(), 2, LEFT_OLD);
    ReachOneMore(st0, OpPut(1.0, [1]), 2, LEFT_OLD, v1);
    assert OneMore(st0, OpPut(1.0, [1]), v1) == Quiet(v1, 1);
  }

  lemma OldFilesReachable()
    ensures Reachable(Quiet(TwoLevels(1, [], [LEFT_OLD, RIGHT_OLD]), 2))
  {
    OldFileReachable();
    var v1, v2 := TwoLevels(1, [], [LEFT_OLD]), TwoLevels(1, [], [LEFT_OLD, RIGHT_OLD]);
    hide Reachable;
    SaveTwo(LEFT_OLD, RIGHT_OLD);
    assert v2 == AfterFlush(v1, 2, RIGHT_OLD);
    assert FourWrites()[..2] == FourWrites()[..1] + [Some(OpPut(5.0, [2]))];
    ReachOneMore(Quiet(v1, 1), OpPut(5.0, [2]), 2, RIGHT_OLD, v2);
  }

  lemma GapReachable()
    ensures Reachable(Quiet(Gap(), 4))
  {
    OldFilesReachable();
    hide Reachable;
    var v2, v3 := TwoLevels(1, [], [LEFT_OLD, RIGHT_OLD]), TwoLevels(1, [LEFT], [LEFT_OLD, RIGHT_OLD]);
    SaveOne(LEFT);
    assert v3 == AfterFlush(v2, 1, LEFT);
    assert FourWrites()[..3] == FourWrites()[..2] + [Some(OpPut(1.0, [3]))];
    ReachOneMore(Quiet(v2, 2), OpPut(1.0, [3]), 1, LEFT, v3);
    SaveTwo(LEFT, RIGHT);
    assert Gap() == AfterFlush(v3, 1, RIGHT);
    assert FourWrites()[..4] == FourWrites()[..3] + [Some(OpPut(5.0, [4]))];
    ReachOneMore(Quiet(v3, 3), OpPut(5.0, [4]), 1, RIGHT, Gap());
  }

  ghost function GapPlan(): Plan {
    Plan(Gap(), 1, [LEFT, RIGHT], [LEFT_OLD, RIGHT_OLD], 4, {})
  }

  /** The manual compaction is running, and a memtable with user key 3 waits to be flushed. */
  ghost function InGap(): Store {
    Quiet(Gap(), 4).(imm := Some([B]), lastSequence := 5, nextFile := 11, running := Some(GapPlan()),
                     history := FourWrites() + [Some(OpPut(3.0, [5]))], switched := 5)
  }

  lemma GapIsSafe()
    ensures var in0, in1 := [LEFT, RIGHT], [LEFT_OLD, RIGHT_OLD];
            SafeToDrop(Gap(), 1, RestEntries(Gap(), 1, in0, in1), InputEntries(in0, in1), 4)
  {
    GapIsOrdered();
    GapIsSelected();
    assert Gap()[2] == [LEFT_OLD, RIGHT_OLD];
    hide Selected, SafeToDrop, Ordered;
    BoundaryTakenIsSafe(Gap(), 1, [LEFT, RIGHT], [LEFT_OLD, RIGHT_OLD], 4);
  }

  lemma GapCompactionBegins()
    ensures Enabled(Quiet(Gap(), 4), BeginCompaction(1, [LEFT, RIGHT], [LEFT_OLD, RIGHT_OLD]))
  {
    GapIsSelected();
    GapIsSafe();
    assert InputsInOrder(1, [LEFT, RIGHT]) && LevelSorted([LEFT_OLD, RIGHT_OLD]);
    hide Selected, SafeToDrop, LevelSorted, InputsInOrder;
  }

  lemma InGapIsReachable()
    ensures Reachable(InGap())
  {
    GapReachable();
    GapCompactionBegins();
    hide Reachable;
    var st := Quiet(Gap(), 4);
    assert FourWrites()[..4] == FourWrites();
    var st1 := st.(running := Some(GapPlan()));
    Reach(st, BeginCompaction(1, [LEFT, RIGHT], [LEFT_OLD, RIGHT_OLD]), st1);
    assert InsertSorted([], B) == [B];
    var st2 := st1.(mem := [B], history := InGap().history);
    ReachInsert(st1, OpPut(3.0, [5]), [B], InGap().history);
    ReachPublish(st2, 5);
    var st3 := st2.(lastSequence := 5);
    Reach(st3, SwitchMemtable, InGap());
  }

  /**
   A state the store reaches with a manual compaction of level 1 running, from which the waiting memtable goes to
   the compaction's output level; the compaction may then install all it keeps as one file, and that level is no
   longer sorted.
   */
  lemma FlushCanFallIntoGap()
    ensures Reachable(InGap()) && InGap().version == Gap() && FlushedFile(InGap(), 1) == FLUSHED
    ensures FlushLevelOk(Gap(), 2, FLUSHED.Smallest().user, FLUSHED.Largest().user)
    ensures OutputOf(GapPlan().(pending := {12}), [A, A_OLD, C, C_OLD], [OUTPUT])
    ensures !LevelSorted(AfterCompaction(AfterFlush(Gap(), 2, FLUSHED), 1, [LEFT, RIGHT], [LEFT_OLD, RIGHT_OLD],
                                         [OUTPUT])[2])
  {
    InGapIsReachable();
    FlushInGapAllowed();
    FlushIntoGapBreaksLevel();
    GapOutput();
  }

  lemma GapOutput()
    ensures OutputOf(GapPlan().(pending := {12}), [A, A_OLD, C, C_OLD], [OUTPUT])
  {
    var merged := [A, A_OLD, C, C_OLD];
    EntriesOfTwo(LEFT, RIGHT);
    EntriesOfTwo(LEFT_OLD, RIGHT_OLD);
    assert Elements(merged) == {A, C} + {A_OLD, C_OLD};
    assert Elements([A]) == {A} && Elements([C]) == {C} && Elements([A_OLD]) == {A_OLD} && Elements([C_OLD]) == {C_OLD};
    NewerKept(Gap());
    ConcatOfTwo(OUTPUT, OUTPUT);
  }

  lemma NewerKept(v: Version)
    requires |v| == NUM_LEVELS
    ensures Kept(v, 1, [A, A_OLD, C, C_OLD], 4) == [A, C]
  {
    var es := [A, A_OLD, C, C_OLD];
    assert es[..3] == [A, A_OLD, C] && es[..3][..2] == [A, A_OLD] && es[..3][..2][..1] == [A] && [A][..0] == [];
    assert Kept(v, 1, [A], 4) == [A];
    assert Kept(v, 1, [A, A_OLD], 4) == [A];
    assert Kept(v, 1, [A, A_OLD, C], 4) == [A, C];
  }
}
