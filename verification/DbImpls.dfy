/**
 DBImpl: the database object.  Each method is one atomic step of the store (the work done with the
 mutex held, or on data no other thread may change), and so keeps the store's invariant; reads and
 iterators therefore agree with the history of writes.
 */
module DbImpls {
  import opened Basics
  import opened InternalKeys
  import opened Tables
  import opened Versions
  import opened Overlap
  import opened CompactionInputs
  import opened JoinedInputs
  import opened CompactionSetup
  import opened OutputCuts
  import opened CompactionWork
  import opened Builders
  import opened VersionChanges
  import opened Histories
  import opened Stores
  import opened IteratorSources
  import opened MergingIterators
  import opened DbIters
  import opened Hazards

  const L0_STOP_WRITES_TRIGGER := 12

  /** What one pass of the loop in MakeRoomForWrite decides. */
  datatype Room = Ready | MustWait | Switched

  // ----- Reads

  /** The three sources of a point read, newest first. */
  lemma ReadIsHistory(st: Store, u: UserKey, s: nat, r: LookupResult, q: LookupResult, p: LookupResult)
    requires Inv(st) && OldestSnapshot(st) <= s <= |st.history|
    requires Answers(r, Elements(st.mem), u, s)
    requires r.NotFound? && st.imm.Some? ==> Answers(q, Elements(st.imm.value), u, s)
    requires r.NotFound? && (st.imm.None? || q.NotFound?) ==> Answers(p, VersionEntries(st.version), u, s)
    ensures ToOption(if !r.NotFound? then r else if st.imm.Some? && !q.NotFound? then q else p)
         == ReadHistory(st.history, u, s)
  {
    MemtablesAreNewer(st);
    ViewIsHistory(st, u, s);
    var F, M := VersionEntries(st.version), Elements(st.mem);
    var I := if st.imm.Some? then Elements(st.imm.value) else {};
    var deeper := if st.imm.Some? && !q.NotFound? then q else p;
    if r.NotFound? {
      if st.imm.Some? {
        SearchNewerFirst(q, p, I, F, u, s);
      } else {
        assert I + F == F;
      }
    }
    SearchNewerFirst(r, deeper, M, I + F, u, s);
    assert AllEntries(st) == M + (I + F);
    AnswerIsView(if r.NotFound? then deeper else r, AllEntries(st), u, s);
  }

  /** A reader that took its memtables and version at one moment keeps its view, whatever is inserted later. */
  lemma LaterWritesAreInvisible(st: Store, E: set<Entry>, u: UserKey, s: nat)
    requires Inv(st) && OldestSnapshot(st) <= s <= |st.history| && Distinct(E)
    requires AllEntries(st) <= E && forall e :: e in E - AllEntries(st) ==> e.key.sequence > |st.history|
    ensures View(E, u, s) == ReadHistory(st.history, u, s)
  {
    ViewIsHistory(st, u, s);
    ViewDependsOnVisible(AllEntries(st), E, u, s, s);
  }

  // ----- The flush guard

  /** The memtable goes to the deepest level the limits allow. */
  ghost predicate FlushedTo(v: Version, level: nat, mem: seq<Entry>, maxGrandParentOverlapBytes: nat)
    requires |v| == NUM_LEVELS && mem != []
  {
    DeepestFlushLevel(v, level, mem[0].key.user, mem[|mem| - 1].key.user, maxGrandParentOverlapBytes)
  }

  /** A running compaction is safe from a flush of imm: if its inputs leave gaps and the flush could go to
      its output level, the flushed keys lie to one side of its first inputs. */
  ghost predicate FlushGuard(st: Store) {
    st.running.Some? && !Joined(st.running.value.in0, st.running.value.in1) && st.imm.Some? && st.imm.value != []
      && Sorted(st.imm.value)
    && |st.version| == NUM_LEVELS && st.running.value.level + 1 <= MAX_MEM_COMPACT_LEVEL
    ==>
    var f := FlushedFile(st, 0);
    FlushLevelOk(st.version, st.running.value.level + 1, f.Smallest().user, f.Largest().user) ==>
      Beside(f, st.running.value.in0)
  }

  lemma GuardedFlushOk(st: Store, level: nat, size: nat)
    requires FlushGuard(st) && st.imm.Some? && st.imm.value != [] && Sorted(st.imm.value) && |st.version| == NUM_LEVELS
    requires FlushLevelOk(st.version, level, FlushedFile(st, size).Smallest().user,
                          FlushedFile(st, size).Largest().user)
    ensures FlushOk(st, level, FlushedFile(st, size))
  {
    var f, g := FlushedFile(st, 0), FlushedFile(st, size);
    assert f.Smallest() == g.Smallest() && f.Largest() == g.Largest();
  }

  // ----- Output files

  lemma {:induction false} FlattenSorted(outputs: seq<seq<Entry>>, i: nat)
    requires Sorted(Flatten(outputs)) && i < |outputs|
    ensures Sorted(outputs[i])
  {
    var n := |outputs| - 1;
    assert Flatten(outputs) == Flatten(outputs[..n]) + outputs[n];
    if i == n {
      forall a, b | 0 <= a < b < |outputs[n]| ensures Less(outputs[n][a].key, outputs[n][b].key) {
        var k := |Flatten(outputs[..n])|;
        assert Flatten(outputs)[k + a] == outputs[n][a] && Flatten(outputs)[k + b] == outputs[n][b];
      }
    } else {
      SortedPrefix(Flatten(outputs[..n]), outputs[n]);
      FlattenSorted(outputs[..n], i);
      assert outputs[..n][i] == outputs[i];
    }
  }

  method FileNumbers(files: seq<File>) returns (numbers: set<nat>)
    ensures numbers == Numbers(files)
  {
    numbers := {};
    for i := 0 to |files|
      invariant numbers == Numbers(files[..i])
    {
      assert files[..i + 1] == files[..i] + [files[i]];
      numbers := numbers + {files[i].number};
    }
    assert files[..|files|] == files;
  }

  /** The edit of a compaction applied to the current version. */
  method ApplyCompaction(v: Version, level: nat, in0: seq<File>, in1: seq<File>, outs: seq<File>) returns (v': Version)
    requires |v| == NUM_LEVELS && level + 1 < NUM_LEVELS
    ensures v' == AfterCompaction(v, level, in0, in1, outs)
  {
    var deleted0 := FileNumbers(in0);
    var deleted1 := FileNumbers(in1);
    var files0 := SaveTo(v[level], deleted0, []);
    var files1 := SaveTo(v[level + 1], deleted1, outs);
    v' := v[level := files0][level + 1 := files1];
  }

  // ----- What a run guarantees to the code

  ghost function Last(run: seq<Store>): Store
    requires run != []
  {
    run[|run| - 1]
  }

  lemma RunIsReadable(run: seq<Store>, actions: seq<Action>)
    requires IsRun(run, actions)
    ensures var st := Last(run);
            && Sorted(st.mem) && (st.imm.Some? ==> Sorted(st.imm.value)) && Ordered(st.version)
            && st.lastSequence <= |st.history|
            && (forall s :: s in st.snapshots ==> OldestSnapshot(st) <= s <= st.lastSequence)
            && OldestSnapshot(st) <= st.lastSequence
            && Mergeable(StoreRuns(st.mem, st.imm, st.version))
  {
    RunsKeepInv(run, actions);
    StoreRunsMergeable(Last(run));
  }

  lemma RunAnswers(run: seq<Store>, actions: seq<Action>, u: UserKey, s: nat, r: LookupResult, q: LookupResult,
                   p: LookupResult)
    requires IsRun(run, actions)
    requires var st := Last(run);
      && OldestSnapshot(st) <= s <= |st.history|
      && Answers(r, Elements(st.mem), u, s)
      && (r.NotFound? && st.imm.Some? ==> Answers(q, Elements(st.imm.value), u, s))
      && (r.NotFound? && (st.imm.None? || q.NotFound?) ==> Answers(p, VersionEntries(st.version), u, s))
    ensures ToOption(if !r.NotFound? then r else if Last(run).imm.Some? && !q.NotFound? then q else p)
         == ReadHistory(Last(run).history, u, s)
  {
    RunsKeepInv(run, actions);
    ReadIsHistory(Last(run), u, s, r, q, p);
  }

  lemma RunIterates(run: seq<Store>, actions: seq<Action>, merged: seq<Entry>, s: nat)
    requires IsRun(run, actions) && OldestSnapshot(Last(run)) <= s <= |Last(run).history|
    requires |Last(run).version| == NUM_LEVELS
    requires Elements(merged) == Union(StoreRuns(Last(run).mem, Last(run).imm, Last(run).version))
    ensures Distinct(Elements(merged))
    ensures forall u :: (if u in VisibleMap(merged, s) then Some(VisibleMap(merged, s)[u]) else None)
                     == ReadHistory(Last(run).history, u, s)
  {
    var st := Last(run);
    RunsKeepInv(run, actions);
    StoreRunsMergeable(st);
    ViewIsHistory(st, 0.0, s);
    forall u
      ensures (if u in VisibleMap(merged, s) then Some(VisibleMap(merged, s)[u]) else None)
        == ReadHistory(st.history, u, s)
    {
      ViewIsHistory(st, u, s);
      MapIsView(merged, s, u);
    }
  }

  lemma RunHasDistinct(run: seq<Store>, actions: seq<Action>)
    requires IsRun(run, actions)
    ensures |Last(run).version| == NUM_LEVELS
    ensures Distinct(Union(StoreRuns(Last(run).mem, Last(run).imm, Last(run).version)))
  {
    var st := Last(run);
    RunsKeepInv(run, actions);
    StoreRunsMergeable(st);
    ViewIsHistory(st, 0.0, OldestSnapshot(st));
  }

  lemma InputsAreDistinct(v: Version, level: nat, in0: seq<File>, in1: seq<File>)
    requires Ordered(v) && Selected(v, level, in0, in1)
    ensures Distinct(InputEntries(in0, in1))
  {
    forall e | e in InputEntries(in0, in1) ensures e in VersionEntries(v) {
      EntriesBefore(v, level, in0, in1, e);
    }
  }

  /** The smallest sequence number that a reader may still ask for. */
  ghost predicate IsOldestSnapshot(snapshots: seq<nat>, lastSequence: nat, ss: nat) {
    if snapshots == [] then ss == lastSequence else ss in snapshots && forall s :: s in snapshots ==> ss <= s
  }

  /** What a compaction remembers of the state it began in. */
  ghost predicate StartedFrom(p: Plan, v: Version, level: nat, in0: seq<File>, in1: seq<File>, snapshots: seq<nat>,
                              lastSequence: nat)
  {
    && p.version == v && p.level == level && p.in0 == in0 && p.in1 == in1 && p.pending == {}
    && IsOldestSnapshot(snapshots, lastSequence, p.smallestSnapshot)
  }

  lemma RunPlans(run: seq<Store>, actions: seq<Action>)
    requires IsRun(run, actions) && Last(run).running.Some?
    ensures var st := Last(run);
            && PlanReadable(st.running.value) && |st.version| == NUM_LEVELS && st.running.value.level + 1 < NUM_LEVELS
            && st.running.value.smallestSnapshot < MAX_SEQUENCE
            && Mergeable(InputRuns(st.running.value.level, st.running.value.in0, st.running.value.in1))
            && Union(InputRuns(st.running.value.level, st.running.value.in0, st.running.value.in1))
              == Inputs(st.running.value)
            && Distinct(Inputs(st.running.value))
  {
    RunsKeepInv(run, actions);
    var st := Last(run);
    var p := st.running.value;
    InputsAreDistinct(st.version, p.level, p.in0, p.in1);
    InputRunsMergeable(st.version, p.level, p.in0, p.in1);
  }

  lemma StartIsEnabled(st: Store, level: nat, in0: seq<File>, in1: seq<File>)
    requires Ordered(st.version) && st.running.None?
    requires Selected(st.version, level, in0, in1) && InputsInOrder(level, in0)
    requires ParentsOf(st.version[level + 1], in0, in1) && BoundaryTaken(st.version, level, in0, in1)
    ensures Enabled(st, BeginCompaction(level, in0, in1))
  {
    BoundaryTakenIsSafe(st.version, level, in0, in1, OldestSnapshot(st));
    assert LevelSorted(st.version[level + 1]);
    ParentsSorted(st.version[level + 1], in0, in1);
  }

  /** A single file with nothing under it, which is moved as it is. */
  predicate IsTrivialMove(in0: seq<File>, in1: seq<File>, grandparents: seq<File>, maxGrandParentOverlapBytes: nat) {
    |in0| == 1 && |in1| == 0 && TotalFileSize(grandparents) <= maxGrandParentOverlapBytes
  }

  /** Inputs as PickCompaction or CompactRange gives them. */
  ghost predicate Picked(v: Version, level: nat, in0: seq<File>, in1: seq<File>) {
    Selected(v, level, in0, in1) && ParentsOf(v[level + 1], in0, in1) && InputsInOrder(level, in0)
  }

  /** A lone file with no file under it and few bytes of files two levels down may be moved as it is. */
  ghost predicate MayMove(v: Version, level: nat, in0: seq<File>, maxGrandParentOverlapBytes: nat)
    requires |v| == NUM_LEVELS && level + 1 < NUM_LEVELS
  {
    && |in0| == 1
    && NoneOverlaps(v[level + 1], Some(in0[0].Smallest().user), Some(in0[0].Largest().user))
    && (level + 2 < NUM_LEVELS ==>
          TotalFileSize(Overlapping(v[level + 2], Some(in0[0].Smallest().user), Some(in0[0].Largest().user)))
          <= maxGrandParentOverlapBytes)
  }

  /** Whatever inputs are picked around a file, they are moved or take what the next level's boundary asks for. */
  ghost predicate AnyPickIsSafe(v: Version, level: nat, picked: nat, sizeLimit: nat, maxGrandParentOverlapBytes: nat)
    requires |v| == NUM_LEVELS && level + 1 < NUM_LEVELS && picked < |v[level]|
  {
    forall in0, in1 :: PickedFrom(v, level, picked, sizeLimit, in0, in1) ==>
      MayMove(v, level, in0, maxGrandParentOverlapBytes) || BoundaryTaken(v, level, in0, in1)
  }

  lemma LoneInput(v: Version, level: nat, in0: seq<File>, picked: nat, max: nat)
    requires |v| == NUM_LEVELS && level + 1 < NUM_LEVELS && picked < |v[level]| && v[level][picked] in in0
    ensures MayMove(v, level, in0, max) ==> |in0| == 1 && in0[0] == v[level][picked]
  {
  }

  /** The test on the inputs and their grandparents finds exactly the moves that are allowed. */
  lemma TrivialMoveMayMove(v: Version, level: nat, in0: seq<File>, in1: seq<File>, grandparents: seq<File>, max: nat)
    requires Picked(v, level, in0, in1) && GrandparentsOf(v, level, in0, in1, grandparents)
    ensures IsTrivialMove(in0, in1, grandparents, max) <==> MayMove(v, level, in0, max)
  {
    if |in0| == 1 {
      var f := in0[0];
      assert in0 == [f];
      var lo, hi := Some(f.Smallest().user), Some(f.Largest().user);
      var s, l :| IsRange(in0, s, l) && in1 == Overlapping(v[level + 1], Some(s.user), Some(l.user));
      OneFileRange(f, s, l);
      OverlappingMembers(v[level + 1], lo, hi);
      if NoneOverlaps(v[level + 1], lo, hi) {
        OverlappingNone(v[level + 1], lo, hi);
      }
      if in1 == [] && level + 2 < NUM_LEVELS {
        var s', l' :| IsRange(in0 + in1, s', l')
          && grandparents == Overlapping(v[level + 2], Some(s'.user), Some(l'.user));
        assert in0 + in1 == [f];
        OneFileRange(f, s', l');
      }
    }
  }

  /** Output files carry reserved numbers, each its own. */
  ghost predicate Numbered(outs: seq<File>, pending: set<nat>) {
    && (forall f :: f in outs ==> f.number in pending)
    && forall f, g :: f in outs && g in outs && f.number == g.number ==> f == g
  }

  // ----- The database

  class DBImpl {
    var mem: seq<Entry>
    var imm: Option<seq<Entry>>
    var current: Version
    var lastSequence: nat
    var nextFileNumber: nat
    var snapshots: seq<nat>
    var running: Option<Plan>

    /** The steps that led here, and the states of the store between them. */
    ghost var run: seq<Store>
    ghost var actions: seq<Action>

    ghost function State(): Store
      requires run != []
      reads this
    {
      Last(run)
    }

    /** The fields are the state at the end of a run of the store. */
    ghost predicate Valid()
      reads this
    {
      IsRun(run, actions) && Matches(State())
    }

    ghost predicate Matches(st: Store)
      reads this
    {
      && mem == st.mem && imm == st.imm && current == st.version && lastSequence == st.lastSequence
      && nextFileNumber == st.nextFile && snapshots == st.snapshots && running == st.running
    }

    constructor ()
      ensures Valid() && actions == []
    {
      mem, imm, current := [], None, seq(NUM_LEVELS, _ => []);
      lastSequence, nextFileNumber, snapshots, running := 0, 2, [], None;
      run, actions := [Store([], None, seq(NUM_LEVELS, _ => []), 0, 2, [], None, [], 0, 0)], [];
      new;
      assert current == State().version && Init(run[0]);
    }

    /** Record a step. */
    ghost method Take(a: Action)
      requires IsRun(run, actions) && Enabled(State(), a)
      modifies this`run, this`actions
      ensures IsRun(run, actions) && actions == old(actions) + [a] && State() == Step(old(State()), a)
    {
      RunGoesOn(run, actions, a);
      run, actions := run + [Step(State(), a)], actions + [a];
    }

    // ----- Reading

    /** DBImpl::Get: what the history up to the snapshot, or up to now, says. */
    method Get(u: UserKey, snapshot: Option<nat>) returns (r: Option<Bytes>)
      requires Valid() && (snapshot.Some? ==> snapshot.value in snapshots)
      ensures var s := if snapshot.Some? then snapshot.value else lastSequence;
              s <= |State().history| && r == ReadHistory(State().history, u, s)
    {
      RunIsReadable(run, actions);
      var s: SequenceNumber := if snapshot.Some? then snapshot.value else lastSequence;
      var fromMem := TableGet(mem, u, s);
      TableGetAnswers(mem, u, s);
      var fromImm, fromFiles := NotFound, NotFound;
      if fromMem.NotFound? {
        if imm.Some? {
          fromImm := TableGet(imm.value, u, s);
          TableGetAnswers(imm.value, u, s);
        }
        if fromImm.NotFound? {
          fromFiles := Versions.Get(current, u, s);
        }
      }
      r := ToOption(if !fromMem.NotFound? then fromMem
                    else if imm.Some? && !fromImm.NotFound? then fromImm
                    else fromFiles);
      RunAnswers(run, actions, u, s, fromMem, fromImm, fromFiles);
    }

    /** DBImpl::NewIterator: a cursor over exactly the map the history gives at the snapshot. */
    method NewIterator(snapshot: Option<nat>) returns (it: DBIter)
      requires Valid() && (snapshot.Some? ==> snapshot.value in snapshots)
      ensures fresh(it) && fresh(it.iter) && fresh(it.iter.merging) && fresh(it.iter.merging.children)
      ensures it.Valid() && it.At() == None
      ensures var s := if snapshot.Some? then snapshot.value else lastSequence;
              && s <= |State().history|
              && forall u :: (if u in it.Map() then Some(it.Map()[u]) else None) == ReadHistory(State().history, u, s)
    {
      RunIsReadable(run, actions);
      var s: SequenceNumber := if snapshot.Some? then snapshot.value else lastSequence;
      RunHasDistinct(run, actions);
      it := new DBIter(StoreRuns(mem, imm, current), s);
      RunIterates(run, actions, it.iter.entries, s);
    }

    // ----- Writing

    /** MemTable::Add. */
    method AddToMemtable(op: Op, sequence: SequenceNumber)
      requires Valid() && sequence == |State().history| + 1 < MAX_SEQUENCE && |current| == NUM_LEVELS
      modifies this`mem, this`run, this`actions
      ensures Valid() && actions == old(actions) + [Insert(op)] && State().history == old(State().history) + [Some(op)]
    {
      mem := InsertSorted(mem, EntryOf(op, sequence));
      Take(Insert(op));
    }

    /** Insert a batch into the memtable and make it visible, as the writer at the head of the queue does. */
    method Write(ops: seq<Op>)
      requires Valid() && lastSequence == |State().history| && |State().history| + |ops| < MAX_SEQUENCE
      modifies this
      ensures Valid() && lastSequence == |State().history|
      ensures State().history == old(State().history) + Somes(ops)
      ensures actions == old(actions) + seq(|ops|, i requires 0 <= i < |ops| => Insert(ops[i]))
        + [Publish(lastSequence)]
    {
      assert |current| == NUM_LEVELS by {
        RunIsReadable(run, actions);
      }
      ghost var before, history := actions, State().history;
      for i := 0 to |ops|
        invariant Valid() && lastSequence == |history| && |current| == NUM_LEVELS
        invariant State().history == history + Somes(ops[..i])
        invariant actions == before + seq(i, j requires 0 <= j < i => Insert(ops[j]))
      {
        assert ops[..i + 1] == ops[..i] + [ops[i]];
        AddToMemtable(ops[i], lastSequence + 1 + i);
      }
      assert ops[..|ops|] == ops;
      lastSequence := lastSequence + |ops|;
      Take(Publish(lastSequence));
    }

    /** One pass of the loop in MakeRoomForWrite; usage is the memtable's size. */
    method MakeRoomForWrite(force: bool, usage: nat, writeBufferSize: nat) returns (room: Room)
      requires Valid()
      modifies this
      ensures Valid()
      ensures room.Ready? <==> !force && usage <= writeBufferSize
      ensures room.MustWait? <==>
        && (force || usage > writeBufferSize)
        && (old(imm).Some? || (|old(current)| > 0 && |old(current)[0]| >= L0_STOP_WRITES_TRIGGER))
      ensures actions == old(actions) + if room.Switched? then [SwitchMemtable] else []
    {
      assert |current| == NUM_LEVELS by {
        RunIsReadable(run, actions);
      }
      if !force && usage <= writeBufferSize {
        room := Ready;
      } else if imm.Some? {
        room := MustWait;
      } else if |current[0]| >= L0_STOP_WRITES_TRIGGER {
        room := MustWait;
      } else {
        nextFileNumber := nextFileNumber + 1;
        imm, mem := Some(mem), [];
        Take(SwitchMemtable);
        room := Switched;
      }
    }

    // ----- Snapshots

    method GetSnapshot() returns (s: nat)
      requires Valid()
      modifies this
      ensures Valid() && s == lastSequence && actions == old(actions) + [TakeSnapshot]
    {
      assert |current| == NUM_LEVELS by {
        RunIsReadable(run, actions);
      }
      s := lastSequence;
      snapshots := snapshots + [s];
      Take(TakeSnapshot);
    }

    method ReleaseSnapshot(index: nat)
      requires Valid() && index < |snapshots|
      modifies this
      ensures Valid() && actions == old(actions) + [Action.ReleaseSnapshot(index)]
    {
      assert |current| == NUM_LEVELS by {
        RunIsReadable(run, actions);
      }
      snapshots := snapshots[..index] + snapshots[index + 1..];
      Take(Action.ReleaseSnapshot(index));
    }

    // ----- Background work

    /** DBImpl::CompactMemTable, also called in the middle of a running compaction. */
    method CompactMemTable(sizeOf: seq<Entry> -> nat, maxGrandParentOverlapBytes: nat) returns (ghost a: Action)
      requires Valid() && imm.Some? && FlushGuard(State())
      modifies this
      ensures Valid() && a.Flush? && actions == old(actions) + [a] && imm == None
      ensures |old(current)| == NUM_LEVELS
      ensures old(imm).value != [] ==>
                a.size == sizeOf(old(imm).value)
                && FlushedTo(old(current), a.level, old(imm).value, maxGrandParentOverlapBytes)
    {
      RunIsReadable(run, actions);
      a := Flush(0, 0);
      if imm.value != [] {
        var f: File := File(nextFileNumber, sizeOf(imm.value), imm.value);
        var level := PickLevelForMemTableOutput(current, f.Smallest().user, f.Largest().user,
                                                maxGrandParentOverlapBytes);
        GuardedFlushOk(State(), level, f.size);
        a := Flush(level, f.size);
        var files := SaveTo(current[level], {}, [f]);
        current := current[level := files];
      }
      nextFileNumber := nextFileNumber + 1;
      imm := None;
      Take(a);
    }

    /** A trivial move: the file goes one level down as it is. */
    method MoveFile(level: nat, file: File)
      requires Valid() && Enabled(State(), TrivialMove(level, file))
      modifies this
      ensures Valid() && actions == old(actions) + [TrivialMove(level, file)] && running == old(running)
    {
      current := ApplyCompaction(current, level, [file], [], [file]);
      Take(TrivialMove(level, file));
    }

    method StartCompaction(level: nat, in0: seq<File>, in1: seq<File>)
      requires Valid() && Enabled(State(), BeginCompaction(level, in0, in1))
      modifies this
      ensures Valid() && actions == old(actions) + [BeginCompaction(level, in0, in1)]
      ensures running.Some? &&
        StartedFrom(running.value, old(current), level, in0, in1, old(snapshots), old(lastSequence))
    {
      RunIsReadable(run, actions);
      running := Some(Plan(current, level, in0, in1, if snapshots == [] then lastSequence else snapshots[0], {}));
      Take(BeginCompaction(level, in0, in1));
    }

    /** The inputs of the next compaction; they leave no gap a flush could fall into. */
    method PickBackgroundCompaction(level: nat, picked: nat, sizeLimit: nat)
      returns (in0: seq<File>, in1: seq<File>, grandparents: seq<File>)
      requires Valid() && |current| == NUM_LEVELS && level + 1 < NUM_LEVELS && picked < |current[level]|
      ensures Picked(current, level, in0, in1) && Joined(in0, in1) && current[level][picked] in in0
      ensures PickedFrom(current, level, picked, sizeLimit, in0, in1)
      ensures GrandparentsOf(current, level, in0, in1, grandparents)
    {
      assert Ordered(current) by {
        RunIsReadable(run, actions);
      }
      in0, in1, grandparents := PickCompaction(current, level, picked, sizeLimit);
    }

    /** The inputs of a manual compaction. */
    method PickManualCompaction(level: nat, begin: Bound, end: Bound, fileSizeLimit: nat, sizeLimit: nat)
      returns (nothing: bool, in0: seq<File>, in1: seq<File>, grandparents: seq<File>)
      requires Valid() && level + 1 < NUM_LEVELS
      ensures |current| == NUM_LEVELS
      ensures nothing <==> NoneOverlaps(current[level], begin, end)
      ensures !nothing ==> Picked(current, level, in0, in1) && GrandparentsOf(current, level, in0, in1, grandparents)
      ensures !nothing ==> ManualFrom(current, level, begin, end, fileSizeLimit, sizeLimit, in0, in1)
    {
      assert Ordered(current) by {
        RunIsReadable(run, actions);
      }
      nothing, in0, in1, grandparents := CompactRange(current, level, begin, end, fileSizeLimit, sizeLimit);
    }

    /** DBImpl::BackgroundCompaction up to the work itself: move a single file down, or start a compaction. */
    method BeginBackgroundCompaction(level: nat, in0: seq<File>, in1: seq<File>, grandparents: seq<File>,
                                     isManual: bool, maxGrandParentOverlapBytes: nat)
      returns (ghost a: Action)
      requires Valid() && imm.None? && running.None? && Picked(current, level, in0, in1)
      requires GrandparentsOf(current, level, in0, in1, grandparents)
      requires (!isManual && MayMove(current, level, in0, maxGrandParentOverlapBytes))
               || BoundaryTaken(current, level, in0, in1)
      modifies this
      ensures Valid() && actions == old(actions) + [a] && |old(current)| == NUM_LEVELS
      ensures if !isManual && MayMove(old(current), level, in0, maxGrandParentOverlapBytes)
              then a == TrivialMove(level, in0[0]) && running.None?
              else a == BeginCompaction(level, in0, in1) && running.Some?
                   && StartedFrom(running.value, old(current), level, in0, in1, old(snapshots), old(lastSequence))
    {
      TrivialMoveMayMove(current, level, in0, in1, grandparents, maxGrandParentOverlapBytes);
      hide MayMove, GrandparentsOf;
      if !isManual && IsTrivialMove(in0, in1, grandparents, maxGrandParentOverlapBytes) {
        assert in0 == [in0[0]] && in1 == [];
        a := TrivialMove(level, in0[0]);
        MoveFile(level, in0[0]);
      } else {
        assert Ordered(current) by {
          RunIsReadable(run, actions);
        }
        StartIsEnabled(State(), level, in0, in1);
        a := BeginCompaction(level, in0, in1);
        StartCompaction(level, in0, in1);
      }
    }

    /** DBImpl::BackgroundCompaction for a file of the level: pick the inputs around it, and move or compact them. */
    method BackgroundCompaction(level: nat, picked: nat, sizeLimit: nat, maxGrandParentOverlapBytes: nat)
      returns (ghost a: Action, in0: seq<File>, in1: seq<File>)
      requires Valid() && imm.None? && running.None?
      requires |current| == NUM_LEVELS && level + 1 < NUM_LEVELS && picked < |current[level]|
      requires AnyPickIsSafe(current, level, picked, sizeLimit, maxGrandParentOverlapBytes)
      modifies this
      ensures Valid() && actions == old(actions) + [a]
      ensures PickedFrom(old(current), level, picked, sizeLimit, in0, in1) && old(current)[level][picked] in in0
      ensures if MayMove(old(current), level, in0, maxGrandParentOverlapBytes)
              then a == TrivialMove(level, old(current)[level][picked])
              else a == BeginCompaction(level, in0, in1) && running.Some?
                   && StartedFrom(running.value, old(current), level, in0, in1, old(snapshots), old(lastSequence))
    {
      hide StartedFrom, PickedFrom, BoundaryTaken, Picked, GrandparentsOf, MayMove, Joined;
      var grandparents;
      in0, in1, grandparents := PickBackgroundCompaction(level, picked, sizeLimit);
      LoneInput(current, level, in0, picked, maxGrandParentOverlapBytes);
      a := BeginBackgroundCompaction(level, in0, in1, grandparents, false, maxGrandParentOverlapBytes);
    }

    /** OpenCompactionOutputFile: a fresh number, protected from deletion until the outputs are installed. */
    method ReserveNumber() returns (number: nat)
      requires Valid() && running.Some? && |current| == NUM_LEVELS
      modifies this`nextFileNumber, this`running, this`run, this`actions
      ensures Valid() && actions == old(actions) + [ReserveOutput] && number == old(nextFileNumber) < nextFileNumber
      ensures running == Some(old(running).value.(pending := old(running).value.pending + {number}))
    {
      number := nextFileNumber;
      running := Some(running.value.(pending := running.value.pending + {number}));
      nextFileNumber := nextFileNumber + 1;
      Take(ReserveOutput);
    }

    method MakeOutputs(outputs: seq<seq<Entry>>, sizeOf: seq<Entry> -> nat) returns (outs: seq<File>)
      requires Valid() && running.Some? && |current| == NUM_LEVELS
      requires forall i :: 0 <= i < |outputs| ==> outputs[i] != [] && Sorted(outputs[i])
      modifies this`nextFileNumber, this`running, this`run, this`actions
      ensures Valid() && |outs| == |outputs| && actions == old(actions) + seq(|outs|, _ => ReserveOutput)
      ensures running.Some? && running.value == old(running.value).(pending := running.value.pending)
      ensures Concat(outs) == Flatten(outputs) && Numbered(outs, running.value.pending)
      ensures MadeOf(outs, outputs, sizeOf)
    {
      outs := [];
      ghost var before := actions;
      for i := 0 to |outputs|
        invariant Valid() && |outs| == i && actions == before + seq(i, _ => ReserveOutput)
        invariant MadeOf(outs, outputs[..i], sizeOf)
        invariant running.Some? && running.value == old(running.value).(pending := running.value.pending)
        invariant Numbered(outs, running.value.pending) && forall f :: f in outs ==> f.number < nextFileNumber
      {
        var number := ReserveNumber();
        var f: File := File(number, sizeOf(outputs[i]), outputs[i]);
        outs := outs + [f];
      }
      assert outputs[..|outputs|] == outputs;
      ConcatIsFlatten(outs, outputs, sizeOf);
    }

    /** DoCompactionWork and InstallCompactionResults: merge the inputs, drop what no one can see, give the
        output files fresh numbers, and install them.  Other steps may have come since the compaction began. */
    method FinishBackgroundCompaction(limits: Limits)
      returns (ghost merged: seq<Entry>, ghost outs: seq<File>)
      requires Valid() && running.Some?
      modifies this
      ensures Valid() && running == None
      ensures actions == old(actions) + seq(|outs|, _ => ReserveOutput) + [InstallCompaction(merged, outs)]
      ensures var p := old(running).value;
              && Elements(merged) == Inputs(p) && |p.version| == NUM_LEVELS
              && NothingTooOld(p.version, p.level, merged, Concat(outs), p.smallestSnapshot)
      ensures exists outputs :: MadeOf(outs, outputs, limits.sizeOf) && WellCut(limits, merged, outputs)
    {
      RunPlans(run, actions);
      var p := running.value;
      hide NothingTooOld, Distinct, WellCut;
      var input := MergeAll(InputRuns(p.level, p.in0, p.in1));
      var c := new Compaction(p.version, p.level, limits);
      var outputs := DoCompactionWork(c, input, p.smallestSnapshot);
      OutputsSorted(p.version, p.level, input, p.smallestSnapshot, outputs);
      var files := MakeOutputs(outputs, limits.sizeOf);
      merged, outs := input, files;
      InstallCompactionResults(merged, files);
    }

    method InstallCompactionResults(ghost merged: seq<Entry>, outs: seq<File>)
      requires Valid() && Enabled(State(), InstallCompaction(merged, outs))
      modifies this
      ensures Valid() && actions == old(actions) + [InstallCompaction(merged, outs)] && running == None
    {
      var p := running.value;
      current := ApplyCompaction(current, p.level, p.in0, p.in1, outs);
      running := None;
      Take(InstallCompaction(merged, outs));
    }
  }

  /** A file for every list of entries. */
  ghost predicate MadeOf(files: seq<File>, outputs: seq<seq<Entry>>, sizeOf: seq<Entry> -> nat) {
    && |files| == |outputs|
    && forall i :: 0 <= i < |files| ==> files[i].entries == outputs[i] && files[i].size == sizeOf(outputs[i])
  }

  lemma {:induction false} ConcatIsFlatten(files: seq<File>, outputs: seq<seq<Entry>>, sizeOf: seq<Entry> -> nat)
    requires MadeOf(files, outputs, sizeOf)
    ensures Concat(files) == Flatten(outputs)
  {
    if files != [] {
      ConcatIsFlatten(files[..|files| - 1], outputs[..|files| - 1], sizeOf);
    }
  }

  lemma OutputsSorted(v: Version, level: nat, merged: seq<Entry>, ss: nat, outputs: seq<seq<Entry>>)
    requires |v| == NUM_LEVELS && Sorted(merged) && Flatten(outputs) == Kept(v, level, merged, ss)
    requires forall o :: o in outputs ==> o != []
    ensures forall i :: 0 <= i < |outputs| ==> outputs[i] != [] && Sorted(outputs[i])
  {
    KeptSorted(v, level, merged, ss);
    forall i | 0 <= i < |outputs| ensures outputs[i] != [] && Sorted(outputs[i]) {
      assert outputs[i] in outputs;
      FlattenSorted(outputs, i);
    }
  }
}
