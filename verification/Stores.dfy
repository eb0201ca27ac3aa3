/**
 The whole store as a state machine: writes, memtable switches, flushes, compactions that run
 while other steps happen, snapshots, and crashes with recovery.
 */
module Stores {
  import opened Basics
  import opened InternalKeys
  import opened Tables
  import opened Versions
  import opened Overlap
  import opened CompactionInputs
  import opened JoinedInputs
  import opened CompactionSetup
  import opened CompactionWork
  import opened Builders
  import opened VersionChanges
  import opened Histories

  /** A compaction in progress: the version it was planned on, its inputs, the oldest snapshot when it
      started, and the numbers reserved for its output files (pending_outputs_). */
  datatype Plan = Plan(version: Version, level: nat, in0: seq<File>, in1: seq<File>, smallestSnapshot: nat,
                       pending: set<nat>)

  /** history, flushed and switched are bookkeeping: writes up to flushed are in files, those up to
      switched in files or the immutable memtable, the rest in the memtable. */
  datatype Store = Store(
    mem: seq<Entry>, imm: Option<seq<Entry>>, version: Version,
    lastSequence: nat, nextFile: nat, snapshots: seq<nat>, running: Option<Plan>,
    history: History, flushed: nat, switched: nat)

  function OldestSnapshot(st: Store): nat {
    if st.snapshots == [] then st.lastSequence else st.snapshots[0]
  }

  ghost function Rest(v: Version, p: Plan): set<Entry> {
    RestEntries(v, p.level, p.in0, p.in1)
  }

  ghost function Inputs(p: Plan): set<Entry> {
    InputEntries(p.in0, p.in1)
  }

  // ----- The invariant

  /** The inputs in an order that iterators can read. */
  ghost predicate PlanReadable(p: Plan) {
    Ordered(p.version) && InputsInOrder(p.level, p.in0) && LevelSorted(p.in1)
  }

  ghost predicate PlanOk(st: Store, p: Plan) {
    && PlanReadable(p)
    && Selected(st.version, p.level, p.in0, p.in1)
    && p.smallestSnapshot <= OldestSnapshot(st)
    && SafeToDrop(p.version, p.level, Rest(st.version, p), Inputs(p), p.smallestSnapshot)
    && (forall n :: n in p.pending ==> n < st.nextFile)
    && (forall l, f :: 0 <= l < NUM_LEVELS && f in st.version[l] ==> f.number !in p.pending)
  }

  ghost predicate MemtablesOk(st: Store) {
    && st.flushed <= st.switched <= |st.history|
    && st.lastSequence <= |st.history|
    && Sorted(st.mem) && Elements(st.mem) == LogEntries(st.history, st.switched, |st.history|)
    && (st.imm.None? ==> st.flushed == st.switched)
    && (st.imm.Some? ==>
          Sorted(st.imm.value) && Elements(st.imm.value) == LogEntries(st.history, st.flushed, st.switched))
  }

  ghost predicate FilesOk(st: Store) {
    && VersionOk(st.version)
    && (forall e :: e in VersionEntries(st.version) ==> e.key.sequence <= st.flushed)
    && (forall l, f :: 0 <= l < NUM_LEVELS && f in st.version[l] ==> f.number < st.nextFile)
  }

  ghost predicate SnapshotsOk(st: Store) {
    && (forall i :: 0 <= i < |st.snapshots| ==> st.snapshots[i] <= st.lastSequence)
    && (forall i, j :: 0 <= i < j < |st.snapshots| ==> st.snapshots[i] <= st.snapshots[j])
  }

  /** The files alone represent the flushed writes, for every reader a live snapshot allows. */
  ghost predicate FilesRepresent(v: Version, h: History, flushed: nat, oldest: nat)
    requires flushed <= |h|
  {
    forall u, s: nat {:trigger View(VersionEntries(v), u, s)} ::
      oldest <= s ==> View(VersionEntries(v), u, s) == ReadHistory(h, u, Min(s, flushed))
  }

  ghost predicate Inv(st: Store) {
    && MemtablesOk(st) && FilesOk(st) && SnapshotsOk(st)
    && FilesRepresent(st.version, st.history, st.flushed, OldestSnapshot(st))
    && (st.running.Some? ==> PlanOk(st, st.running.value))
  }

  // ----- Steps

  datatype Action =
    | Insert(op: Op)
    | Skip(count: nat)
    | Publish(last: nat)
    | SwitchMemtable
    | Flush(level: nat, size: nat)
    | TakeSnapshot
    | ReleaseSnapshot(index: nat)
    | BeginCompaction(level: nat, in0: seq<File>, in1: seq<File>)
    | ReserveOutput
    | InstallCompaction(merged: seq<Entry>, outs: seq<File>)
    | AbandonCompaction
    | TrivialMove(level: nat, file: File)
    | Crash(kept: nat, last: nat, nextFile: nat)

  function Concat(outs: seq<File>): seq<Entry> {
    if outs == [] then [] else Concat(outs[..|outs| - 1]) + outs[|outs| - 1].entries
  }

  ghost predicate Enabled(st: Store, a: Action) {
    |st.version| == NUM_LEVELS &&
    match a
    case Insert(op) => |st.history| + 1 < MAX_SEQUENCE
    case Skip(count) => |st.history| + count < MAX_SEQUENCE
    case Publish(last) => st.lastSequence <= last <= |st.history|
    case SwitchMemtable => st.imm.None?
    case Flush(level, size) =>
      st.imm.Some? && (st.imm.value != [] ==> Sorted(st.imm.value) && FlushOk(st, level, FlushedFile(st, size)))
    case TakeSnapshot => true
    case ReleaseSnapshot(index) => index < |st.snapshots|
    case BeginCompaction(level, in0, in1) =>
      && st.running.None? && Selected(st.version, level, in0, in1) && InputsInOrder(level, in0) && LevelSorted(in1)
      && SafeToDrop(st.version, level, RestEntries(st.version, level, in0, in1), InputEntries(in0, in1),
                    OldestSnapshot(st))
    case ReserveOutput => st.running.Some?
    case InstallCompaction(merged, outs) =>
      st.running.Some? && st.running.value.level + 1 < NUM_LEVELS && OutputOf(st.running.value, merged, outs)
    case AbandonCompaction => st.running.Some?
    case TrivialMove(level, file) => st.running.None? && Selected(st.version, level, [file], [])
    case Crash(kept, last, nextFile) =>
      && st.flushed <= kept <= |st.history|
      && kept <= last < MAX_SEQUENCE && (last <= kept || last <= st.lastSequence)
      && forall l, f :: 0 <= l < |st.version| && f in st.version[l] ==> f.number < nextFile
  }

  ghost function FlushedFile(st: Store, size: nat): File
    requires st.imm.Some? && st.imm.value != [] && Sorted(st.imm.value)
  {
    File(st.nextFile, size, st.imm.value)
  }

  /** The level a flush may pick, as PickLevelForMemTableOutput promises.  If the inputs of a running
      compaction leave gaps, as only a manual one's may, then also, which the code does not check, not a
      gap between them when the compaction is about to write to that level. */
  ghost predicate FlushOk(st: Store, level: nat, f: File) {
    && |st.version| == NUM_LEVELS
    && FlushLevelOk(st.version, level, f.Smallest().user, f.Largest().user)
    && (st.running.Some? && level == st.running.value.level + 1
        && !Joined(st.running.value.in0, st.running.value.in1) ==>
          Beside(f, st.running.value.in0))
  }

  /** The output files hold the kept entries of the merged inputs, under the reserved numbers. */
  ghost predicate OutputOf(p: Plan, merged: seq<Entry>, outs: seq<File>) {
    && |p.version| == NUM_LEVELS
    && Sorted(merged) && Elements(merged) == Inputs(p)
    && Concat(outs) == Kept(p.version, p.level, merged, p.smallestSnapshot)
    && (forall f :: f in outs ==> f.number in p.pending)
    && forall f, g :: f in outs && g in outs && f.number == g.number ==> f == g
  }

  ghost function Step(st: Store, a: Action): Store
    requires Enabled(st, a)
  {
    match a
    case Insert(op) =>
      st.(mem := InsertSorted(st.mem, EntryOf(op, |st.history| + 1)), history := st.history + [Some(op)])
    case Skip(count) => st.(history := st.history + seq(count, _ => None))
    case Publish(last) => st.(lastSequence := last)
    case SwitchMemtable =>
      st.(imm := Some(st.mem), mem := [], switched := |st.history|, nextFile := st.nextFile + 1)
    case Flush(level, size) =>
      if st.imm.value == [] then st.(imm := None, flushed := st.switched, nextFile := st.nextFile + 1)
      else st.(imm := None, flushed := st.switched, nextFile := st.nextFile + 1,
               version := AfterFlush(st.version, level, FlushedFile(st, size)))
    case TakeSnapshot => st.(snapshots := st.snapshots + [st.lastSequence])
    case ReleaseSnapshot(i) => st.(snapshots := st.snapshots[..i] + st.snapshots[i + 1..])
    case BeginCompaction(level, in0, in1) =>
      st.(running := Some(Plan(st.version, level, in0, in1, OldestSnapshot(st), {})))
    case ReserveOutput =>
      var p := st.running.value;
      st.(running := Some(p.(pending := p.pending + {st.nextFile})), nextFile := st.nextFile + 1)
    case InstallCompaction(merged, outs) =>
      var p := st.running.value;
      st.(running := None, version := AfterCompaction(st.version, p.level, p.in0, p.in1, outs))
    case AbandonCompaction => st.(running := None)
    case TrivialMove(level, file) => st.(version := AfterCompaction(st.version, level, [file], [], [file]))
    case Crash(kept, last, nextFile) =>
      Store(Replay(st.history, st.flushed, kept), None, st.version, last, nextFile, [], None,
            st.history[..kept] + seq(last - kept, _ => None), st.flushed, st.flushed)
  }

  ghost predicate Init(st: Store) {
    && st.mem == [] && st.imm == None && st.version == seq(NUM_LEVELS, _ => [])
    && st.lastSequence == 0 && st.nextFile == 2 && st.snapshots == [] && st.running == None
    && st.history == [] && st.flushed == 0 && st.switched == 0
  }

  // ----- Reads

  /** All the entries a reader searches. */
  ghost function AllEntries(st: Store): set<Entry> {
    VersionEntries(st.version) + (if st.imm.Some? then Elements(st.imm.value) else {}) + Elements(st.mem)
  }

  lemma AllEntriesAreFilesAndLog(st: Store)
    requires Inv(st)
    ensures AllEntries(st) == VersionEntries(st.version) + LogEntries(st.history, st.flushed, |st.history|)
  {
    LogEntriesSplit(st.history, st.flushed, st.switched, |st.history|);
    assert st.imm.None? ==> LogEntries(st.history, st.flushed, st.switched) == {};
  }

  /** In every good state, every reader from the oldest snapshot on sees exactly the history up to it. */
  lemma ViewIsHistory(st: Store, u: UserKey, s: nat)
    requires Inv(st) && OldestSnapshot(st) <= s <= |st.history|
    ensures Distinct(AllEntries(st))
    ensures View(AllEntries(st), u, s) == ReadHistory(st.history, u, s)
  {
    AllEntriesAreFilesAndLog(st);
    assert View(VersionEntries(st.version), u, s) == ReadHistory(st.history, u, Min(s, st.flushed));
    LogExtendsDistinct(VersionEntries(st.version), st.history, st.flushed, |st.history|);
    LogExtendsView(VersionEntries(st.version), st.history, st.flushed, |st.history|, u, s);
  }

  lemma MemtablesAreNewer(st: Store)
    requires Inv(st)
    ensures NewerThan(Elements(st.mem), VersionEntries(st.version))
    ensures st.imm.Some? ==> NewerThan(Elements(st.mem), Elements(st.imm.value))
                             && NewerThan(Elements(st.imm.value), VersionEntries(st.version))
  {
    LogEntriesBounds(st.history, st.switched, |st.history|);
    LogEntriesBounds(st.history, st.flushed, st.switched);
  }

  // ----- Each step keeps the invariant

  lemma InitKeepsInv(st: Store)
    requires Init(st)
    ensures Inv(st)
  {
    assert VersionEntries(st.version) == {};
    assert Elements(st.mem) == LogEntries(st.history, 0, 0);
    forall u, s: nat ensures View({}, u, s) == None {
      ViewOfNothing({}, u, s);
    }
    assert CrossLevel(st.version);
  }

  lemma InsertKeepsInv(st: Store, op: Op)
    requires Inv(st) && Enabled(st, Insert(op))
    ensures Inv(Step(st, Insert(op)))
  {
    var st' := Step(st, Insert(op));
    var n := |st.history|;
    assert st'.history[..n] == st.history == st.history[..n];
    LogEntriesOfPrefix(st.history, st'.history, st.switched, n);
    LogEntriesOfPrefixBefore(st.history, st'.history, st.flushed, st.switched);
    LogEntriesSnoc(st'.history, st.switched, n);
    InsertNewest(st.history, st.switched, n, st.mem, op);
    SameFilesRepresent(st, st'.history);
  }

  lemma LogEntriesOfPrefixBefore(h: History, h': History, a: nat, b: nat)
    requires b <= |h| <= |h'| && h'[..|h|] == h
    ensures LogEntries(h, a, b) == LogEntries(h', a, b)
  {
    assert h'[..b] == h'[..|h|][..b];
    LogEntriesOfPrefix(h, h', a, b);
  }

  lemma SameFilesRepresent(st: Store, h': History)
    requires Inv(st) && |h'| >= st.flushed && h'[..st.flushed] == st.history[..st.flushed]
    ensures FilesRepresent(st.version, h', st.flushed, OldestSnapshot(st))
  {
    forall u, s: nat | OldestSnapshot(st) <= s
      ensures View(VersionEntries(st.version), u, s) == ReadHistory(h', u, Min(s, st.flushed))
    {
      var t := Min(s, st.flushed);
      assert h'[..t] == h'[..st.flushed][..t] && st.history[..t] == st.history[..st.flushed][..t];
      ReadHistoryOfPrefix(st.history, h', u, t);
    }
  }

  /** A write that failed before it reached the memtable uses up its sequence numbers. */
  lemma SkipKeepsInv(st: Store, count: nat)
    requires Inv(st) && Enabled(st, Skip(count))
    ensures Inv(Step(st, Skip(count)))
  {
    var st' := Step(st, Skip(count));
    var n := |st.history|;
    assert st'.history[..n] == st.history == st.history[..n];
    LogEntriesOfPrefix(st.history, st'.history, st.switched, n);
    LogEntriesOfPrefixBefore(st.history, st'.history, st.flushed, st.switched);
    LogEntriesSplit(st'.history, st.switched, n, n + count);
    assert LogEntries(st'.history, n, n + count) == {};
    SameFilesRepresent(st, st'.history);
  }

  lemma PublishKeepsInv(st: Store, last: nat)
    requires Inv(st) && Enabled(st, Publish(last))
    ensures Inv(Step(st, Publish(last)))
  {
  }

  lemma SwitchKeepsInv(st: Store)
    requires Inv(st) && Enabled(st, SwitchMemtable)
    ensures Inv(Step(st, SwitchMemtable))
  {
    assert LogEntries(st.history, |st.history|, |st.history|) == {};
  }

  lemma SnapshotsKeepInv(st: Store, a: Action)
    requires Inv(st) && Enabled(st, a) && (a.TakeSnapshot? || a.ReleaseSnapshot?)
    ensures Inv(Step(st, a))
  {
    var st' := Step(st, a);
    assert OldestSnapshot(st) <= OldestSnapshot(st');
  }

  lemma BeginKeepsInv(st: Store, level: nat, in0: seq<File>, in1: seq<File>)
    requires Inv(st) && Enabled(st, BeginCompaction(level, in0, in1))
    ensures Inv(Step(st, BeginCompaction(level, in0, in1)))
  {
  }

  lemma ReserveKeepsInv(st: Store)
    requires Inv(st) && Enabled(st, ReserveOutput)
    ensures Inv(Step(st, ReserveOutput))
  {
  }

  // ----- Flush

  /** A flush to the output level of a running compaction lands beside its first inputs. */
  lemma FlushLandsBeside(st: Store, p: Plan, level: nat, f: File)
    requires FlushOk(st, level, f) && st.running == Some(p) && Selected(st.version, p.level, p.in0, p.in1)
    ensures level == p.level + 1 ==> Beside(f, p.in0)
  {
    if level == p.level + 1 && Joined(p.in0, p.in1) {
      assert NoOverlap(st.version[p.level], f.Smallest().user, f.Largest().user);
      assert NoOverlap(st.version[p.level + 1], f.Smallest().user, f.Largest().user);
      NoGapBesideJoined(f, p.in0, p.in1);
    }
  }

  /** A flush next to a running compaction leaves the choice of its inputs sound. */
  lemma FlushKeepsSelected(v: Version, v': Version, p: Plan, level: nat, f: File)
    requires |v| == NUM_LEVELS == |v'| && level < NUM_LEVELS && Selected(v, p.level, p.in0, p.in1)
    requires forall l :: 0 <= l < NUM_LEVELS && l != level ==> v'[l] == v[l]
    requires forall g :: g in v'[level] <==> g in v[level] || g == f
    requires NewerThan(Elements(f.entries), VersionEntries(v))
    requires level == p.level + 1 ==> Beside(f, p.in0)
    ensures Selected(v', p.level, p.in0, p.in1)
  {
    if level == p.level {
      forall d | d in p.in0 ensures NewerThan(Elements(f.entries), Elements(d.entries)) {
        assert Elements(d.entries) <= VersionEntries(v);
      }
    }
  }

  lemma RestAfterFlush(v: Version, v': Version, p: Plan, level: nat, f: File, e: Entry)
    requires |v| == NUM_LEVELS == |v'| && level < NUM_LEVELS
    requires forall l :: 0 <= l < NUM_LEVELS && l != level ==> v'[l] == v[l]
    requires forall g :: g in v'[level] <==> g in v[level] || g == f
    requires e in Rest(v', p)
    ensures e in Rest(v, p) || e in f.entries
  {
    var l, g :| 0 <= l < |v'| && g in v'[l] && e in g.entries && !(l == p.level && g in p.in0)
                && !(l == p.level + 1 && g in p.in1);
    if e !in f.entries {
      assert g in v[l];
    }
  }

  lemma RestStaysAfterFlush(v: Version, v': Version, p: Plan, level: nat, f: File, e: Entry)
    requires |v| == NUM_LEVELS == |v'| && level < NUM_LEVELS
    requires forall l :: 0 <= l < NUM_LEVELS && l != level ==> v'[l] == v[l]
    requires forall g :: g in v'[level] <==> g in v[level] || g == f
    requires e in Rest(v, p)
    ensures e in Rest(v', p)
  {
    var l, g :| 0 <= l < |v| && g in v[l] && e in g.entries && !(l == p.level && g in p.in0)
                && !(l == p.level + 1 && g in p.in1);
    assert g in v'[l];
  }

  /** Newer entries elsewhere cannot make dropping a marker unsafe. */
  lemma NewerRestKeepsSafe(p: Plan, R: set<Entry>, R': set<Entry>, N: set<Entry>)
    requires |p.version| == NUM_LEVELS && SafeToDrop(p.version, p.level, R, Inputs(p), p.smallestSnapshot)
    requires R <= R' <= R + N && NewerThan(N, Inputs(p))
    ensures SafeToDrop(p.version, p.level, R', Inputs(p), p.smallestSnapshot)
  {
    var ss, M := p.smallestSnapshot, Inputs(p);
    forall e, f | e in M && Obsolete(p.version, p.level, e.key, ss) && Newest(R' + M, e.key.user, ss, e)
                  && Newest(R', e.key.user, e.key.sequence, f)
      ensures f.key.kind.Deletion?
    {
      assert Newest(R + M, e.key.user, ss, e);
      var above := Above(f, e);
      assert f in R;
      assert Newest(R, e.key.user, e.key.sequence, f);
    }
  }

  lemma FlushFreshFile(st: Store, size: nat)
    requires Inv(st) && st.imm.Some? && st.imm.value != []
    ensures FreshFile(st.version, FlushedFile(st, size))
  {
    MemtablesAreNewer(st);
    LogEntriesBounds(st.history, st.flushed, st.switched);
    LogExtendsDistinct(VersionEntries(st.version), st.history, st.flushed, st.switched);
  }

  lemma RestGrows(v: Version, v': Version, p: Plan, level: nat, f: File)
    requires |v| == NUM_LEVELS == |v'| && level < NUM_LEVELS
    requires forall l :: 0 <= l < NUM_LEVELS && l != level ==> v'[l] == v[l]
    requires forall g :: g in v'[level] <==> g in v[level] || g == f
    ensures Rest(v, p) <= Rest(v', p) <= Rest(v, p) + Elements(f.entries)
  {
    forall e | e in Rest(v', p) ensures e in Rest(v, p) + Elements(f.entries) {
      RestAfterFlush(v, v', p, level, f, e);
    }
    forall e | e in Rest(v, p) ensures e in Rest(v', p) {
      RestStaysAfterFlush(v, v', p, level, f, e);
    }
  }

  lemma FlushKeepsPlan(st: Store, level: nat, size: nat)
    requires Inv(st) && Enabled(st, Flush(level, size)) && st.imm.value != [] && st.running.Some?
    requires VersionOk(Step(st, Flush(level, size)).version)
    ensures PlanOk(Step(st, Flush(level, size)), st.running.value)
  {
    var st' := Step(st, Flush(level, size));
    var p, f := st.running.value, FlushedFile(st, size);
    FlushFreshFile(st, size);
    FlushedLevel(st.version, level, f);
    FlushLandsBeside(st, p, level, f);
    FlushKeepsSelected(st.version, st'.version, p, level, f);
    EntriesBeforeAll(st.version, p);
    RestGrows(st.version, st'.version, p, level, f);
    NewerRestKeepsSafe(p, Rest(st.version, p), Rest(st'.version, p), Elements(f.entries));
  }

  lemma EntriesBeforeAll(v: Version, p: Plan)
    requires |v| == NUM_LEVELS && Selected(v, p.level, p.in0, p.in1)
    ensures Rest(v, p) + Inputs(p) == VersionEntries(v)
  {
    forall e ensures e in Rest(v, p) + Inputs(p) <==> e in VersionEntries(v) {
      EntriesBefore(v, p.level, p.in0, p.in1, e);
    }
  }

  lemma FlushKeepsFiles(st: Store, level: nat, size: nat)
    requires Inv(st) && Enabled(st, Flush(level, size)) && st.imm.value != []
    ensures var st' := Step(st, Flush(level, size));
            FilesOk(st') && FilesRepresent(st'.version, st'.history, st'.flushed, OldestSnapshot(st'))
  {
    var st' := Step(st, Flush(level, size));
    var f := FlushedFile(st, size);
    FlushFreshFile(st, size);
    FlushKeepsVersionOk(st.version, level, f);
    FlushedLevel(st.version, level, f);
    LogEntriesBounds(st.history, st.flushed, st.switched);
    forall u, s: nat | OldestSnapshot(st) <= s
      ensures View(VersionEntries(st'.version), u, s) == ReadHistory(st.history, u, Min(s, st.switched))
    {
      var before := View(VersionEntries(st.version), u, s);
      LogExtendsView(VersionEntries(st.version), st.history, st.flushed, st.switched, u, s);
    }
  }

  lemma FlushKeepsInv(st: Store, level: nat, size: nat)
    requires Inv(st) && Enabled(st, Flush(level, size))
    ensures Inv(Step(st, Flush(level, size)))
  {
    if st.imm.value == [] {
      EmptyFlush(st);
    } else {
      FlushKeepsFiles(st, level, size);
      if st.running.Some? {
        FlushKeepsPlan(st, level, size);
      }
    }
  }

  /** With no entries to flush, the writes between are all lost ones. */
  lemma EmptyFlush(st: Store)
    requires Inv(st) && st.imm == Some([])
    ensures FilesRepresent(st.version, st.history, st.switched, OldestSnapshot(st))
  {
    assert LogEntries(st.history, st.flushed, st.switched) == {};
    forall u, s: nat | OldestSnapshot(st) <= s
      ensures View(VersionEntries(st.version), u, s) == ReadHistory(st.history, u, Min(s, st.switched))
    {
      LogExtendsView(VersionEntries(st.version), st.history, st.flushed, st.switched, u, s);
      assert VersionEntries(st.version) + {} == VersionEntries(st.version);
    }
  }

  // ----- Compaction

  lemma {:induction false} ConcatEntries(outs: seq<File>)
    ensures Elements(Concat(outs)) == LevelEntries(outs)
  {
    if outs != [] {
      var n := |outs| - 1;
      ConcatEntries(outs[..n]);
      assert outs == outs[..n] + [outs[n]];
      assert LevelEntries(outs) == LevelEntries(outs[..n]) + Elements(outs[n].entries);
    }
  }

  /** Cutting a sorted run into files gives a sorted level. */
  lemma {:induction false} ConcatSortedLevel(outs: seq<File>)
    requires Sorted(Concat(outs))
    ensures LevelSorted(outs)
  {
    if outs != [] {
      var n := |outs| - 1;
      var init := Concat(outs[..n]);
      assert Concat(outs) == init + outs[n].entries;
      SortedPrefix(init, outs[n].entries);
      ConcatSortedLevel(outs[..n]);
      ConcatEntries(outs[..n]);
      forall i | 0 <= i < n ensures Precedes(outs[i], outs[n]) {
        var f := outs[i];
        assert outs[..n][i] == f;
        assert f.entries[|f.entries| - 1] in f.entries;
        assert f.entries[|f.entries| - 1] in Elements(init);
      }
      forall i, j | 0 <= i < j < |outs| ensures Precedes(outs[i], outs[j]) {
        if j < n {
          assert Precedes(outs[..n][i], outs[..n][j]);
        }
      }
    }
  }

  lemma SortedPrefix(a: seq<Entry>, b: seq<Entry>)
    requires Sorted(a + b)
    ensures Sorted(a)
    ensures forall e, i :: e in a && 0 <= i < |b| ==> Less(e.key, b[i].key)
  {
    forall i, j | 0 <= i < j < |a| ensures Less(a[i].key, a[j].key) {
      assert (a + b)[i] == a[i] && (a + b)[j] == a[j];
    }
    forall e, i | e in a && 0 <= i < |b| ensures Less(e.key, b[i].key) {
      var j :| 0 <= j < |a| && a[j] == e;
      assert (a + b)[j] == a[j] && (a + b)[|a| + i] == b[i];
    }
  }

  lemma InstallOutputs(st: Store, merged: seq<Entry>, outs: seq<File>)
    requires Inv(st) && Enabled(st, InstallCompaction(merged, outs))
    ensures var p := st.running.value;
            && Outputs(st.version, p.level, p.in0, p.in1, outs)
            && LevelEntries(outs) == KeptSet(p.version, p.level, Inputs(p), p.smallestSnapshot)
  {
    var p := st.running.value;
    EntriesBeforeAll(st.version, p);
    KeptSorted(p.version, p.level, merged, p.smallestSnapshot);
    KeptIsKeptSet(p.version, p.level, merged, p.smallestSnapshot);
    ConcatSortedLevel(outs);
    ConcatEntries(outs);
    forall l, f, g | 0 <= l < NUM_LEVELS && f in st.version[l] && g in outs ensures !Twins(f, l, g, p.level + 1) {
    }
  }

  lemma InstallKeepsFiles(st: Store, merged: seq<Entry>, outs: seq<File>)
    requires Inv(st) && Enabled(st, InstallCompaction(merged, outs))
    ensures var st' := Step(st, InstallCompaction(merged, outs));
            FilesOk(st') && FilesRepresent(st'.version, st.history, st.flushed, OldestSnapshot(st))
  {
    var st' := Step(st, InstallCompaction(merged, outs));
    var p := st.running.value;
    InstallOutputs(st, merged, outs);
    CompactionKeepsVersionOk(st.version, p.level, p.in0, p.in1, outs);
    CompactionReplaces(st.version, p.level, p.in0, p.in1, outs);
    InstalledNumbers(st, st', p, outs);
    assert VersionEntries(st'.version) <= VersionEntries(st.version);
    DropsKeepRepresentation(st, st'.version);
  }

  lemma DropsKeepRepresentation(st: Store, v': Version)
    requires Inv(st) && st.running.Some?
    requires var p := st.running.value;
             && VersionEntries(st.version) == Rest(st.version, p) + Inputs(p)
             && VersionEntries(v') == Rest(st.version, p) + KeptSet(p.version, p.level, Inputs(p), p.smallestSnapshot)
    ensures FilesRepresent(v', st.history, st.flushed, OldestSnapshot(st))
  {
    var p := st.running.value;
    DropsPreserveViews(p.version, p.level, Rest(st.version, p), Inputs(p), p.smallestSnapshot);
    assert SameViewFrom(p.smallestSnapshot, VersionEntries(st.version), VersionEntries(v'));
    forall u, s: nat | OldestSnapshot(st) <= s
      ensures View(VersionEntries(v'), u, s) == ReadHistory(st.history, u, Min(s, st.flushed))
    {
      assert View(VersionEntries(st.version), u, s) == View(VersionEntries(v'), u, s);
    }
  }

  lemma InstallKeepsInv(st: Store, merged: seq<Entry>, outs: seq<File>)
    requires Inv(st) && Enabled(st, InstallCompaction(merged, outs))
    ensures Inv(Step(st, InstallCompaction(merged, outs)))
  {
    InstallKeepsFiles(st, merged, outs);
  }

  lemma InstalledNumbers(st: Store, st': Store, p: Plan, outs: seq<File>)
    requires Inv(st) && st.running == Some(p) && forall f :: f in outs ==> f.number in p.pending
    requires st'.nextFile == st.nextFile && Replaced(st.version, st'.version, p.level, p.in0, p.in1, outs)
    ensures forall l, f :: 0 <= l < NUM_LEVELS && f in st'.version[l] ==> f.number < st'.nextFile
  {
    forall l, f | 0 <= l < NUM_LEVELS && f in st'.version[l] ensures f.number < st.nextFile {
      if !(l == p.level + 1 && f in outs) {
        assert f in st.version[l];
      }
    }
  }

  lemma MoveOutputs(st: Store, level: nat, file: File)
    requires Inv(st) && Enabled(st, TrivialMove(level, file))
    ensures Outputs(st.version, level, [file], [], [file])
    ensures LevelEntries([file]) == InputEntries([file], [])
  {
    forall l, f, g | 0 <= l < NUM_LEVELS && f in st.version[l] && g in [file] && Twins(f, l, g, level + 1)
      ensures l == level && f in [file]
    {
      var twins := Twins(f, l, file, level);
    }
  }

  lemma MoveKeepsFiles(st: Store, level: nat, file: File)
    requires Inv(st) && Enabled(st, TrivialMove(level, file))
    ensures var v': Version := Step(st, TrivialMove(level, file)).version;
            && VersionOk(v') && VersionEntries(v') == VersionEntries(st.version)
            && forall l, f: File :: 0 <= l < NUM_LEVELS && f in v'[l] ==> f.number < st.nextFile
  {
    var v': Version := Step(st, TrivialMove(level, file)).version;
    MoveOutputs(st, level, file);
    CompactionKeepsVersionOk(st.version, level, [file], [], [file]);
    CompactionReplaces(st.version, level, [file], [], [file]);
    MovedNumbers(st, v', level, file);
  }

  lemma MovedNumbers(st: Store, v': Version, level: nat, file: File)
    requires FilesOk(st) && Selected(st.version, level, [file], [])
    requires Replaced(st.version, v', level, [file], [], [file])
    ensures forall l, f: File :: 0 <= l < NUM_LEVELS && f in v'[l] ==> f.number < st.nextFile
  {
    assert file in [file];
    forall l, f: File | 0 <= l < NUM_LEVELS && f in v'[l] ensures f.number < st.nextFile {
      if f != file {
        assert f in st.version[l];
      }
    }
  }

  lemma MoveKeepsInv(st: Store, level: nat, file: File)
    requires Inv(st) && Enabled(st, TrivialMove(level, file))
    ensures Inv(Step(st, TrivialMove(level, file)))
  {
    MoveKeepsFiles(st, level, file);
  }

  // ----- Crash and recovery

  /** Readers at or above the flushed writes see all of them, whatever snapshots there were. */
  lemma FilesRepresentFromFlushed(st: Store, u: UserKey, s: nat)
    requires Inv(st) && st.flushed <= s
    ensures View(VersionEntries(st.version), u, s) == ReadHistory(st.history, u, st.flushed)
  {
    var t := s + OldestSnapshot(st);
    ViewDependsOnVisible(VersionEntries(st.version), VersionEntries(st.version), u, s, t);
    assert View(VersionEntries(st.version), u, t) == ReadHistory(st.history, u, Min(t, st.flushed));
  }

  lemma CrashKeepsInv(st: Store, kept: nat, last: nat, nextFile: nat)
    requires Inv(st) && Enabled(st, Crash(kept, last, nextFile))
    ensures Inv(Step(st, Crash(kept, last, nextFile)))
  {
    var st' := Step(st, Crash(kept, last, nextFile));
    assert st'.history[..kept] == st.history[..kept];
    assert st'.history[..st.flushed] == st'.history[..kept][..st.flushed] == st.history[..kept][..st.flushed]
      == st.history[..st.flushed];
    ReplayHoldsLog(st.history, st.flushed, kept);
    LogEntriesOfPrefix(st.history, st'.history, st.flushed, kept);
    LogEntriesSplit(st'.history, st.flushed, kept, last);
    assert LogEntries(st'.history, kept, last) == {};
    hide VersionOk;
    forall u, s: nat | last <= s
      ensures View(VersionEntries(st.version), u, s) == ReadHistory(st'.history, u, Min(s, st.flushed))
    {
      FilesRepresentFromFlushed(st, u, s);
      ReadHistoryOfPrefix(st.history, st'.history, u, st.flushed);
    }
  }

  // ----- Runs

  lemma AbandonKeepsInv(st: Store)
    requires Inv(st) && Enabled(st, AbandonCompaction)
    ensures Inv(Step(st, AbandonCompaction))
  {
  }

  /** Every step keeps the invariant. */
  lemma StepKeepsInv(st: Store, a: Action)
    requires Inv(st) && Enabled(st, a)
    ensures Inv(Step(st, a))
  {
    hide Inv, Enabled, Step;
    match a
    case Insert(op) => InsertKeepsInv(st, op);
    case Skip(count) => SkipKeepsInv(st, count);
    case Publish(last) => PublishKeepsInv(st, last);
    case SwitchMemtable => SwitchKeepsInv(st);
    case Flush(level, size) => FlushKeepsInv(st, level, size);
    case TakeSnapshot => SnapshotsKeepInv(st, a);
    case ReleaseSnapshot(_) => SnapshotsKeepInv(st, a);
    case BeginCompaction(level, in0, in1) => BeginKeepsInv(st, level, in0, in1);
    case ReserveOutput => ReserveKeepsInv(st);
    case InstallCompaction(merged, outs) => InstallKeepsInv(st, merged, outs);
    case AbandonCompaction => AbandonKeepsInv(st);
    case TrivialMove(level, file) => MoveKeepsInv(st, level, file);
    case Crash(kept, last, nextFile) => CrashKeepsInv(st, kept, last, nextFile);
  }

  ghost predicate IsRun(run: seq<Store>, actions: seq<Action>) {
    && |run| == |actions| + 1 && Init(run[0])
    && forall i :: 0 <= i < |actions| ==> Enabled(run[i], actions[i]) && run[i + 1] == Step(run[i], actions[i])
  }

  /** The invariant holds at the end of every run. */
  lemma {:induction false} RunsKeepInv(run: seq<Store>, actions: seq<Action>)
    requires IsRun(run, actions)
    ensures Inv(run[|actions|])
  {
    if actions == [] {
      InitKeepsInv(run[0]);
    } else {
      var n := |actions| - 1;
      RunsKeepInv(run[..n + 1], actions[..n]);
      StepKeepsInv(run[n], actions[n]);
    }
  }

  /** A run goes on with any enabled step. */
  lemma RunGoesOn(run: seq<Store>, actions: seq<Action>, a: Action)
    requires IsRun(run, actions) && Enabled(run[|actions|], a)
    ensures IsRun(run + [Step(run[|actions|], a)], actions + [a])
  {
  }

  /** Following the steps from st leads to st'. */
  ghost predicate LeadsTo(st: Store, steps: seq<Action>, st': Store)
    decreases |steps|
  {
    if steps == [] then st' == st
    else Enabled(st, steps[0]) && LeadsTo(Step(st, steps[0]), steps[1..], st')
  }

  lemma LeadsToOne(st: Store, a: Action)
    requires Enabled(st, a)
    ensures LeadsTo(st, [a], Step(st, a))
  {
    hide Enabled, Step;
    assert [a][1..] == [];
  }

  lemma {:induction false} LeadsOn(st: Store, steps: seq<Action>, mid: Store, more: seq<Action>, st': Store)
    requires LeadsTo(st, steps, mid) && LeadsTo(mid, more, st')
    ensures LeadsTo(st, steps + more, st')
    decreases |steps|
  {
    hide Enabled, Step;
    if steps == [] {
      assert steps + more == more;
    } else {
      LeadsOn(Step(st, steps[0]), steps[1..], mid, more, st');
      assert (steps + more)[1..] == steps[1..] + more;
    }
  }

  lemma {:induction false} LeadsToKeepsInv(st: Store, steps: seq<Action>, st': Store)
    requires Inv(st) && LeadsTo(st, steps, st')
    ensures Inv(st')
    decreases |steps|
  {
    hide Inv, Enabled, Step;
    if steps != [] {
      StepKeepsInv(st, steps[0]);
      LeadsToKeepsInv(Step(st, steps[0]), steps[1..], st');
    }
  }
}
