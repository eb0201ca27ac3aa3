/**
 The version edits of a run of the store: they never put a file back on a level, so replaying the
 manifest after a crash gives the version the store had.
 */
module ManifestRuns {
  import opened Basics
  import opened InternalKeys
  import opened Tables
  import opened Versions
  import opened CompactionSetup
  import opened Builders
  import opened VersionChanges
  import opened Manifests
  import opened Stores

  function Added(level: nat, outs: seq<File>): seq<(nat, File)> {
    seq(|outs|, i requires 0 <= i < |outs| => (level, outs[i]))
  }

  ghost function DeletedFiles(level: nat, files: seq<File>): set<(nat, nat)> {
    set f | f in files :: (level, f.number)
  }

  const NO_CHANGE := Edit({}, [])

  /** The edit a step writes to the manifest. */
  ghost function EditOf(st: Store, a: Action): Edit
    requires Enabled(st, a)
  {
    match a
    case Flush(level, size) => if st.imm.value == [] then NO_CHANGE else Edit({}, [(level, FlushedFile(st, size))])
    case InstallCompaction(merged, outs) =>
      var p := st.running.value;
      Edit(DeletedFiles(p.level, p.in0) + DeletedFiles(p.level + 1, p.in1), Added(p.level + 1, outs))
    case TrivialMove(level, file) => Edit(DeletedFiles(level, [file]), [(level + 1, file)])
    case _ => NO_CHANGE
  }

  // ----- A step is its edit, installed

  lemma {:induction false} SaveNothing(files: seq<File>)
    ensures SaveLevel(files, {}, []) == files
  {
    if files != [] {
      SaveNothing(files[1..]);
      assert files == [files[0]] + files[1..];
      assert Merge(files, []) == files && Merge(files[1..], []) == files[1..];
    }
  }

  lemma NoChange(e: Edit, level: nat)
    requires DeletedAt(e, level) == {} && FilesAt(e.added, level) == []
    ensures ApplyLevel(EMPTY, e, level) == EMPTY
  {
    assert {} + DeletedAt(e, level) == {};
  }

  lemma {:induction false} FilesAtLevel(level: nat, outs: seq<File>, l: nat)
    ensures FilesAt(Added(level, outs), l) == if l == level then outs else []
  {
    if outs != [] {
      var n := |outs| - 1;
      assert Added(level, outs)[..n] == Added(level, outs[..n]);
      FilesAtLevel(level, outs[..n], l);
      assert outs == outs[..n] + [outs[n]];
    }
  }

  lemma DeletedAtLevels(level: nat, in0: seq<File>, in1: seq<File>, added: seq<(nat, File)>, l: nat)
    ensures DeletedAt(Edit(DeletedFiles(level, in0) + DeletedFiles(level + 1, in1), added), l)
         == if l == level then Numbers(in0) else if l == level + 1 then Numbers(in1) else {}
  {
    var e := Edit(DeletedFiles(level, in0) + DeletedFiles(level + 1, in1), added);
    forall n ensures n in DeletedAt(e, l) <==>
                       (l == level && n in Numbers(in0)) || (l == level + 1 && n in Numbers(in1))
    {
      assert n in DeletedAt(e, l) <==> (l, n) in e.deleted;
      if l == level && n in Numbers(in0) {
        var f :| f in in0 && f.number == n;
        assert (l, n) in DeletedFiles(level, in0);
      }
      if l == level + 1 && n in Numbers(in1) {
        var f :| f in in1 && f.number == n;
        assert (l, n) in DeletedFiles(level + 1, in1);
      }
    }
  }

  /** Files in order, inserted one by one, are themselves. */
  lemma InsertedInOrder(deleted: set<nat>, files: seq<File>)
    requires InOrder(files) && OwnNumbers(FileSet(files))
    ensures AddFiles(LevelState(deleted, []), files) == LevelState(deleted - Numbers(files), files)
  {
    var r := AddFiles(LevelState(deleted, []), files);
    assert FileSet([]) + FileSet(files) == FileSet(files);
    AddFilesResult(LevelState(deleted, []), files);
    forall f ensures f in r.added <==> f in files {
      assert f in FileSet(r.added) <==> f in FileSet(files);
    }
    InOrderIsUnique(r.added, files);
  }

  ghost predicate IsInstalled(v: Version, v': Version, e: Edit) {
    |v| == NUM_LEVELS == |v'| && forall l :: 0 <= l < NUM_LEVELS ==> v'[l] == Save(v[l], ApplyLevel(EMPTY, e, l))
  }

  lemma NoChangeInstalled(v: Version)
    requires |v| == NUM_LEVELS
    ensures IsInstalled(v, v, NO_CHANGE)
  {
    forall l | 0 <= l < NUM_LEVELS ensures v[l] == Save(v[l], ApplyLevel(EMPTY, NO_CHANGE, l)) {
      NoChange(NO_CHANGE, l);
      SaveNothing(v[l]);
    }
  }

  lemma FlushInstalled(v: Version, level: nat, f: File)
    requires |v| == NUM_LEVELS && level < NUM_LEVELS
    ensures IsInstalled(v, AfterFlush(v, level, f), Edit({}, [(level, f)]))
  {
    var e := Edit({}, [(level, f)]);
    assert e.added == Added(level, [f]);
    forall l | 0 <= l < NUM_LEVELS ensures AfterFlush(v, level, f)[l] == Save(v[l], ApplyLevel(EMPTY, e, l)) {
      if l == level {
        AddsOnly(EMPTY, level, f);
        assert {} - {f.number} == {};
      } else {
        FilesAtLevel(level, [f], l);
        NoChange(e, l);
        SaveNothing(v[l]);
      }
    }
  }

  lemma CompactionInstalled(v: Version, level: nat, in0: seq<File>, in1: seq<File>, outs: seq<File>)
    requires |v| == NUM_LEVELS && level + 1 < NUM_LEVELS && InOrder(outs) && OwnNumbers(FileSet(outs))
    requires Numbers(in1) !! Numbers(outs)
    ensures IsInstalled(v, AfterCompaction(v, level, in0, in1, outs),
                        Edit(DeletedFiles(level, in0) + DeletedFiles(level + 1, in1), Added(level + 1, outs)))
  {
    var e := Edit(DeletedFiles(level, in0) + DeletedFiles(level + 1, in1), Added(level + 1, outs));
    forall l | 0 <= l < NUM_LEVELS
      ensures AfterCompaction(v, level, in0, in1, outs)[l] == Save(v[l], ApplyLevel(EMPTY, e, l))
    {
      DeletedAtLevels(level, in0, in1, e.added, l);
      FilesAtLevel(level + 1, outs, l);
      if l == level + 1 {
        assert {} + Numbers(in1) == Numbers(in1) && Numbers(in1) - Numbers(outs) == Numbers(in1);
        InsertedInOrder(Numbers(in1), outs);
      } else if l == level {
        assert {} + Numbers(in0) == Numbers(in0);
      } else {
        NoChange(e, l);
        SaveNothing(v[l]);
      }
    }
  }

  /** Every step changes the version as its edit does. */
  lemma StepIsEdit(st: Store, a: Action)
    requires Inv(st) && Enabled(st, a)
    ensures IsInstalled(st.version, Step(st, a).version, EditOf(st, a))
  {
    match a
    case Flush(level, size) =>
      if st.imm.value == [] {
        NoChangeInstalled(st.version);
      } else {
        FlushInstalled(st.version, level, FlushedFile(st, size));
      }
    case InstallCompaction(merged, outs) => InstallIsEdit(st, merged, outs);
    case TrivialMove(level, file) => MoveIsEdit(st, level, file);
    case _ => NoChangeInstalled(st.version);
  }

  lemma InstallIsEdit(st: Store, merged: seq<Entry>, outs: seq<File>)
    requires Inv(st) && Enabled(st, InstallCompaction(merged, outs))
    ensures IsInstalled(st.version, Step(st, InstallCompaction(merged, outs)).version,
                        EditOf(st, InstallCompaction(merged, outs)))
  {
    var p := st.running.value;
    InstallOutputs(st, merged, outs);
    SortedIsInOrder(outs);
    OutputNumbersApart(st, p, outs);
    hide Inv, Selected, OutputOf, Outputs, AfterCompaction;
    CompactionInstalled(st.version, p.level, p.in0, p.in1, outs);
  }

  lemma OutputNumbersApart(st: Store, p: Plan, outs: seq<File>)
    requires PlanOk(st, p) && forall f :: f in outs ==> f.number in p.pending
    ensures Numbers(p.in1) !! Numbers(outs)
  {
    assert p.level + 1 < NUM_LEVELS && AllIn(p.in1, st.version[p.level + 1]);
    hide Selected, PlanReadable;
    forall n | n in Numbers(p.in1) ensures n !in Numbers(outs) {
      var f :| f in p.in1 && f.number == n;
      assert f in st.version[p.level + 1];
    }
  }

  lemma MoveIsEdit(st: Store, level: nat, file: File)
    requires Inv(st) && Enabled(st, TrivialMove(level, file))
    ensures IsInstalled(st.version, Step(st, TrivialMove(level, file)).version, EditOf(st, TrivialMove(level, file)))
  {
    assert DeletedFiles(level, [file]) + DeletedFiles(level + 1, []) == DeletedFiles(level, [file]);
    assert Added(level + 1, [file]) == [(level + 1, file)];
    CompactionInstalled(st.version, level, [file], [], [file]);
  }

  // ----- File numbers over a run

  /** Numbers ever put on a level are used up; a live file is no higher than any level it was put on. */
  ghost predicate Used(edits: seq<Edit>, v: Version, nextFile: nat, pending: set<nat>) {
    && |v| == NUM_LEVELS
    && (forall l: nat, f :: f in EverAdded(edits, l) ==> f.number < nextFile && f.number !in pending)
    && (forall l: nat, f, m, g {:trigger f in EverAdded(edits, l), g in v[m]} ::
          f in EverAdded(edits, l) && 0 <= m < NUM_LEVELS && g in v[m] && f.number == g.number ==> l <= m)
  }

  function Pending(st: Store): set<nat> {
    if st.running.Some? then st.running.value.pending else {}
  }

  ghost predicate NumbersUsed(edits: seq<Edit>, st: Store) {
    Used(edits, st.version, st.nextFile, Pending(st))
  }

  lemma AddedBySnoc(edits: seq<Edit>, e: Edit, l: nat)
    ensures EverAdded(edits + [e], l) == EverAdded(edits, l) + FileSet(FilesAt(e.added, l))
  {
    assert (edits + [e])[..|edits|] == edits;
  }

  /** The recovered file counter is past every number in the manifest. */
  ghost predicate CounterRecovered(edits: seq<Edit>, a: Action) {
    a.Crash? ==> forall l: nat, f :: f in EverAdded(edits, l) ==> f.number < a.nextFile
  }

  lemma QuietStep(edits: seq<Edit>, st: Store, a: Action)
    requires Inv(st) && Enabled(st, a) && NumbersUsed(edits, st) && CounterRecovered(edits, a)
    requires EditOf(st, a) == NO_CHANGE && Step(st, a).version == st.version
    requires !a.InstallCompaction?
    ensures NumbersUsed(edits + [NO_CHANGE], Step(st, a))
  {
    forall l: nat ensures EverAdded(edits + [NO_CHANGE], l) == EverAdded(edits, l) {
      AddedBySnoc(edits, NO_CHANGE, l);
    }
    assert Step(st, a).nextFile >= st.nextFile || a.Crash?;
  }

  lemma NeverReaddedMore(edits: seq<Edit>, e: Edit, l: nat)
    requires NeverReadded([], edits, l) && OwnNumbers(FileSet(FilesAt(e.added, l)))
    requires forall f, g :: f in EverAdded(edits, l) && g in FilesAt(e.added, l) ==> f.number != g.number
    ensures NeverReadded([], edits + [e], l)
  {
    assert (edits + [e])[..|edits|] == edits;
  }

  /** No edit and no file of the version has the number. */
  ghost predicate Unused(edits: seq<Edit>, v: Version, number: nat)
    requires |v| == NUM_LEVELS
  {
    && (forall l: nat, g :: g in EverAdded(edits, l) ==> g.number != number)
    && forall m, g :: 0 <= m < NUM_LEVELS && g in v[m] ==> g.number != number
  }

  /** The edit puts the files on the level and nothing elsewhere. */
  ghost predicate Adds(e: Edit, level: nat, files: seq<File>) {
    forall l: nat {:trigger FilesAt(e.added, l)} :: FilesAt(e.added, l) == if l == level then files else []
  }

  lemma AddedIsAdds(deleted: set<(nat, nat)>, level: nat, files: seq<File>)
    ensures Adds(Edit(deleted, Added(level, files)), level, files)
  {
    forall l: nat ensures FilesAt(Added(level, files), l) == if l == level then files else [] {
      FilesAtLevel(level, files, l);
    }
  }

  lemma EverAddedMore(edits: seq<Edit>, e: Edit, level: nat, files: seq<File>, l: nat)
    requires Adds(e, level, files)
    ensures EverAdded(edits + [e], l) == EverAdded(edits, l) + FileSet(if l == level then files else [])
  {
    AddedBySnoc(edits, e, l);
  }

  ghost predicate AllUnused(edits: seq<Edit>, v: Version, files: seq<File>)
    requires |v| == NUM_LEVELS
  {
    forall f :: f in files ==> Unused(edits, v, f.number)
  }

  lemma NoneReadded(edits: seq<Edit>, v: Version, e: Edit, level: nat, files: seq<File>)
    requires |v| == NUM_LEVELS && AllUnused(edits, v, files) && Adds(e, level, files) && OwnNumbers(FileSet(files))
    ensures forall l: nat :: NeverReadded([], edits, l) ==> NeverReadded([], edits + [e], l)
  {
    forall l: nat | NeverReadded([], edits, l) ensures NeverReadded([], edits + [e], l) {
      assert FilesAt(e.added, l) == if l == level then files else [];
      NeverReaddedMore(edits, e, l);
    }
  }

  /** The files of v' are those of v, or the new ones at the level. */
  ghost predicate OnlyAdded(v: Version, v': Version, level: nat, files: seq<File>) {
    |v| == NUM_LEVELS == |v'| && forall m, g {:trigger g in v'[m]} :: 0 <= m < NUM_LEVELS && g in v'[m] ==>
      g in v[m] || (m == level && g in files)
  }

  /** New files under numbers no edit used. */
  lemma FreshAddition(edits: seq<Edit>, v: Version, v': Version, nextFile: nat, nextFile': nat, pending: set<nat>,
                      pending': set<nat>, e: Edit, level: nat, files: seq<File>)
    requires Used(edits, v, nextFile, pending) && nextFile <= nextFile' && pending' <= pending
    requires Adds(e, level, files) && AllUnused(edits, v, files) && OnlyAdded(v, v', level, files)
    requires forall f :: f in files ==> f.number < nextFile' && f.number !in pending'
    ensures Used(edits + [e], v', nextFile', pending')
  {
    forall l: nat ensures EverAdded(edits + [e], l) == EverAdded(edits, l) + FileSet(if l == level then files else []) {
      EverAddedMore(edits, e, level, files, l);
    }
  }

  lemma FlushNumbers(edits: seq<Edit>, st: Store, level: nat, size: nat)
    requires Inv(st) && Enabled(st, Flush(level, size)) && st.imm.value != [] && NumbersUsed(edits, st)
    ensures var a := Flush(level, size); NumbersUsed(edits + [EditOf(st, a)], Step(st, a))
    ensures forall l: nat :: NeverReadded([], edits, l) ==>
      NeverReadded([], edits + [EditOf(st, Flush(level, size))], l)
  {
    var f := FlushedFile(st, size);
    var e := Edit({}, [(level, f)]);
    FlushedIsFresh(edits, st, level, f);
    assert e.added == Added(level, [f]);
    AddedIsAdds({}, level, [f]);
    hide Inv, FlushOk, AfterFlush;
    FreshAddition(edits, st.version, AfterFlush(st.version, level, f), st.nextFile, st.nextFile + 1, Pending(st),
                  Pending(st), e, level, [f]);
    NoneReadded(edits, st.version, e, level, [f]);
  }

  lemma FlushedIsFresh(edits: seq<Edit>, st: Store, level: nat, f: File)
    requires Inv(st) && NumbersUsed(edits, st) && level < NUM_LEVELS && f.number == st.nextFile
    ensures AllUnused(edits, st.version, [f]) && OnlyAdded(st.version, AfterFlush(st.version, level, f), level, [f])
    ensures f.number !in Pending(st) && OwnNumbers(FileSet([f]))
  {
    SaveLevelMembers(st.version[level], {}, [f]);
  }

  lemma InstallNumbers(edits: seq<Edit>, st: Store, merged: seq<Entry>, outs: seq<File>)
    requires Inv(st) && Enabled(st, InstallCompaction(merged, outs)) && NumbersUsed(edits, st)
    ensures var a := InstallCompaction(merged, outs); NumbersUsed(edits + [EditOf(st, a)], Step(st, a))
    ensures forall l: nat :: NeverReadded([], edits, l) ==>
      NeverReadded([], edits + [EditOf(st, InstallCompaction(merged, outs))], l)
  {
    InstallFacts(st, merged, outs);
    var p, a := st.running.value, InstallCompaction(merged, outs);
    var st', e := Step(st, a), EditOf(st, a);
    hide Inv, Enabled, Step, EditOf, PlanOk, OutputOf, Used, AllUnused, OnlyAdded, OwnNumbers, NeverReadded;
    OutputsAreFresh(edits, st, p, merged, outs);
    OutputsOnlyAdded(st.version, p.level, p.in0, p.in1, outs);
    CompactedNumbers(edits, st.version, st'.version, st.nextFile, p.pending,
                     DeletedFiles(p.level, p.in0) + DeletedFiles(p.level + 1, p.in1), p.level + 1, outs);
  }

  lemma InstallFacts(st: Store, merged: seq<Entry>, outs: seq<File>)
    requires Inv(st) && Enabled(st, InstallCompaction(merged, outs))
    ensures st.running.Some? && |st.version| == NUM_LEVELS && st.running.value.level + 1 < NUM_LEVELS
    ensures PlanOk(st, st.running.value) && OutputOf(st.running.value, merged, outs)
    ensures var p, st' := st.running.value, Step(st, InstallCompaction(merged, outs));
            && st'.version == AfterCompaction(st.version, p.level, p.in0, p.in1, outs)
            && st'.nextFile == st.nextFile && st'.running == None
            && EditOf(st, InstallCompaction(merged, outs))
               == Edit(DeletedFiles(p.level, p.in0) + DeletedFiles(p.level + 1, p.in1), Added(p.level + 1, outs))
  {
    hide PlanOk, OutputOf, AfterCompaction;
  }

  lemma CompactedNumbers(edits: seq<Edit>, v: Version, v': Version, nextFile: nat, pending: set<nat>,
                         deleted: set<(nat, nat)>, level: nat, outs: seq<File>)
    requires Used(edits, v, nextFile, pending) && AllUnused(edits, v, outs) && OwnNumbers(FileSet(outs))
    requires OnlyAdded(v, v', level, outs) && forall f :: f in outs ==> f.number < nextFile
    ensures Used(edits + [Edit(deleted, Added(level, outs))], v', nextFile, {})
    ensures forall l: nat :: NeverReadded([], edits, l) ==>
      NeverReadded([], edits + [Edit(deleted, Added(level, outs))], l)
  {
    var e := Edit(deleted, Added(level, outs));
    AddedIsAdds(deleted, level, outs);
    FreshAddition(edits, v, v', nextFile, nextFile, pending, {}, e, level, outs);
    NoneReadded(edits, v, e, level, outs);
  }

  lemma OutputsAreFresh(edits: seq<Edit>, st: Store, p: Plan, merged: seq<Entry>, outs: seq<File>)
    requires PlanOk(st, p) && NumbersUsed(edits, st) && st.running == Some(p) && OutputOf(p, merged, outs)
    ensures AllUnused(edits, st.version, outs) && OwnNumbers(FileSet(outs))
    ensures forall f :: f in outs ==> f.number < st.nextFile
  {
    hide Selected, PlanReadable;
  }

  lemma OutputsOnlyAdded(v: Version, level: nat, in0: seq<File>, in1: seq<File>, outs: seq<File>)
    requires |v| == NUM_LEVELS && level + 1 < NUM_LEVELS
    ensures OnlyAdded(v, AfterCompaction(v, level, in0, in1, outs), level + 1, outs)
  {
    SaveLevelMembers(v[level], Numbers(in0), []);
    SaveLevelMembers(v[level + 1], Numbers(in1), outs);
  }

  /** A moved file was only on the levels above. */
  lemma MoveNumbers(edits: seq<Edit>, st: Store, level: nat, file: File)
    requires Inv(st) && Enabled(st, TrivialMove(level, file)) && NumbersUsed(edits, st)
    ensures var a := TrivialMove(level, file); NumbersUsed(edits + [EditOf(st, a)], Step(st, a))
    ensures forall l: nat :: NeverReadded([], edits, l) ==>
      NeverReadded([], edits + [EditOf(st, TrivialMove(level, file))], l)
  {
    var e := EditOf(st, TrivialMove(level, file));
    assert file in [file] && file in st.version[level];
    assert e.added == Added(level + 1, [file]);
    AddedIsAdds(e.deleted, level + 1, [file]);
    MoveOutputs(st, level, file);
    CompactionReplaces(st.version, level, [file], [], [file]);
    MovedIsUsed(edits, st.version, AfterCompaction(st.version, level, [file], [], [file]), st.nextFile, e, level, file);
    hide Inv, AfterCompaction;
    forall l: nat | NeverReadded([], edits, l) ensures NeverReadded([], edits + [e], l) {
      assert FilesAt(e.added, l) == if l == level + 1 then [file] else [];
      NeverReaddedMore(edits, e, l);
    }
  }

  lemma MovedIsUsed(edits: seq<Edit>, v: Version, v': Version, nextFile: nat, e: Edit, level: nat, file: File)
    requires Used(edits, v, nextFile, {}) && NumbersUnique(v) && level + 1 < NUM_LEVELS && file in v[level]
    requires file.number < nextFile
    requires Adds(e, level + 1, [file]) && Replaced(v, v', level, [file], [], [file])
    ensures Used(edits + [e], v', nextFile, {})
  {
    forall l: nat
      ensures EverAdded(edits + [e], l) == EverAdded(edits, l) + FileSet(if l == level + 1 then [file] else [])
    {
      EverAddedMore(edits, e, level + 1, [file], l);
    }
    assert file in [file];
    forall l: nat, f, m, g | f in EverAdded(edits + [e], l) && 0 <= m < NUM_LEVELS && g in v'[m] && f.number == g.number
      ensures l <= m
    {
      if m == level + 1 && g == file {
        assert f in EverAdded(edits, l) ==> l <= level;
      } else {
        OtherFileStayed(v, v', level, file, m, g);
        assert f in EverAdded(edits, l);
      }
    }
  }

  /** Of the files with the moved file's number, only that file is left, one level down. */
  lemma OtherFileStayed(v: Version, v': Version, level: nat, file: File, m: int, g: File)
    requires |v| == NUM_LEVELS && NumbersUnique(v) && level + 1 < NUM_LEVELS && file in v[level]
    requires Replaced(v, v', level, [file], [], [file])
    requires 0 <= m < NUM_LEVELS && g in v'[m] && !(m == level + 1 && g == file)
    ensures g in v[m] && g.number != file.number
  {
    assert file in [file];
    if m == level {
      assert g in v[level] && g !in [file];
    } else if m == level + 1 {
      assert g !in [file] && g in v[level + 1];
    }
    var twins := Twins(g, m, file, level);
  }

  // ----- Runs

  lemma StepNumbers(edits: seq<Edit>, st: Store, a: Action)
    requires Inv(st) && Enabled(st, a) && NumbersUsed(edits, st) && CounterRecovered(edits, a)
    ensures NumbersUsed(edits + [EditOf(st, a)], Step(st, a))
    ensures forall l: nat :: NeverReadded([], edits, l) ==> NeverReadded([], edits + [EditOf(st, a)], l)
  {
    match a
    case Flush(level, size) =>
      if st.imm.value == [] {
        QuietStep(edits, st, a);
        NothingReadded(edits);
      } else {
        FlushNumbers(edits, st, level, size);
      }
    case InstallCompaction(merged, outs) => InstallNumbers(edits, st, merged, outs);
    case TrivialMove(level, file) => MoveNumbers(edits, st, level, file);
    case _ =>
      QuietStep(edits, st, a);
      NothingReadded(edits);
  }

  lemma NothingReadded(edits: seq<Edit>)
    ensures forall l: nat :: NeverReadded([], edits, l) ==> NeverReadded([], edits + [NO_CHANGE], l)
  {
    forall l: nat | NeverReadded([], edits, l) ensures NeverReadded([], edits + [NO_CHANGE], l) {
      NeverReaddedMore(edits, NO_CHANGE, l);
    }
  }

  ghost predicate StepsEnabled(run: seq<Store>, actions: seq<Action>) {
    |run| == |actions| + 1 && forall i :: 0 <= i < |actions| ==> Enabled(run[i], actions[i])
  }

  /** The manifest of a run: the edits of its steps. */
  ghost function ManifestOf(run: seq<Store>, actions: seq<Action>): seq<Edit>
    requires StepsEnabled(run, actions)
  {
    if actions == [] then []
    else
      var n := |actions| - 1;
      ManifestOf(run[..n + 1], actions[..n]) + [EditOf(run[n], actions[n])]
  }

  /** Steps that log an edit; opening the database after a crash does too. */
  predicate WritesEdit(a: Action) {
    a.Flush? || a.InstallCompaction? || a.TrivialMove? || a.Crash?
  }

  /** LogAndApply puts the next file number into every edit: the one in the last edit of the manifest.  A new
      database starts with an edit that holds 2. */
  ghost function NextRecorded(run: seq<Store>, actions: seq<Action>): nat
    requires StepsEnabled(run, actions)
  {
    if actions == [] then 2
    else
      var n := |actions| - 1;
      if WritesEdit(actions[n]) then run[n + 1].nextFile else NextRecorded(run[..n + 1], actions[..n])
  }

  /** After a crash the file counter starts past the number in the last edit, as Recover sets it. */
  ghost predicate CounterRead(run: seq<Store>, actions: seq<Action>, k: nat)
    requires StepsEnabled(run, actions) && k < |actions|
  {
    actions[k].Crash? ==> actions[k].nextFile > NextRecorded(run[..k + 1], actions[..k])
  }

  ghost predicate CountersRead(run: seq<Store>, actions: seq<Action>)
    requires StepsEnabled(run, actions)
  {
    forall k {:trigger actions[k]} :: 0 <= k < |actions| ==> CounterRead(run, actions, k)
  }

  ghost predicate NumbersBelow(edits: seq<Edit>, n: nat) {
    forall l: nat, f :: f in EverAdded(edits, l) ==> f.number < n
  }

  lemma CountersReadBefore(run: seq<Store>, actions: seq<Action>)
    requires IsRun(run, actions) && actions != [] && CountersRead(run, actions)
    ensures var n := |actions| - 1;
            IsRun(run[..n + 1], actions[..n]) && CountersRead(run[..n + 1], actions[..n])
              && CounterRead(run, actions, n)
  {
    var n := |actions| - 1;
    var init, acts := run[..n + 1], actions[..n];
    forall k | 0 <= k < n ensures CounterRead(init, acts, k) {
      assert init[..k + 1] == run[..k + 1] && acts[..k] == actions[..k] && acts[k] == actions[k];
      assert CounterRead(run, actions, k);
    }
  }

  /** The manifest's numbers stay below the next file number it records. */
  lemma RecordedStaysAbove(run: seq<Store>, actions: seq<Action>, edits: seq<Edit>, e: Edit)
    requires IsRun(run, actions) && actions != []
    requires var n := |actions| - 1;
      NumbersBelow(edits, NextRecorded(run[..n + 1], actions[..n])) && e == EditOf(run[n], actions[n])
    requires NumbersUsed(edits + [e], run[|actions|])
    ensures NumbersBelow(edits + [e], NextRecorded(run, actions))
  {
    var n := |actions| - 1;
    if !WritesEdit(actions[n]) {
      forall l: nat ensures EverAdded(edits + [e], l) == EverAdded(edits, l) {
        AddedBySnoc(edits, e, l);
      }
    }
  }

  /** What holds of the manifest of a run. */
  ghost predicate ManifestOk(edits: seq<Edit>, st: Store, recorded: nat) {
    && NumbersUsed(edits, st) && NumbersBelow(edits, recorded)
    && (forall l: nat :: NeverReadded([], edits, l))
    && forall l: nat :: l < NUM_LEVELS ==> Live([], edits, l) == st.version[l]
  }

  lemma {:induction false} RunsUseNumbers(run: seq<Store>, actions: seq<Action>)
    requires IsRun(run, actions) && CountersRead(run, actions)
    ensures ManifestOk(ManifestOf(run, actions), run[|actions|], NextRecorded(run, actions))
  {
    if actions != [] {
      var n := |actions| - 1;
      var init, acts := run[..n + 1], actions[..n];
      CountersReadBefore(run, actions);
      RunsUseNumbers(init, acts);
      RunsKeepInv(init, acts);
      var edits := ManifestOf(init, acts);
      LastEdit(edits, run[n], actions[n]);
      RecordedStaysAbove(run, actions, edits, EditOf(run[n], actions[n]));
    }
  }

  lemma LastEdit(edits: seq<Edit>, st: Store, a: Action)
    requires Inv(st) && Enabled(st, a) && NumbersUsed(edits, st) && CounterRecovered(edits, a)
    requires forall l: nat :: NeverReadded([], edits, l)
    requires forall l: nat :: l < NUM_LEVELS ==> Live([], edits, l) == st.version[l]
    ensures var edits' := edits + [EditOf(st, a)];
            && NumbersUsed(edits', Step(st, a)) && (forall l: nat :: NeverReadded([], edits', l))
            && forall l: nat :: l < NUM_LEVELS ==> Live([], edits', l) == Step(st, a).version[l]
  {
    var edits' := edits + [EditOf(st, a)];
    StepNumbers(edits, st, a);
    StepIsEdit(st, a);
    assert edits'[..|edits|] == edits;
  }

  /** Replaying the manifest of any run into an empty version, with one builder for all its edits, gives the
      version at the end of the run, file by file. */
  lemma ManifestGivesVersion(run: seq<Store>, actions: seq<Action>, level: nat)
    requires IsRun(run, actions) && CountersRead(run, actions) && level < NUM_LEVELS
    ensures Save([], Accumulate(ManifestOf(run, actions), level)) == run[|actions|].version[level]
  {
    RunsUseNumbers(run, actions);
    ReplayEqualsLive([], ManifestOf(run, actions), level);
  }
}
