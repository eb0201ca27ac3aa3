/**
 VersionSet::Recover from the bytes of the manifest: a log of encoded version edits, cut off anywhere,
 gives back a version and a file counter the store had.
 */
module ManifestRecovery {
  import opened Basics
  import opened InternalKeys
  import opened Tables
  import opened Versions
  import opened LogFormat
  import opened LogRoundTrips
  import opened Manifests
  import opened ManifestRuns
  import opened Stores
  import E = VersionEdits
  import Builders
  import VersionChanges

  /** How the comparator's internal keys are written as bytes. */
  type KeyBytes = InternalKey -> Bytes

  /** A file as the manifest describes it. */
  function MetaOf(enc: KeyBytes, f: File): E.FileMeta {
    E.FileMeta(f.number, f.size, enc(f.Smallest()), enc(f.Largest()))
  }

  function Metas(enc: KeyBytes, added: seq<(nat, File)>): seq<(nat, E.FileMeta)> {
    seq(|added|, i requires 0 <= i < |added| => (added[i].0, MetaOf(enc, added[i].1)))
  }

  /** An edit that was logged, and the next file number at the time. */
  datatype LoggedEdit = LoggedEdit(edit: Edit, nextFile: nat)

  /** The full edit LogAndApply encodes: it also holds log numbers, the last sequence number and pointers. */
  ghost predicate IsFull(enc: KeyBytes, full: E.Edit, l: LoggedEdit) {
    && E.EditFits(full)
    && full.deletedFiles == l.edit.deleted && full.newFiles == Metas(enc, l.edit.added)
    && full.nextFileNumber == Some(l.nextFile)
  }

  ghost predicate IsRecord(enc: KeyBytes, record: Bytes, l: LoggedEdit) {
    exists full, deleted :: IsFull(enc, full, l) && E.Lists(deleted, full.deletedFiles)
      && record == E.EncodeFields(E.FieldsOf(full, deleted))
  }

  ghost predicate AreRecords(enc: KeyBytes, records: seq<Bytes>, logged: seq<LoggedEdit>) {
    |records| == |logged| && forall i :: 0 <= i < |records| ==> IsRecord(enc, records[i], logged[i])
  }

  // ----- From descriptions back to files

  /** Table files, by number. */
  type Directory = map<nat, File>

  predicate HasName(files: Directory, f: File) {
    f.number in files && files[f.number] == f
  }

  ghost predicate Names(files: Directory, added: seq<(nat, File)>) {
    forall i :: 0 <= i < |added| ==> HasName(files, added[i].1)
  }

  predicate Known(files: Directory, e: E.Edit) {
    forall i :: 0 <= i < |e.newFiles| ==> e.newFiles[i].1.number in files
  }

  function Resolve(files: Directory, e: E.Edit): Edit
    requires Known(files, e)
  {
    Edit(e.deletedFiles, seq(|e.newFiles|, i requires 0 <= i < |e.newFiles| =>
      (e.newFiles[i].0, files[e.newFiles[i].1.number])))
  }

  lemma ResolveUndoes(enc: KeyBytes, files: Directory, full: E.Edit, l: LoggedEdit)
    requires IsFull(enc, full, l) && Names(files, l.edit.added)
    ensures Known(files, full) && Resolve(files, full) == l.edit
  {
    assert |full.newFiles| == |l.edit.added|;
    assert Resolve(files, full).added == l.edit.added;
  }

  /** Decode a record into a fresh edit. */
  method DecodeRecord(enc: KeyBytes, record: Bytes, files: Directory, ghost l: LoggedEdit)
    returns (e: Edit, next: Option<nat>)
    requires IsRecord(enc, record, l) && Names(files, l.edit.added)
    ensures e == l.edit && next == Some(l.nextFile)
  {
    ghost var full, deleted :| IsFull(enc, full, l) && E.Lists(deleted, full.deletedFiles)
      && record == E.EncodeFields(E.FieldsOf(full, deleted));
    var edit := new E.VersionEdit();
    var error := edit.DecodeFrom(record);
    E.EditRoundTrip(E.FRESH, full, deleted);
    ResolveUndoes(enc, files, full, l);
    return Resolve(files, edit.value), edit.value.nextFileNumber;
  }

  // ----- The manifest of a run

  /** The edits of a run that are logged, after the one that made the database. */
  ghost function Logged(run: seq<Store>, actions: seq<Action>): (logged: seq<LoggedEdit>)
    requires StepsEnabled(run, actions)
    ensures logged != []
  {
    if actions == [] then [LoggedEdit(NO_CHANGE, 2)]
    else
      var n := |actions| - 1;
      Logged(run[..n + 1], actions[..n])
      + if WritesEdit(actions[n]) then [LoggedEdit(EditOf(run[n], actions[n]), run[n + 1].nextFile)] else []
  }

  function EditsOf(logged: seq<LoggedEdit>): seq<Edit> {
    seq(|logged|, i requires 0 <= i < |logged| => logged[i].edit)
  }

  lemma NoChangeApplied(ls: LevelState, level: nat)
    ensures ApplyLevel(ls, NO_CHANGE, level) == ls
  {
    assert DeletedAt(NO_CHANGE, level) == {} && ls.deleted + {} == ls.deleted;
  }

  lemma AccumulateMore(edits: seq<Edit>, e: Edit, level: nat)
    ensures Accumulate(edits + [e], level) == ApplyLevel(Accumulate(edits, level), e, level)
  {
    assert (edits + [e])[..|edits|] == edits;
  }

  lemma LoggedMore(logged: seq<LoggedEdit>, l: LoggedEdit, level: nat)
    ensures Accumulate(EditsOf(logged + [l]), level) == ApplyLevel(Accumulate(EditsOf(logged), level), l.edit, level)
  {
    assert EditsOf(logged + [l]) == EditsOf(logged) + [l.edit];
    AccumulateMore(EditsOf(logged), l.edit, level);
  }

  lemma QuietEdit(st: Store, a: Action)
    requires Enabled(st, a) && !WritesEdit(a)
    ensures EditOf(st, a) == NO_CHANGE
  {
  }

  /** Steps that log nothing do not change the version. */
  lemma {:induction false} LoggedAccumulate(run: seq<Store>, actions: seq<Action>, level: nat)
    requires StepsEnabled(run, actions)
    ensures Accumulate(EditsOf(Logged(run, actions)), level) == Accumulate(ManifestOf(run, actions), level)
  {
    hide ApplyLevel, EditOf, Enabled, EditsOf;
    if actions == [] {
      LoggedMore([], LoggedEdit(NO_CHANGE, 2), level);
      assert [] + [LoggedEdit(NO_CHANGE, 2)] == Logged(run, actions);
      NoEdits(level);
      NoChangeApplied(EMPTY, level);
    } else {
      var n := |actions| - 1;
      var init, acts := run[..n + 1], actions[..n];
      var e := EditOf(run[n], actions[n]);
      LoggedAccumulate(init, acts, level);
      AccumulateMore(ManifestOf(init, acts), e, level);
      if WritesEdit(actions[n]) {
        LoggedMore(Logged(init, acts), LoggedEdit(e, run[n + 1].nextFile), level);
      } else {
        QuietEdit(run[n], actions[n]);
        assert Logged(run, actions) == Logged(init, acts);
        NoChangeApplied(Accumulate(ManifestOf(init, acts), level), level);
      }
    }
  }

  lemma NoEdits(level: nat)
    ensures Accumulate(EditsOf([]), level) == EMPTY
  {
  }

  lemma {:induction false} LastRecorded(run: seq<Store>, actions: seq<Action>)
    requires StepsEnabled(run, actions)
    ensures var logged := Logged(run, actions); logged[|logged| - 1].nextFile == NextRecorded(run, actions)
  {
    if actions != [] {
      LastRecorded(run[..|actions|], actions[..|actions| - 1]);
    }
  }

  /** The first count logged edits are those of a part of the run. */
  lemma {:induction false} LoggedPrefix(run: seq<Store>, actions: seq<Action>, count: nat) returns (k: nat)
    requires StepsEnabled(run, actions) && 0 < count <= |Logged(run, actions)|
    ensures k <= |actions| && Logged(run[..k + 1], actions[..k]) == Logged(run, actions)[..count]
  {
    hide EditOf;
    var n := |actions|;
    if count == |Logged(run, actions)| {
      k := n;
      assert run[..n + 1] == run && actions[..n] == actions;
    } else {
      k := LoggedPrefix(run[..n], actions[..n - 1], count);
      assert run[..n][..k + 1] == run[..k + 1] && actions[..n - 1][..k] == actions[..k];
    }
  }

  lemma RunIsEnabled(run: seq<Store>, actions: seq<Action>)
    requires IsRun(run, actions)
    ensures StepsEnabled(run, actions)
  {
  }

  lemma RunPrefix(run: seq<Store>, actions: seq<Action>, k: nat)
    requires IsRun(run, actions) && CountersRead(run, actions) && k <= |actions|
    ensures IsRun(run[..k + 1], actions[..k]) && CountersRead(run[..k + 1], actions[..k])
  {
    var init, acts := run[..k + 1], actions[..k];
    forall j | 0 <= j < k ensures CounterRead(init, acts, j) {
      assert init[..j + 1] == run[..j + 1] && acts[..j] == actions[..j] && acts[j] == actions[j];
      assert CounterRead(run, actions, j);
    }
  }

  // ----- A number names one file

  ghost predicate Usable(files: Directory, logged: seq<LoggedEdit>) {
    forall i :: 0 <= i < |logged| ==> Names(files, logged[i].edit.added) && InLevels(logged[i].edit)
  }

  /** The directory holds the version's files, and only numbers already recorded in the manifest. */
  ghost predicate Directs(files: Directory, st: Store, recorded: nat) {
    && recorded <= st.nextFile && |st.version| == NUM_LEVELS
    && (forall n :: n in files ==> n < recorded && n !in Pending(st))
    && (forall n :: n in Pending(st) ==> n < st.nextFile)
    && forall l, f :: 0 <= l < NUM_LEVELS && f in st.version[l] ==> HasName(files, f)
  }

  ghost function WithFiles(files: Directory, outs: seq<File>): Directory {
    if outs == [] then files else WithFiles(files, outs[..|outs| - 1])[outs[|outs| - 1].number := outs[|outs| - 1]]
  }

  ghost predicate Numbered(outs: seq<File>, n: nat) {
    exists f :: f in outs && f.number == n
  }

  lemma {:induction false} WithFilesAt(files: Directory, outs: seq<File>, n: nat)
    ensures n in WithFiles(files, outs) <==> n in files || Numbered(outs, n)
    ensures n in files && !Numbered(outs, n) ==> WithFiles(files, outs)[n] == files[n]
  {
    if outs != [] {
      var init, last := outs[..|outs| - 1], outs[|outs| - 1];
      assert outs == init + [last];
      WithFilesAt(files, init, n);
      assert Numbered(outs, n) <==> Numbered(init, n) || last.number == n;
    }
  }

  lemma {:induction false} WithFilesNamed(files: Directory, outs: seq<File>, f: File)
    requires f in outs && forall g :: g in outs && g.number == f.number ==> g == f
    ensures HasName(WithFiles(files, outs), f)
  {
    var init, last := outs[..|outs| - 1], outs[|outs| - 1];
    assert outs == init + [last];
    if last.number != f.number {
      WithFilesNamed(files, init, f);
    }
  }

  lemma WithFilesNames(files: Directory, outs: seq<File>)
    requires forall f, g :: f in outs && g in outs && f.number == g.number ==> f == g
    ensures forall n :: n in WithFiles(files, outs) <==> n in files || exists f :: f in outs && f.number == n
    ensures forall f :: f in outs ==> HasName(WithFiles(files, outs), f)
    ensures forall n :: n in files && (forall f :: f in outs ==> f.number != n) ==>
      WithFiles(files, outs)[n] == files[n]
  {
    hide WithFiles, HasName;
    forall n: nat
      ensures n in WithFiles(files, outs) <==> n in files || Numbered(outs, n)
      ensures n in files && !Numbered(outs, n) ==> WithFiles(files, outs)[n] == files[n]
    {
      WithFilesAt(files, outs, n);
    }
    forall f | f in outs ensures HasName(WithFiles(files, outs), f) {
      WithFilesNamed(files, outs, f);
    }
  }

  ghost predicate Extends(files: Directory, files': Directory) {
    forall n :: n in files ==> n in files' && files'[n] == files[n]
  }

  lemma StillUsable(files: Directory, files': Directory, logged: seq<LoggedEdit>)
    requires Usable(files, logged) && Extends(files, files')
    ensures Usable(files', logged)
  {
    forall i | 0 <= i < |logged| ensures Names(files', logged[i].edit.added) {
      assert Names(files, logged[i].edit.added);
    }
  }

  /** New files under numbers not in the directory. */
  lemma MoreFiles(files: Directory, st: Store, recorded: nat, st': Store, level: nat, outs: seq<File>)
    returns (files': Directory)
    requires Directs(files, st, recorded) && OnlyAdded(st.version, st'.version, level, outs)
    requires st.nextFile <= st'.nextFile && Pending(st') <= Pending(st)
    requires forall f, g :: f in outs && g in outs && f.number == g.number ==> f == g
    requires forall f :: f in outs ==> f.number !in files && f.number < st'.nextFile && f.number !in Pending(st')
    ensures Directs(files', st', st'.nextFile) && Extends(files, files')
    ensures forall f :: f in outs ==> HasName(files', f)
  {
    files' := WithFiles(files, outs);
    WithFilesNames(files, outs);
    forall l, f | 0 <= l < NUM_LEVELS && f in st'.version[l] ensures HasName(files', f) {
      assert f in st.version[l] ==> HasName(files, f);
    }
  }

  lemma QuietDirects(files: Directory, st: Store, a: Action, recorded: nat)
    requires Inv(st) && Enabled(st, a) && Directs(files, st, recorded)
    requires a.Crash? ==> a.nextFile > recorded
    requires Step(st, a).version == st.version && (WritesEdit(a) ==> a.Crash? || a.Flush?)
    ensures Directs(files, Step(st, a), if WritesEdit(a) then Step(st, a).nextFile else recorded)
  {
  }

  lemma FlushDirects(files: Directory, st: Store, level: nat, size: nat, recorded: nat) returns (files': Directory)
    requires Inv(st) && Enabled(st, Flush(level, size)) && st.imm.value != [] && Directs(files, st, recorded)
    ensures var st' := Step(st, Flush(level, size));
            && Directs(files', st', st'.nextFile) && Extends(files, files')
    ensures Names(files', EditOf(st, Flush(level, size)).added) && InLevels(EditOf(st, Flush(level, size)))
  {
    var f := FlushedFile(st, size);
    Builders.SaveLevelMembers(st.version[level], {}, [f]);
    files' := MoreFiles(files, st, recorded, Step(st, Flush(level, size)), level, [f]);
  }

  lemma OutputsAreNew(files: Directory, st: Store, p: Plan, merged: seq<Entry>, outs: seq<File>, recorded: nat)
    requires Directs(files, st, recorded) && st.running == Some(p) && OutputOf(p, merged, outs)
    ensures forall f :: f in outs ==> f.number !in files && f.number < st.nextFile
    ensures forall f, g :: f in outs && g in outs && f.number == g.number ==> f == g
  {
    hide HasName, Sorted;
    forall f | f in outs ensures f.number !in files && f.number < st.nextFile {
      assert f.number in Pending(st);
    }
  }

  lemma InstallEdit(files: Directory, st: Store, merged: seq<Entry>, outs: seq<File>)
    requires Enabled(st, InstallCompaction(merged, outs)) && forall f :: f in outs ==> HasName(files, f)
    ensures Names(files, EditOf(st, InstallCompaction(merged, outs)).added)
    ensures InLevels(EditOf(st, InstallCompaction(merged, outs)))
  {
  }

  lemma InstallDirects(files: Directory, st: Store, merged: seq<Entry>, outs: seq<File>, recorded: nat)
    returns (files': Directory)
    requires Inv(st) && Enabled(st, InstallCompaction(merged, outs)) && Directs(files, st, recorded)
    ensures var st' := Step(st, InstallCompaction(merged, outs));
            && Directs(files', st', st'.nextFile) && Extends(files, files')
    ensures Names(files', EditOf(st, InstallCompaction(merged, outs)).added)
    ensures InLevels(EditOf(st, InstallCompaction(merged, outs)))
  {
    hide Inv, Enabled, Step, Directs, EditOf, PlanOk, OutputOf, VersionChanges.AfterCompaction;
    InstallFacts(st, merged, outs);
    var p, st' := st.running.value, Step(st, InstallCompaction(merged, outs));
    OutputsOnlyAdded(st.version, p.level, p.in0, p.in1, outs);
    OutputsAreNew(files, st, p, merged, outs, recorded);
    files' := MoreFiles(files, st, recorded, st', p.level + 1, outs);
    InstallEdit(files', st, merged, outs);
  }

  lemma MoveDirects(files: Directory, st: Store, level: nat, file: File, recorded: nat)
    requires Inv(st) && Enabled(st, TrivialMove(level, file)) && Directs(files, st, recorded)
    ensures var st' := Step(st, TrivialMove(level, file)); Directs(files, st', st'.nextFile)
    ensures Names(files, EditOf(st, TrivialMove(level, file)).added) && InLevels(EditOf(st, TrivialMove(level, file)))
  {
    OutputsOnlyAdded(st.version, level, [file], [], [file]);
    assert file in [file] && file in st.version[level];
    assert HasName(files, file);
  }

  lemma StepDirects(files: Directory, st: Store, a: Action, recorded: nat) returns (files': Directory)
    requires Inv(st) && Enabled(st, a) && Directs(files, st, recorded) && (a.Crash? ==> a.nextFile > recorded)
    ensures Directs(files', Step(st, a), if WritesEdit(a) then Step(st, a).nextFile else recorded)
    ensures Extends(files, files')
    ensures WritesEdit(a) ==> Names(files', EditOf(st, a).added) && InLevels(EditOf(st, a))
  {
    hide Inv, Enabled, Step, Directs, Names, InLevels, EditOf, IsQuiet;
    files' := files;
    if IsQuiet(st, a) {
      QuietStepDirects(files, st, a, recorded);
    } else {
      files' := EditDirects(files, st, a, recorded);
    }
  }

  /** The action leaves the version as it is. */
  predicate IsQuiet(st: Store, a: Action)
    requires Enabled(st, a)
  {
    !a.InstallCompaction? && !a.TrivialMove? && (a.Flush? ==> st.imm.value == [])
  }

  lemma QuietStepDirects(files: Directory, st: Store, a: Action, recorded: nat)
    requires Inv(st) && Enabled(st, a) && Directs(files, st, recorded) && (a.Crash? ==> a.nextFile > recorded)
    requires IsQuiet(st, a)
    ensures Directs(files, Step(st, a), if WritesEdit(a) then Step(st, a).nextFile else recorded)
    ensures WritesEdit(a) ==> Names(files, EditOf(st, a).added) && InLevels(EditOf(st, a))
  {
    QuietDirects(files, st, a, recorded);
    hide Inv, Directs;
  }

  lemma EditDirects(files: Directory, st: Store, a: Action, recorded: nat) returns (files': Directory)
    requires Inv(st) && Enabled(st, a) && Directs(files, st, recorded) && !IsQuiet(st, a)
    ensures Directs(files', Step(st, a), Step(st, a).nextFile) && Extends(files, files')
    ensures WritesEdit(a) && Names(files', EditOf(st, a).added) && InLevels(EditOf(st, a))
  {
    hide Inv, Enabled, Step, Directs, Names, InLevels, EditOf;
    files' := files;
    if a.Flush? {
      files' := FlushDirects(files, st, a.level, a.size, recorded);
    } else if a.InstallCompaction? {
      files' := InstallDirects(files, st, a.merged, a.outs, recorded);
    } else {
      MoveDirects(files, st, a.level, a.file, recorded);
    }
  }

  /** Over a whole run, the number in the manifest is enough to tell the file. */
  lemma {:induction false} RunDirects(run: seq<Store>, actions: seq<Action>) returns (files: Directory)
    requires IsRun(run, actions) && CountersRead(run, actions)
    ensures Usable(files, Logged(run, actions)) && Directs(files, run[|actions|], NextRecorded(run, actions))
  {
    hide Inv, Enabled, Step, EditOf, Names, InLevels;
    if actions == [] {
      files := map[];
      FirstDirects(run[0]);
    } else {
      var n := |actions| - 1;
      CountersReadBefore(run, actions);
      var init, acts := run[..n + 1], actions[..n];
      var before := RunDirects(init, acts);
      RunsKeepInv(init, acts);
      files := StepDirects(before, run[n], actions[n], NextRecorded(init, acts));
      StillUsable(before, files, Logged(init, acts));
    }
  }

  lemma FirstDirects(st: Store)
    requires Init(st)
    ensures Usable(map[], [LoggedEdit(NO_CHANGE, 2)]) && Directs(map[], st, 2)
  {
  }

  // ----- Recover

  /** The edits read so far have been applied; next is the file number in the last of them. */
  ghost predicate Applied(builder: Builder, logged: seq<LoggedEdit>, i: nat, next: Option<nat>)
    reads builder
  {
    && builder.Valid() && builder.base == seq(NUM_LEVELS, _ => []) && i <= |logged|
    && (forall l :: 0 <= l < NUM_LEVELS ==> builder.levels[l] == Accumulate(EditsOf(logged[..i]), l))
    && next == if i == 0 then None else Some(logged[i - 1].nextFile)
  }

  lemma AppliedNext(logged: seq<LoggedEdit>, i: nat, l: nat)
    requires i < |logged|
    ensures Accumulate(EditsOf(logged[..i + 1]), l)
      == ApplyLevel(Accumulate(EditsOf(logged[..i]), l), logged[i].edit, l)
  {
    assert EditsOf(logged[..i + 1])[..i] == EditsOf(logged[..i]);
  }

  method ApplyRecord(enc: KeyBytes, builder: Builder, record: Bytes, files: Directory, ghost logged: seq<LoggedEdit>,
                     ghost i: nat, ghost next0: Option<nat>)
    returns (next: Option<nat>)
    requires Applied(builder, logged, i, next0) && i < |logged| && Usable(files, logged)
    requires IsRecord(enc, record, logged[i])
    modifies builder
    ensures Applied(builder, logged, i + 1, next)
  {
    var e;
    e, next := DecodeRecord(enc, record, files, logged[i]);
    builder.Apply(e);
    forall l | 0 <= l < NUM_LEVELS ensures builder.levels[l] == Accumulate(EditsOf(logged[..i + 1]), l) {
      AppliedNext(logged, i, l);
    }
  }

  /** The version is the edits, applied to nothing. */
  ghost predicate Rebuilt(v: Version, logged: seq<LoggedEdit>) {
    |v| == NUM_LEVELS && forall l :: 0 <= l < NUM_LEVELS ==> v[l] == Save([], Accumulate(EditsOf(logged), l))
  }

  /** All the edits in the records, into one builder. */
  method ApplyRecords(enc: KeyBytes, records: seq<Bytes>, files: Directory, ghost logged: seq<LoggedEdit>)
    returns (v: Version, next: Option<nat>)
    requires AreRecords(enc, records, logged) && Usable(files, logged)
    ensures Rebuilt(v, logged)
    ensures next == if logged == [] then None else Some(logged[|logged| - 1].nextFile)
  {
    hide IsRecord, Accumulate;
    var builder := new Builder(seq(NUM_LEVELS, _ => []));
    next := None;
    forall l: nat ensures Accumulate(EditsOf([]), l) == EMPTY {
      NoEdits(l);
    }
    for i := 0 to |records|
      invariant fresh(builder) && Applied(builder, logged, i, next)
    {
      next := ApplyRecord(enc, builder, records[i], files, logged, i, next);
    }
    assert logged[..|logged|] == logged;
    v := builder.SaveVersion();
  }

  /** What recovery finds: the version at some point of the run, and a file counter past all that was logged. */
  ghost predicate IsRecovered(run: seq<Store>, actions: seq<Action>, count: nat, v: Version, nextFile: nat, k: nat)
    requires StepsEnabled(run, actions)
  {
    && k <= |actions| && count <= |Logged(run, actions)|
    && Logged(run[..k + 1], actions[..k]) == Logged(run, actions)[..count]
    && v == run[k].version
    && nextFile == NextRecorded(run[..k + 1], actions[..k]) + 1
  }

  lemma RecoveredVersion(run: seq<Store>, actions: seq<Action>, count: nat, v: Version, nextFile: nat) returns (k: nat)
    requires IsRun(run, actions) && CountersRead(run, actions) && 0 < count <= |Logged(run, actions)|
    requires var logged := Logged(run, actions)[..count];
             Rebuilt(v, logged) && nextFile == logged[count - 1].nextFile + 1
    ensures IsRecovered(run, actions, count, v, nextFile, k)
  {
    RunIsEnabled(run, actions);
    hide StepsEnabled, CountersRead, IsRun, Logged, NextRecorded, Rebuilt;
    k := LoggedPrefix(run, actions, count);
    var init, acts := run[..k + 1], actions[..k];
    RunPrefix(run, actions, k);
    RunIsEnabled(init, acts);
    LastRecorded(init, acts);
    VersionAfter(init, acts, v);
  }

  lemma VersionAfter(run: seq<Store>, actions: seq<Action>, v: Version)
    requires IsRun(run, actions) && CountersRead(run, actions) && Rebuilt(v, Logged(run, actions))
    ensures v == run[|actions|].version
  {
    RunsKeepInv(run, actions);
    assert |run[|actions|].version| == NUM_LEVELS;
    hide Inv, CountersRead, Enabled, Step, Accumulate, Logged, ManifestOf;
    forall l | 0 <= l < NUM_LEVELS ensures v[l] == run[|actions|].version[l] {
      LoggedAccumulate(run, actions, l);
      ManifestGivesVersion(run, actions, l);
    }
  }

  /**
   VersionSet::Recover.  The manifest of any run of the store, cut off at any byte, gives the version the
   store had after the last edit that is whole; without a single whole edit recovery reports an error.
   */
  method RecoverVersion(crc: Checksum, file: Bytes, enc: KeyBytes, files: Directory,
                        ghost run: seq<Store>, ghost actions: seq<Action>, ghost records: seq<Bytes>)
    returns (ok: bool, v: Version, nextFile: nat, ghost count: nat, ghost k: nat)
    requires IsRun(run, actions) && CountersRead(run, actions)
    requires AreRecords(enc, records, Logged(run, actions)) && Usable(files, Logged(run, actions))
    requires file <= LogOf(crc, records)
    ensures WhollyInside(crc, records, |file|, count) && (ok <==> count > 0)
    ensures ok ==> IsRecovered(run, actions, count, v, nextFile, k)
    ensures ok ==> exists j :: 0 <= j <= |actions| && v == run[j].version
  {
    hide IsRecord, CountersRead, WhollyInside, LogOf, Enabled, Step;
    var read, reports := ReadLog(crc, file, records);
    count, k, nextFile := |read|, 0, 0;
    InPrefix(crc, records, |file|, count);
    ghost var logged := Logged(run, actions)[..count];
    var next;
    v, next := ApplyRecords(enc, read, files, logged);
    ok := next.Some?;
    if ok {
      nextFile := next.value + 1;
      k := RecoveredVersion(run, actions, count, v, nextFile);
    }
  }

  lemma InPrefix(crc: Checksum, records: seq<Bytes>, size: nat, count: nat)
    requires WhollyInside(crc, records, size, count)
    ensures count <= |records|
  {
  }
}
