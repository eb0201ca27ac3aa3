/**
 Deleting obsolete files while readers hold old versions and a flush or a compaction writes new tables: in
 every run, each file that is still needed stays on disk.
 */
module ObsoleteFiles {
  import opened Basics
  import opened VersionLists

  datatype FileName =
    | LogFile(number: nat)
    | DescriptorFile(number: nat)
    | TableFile(number: nat)
    | TempFile(number: nat)
    | OtherFile(name: string)

  /** A flush writes a table while it holds its base version, and then has it, or none, to install. */
  datatype Flush = NoFlush | Writing(base: nat, number: nat) | Written(tables: set<nat>)

  datatype Compaction = NoCompaction | Compaction(input: nat, outputs: set<nat>, installed: bool)

  /** A version the manifest may hold, with the counters of its last edit. */
  datatype Saved = Saved(files: seq<FileMeta>, logNumber: nat, nextFile: nat)

  /** The database at any point where its mutex is free, as far as its files are concerned. */
  datatype State = State(
    disk: set<FileName>,
    versions: seq<Version>,
    nextVersion: nat,
    readers: multiset<nat>,
    pending: set<nat>,
    flush: Flush,
    compaction: Compaction,
    manifest: nat,
    saved: set<Saved>,
    logNumber: nat,
    prevLog: nat,
    logfile: nat,
    immLog: Option<nat>,
    nextFile: nat,
    failed: bool
  )

  function Current(s: State): Version
    requires s.versions != []
  {
    s.versions[|s.versions| - 1]
  }

  /** Those who hold versions: readers, the flush, and the compaction. */
  function Holders(s: State): multiset<nat> {
    s.readers + (if s.flush.Writing? then multiset{s.flush.base} else multiset{})
    + (if s.compaction.Compaction? then multiset{s.compaction.input} else multiset{})
  }

  // ----- Which files are kept

  predicate Keep(s: State, live: set<nat>, f: FileName) {
    match f
    case LogFile(n) => n >= s.logNumber || n == s.prevLog
    case DescriptorFile(n) => n >= s.manifest
    case TableFile(n) => n in live
    case TempFile(n) => n in live
    case OtherFile(name) => true
  }

  /** What is on disk after obsolete files are deleted; after an error, nothing is. */
  ghost function Collected(s: State): set<FileName> {
    if s.failed then s.disk else set f | f in s.disk && Keep(s, s.pending + Live(s.versions), f)
  }

  /** DeleteObsoleteFiles, given the children of the directory. */
  method DeleteObsoleteFiles(s: State, versions: VersionSet, filenames: seq<FileName>) returns (disk: set<FileName>)
    requires versions.list == s.versions && s.disk == set f | f in filenames
    ensures disk == Collected(s)
  {
    disk := set f | f in filenames;
    if s.failed {
      return;
    }
    var live := versions.AddLiveFiles(s.pending);
    hide Keep;
    for i := 0 to |filenames|
      invariant disk == set f | f in filenames && (f in filenames[..i] ==> Keep(s, live, f))
    {
      if !Keep(s, live, filenames[i]) {
        disk := disk - {filenames[i]};
      }
    }
  }

  // ----- The steps

  datatype Step =
    | StartRead
    | EndRead(k: nat)
    | SwitchMemTable
    | StartFlush
    | EndFlushWrite(k: nat, nonempty: bool)
    | InstallFlush(made: seq<FileMeta>, written: bool)
    | StartCompaction
    | OpenOutput
    | InstallCompaction(made: seq<FileMeta>, deleted: set<(nat, nat)>, written: bool)
    | CleanUp(k: nat)
    | TrivialMove(from: FileMeta, to: FileMeta, written: bool)
    | Collect
    | Reopen(saved: Saved, made: seq<FileMeta>, manifest: nat, logfile: nat)

  predicate Idle(s: State) {
    s.flush == NoFlush && s.compaction == NoCompaction
  }

  /** A compaction between its outputs, where it may let a flush go first. */
  predicate Compacting(s: State) {
    s.flush == NoFlush && s.compaction.Compaction? && !s.compaction.installed
  }

  ghost predicate Enabled(s: State, step: Step)
    requires s.versions != []
  {
    match step
    case StartRead => true
    case EndRead(k) => k < |s.versions| && s.versions[k].id in s.readers
    case SwitchMemTable => s.immLog == None
    case StartFlush => s.immLog.Some? && (Idle(s) || Compacting(s))
    case EndFlushWrite(k, nonempty) => s.flush.Writing? && k < |s.versions| && s.versions[k].id == s.flush.base
    case InstallFlush(made, written) => s.flush.Written? && s.immLog.Some? && Numbers(made) == s.flush.tables
    case StartCompaction => Idle(s) && s.immLog == None
    case OpenOutput => Compacting(s)
    case InstallCompaction(made, deleted, written) => Compacting(s) && Numbers(made) == s.compaction.outputs
    case CleanUp(k) =>
      && s.flush == NoFlush && s.compaction.Compaction? && (s.compaction.installed || s.failed)
      && k < |s.versions| && s.versions[k].id == s.compaction.input
    case TrivialMove(from, to, written) =>
      Idle(s) && s.immLog == None && from in Current(s).files && to.number == from.number
    case Collect => s.flush == NoFlush
    case Reopen(saved, made, manifest, logfile) =>
      && saved in s.saved && saved.nextFile <= logfile && (forall n: nat :: LogFile(n) in s.disk ==> n < logfile)
      && forall n :: n in Numbers(made) ==> saved.nextFile <= n < logfile
  }

  /** What the manifest may hold once an edit is appended to it. */
  function Extended(saved: set<Saved>, made: seq<FileMeta>, deleted: set<(nat, nat)>, logNumber: nat, nextFile: nat)
    : set<Saved>
  {
    set c | c in saved :: Saved(Edited(c.files, made, deleted), logNumber, nextFile)
  }

  /** LogAndApply: a new current version, or, if its edit may not have been written, an error. */
  function Install(s: State, made: seq<FileMeta>, deleted: set<(nat, nat)>, logNumber: nat, written: bool): State
    requires s.versions != []
  {
    var extended := Extended(s.saved, made, deleted, logNumber, s.nextFile);
    if written then
      s.(versions := Append(s.versions, s.nextVersion, Edited(Current(s).files, made, deleted)),
         nextVersion := s.nextVersion + 1, saved := extended, logNumber := logNumber)
    else s.(saved := s.saved + extended, failed := true)
  }

  /** A new table file, whose number nothing else has. */
  function Allocated(s: State): State {
    var n := s.nextFile;
    s.(disk := s.disk + {TableFile(n)}, pending := s.pending + {n}, nextFile := n + 1)
  }

  /** The flush that has the newest number holds the current version. */
  function FlushStarted(t: State): State
    requires t.versions != [] && t.nextFile > 0
  {
    t.(versions := Ref(t.versions, |t.versions| - 1), flush := Writing(Current(t).id, t.nextFile - 1))
  }

  /** The output that has the newest number is the compaction's. */
  function OutputOpened(t: State): State
    requires t.nextFile > 0 && t.compaction.Compaction?
  {
    t.(compaction := t.compaction.(outputs := t.compaction.outputs + {t.nextFile - 1}))
  }

  ghost function Do(s: State, step: Step): State
    requires s.versions != [] && Enabled(s, step)
  {
    var n, last := s.nextFile, |s.versions| - 1;
    match step
    case StartRead => s.(versions := Ref(s.versions, last), readers := s.readers + multiset{Current(s).id})
    case EndRead(k) => s.(versions := Unref(s.versions, k), readers := s.readers - multiset{s.versions[k].id})
    case SwitchMemTable =>
      s.(disk := s.disk + {LogFile(n)}, logfile := n, immLog := Some(s.logfile), nextFile := n + 1)
    case StartFlush => FlushStarted(Allocated(s))
    case EndFlushWrite(k, nonempty) =>
      s.(versions := Unref(s.versions, k), flush := Written(if nonempty then {s.flush.number} else {}),
         pending := s.pending - {s.flush.number},
         disk := if nonempty then s.disk else s.disk - {TableFile(s.flush.number)})
    case InstallFlush(made, written) =>
      var s' := Install(s, made, {}, s.logfile, written).(flush := NoFlush);
      if written then s'.(immLog := None, prevLog := 0) else s'
    case StartCompaction =>
      s.(versions := Ref(s.versions, last), compaction := Compaction(Current(s).id, {}, false))
    case OpenOutput => OutputOpened(Allocated(s))
    case InstallCompaction(made, deleted, written) =>
      Install(s, made, deleted, s.logNumber, written).(compaction := s.compaction.(installed := written))
    case CleanUp(k) =>
      s.(versions := Unref(s.versions, k), compaction := NoCompaction, pending := s.pending - s.compaction.outputs)
    case TrivialMove(from, to, written) =>
      Install(s, [to], {(from.level, from.number)}, s.logNumber, written)
    case Collect => s.(disk := Collected(s))
    case Reopen(saved, made, manifest, logfile) => Reopened(s, saved, made, manifest, logfile)
  }

  /** Open the database again: logs become tables, and a new manifest starts from them. */
  function Reopened(s: State, saved: Saved, made: seq<FileMeta>, manifest: nat, logfile: nat): State {
    var files := Edited(saved.files, made, {});
    State(s.disk + {LogFile(logfile), DescriptorFile(manifest)} + (set n | n in Numbers(made) :: TableFile(n)),
          [Version(s.nextVersion, files, 1)], s.nextVersion + 1, multiset{}, {}, NoFlush, NoCompaction,
          manifest, {Saved(files, logfile, logfile + 1)}, logfile, 0, logfile, None, logfile + 1, false)
  }

  // ----- What every step keeps

  ghost predicate OnDisk(disk: set<FileName>, tables: set<nat>) {
    forall n :: n in tables ==> TableFile(n) in disk
  }

  ghost predicate Below(tables: set<nat>, next: nat) {
    forall n :: n in tables ==> n < next
  }

  ghost predicate VersionsOk(s: State) {
    && ListOk(s.versions, Holders(s), s.nextVersion)
    && OnDisk(s.disk, Live(s.versions)) && Below(Live(s.versions), s.nextFile)
  }

  /** A number that nothing but the running flush has. */
  ghost predicate OnlyWritten(s: State, n: nat) {
    && n !in Live(s.versions) && (s.compaction.Compaction? ==> n !in s.compaction.outputs)
    && forall saved :: saved in s.saved ==> n !in Numbers(saved.files)
  }

  /** The tables being written are there, and their numbers are all different. */
  ghost predicate TablesOk(s: State) {
    && OnDisk(s.disk, s.pending) && Below(s.pending, s.nextFile)
    && (s.flush.Writing? ==> s.flush.number in s.pending)
    && (s.flush.Written? ==> OnDisk(s.disk, s.flush.tables) && Below(s.flush.tables, s.nextFile))
    && (s.compaction.Compaction? ==> s.compaction.outputs <= s.pending)
    && (s.flush.Writing? ==> OnlyWritten(s, s.flush.number))
  }

  /** The logs of the memtables are there, and no version in the manifest passes over them. */
  ghost predicate LogsOk(s: State) {
    && LogFile(s.logfile) in s.disk && s.logNumber <= s.logfile < s.nextFile
    && (s.immLog.Some? ==> LogFile(s.immLog.value) in s.disk && s.logNumber <= s.immLog.value < s.logfile)
  }

  ghost predicate SavedOk(s: State, saved: Saved) {
    && OnDisk(s.disk, Numbers(saved.files)) && Below(Numbers(saved.files), saved.nextFile)
    && saved.nextFile <= s.nextFile
    && saved.logNumber <= s.logfile
    && (s.immLog.Some? ==> saved.logNumber <= s.immLog.value || saved.logNumber == s.logfile)
  }

  /** Every version the manifest may hold can be opened; unless there was an error, that is the current one. */
  ghost predicate ManifestOk(s: State) {
    && DescriptorFile(s.manifest) in s.disk
    && (forall saved :: saved in s.saved ==> SavedOk(s, saved))
    && s.versions != [] && (!s.failed ==> forall saved :: saved in s.saved ==> saved.files == Current(s).files)
  }

  ghost predicate Inv(s: State) {
    VersionsOk(s) && TablesOk(s) && LogsOk(s) && ManifestOk(s)
  }

  lemma LiveRef(list: seq<Version>, k: nat)
    requires k < |list|
    ensures Live(Ref(list, k)) == Live(list)
  {
    hide Numbers;
    var list' := Ref(list, k);
    assert forall i :: 0 <= i < |list| ==> list'[i].files == list[i].files;
  }

  lemma LiveUnref(list: seq<Version>, k: nat)
    requires k < |list|
    ensures Live(Unref(list, k)) <= Live(list)
  {
    hide Numbers;
    var list' := Unref(list, k);
    forall n | n in Live(list') ensures n in Live(list) {
      var i :| 0 <= i < |list'| && n in Numbers(list'[i].files);
      var was := if list[k].refs <= 1 && i >= k then i + 1 else i;
      assert list'[i].files == list[was].files;
    }
  }

  lemma LiveAppend(list: seq<Version>, id: nat, files: seq<FileMeta>)
    ensures Live(Append(list, id, files)) <= Live(list) + Numbers(files)
  {
    hide Numbers, Unref;
    var list' := Append(list, id, files);
    if list != [] {
      LiveUnref(list, |list| - 1);
    }
    forall n | n in Live(list') ensures n in Live(list) + Numbers(files) {
      var i :| 0 <= i < |list'| && n in Numbers(list'[i].files);
      if i < |list'| - 1 {
        assert n in Numbers(list'[..|list'| - 1][i].files);
        assert n in Live(list'[..|list'| - 1]);
        assert list'[..|list'| - 1] == Unref(list, |list| - 1);
      }
    }
  }

  lemma CurrentLive(list: seq<Version>)
    requires list != []
    ensures Numbers(list[|list| - 1].files) <= Live(list)
  {
    hide Numbers;
  }

  // ----- Holding and letting go of versions

  lemma HoldCurrent(s: State, s': State)
    requires Inv(s) && s'.versions == Ref(s.versions, |s.versions| - 1) && s'.nextVersion == s.nextVersion
    requires Holders(s') == Holders(s) + multiset{Current(s).id}
    ensures ListOk(s'.versions, Holders(s'), s'.nextVersion)
    ensures Live(s'.versions) == Live(s.versions) && Current(s').files == Current(s).files
  {
    RefOk(s.versions, Holders(s), s.nextVersion, |s.versions| - 1);
    LiveRef(s.versions, |s.versions| - 1);
    hide ListOk, Live, Holders, TablesOk, LogsOk, ManifestOk;
  }

  lemma LetGo(s: State, s': State, k: nat)
    requires Inv(s) && k < |s.versions| && s.versions[k].id in Holders(s)
    requires s'.versions == Unref(s.versions, k) && s'.nextVersion == s.nextVersion
    requires Holders(s') == Holders(s) - multiset{s.versions[k].id}
    ensures ListOk(s'.versions, Holders(s'), s'.nextVersion)
    ensures Live(s'.versions) <= Live(s.versions) && s'.versions != [] && Current(s').files == Current(s).files
  {
    UnrefOk(s.versions, Holders(s), s.nextVersion, k);
    LiveUnref(s.versions, k);
    assert CountOk(s.versions, k, Holders(s));
    hide ListOk, Live, Holders, TablesOk, LogsOk, ManifestOk;
  }

  /** With fewer versions, but the same current files, nothing more is needed. */
  lemma FewerVersions(s: State, s': State)
    requires Inv(s) && s'.versions != [] && ListOk(s'.versions, Holders(s'), s'.nextVersion) && TablesOk(s')
    requires s' == s.(versions := s'.versions, readers := s'.readers, flush := s'.flush, compaction := s'.compaction,
                      pending := s'.pending)
    requires Live(s'.versions) <= Live(s.versions) && Current(s').files == Current(s).files
    ensures Inv(s')
  {
    hide ListOk, Live, Holders;
    forall saved | saved in s'.saved ensures SavedOk(s', saved) {
      assert SavedOk(s, saved);
    }
  }

  lemma StartReadKeepsInv(s: State)
    requires Inv(s)
    ensures Inv(Do(s, StartRead))
  {
    var s' := Do(s, StartRead);
    assert Holders(s') == Holders(s) + multiset{Current(s).id};
    hide Live, ListOk, Ref, Holders, VersionsOk, ManifestOk, LogsOk;
    HoldCurrent(s, s');
    FewerVersions(s, s');
  }

  lemma EndReadKeepsInv(s: State, k: nat)
    requires Inv(s) && Enabled(s, EndRead(k))
    ensures Inv(Do(s, EndRead(k)))
  {
    var s' := Do(s, EndRead(k));
    assert s.versions[k].id in Holders(s) && Holders(s') == Holders(s) - multiset{s.versions[k].id};
    hide Live, ListOk, Unref, Holders, VersionsOk, ManifestOk, LogsOk;
    LetGo(s, s', k);
    FewerVersions(s, s');
  }

  // ----- Writing tables

  lemma AllocateKeepsInv(s: State)
    requires Inv(s)
    ensures Inv(Allocated(s)) && OnlyWritten(Allocated(s), s.nextFile)
  {
    var s' := Allocated(s);
    assert Holders(s') == Holders(s);
    hide ListOk, Live, Holders;
    forall saved | saved in s'.saved ensures SavedOk(s', saved) {
      assert SavedOk(s, saved);
    }
  }

  lemma FlushTables(t: State, s': State)
    requires Inv(t) && t.nextFile > 0 && OnlyWritten(t, t.nextFile - 1) && t.nextFile - 1 in t.pending
    requires s' == t.(versions := s'.versions, flush := s'.flush) && Live(s'.versions) == Live(t.versions)
    requires s'.flush.Writing? && s'.flush.number == t.nextFile - 1
    ensures TablesOk(s')
  {
    hide Live, Holders, VersionsOk, ManifestOk, LogsOk;
  }

  lemma FlushStartedKeepsInv(t: State)
    requires Inv(t) && t.nextFile > 0 && OnlyWritten(t, t.nextFile - 1) && t.nextFile - 1 in t.pending
    requires t.flush == NoFlush
    ensures Inv(FlushStarted(t))
  {
    var s' := FlushStarted(t);
    assert Holders(s') == Holders(t) + multiset{Current(t).id};
    hide Inv, Live, ListOk, Ref, Holders, TablesOk, OnlyWritten;
    HoldCurrent(t, s');
    FlushTables(t, s');
    FewerVersions(t, s');
  }

  lemma StartFlushKeepsInv(s: State)
    requires Inv(s) && Enabled(s, StartFlush)
    ensures Inv(Do(s, StartFlush))
  {
    AllocateKeepsInv(s);
    hide Inv, OnlyWritten;
    FlushStartedKeepsInv(Allocated(s));
  }

  lemma StartCompactionKeepsInv(s: State)
    requires Inv(s) && Enabled(s, StartCompaction)
    ensures Inv(Do(s, StartCompaction))
  {
    var s' := Do(s, StartCompaction);
    assert Holders(s') == Holders(s) + multiset{Current(s).id};
    hide Live, ListOk, Ref, Holders, VersionsOk, ManifestOk, LogsOk;
    HoldCurrent(s, s');
    FewerVersions(s, s');
  }

  lemma OutputTables(t: State, s': State)
    requires Inv(t) && t.nextFile > 0 && t.nextFile - 1 in t.pending && t.flush == NoFlush && t.compaction.Compaction?
    requires s' == t.(compaction := t.compaction.(outputs := t.compaction.outputs + {t.nextFile - 1}))
    ensures TablesOk(s')
  {
    hide Live, Holders, VersionsOk, ManifestOk, LogsOk;
  }

  lemma OutputOpenedKeepsInv(t: State)
    requires Inv(t) && t.nextFile > 0 && t.nextFile - 1 in t.pending && t.flush == NoFlush && t.compaction.Compaction?
    ensures Inv(OutputOpened(t))
  {
    var s' := OutputOpened(t);
    assert Holders(s') == Holders(t);
    OutputTables(t, s');
    hide Live, ListOk, Holders, TablesOk, ManifestOk, LogsOk;
    FewerVersions(t, s');
  }

  lemma OpenOutputKeepsInv(s: State)
    requires Inv(s) && Enabled(s, OpenOutput)
    ensures Inv(Do(s, OpenOutput))
  {
    AllocateKeepsInv(s);
    hide Inv, OnlyWritten;
    OutputOpenedKeepsInv(Allocated(s));
  }

  lemma CleanUpKeepsInv(s: State, k: nat)
    requires Inv(s) && Enabled(s, CleanUp(k))
    ensures Inv(Do(s, CleanUp(k)))
  {
    var s' := Do(s, CleanUp(k));
    assert s.versions[k].id in Holders(s) && Holders(s') == Holders(s) - multiset{s.versions[k].id};
    hide Live, ListOk, Unref, Holders, VersionsOk, ManifestOk, LogsOk;
    LetGo(s, s', k);
    FewerVersions(s, s');
  }

  lemma WrittenTables(s: State, t: State)
    requires Inv(s) && s.flush.Writing?
    requires t == s.(versions := t.versions, pending := s.pending - {s.flush.number}, flush := t.flush)
    requires t.flush == Written({}) || t.flush == Written({s.flush.number})
    requires Live(t.versions) <= Live(s.versions)
    ensures TablesOk(t) && OnlyWritten(t, s.flush.number)
  {
    hide Live, Holders, VersionsOk, ManifestOk, LogsOk;
  }

  lemma EndFlushWriteKeepsInv(s: State, k: nat, nonempty: bool)
    requires Inv(s) && Enabled(s, EndFlushWrite(k, nonempty))
    ensures Inv(Do(s, EndFlushWrite(k, nonempty)))
  {
    var s' := Do(s, EndFlushWrite(k, nonempty));
    var t := s.(versions := s'.versions, pending := s'.pending, flush := s'.flush);
    assert s.versions[k].id in Holders(s) && Holders(t) == Holders(s) - multiset{s.versions[k].id};
    LiveUnref(s.versions, k);
    WrittenTables(s, t);
    hide Inv, Live, ListOk, Unref, Holders, TablesOk, OnlyWritten;
    LetGo(s, t, k);
    FewerVersions(s, t);
    if !nonempty {
      WithoutTable(t, s.flush.number);
      assert s' == t.(disk := t.disk - {TableFile(s.flush.number)});
    } else {
      assert s' == t;
    }
  }

  /** The file of a flush that wrote no table can go. */
  lemma WithoutTable(s: State, n: nat)
    requires Inv(s) && OnlyWritten(s, n) && n !in s.pending && s.flush == Written({})
    ensures Inv(s.(disk := s.disk - {TableFile(n)}))
  {
    var s' := s.(disk := s.disk - {TableFile(n)});
    assert Holders(s') == Holders(s);
    hide ListOk, Live, Holders;
    forall saved | saved in s'.saved ensures SavedOk(s', saved) {
      assert SavedOk(s, saved);
    }
  }

  lemma SwitchKeepsInv(s: State)
    requires Inv(s) && Enabled(s, SwitchMemTable)
    ensures Inv(Do(s, SwitchMemTable))
  {
    hide ListOk, Live;
    var s' := Do(s, SwitchMemTable);
    assert Holders(s') == Holders(s);
    forall saved | saved in s'.saved ensures SavedOk(s', saved) {
      assert SavedOk(s, saved);
    }
  }

  lemma NeededIsKept(s: State, disk: set<FileName>)
    requires Inv(s) && disk == Collected(s)
    ensures OnDisk(disk, s.pending) && OnDisk(disk, Live(s.versions)) && DescriptorFile(s.manifest) in disk
    ensures LogFile(s.logfile) in disk && (s.immLog.Some? ==> LogFile(s.immLog.value) in disk)
    ensures s.failed ==> disk == s.disk
  {
    hide ListOk, Live, Holders, SavedOk;
  }

  lemma SavedIsKept(s: State, disk: set<FileName>)
    requires ManifestOk(s) && OnDisk(disk, Numbers(Current(s).files)) && DescriptorFile(s.manifest) in disk
    requires s.failed ==> disk == s.disk
    ensures ManifestOk(s.(disk := disk))
  {
    hide Numbers;
    var s' := s.(disk := disk);
    forall saved | saved in s'.saved ensures SavedOk(s', saved) {
      assert SavedOk(s, saved);
    }
  }

  lemma CollectKeepsInv(s: State)
    requires Inv(s) && Enabled(s, Collect)
    ensures Inv(Do(s, Collect))
  {
    var disk := Collected(s);
    var s' := s.(disk := disk);
    assert Do(s, Collect) == s' && Holders(s') == Holders(s);
    CurrentLive(s.versions);
    NeededIsKept(s, disk);
    SavedIsKept(s, disk);
    hide ListOk, Live, Holders, Collected, Do, Numbers, ManifestOk;
  }

  // ----- Installing versions

  /** The manifest, once it has an edit more. */
  lemma ExtendedOk(s: State, s': State, made: seq<FileMeta>, deleted: set<(nat, nat)>, logNumber: nat)
    requires Inv(s) && OnDisk(s.disk, Numbers(made)) && Below(Numbers(made), s.nextFile)
    requires s'.disk == s.disk && s'.nextFile == s.nextFile && s'.logfile == s.logfile
    requires logNumber <= s.logfile && (s'.immLog.Some? ==> s'.immLog == s.immLog)
    requires s'.immLog.Some? ==> logNumber <= s.immLog.value || logNumber == s.logfile
    ensures forall saved :: saved in Extended(s.saved, made, deleted, logNumber, s.nextFile) ==> SavedOk(s', saved)
    ensures forall saved :: saved in s.saved ==> SavedOk(s', saved)
  {
    hide ListOk, Live, Numbers, Edited, TablesOk, VersionsOk;
    forall saved | saved in Extended(s.saved, made, deleted, logNumber, s.nextFile) ensures SavedOk(s', saved) {
      var c :| c in s.saved && saved == Saved(Edited(c.files, made, deleted), logNumber, s.nextFile);
      assert SavedOk(s, c);
      EditedNumbers(c.files, made, deleted);
    }
    forall saved | saved in s.saved ensures SavedOk(s', saved) {
      assert SavedOk(s, saved);
    }
  }

  lemma AppendedOk(s: State, files: seq<FileMeta>)
    requires VersionsOk(s) && OnDisk(s.disk, Numbers(files)) && Below(Numbers(files), s.nextFile)
    ensures var t := s.(versions := Append(s.versions, s.nextVersion, files), nextVersion := s.nextVersion + 1);
            VersionsOk(t) && Current(t).files == files
  {
    var t := s.(versions := Append(s.versions, s.nextVersion, files), nextVersion := s.nextVersion + 1);
    assert Holders(t) == Holders(s);
    hide Holders, ListOk, Live, Numbers;
    AppendOk(s.versions, Holders(s), s.nextVersion, files);
    LiveAppend(s.versions, s.nextVersion, files);
  }

  predicate SameWork(c: Compaction, c': Compaction) {
    c.Compaction? && c'.Compaction? && c'.input == c.input && c'.outputs == c.outputs
  }

  /** What else an installation changes. */
  ghost predicate MayFollow(s: State, s': State, logNumber: nat, written: bool) {
    && !s.flush.Writing? && s'.flush == NoFlush
    && (s.compaction == NoCompaction ==> s'.compaction == NoCompaction)
    && (s.compaction.Compaction? ==> SameWork(s.compaction, s'.compaction))
    && (s'.immLog.Some? ==> s'.immLog == s.immLog)
    && logNumber <= s.logfile
    && (s'.immLog.Some? ==> logNumber <= s.immLog.value || (!written && logNumber == s.logfile))
  }

  lemma InstallKeepsInv(s: State, made: seq<FileMeta>, deleted: set<(nat, nat)>, logNumber: nat, written: bool,
                        s': State)
    requires Inv(s) && OnDisk(s.disk, Numbers(made)) && Below(Numbers(made), s.nextFile)
    requires MayFollow(s, s', logNumber, written)
    requires s' == Install(s, made, deleted, logNumber, written)
                   .(flush := s'.flush, compaction := s'.compaction, immLog := s'.immLog, prevLog := s'.prevLog)
    ensures Inv(s')
  {
    ExtendedOk(s, s', made, deleted, logNumber);
    var files := Edited(Current(s).files, made, deleted);
    EditedNumbers(Current(s).files, made, deleted);
    CurrentLive(s.versions);
    InstalledVersions(s, s', files, made, deleted, logNumber, written);
    hide ListOk, Live, Numbers, Append, SavedOk, Holders, Edited;
    assert VersionsOk(s');
    assert TablesOk(s');
    assert LogsOk(s');
    assert ManifestOk(s');
  }

  lemma InstalledVersions(s: State, s': State, files: seq<FileMeta>, made: seq<FileMeta>, deleted: set<(nat, nat)>,
                          logNumber: nat, written: bool)
    requires VersionsOk(s) && OnDisk(s.disk, Numbers(files)) && Below(Numbers(files), s.nextFile)
    requires files == Edited(Current(s).files, made, deleted) && MayFollow(s, s', logNumber, written)
    requires s' == Install(s, made, deleted, logNumber, written)
                   .(flush := s'.flush, compaction := s'.compaction, immLog := s'.immLog, prevLog := s'.prevLog)
    ensures VersionsOk(s') && Current(s').files == if written then files else Current(s).files
  {
    assert Holders(s') == Holders(s);
    if written {
      AppendedOk(s, files);
      var t := s.(versions := Append(s.versions, s.nextVersion, files), nextVersion := s.nextVersion + 1);
      assert Holders(t) == Holders(s);
    }
    hide ListOk, Live, Numbers, Append, Holders, Edited;
  }

  lemma InstallFlushKeepsInv(s: State, made: seq<FileMeta>, written: bool)
    requires Inv(s) && Enabled(s, InstallFlush(made, written))
    ensures Inv(Do(s, InstallFlush(made, written)))
  {
    var s' := Do(s, InstallFlush(made, written));
    assert MayFollow(s, s', s.logfile, written);
    assert OnDisk(s.disk, Numbers(made)) && Below(Numbers(made), s.nextFile);
    hide Inv, Append, Edited, Numbers, MayFollow;
    InstallKeepsInv(s, made, {}, s.logfile, written, s');
  }

  lemma InstallCompactionKeepsInv(s: State, made: seq<FileMeta>, deleted: set<(nat, nat)>, written: bool)
    requires Inv(s) && Enabled(s, InstallCompaction(made, deleted, written))
    ensures Inv(Do(s, InstallCompaction(made, deleted, written)))
  {
    var s' := Do(s, InstallCompaction(made, deleted, written));
    assert MayFollow(s, s', s.logNumber, written);
    assert OnDisk(s.disk, Numbers(made)) && Below(Numbers(made), s.nextFile);
    hide Inv, Append, Edited, Numbers, MayFollow;
    InstallKeepsInv(s, made, deleted, s.logNumber, written, s');
  }

  lemma TrivialMoveKeepsInv(s: State, from: FileMeta, to: FileMeta, written: bool)
    requires Inv(s) && Enabled(s, TrivialMove(from, to, written))
    ensures Inv(Do(s, TrivialMove(from, to, written)))
  {
    var s' := Do(s, TrivialMove(from, to, written));
    assert MayFollow(s, s', s.logNumber, written);
    CurrentLive(s.versions);
    assert from.number in Numbers(Current(s).files);
    assert OnDisk(s.disk, Numbers([to])) && Below(Numbers([to]), s.nextFile);
    hide Inv, Append, Edited, Numbers, MayFollow;
    InstallKeepsInv(s, [to], {(from.level, from.number)}, s.logNumber, written, s');
  }

  lemma ReopenKeepsInv(s: State, step: Step)
    requires Inv(s) && step.Reopen? && Enabled(s, step)
    ensures Inv(Do(s, step))
  {
    var s' := Do(s, step);
    var files := Edited(step.saved.files, step.made, {});
    assert SavedOk(s, step.saved);
    EditedNumbers(step.saved.files, step.made, {});
    OneVersion(s'.versions[0]);
    hide Live, Numbers, Edited;
    assert forall saved :: saved in s'.saved ==> saved.files == files && SavedOk(s', saved);
  }

  lemma OneVersion(v: Version)
    requires v.refs == 1
    ensures Live([v]) == Numbers(v.files) && ListOk([v], multiset{}, v.id + 1)
  {
    hide Numbers;
    assert [v][0] == v;
  }

  lemma StepKeepsInv(s: State, step: Step)
    requires Inv(s) && Enabled(s, step)
    ensures Inv(Do(s, step))
  {
    hide Inv, Enabled, Do;
    match step
    case StartRead => StartReadKeepsInv(s);
    case EndRead(k) => EndReadKeepsInv(s, k);
    case SwitchMemTable => SwitchKeepsInv(s);
    case StartFlush => StartFlushKeepsInv(s);
    case EndFlushWrite(k, nonempty) => EndFlushWriteKeepsInv(s, k, nonempty);
    case InstallFlush(made, written) => InstallFlushKeepsInv(s, made, written);
    case StartCompaction => StartCompactionKeepsInv(s);
    case OpenOutput => OpenOutputKeepsInv(s);
    case InstallCompaction(made, deleted, written) => InstallCompactionKeepsInv(s, made, deleted, written);
    case CleanUp(k) => CleanUpKeepsInv(s, k);
    case TrivialMove(from, to, written) => TrivialMoveKeepsInv(s, from, to, written);
    case Collect => CollectKeepsInv(s);
    case Reopen(saved, made, manifest, logfile) => ReopenKeepsInv(s, step);
  }

  // ----- Every run

  /** A database just created. */
  function Init(): State {
    State({LogFile(3), DescriptorFile(2)}, [Version(0, [], 1)], 1, multiset{}, {}, NoFlush, NoCompaction,
          2, {Saved([], 3, 4)}, 3, 0, 3, None, 4, false)
  }

  ghost predicate IsRun(run: seq<State>, steps: seq<Step>) {
    && |run| == |steps| + 1 && run[0] == Init()
    && forall i :: 0 <= i < |steps| ==> StepAt(run[i], steps[i], run[i + 1])
  }

  ghost predicate StepAt(s: State, step: Step, s': State) {
    s.versions != [] && Enabled(s, step) && s' == Do(s, step)
  }

  /** What must not be deleted; and the next file number is of none of those tables. */
  ghost predicate NeededFilesThere(s: State) {
    && s.versions != []
    && (forall id :: id in Holders(s) ==> Listed(s.versions, id))
    && (forall k, n :: 0 <= k < |s.versions| && n in Numbers(s.versions[k].files) ==> TableFile(n) in s.disk)
    && (forall n :: n in s.pending ==> TableFile(n) in s.disk)
    && (s.flush.Written? ==> forall n :: n in s.flush.tables ==> TableFile(n) in s.disk)
    && (forall saved, n :: saved in s.saved && n in Numbers(saved.files) ==> TableFile(n) in s.disk)
    && LogFile(s.logfile) in s.disk && (s.immLog.Some? ==> LogFile(s.immLog.value) in s.disk)
    && DescriptorFile(s.manifest) in s.disk
    && s.nextFile !in s.pending && s.nextFile !in Live(s.versions)
  }

  lemma InvGivesNeeded(s: State)
    requires Inv(s)
    ensures NeededFilesThere(s)
  {
    forall k, n | 0 <= k < |s.versions| && n in Numbers(s.versions[k].files) ensures TableFile(n) in s.disk {
      assert n in Live(s.versions);
    }
    forall saved, n | saved in s.saved && n in Numbers(saved.files) ensures TableFile(n) in s.disk {
      assert SavedOk(s, saved);
    }
  }

  lemma {:induction false} RunsKeepInv(run: seq<State>, steps: seq<Step>)
    requires IsRun(run, steps)
    ensures Inv(run[|steps|])
  {
    if steps == [] {
      OneVersion(Version(0, [], 1));
      assert SavedOk(Init(), Saved([], 3, 4));
    } else {
      var n := |steps| - 1;
      forall i | 0 <= i < n ensures StepAt(run[..n + 1][i], steps[..n][i], run[..n + 1][i + 1]) {
        assert StepAt(run[i], steps[i], run[i + 1]);
      }
      RunsKeepInv(run[..n + 1], steps[..n]);
      assert StepAt(run[n], steps[n], run[n + 1]);
      hide Inv, Enabled, Do;
      StepKeepsInv(run[n], steps[n]);
    }
  }

  /** In every run, no file that is still needed has been deleted. */
  lemma NeededFilesStay(run: seq<State>, steps: seq<Step>)
    requires IsRun(run, steps)
    ensures NeededFilesThere(run[|steps|])
  {
    RunsKeepInv(run, steps);
    hide Inv, NeededFilesThere;
    InvGivesNeeded(run[|steps|]);
  }

  /** The manifest may lack the edit of the step. */
  predicate WriteFails(step: Step) {
    match step
    case InstallFlush(_, written) => !written
    case InstallCompaction(_, _, written) => !written
    case TrivialMove(_, _, written) => !written
    case _ => false
  }

  lemma NoFailure(s: State, step: Step, s': State)
    requires StepAt(s, step, s')
    ensures s'.failed <==> (s.failed && !step.Reopen?) || WriteFails(step)
  {
    hide Enabled;
    match step
    case StartFlush => hide Ref;
    case _ =>
  }

  /** Collecting stops after a failed write of the manifest, until the database is opened again, and only then. */
  lemma {:induction false} FailedIffWriteFailed(run: seq<State>, steps: seq<Step>, n: nat)
    requires IsRun(run, steps) && n <= |steps|
    ensures run[n].failed
      <==> exists i :: 0 <= i < n && WriteFails(steps[i]) && forall j :: i < j < n ==> !steps[j].Reopen?
  {
    if n > 0 {
      FailedIffWriteFailed(run, steps, n - 1);
      assert StepAt(run[n - 1], steps[n - 1], run[n]);
      hide IsRun, StepAt;
      NoFailure(run[n - 1], steps[n - 1], run[n]);
    }
  }

  /** A table is being written, or in a version that someone holds, or in the current one. */
  ghost predicate TableInUse(s: State, n: nat) {
    || n in s.pending
    || exists k :: 0 <= k < |s.versions| && n in Numbers(s.versions[k].files)
                   && (s.versions[k].id in Holders(s) || k == |s.versions| - 1)
  }

  /** A log from the one in use on, or the one before it; a manifest from the current one on; other files always. */
  ghost predicate InUse(s: State, f: FileName) {
    && (f.LogFile? ==> f.number >= s.logNumber || f.number == s.prevLog)
    && (f.DescriptorFile? ==> f.number >= s.manifest)
    && (f.TableFile? || f.TempFile? ==> TableInUse(s, f.number))
  }

  lemma LiveIsHeld(s: State, n: nat)
    requires VersionsOk(s)
    ensures n in s.pending + Live(s.versions) <==> TableInUse(s, n)
  {
    if n in Live(s.versions) {
      var k :| 0 <= k < |s.versions| && n in Numbers(s.versions[k].files);
      assert CountOk(s.versions, k, Holders(s));
    }
  }

  /** And once the obsolete files are deleted, exactly the files in use are left, or all of them after an error. */
  lemma NoGarbageLeft(run: seq<State>, steps: seq<Step>, f: FileName)
    requires IsRun(run, steps) && steps != [] && steps[|steps| - 1] == Collect
    ensures var before, s := run[|steps| - 1], run[|steps|];
            f in s.disk <==> f in before.disk && (s.failed || InUse(s, f))
  {
    RunsKeepInv(run, steps);
    var m := |steps| - 1;
    assert StepAt(run[m], steps[m], run[m + 1]);
    var s := run[|steps|];
    hide IsRun, LogsOk, ManifestOk, TablesOk, TableInUse, VersionsOk, Live;
    match f
    case TableFile(n) => LiveIsHeld(s, n);
    case TempFile(n) => LiveIsHeld(s, n);
    case _ =>
  }
}
