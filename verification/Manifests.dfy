/**
 Replaying version edits: a Builder that takes a whole list of edits at once, as recovery does, against
 installing them one by one, as LogAndApply does.
 */
module Manifests {
  import opened Basics
  import opened InternalKeys
  import opened Tables
  import opened Versions
  import opened Builders
  import opened VersionChanges

  /** The files an edit deletes and adds, each at a level. */
  datatype Edit = Edit(deleted: set<(nat, nat)>, added: seq<(nat, File)>)

  function DeletedAt(e: Edit, level: nat): set<nat> {
    set d | d in e.deleted && d.0 == level :: d.1
  }

  function FilesAt(added: seq<(nat, File)>, level: nat): seq<File> {
    if added == [] then []
    else
      var n := |added| - 1;
      FilesAt(added[..n], level) + if added[n].0 == level then [added[n].1] else []
  }

  /** What the builder keeps for a level: deleted numbers, and added files as an ordered set. */
  datatype LevelState = LevelState(deleted: set<nat>, added: seq<File>)

  const EMPTY := LevelState({}, [])

  /** std::set insertion under BySmallest: an equivalent file already there stays. */
  function InsertFile(added: seq<File>, f: File): seq<File> {
    if added == [] then [f]
    else if BySmallest(f, added[0]) then [f] + added
    else if BySmallest(added[0], f) then [added[0]] + InsertFile(added[1..], f)
    else added
  }

  function AddFile(ls: LevelState, f: File): LevelState {
    LevelState(ls.deleted - {f.number}, InsertFile(ls.added, f))
  }

  function AddFiles(ls: LevelState, files: seq<File>): LevelState {
    if files == [] then ls else AddFile(AddFiles(ls, files[..|files| - 1]), files[|files| - 1])
  }

  /** Builder::Apply on one level: deletions first, then additions. */
  function ApplyLevel(ls: LevelState, e: Edit, level: nat): LevelState {
    AddFiles(ls.(deleted := ls.deleted + DeletedAt(e, level)), FilesAt(e.added, level))
  }

  function Accumulate(edits: seq<Edit>, level: nat): LevelState {
    if edits == [] then EMPTY else ApplyLevel(Accumulate(edits[..|edits| - 1], level), edits[|edits| - 1], level)
  }

  function Save(base: seq<File>, ls: LevelState): seq<File> {
    SaveLevel(base, ls.deleted, ls.added)
  }

  /** One level after installing the edits one by one, each with a builder of its own. */
  function Live(base: seq<File>, edits: seq<Edit>, level: nat): seq<File> {
    if edits == [] then base
    else Save(Live(base, edits[..|edits| - 1], level), ApplyLevel(EMPTY, edits[|edits| - 1], level))
  }

  // ----- Members

  lemma {:induction false} InsertFileMembers(added: seq<File>, f: File)
    requires forall g :: g in added && g.number == f.number ==> g == f
    ensures forall g :: g in InsertFile(added, f) <==> g in added || g == f
  {
    if added != [] {
      assert forall g :: g in added <==> g == added[0] || g in added[1..];
      if BySmallest(f, added[0]) {
      } else if BySmallest(added[0], f) {
        InsertFileMembers(added[1..], f);
      } else {
        assert added[0].number == f.number;
      }
    }
  }

  lemma {:induction false} InsertFileInOrder(added: seq<File>, f: File)
    requires InOrder(added) && forall g :: g in added && g.number == f.number ==> g == f
    ensures InOrder(InsertFile(added, f))
  {
    if added != [] {
      TailInOrder(added);
      assert forall g :: g in added <==> g == added[0] || g in added[1..];
      if BySmallest(f, added[0]) {
        ConsInOrder(f, added);
      } else if BySmallest(added[0], f) {
        InsertFileInOrder(added[1..], f);
        InsertFileMembers(added[1..], f);
        ConsInOrder(added[0], InsertFile(added[1..], f));
      }
    }
  }

  /** Different files have different numbers. */
  ghost predicate OwnNumbers(files: set<File>) {
    forall f, g {:trigger Twins(f, 0, g, 0)} :: f in files && g in files && Twins(f, 0, g, 0) ==> f == g
  }

  ghost function FileSet(files: seq<File>): set<File> {
    set f | f in files
  }

  lemma {:induction false} AddFilesResult(ls: LevelState, files: seq<File>)
    requires InOrder(ls.added) && OwnNumbers(FileSet(ls.added) + FileSet(files))
    ensures var r := AddFiles(ls, files);
            && InOrder(r.added) && FileSet(r.added) == FileSet(ls.added) + FileSet(files)
            && r.deleted == ls.deleted - Numbers(files)
  {
    if files != [] {
      var n := |files| - 1;
      var init, f := files[..n], files[n];
      assert files == init + [f];
      assert FileSet(files) == FileSet(init) + {f};
      AddFilesResult(ls, init);
      var r := AddFiles(ls, init);
      forall g | g in r.added && g.number == f.number ensures g == f {
        assert g in FileSet(r.added);
        var twins := Twins(g, 0, f, 0);
      }
      InsertFileMembers(r.added, f);
      InsertFileInOrder(r.added, f);
      assert FileSet(InsertFile(r.added, f)) == FileSet(r.added) + {f};
      assert Numbers(files) == Numbers(init) + {f.number};
    }
  }

  /** Which files a saved level holds. */
  ghost function Surviving(files: set<File>, deleted: set<nat>): set<File> {
    set f | f in files && f.number !in deleted
  }

  lemma SavedFiles(base: seq<File>, ls: LevelState)
    requires InOrder(base) && InOrder(ls.added)
    requires forall f, g :: f in base && g in ls.added ==> f.number != g.number
    ensures InOrder(Save(base, ls))
    ensures FileSet(Save(base, ls)) == Surviving(FileSet(base) + FileSet(ls.added), ls.deleted)
  {
    SaveLevelInOrder(base, ls.deleted, ls.added);
    SaveLevelMembers(base, ls.deleted, ls.added);
  }

  // ----- Replay equals live execution

  /** All files the edits ever put on a level. */
  ghost function EverAdded(edits: seq<Edit>, level: nat): set<File> {
    if edits == [] then {}
    else EverAdded(edits[..|edits| - 1], level) + FileSet(FilesAt(edits[|edits| - 1].added, level))
  }

  /** No edit adds a file to the level under a number the level has had before. */
  ghost predicate NeverReadded(base: seq<File>, edits: seq<Edit>, level: nat) {
    edits == [] ||
      var init, files := edits[..|edits| - 1], FilesAt(edits[|edits| - 1].added, level);
      && NeverReadded(base, init, level) && OwnNumbers(FileSet(files))
      && forall f, g :: f in FileSet(base) + EverAdded(init, level) && g in files ==> f.number != g.number
  }

  lemma {:induction false} AddedAreOwn(base: seq<File>, edits: seq<Edit>, level: nat)
    requires NeverReadded(base, edits, level)
    ensures OwnNumbers(EverAdded(edits, level))
    ensures forall f, g :: f in base && g in EverAdded(edits, level) ==> f.number != g.number
  {
    if edits != [] {
      AddedAreOwn(base, edits[..|edits| - 1], level);
    }
  }

  /** What the builder holds after all the edits. */
  lemma {:induction false} Accumulated(base: seq<File>, edits: seq<Edit>, level: nat)
    requires NeverReadded(base, edits, level)
    ensures InOrder(Accumulate(edits, level).added)
    ensures FileSet(Accumulate(edits, level).added) == EverAdded(edits, level)
  {
    if edits != [] {
      var n := |edits| - 1;
      var e, acc := edits[n], Accumulate(edits[..n], level);
      Accumulated(base, edits[..n], level);
      AddedAreOwn(base, edits, level);
      AddFilesResult(acc.(deleted := acc.deleted + DeletedAt(e, level)), FilesAt(e.added, level));
    }
  }

  /** The two ways agree on which files a level holds. */
  lemma OneMoreEdit(all: set<File>, more: set<File>, accDeleted: set<nat>, deleted: set<nat>, numbers: set<nat>)
    requires forall f :: f in more ==> f.number in numbers
    requires forall f :: f in all ==> f.number !in numbers
    ensures Surviving(all + more, (accDeleted + deleted) - numbers)
         == Surviving(Surviving(all, accDeleted) + more, deleted - numbers)
  {
  }

  lemma {:induction false} LiveFiles(base: seq<File>, edits: seq<Edit>, level: nat)
    requires InOrder(base) && NeverReadded(base, edits, level)
    ensures InOrder(Live(base, edits, level))
    ensures FileSet(Live(base, edits, level))
      == Surviving(FileSet(base) + EverAdded(edits, level), Accumulate(edits, level).deleted)
  {
    if edits == [] {
      assert FileSet(base) == Surviving(FileSet(base) + {}, {});
    } else {
      var n := |edits| - 1;
      var init, e := edits[..n], edits[n];
      var files := FilesAt(e.added, level);
      LiveFiles(base, init, level);
      LiveStep(base, init, e, level);
      AccumulatedDeletions(base, edits, level);
      OneMoreEdit(FileSet(base) + EverAdded(init, level), FileSet(files), Accumulate(init, level).deleted,
                  DeletedAt(e, level), Numbers(files));
      assert FileSet(base) + EverAdded(edits, level) == (FileSet(base) + EverAdded(init, level)) + FileSet(files);
    }
  }

  lemma AccumulatedDeletions(base: seq<File>, edits: seq<Edit>, level: nat)
    requires edits != [] && NeverReadded(base, edits, level)
    ensures Accumulate(edits, level).deleted
         == (Accumulate(edits[..|edits| - 1], level).deleted + DeletedAt(edits[|edits| - 1], level))
            - Numbers(FilesAt(edits[|edits| - 1].added, level))
  {
    var n := |edits| - 1;
    var acc, e := Accumulate(edits[..n], level), edits[n];
    Accumulated(base, edits[..n], level);
    AddedAreOwn(base, edits, level);
    AddFilesResult(acc.(deleted := acc.deleted + DeletedAt(e, level)), FilesAt(e.added, level));
  }

  /** Installing one edit on the live version of the edits before it. */
  lemma LiveStep(base: seq<File>, init: seq<Edit>, e: Edit, level: nat)
    requires InOrder(Live(base, init, level)) && NeverReadded(base, init + [e], level)
    requires FileSet(Live(base, init, level))
      == Surviving(FileSet(base) + EverAdded(init, level), Accumulate(init, level).deleted)
    ensures var v, files := Live(base, init, level), FilesAt(e.added, level);
            var r := Save(v, ApplyLevel(EMPTY, e, level));
            && InOrder(r)
            && FileSet(r) == Surviving(FileSet(v) + FileSet(files), DeletedAt(e, level) - Numbers(files))
  {
    assert (init + [e])[..|init|] == init;
    var v, files := Live(base, init, level), FilesAt(e.added, level);
    AddFilesResult(EMPTY.(deleted := {} + DeletedAt(e, level)), files);
    var ls := ApplyLevel(EMPTY, e, level);
    assert FileSet([]) + FileSet(files) == FileSet(files);
    forall f, g | f in v && g in ls.added ensures f.number != g.number {
      assert f in FileSet(v) && g in FileSet(ls.added);
    }
    SavedFiles(v, ls);
  }

  /** Replaying all the edits at once gives the same level, file by file and in order, as installing them one
      by one; and the level is sorted by smallest key and number. */
  lemma ReplayEqualsLive(base: seq<File>, edits: seq<Edit>, level: nat)
    requires InOrder(base) && NeverReadded(base, edits, level)
    ensures Save(base, Accumulate(edits, level)) == Live(base, edits, level) && InOrder(Live(base, edits, level))
  {
    Accumulated(base, edits, level);
    AddedAreOwn(base, edits, level);
    LiveFiles(base, edits, level);
    var r, live := Save(base, Accumulate(edits, level)), Live(base, edits, level);
    forall f, g | f in base && g in Accumulate(edits, level).added ensures f.number != g.number {
      assert g in FileSet(Accumulate(edits, level).added);
    }
    SavedFiles(base, Accumulate(edits, level));
    forall f ensures f in r <==> f in live {
      assert f in FileSet(r) <==> f in FileSet(live);
    }
    InOrderIsUnique(r, live);
  }

  lemma AddsOnly(ls: LevelState, level: nat, f: File)
    ensures ApplyLevel(ls, Edit({}, [(level, f)]), level) == AddFile(ls, f)
  {
    var added := [(level, f)];
    assert added[..0] == [] && FilesAt(added, level) == FilesAt(added[..0], level) + [f];
    assert FilesAt(added, level) == [f];
    assert DeletedAt(Edit({}, added), level) == {} && ls.deleted + {} == ls.deleted;
    AddFilesSnoc(ls, [], f);
    assert [] + [f] == [f];
  }

  // ----- The builder

  ghost predicate InLevels(e: Edit) {
    (forall d :: d in e.deleted ==> d.0 < NUM_LEVELS) && forall i :: 0 <= i < |e.added| ==> e.added[i].0 < NUM_LEVELS
  }

  class Builder {
    const base: Version
    var levels: seq<LevelState>

    ghost predicate Valid()
      reads this
    {
      |base| == NUM_LEVELS && |levels| == NUM_LEVELS
    }

    constructor (base: Version)
      requires |base| == NUM_LEVELS
      ensures Valid() && this.base == base && forall l :: 0 <= l < NUM_LEVELS ==> levels[l] == EMPTY
    {
      this.base, levels := base, seq(NUM_LEVELS, _ => EMPTY);
    }

    method Apply(e: Edit)
      requires Valid() && InLevels(e)
      modifies this
      ensures Valid() && forall l :: 0 <= l < NUM_LEVELS ==> levels[l] == ApplyLevel(old(levels)[l], e, l)
    {
      ApplyDeletions(e);
      ghost var between := levels;
      for i := 0 to |e.added|
        invariant Valid() && AddedTo(between, levels, e.added[..i])
      {
        var (level, f) := e.added[i];
        OneMoreAddition(between, levels, e.added, i);
        levels := levels[level := AddFile(levels[level], f)];
      }
      assert e.added[..|e.added|] == e.added;
    }

    method ApplyDeletions(e: Edit)
      requires Valid() && InLevels(e)
      modifies this
      ensures Valid()
      ensures forall l :: 0 <= l < NUM_LEVELS ==>
        levels[l] == old(levels)[l].(deleted := old(levels)[l].deleted + DeletedAt(e, l))
    {
      var rest := e.deleted;
      while rest != {}
        invariant Valid() && rest <= e.deleted
        invariant forall l :: 0 <= l < NUM_LEVELS ==>
          levels[l] == old(levels)[l].(deleted := old(levels)[l].deleted + DeletedAt(Edit(e.deleted - rest, []), l))
        decreases rest
      {
        var d :| d in rest;
        ghost var done := e.deleted - rest;
        rest := rest - {d};
        assert e.deleted - rest == done + {d};
        forall l | 0 <= l < NUM_LEVELS
          ensures DeletedAt(Edit(e.deleted - rest, []), l)
               == DeletedAt(Edit(done, []), l) + if d.0 == l then {d.1} else {}
        {
          OneMoreDeletion(done, d, l);
        }
        levels := levels[d.0 := levels[d.0].(deleted := levels[d.0].deleted + {d.1})];
      }
      assert e.deleted - {} == e.deleted;
      forall l | 0 <= l < NUM_LEVELS ensures DeletedAt(Edit(e.deleted, []), l) == DeletedAt(e, l) {
      }
    }

    method SaveVersion() returns (v: Version)
      requires Valid()
      ensures |v| == NUM_LEVELS && forall l :: 0 <= l < NUM_LEVELS ==> v[l] == Save(base[l], levels[l])
    {
      v := [];
      for level := 0 to NUM_LEVELS
        invariant |v| == level && forall l :: 0 <= l < level ==> v[l] == Save(base[l], levels[l])
      {
        var files := SaveTo(base[level], levels[level].deleted, levels[level].added);
        v := v + [files];
      }
    }
  }

  /** levels is what adding the files makes of before. */
  ghost predicate AddedTo(before: seq<LevelState>, levels: seq<LevelState>, added: seq<(nat, File)>) {
    |before| == NUM_LEVELS == |levels| && forall l :: 0 <= l < NUM_LEVELS ==>
      levels[l] == AddFiles(before[l], FilesAt(added, l))
  }

  lemma OneMoreAddition(before: seq<LevelState>, levels: seq<LevelState>, added: seq<(nat, File)>, i: nat)
    requires i < |added| && added[i].0 < NUM_LEVELS && AddedTo(before, levels, added[..i])
    ensures AddedTo(before, levels[added[i].0 := AddFile(levels[added[i].0], added[i].1)], added[..i + 1])
  {
    var (level, f) := added[i];
    assert added[..i + 1][..i] == added[..i];
    forall l | 0 <= l < NUM_LEVELS
      ensures FilesAt(added[..i + 1], l) == FilesAt(added[..i], l) + if l == level then [f] else []
    {
    }
    AddFilesSnoc(before[level], FilesAt(added[..i], level), f);
    assert forall l :: 0 <= l < NUM_LEVELS && l != level ==> FilesAt(added[..i + 1], l) == FilesAt(added[..i], l);
  }

  lemma AddFilesSnoc(ls: LevelState, files: seq<File>, f: File)
    ensures AddFiles(ls, files + [f]) == AddFile(AddFiles(ls, files), f)
  {
    assert (files + [f])[..|files|] == files;
  }

  lemma OneMoreDeletion(done: set<(nat, nat)>, d: (nat, nat), level: nat)
    ensures DeletedAt(Edit(done + {d}, []), level)
         == DeletedAt(Edit(done, []), level) + if d.0 == level then {d.1} else {}
  {
    forall n
      ensures n in DeletedAt(Edit(done + {d}, []), level)
        <==> n in DeletedAt(Edit(done, []), level) || (d.0 == level && n == d.1)
    {
      assert n in DeletedAt(Edit(done + {d}, []), level) <==> (level, n) in done + {d};
      assert n in DeletedAt(Edit(done, []), level) <==> (level, n) in done;
    }
  }

  /** VersionSet::Recover: one builder takes all the edits of the manifest.  The version it saves is the one
      the edits made when they were installed one by one. */
  method Replay(base: Version, edits: seq<Edit>) returns (v: Version)
    requires |base| == NUM_LEVELS && forall i :: 0 <= i < |edits| ==> InLevels(edits[i])
    requires forall l :: 0 <= l < NUM_LEVELS ==> InOrder(base[l]) && NeverReadded(base[l], edits, l)
    ensures |v| == NUM_LEVELS && forall l :: 0 <= l < NUM_LEVELS ==> v[l] == Live(base[l], edits, l) && InOrder(v[l])
  {
    var builder := new Builder(base);
    for i := 0 to |edits|
      invariant builder.Valid() && builder.base == base && fresh(builder)
      invariant forall l :: 0 <= l < NUM_LEVELS ==> builder.levels[l] == Accumulate(edits[..i], l)
    {
      builder.Apply(edits[i]);
      assert edits[..i + 1][..i] == edits[..i];
    }
    assert edits[..|edits|] == edits;
    v := builder.SaveVersion();
    forall l | 0 <= l < NUM_LEVELS ensures v[l] == Live(base[l], edits, l) && InOrder(v[l]) {
      ReplayEqualsLive(base[l], edits, l);
    }
  }
}
