/**
 Files added to a level again: when replaying a manifest with one builder gives another version than
 installing its edits one by one did.
 */
module Readditions {
  import opened InternalKeys
  import opened Tables
  import opened Versions
  import opened Builders
  import opened VersionChanges
  import opened Manifests

  /** The files an edit puts on a level: of the same ones, the first. */
  function AddedBy(e: Edit, level: nat): seq<File> {
    ApplyLevel(EMPTY, e, level).added
  }

  /** All files the edits ever put on a level. */
  ghost function Placed(edits: seq<Edit>, level: nat): set<File> {
    if edits == [] then {}
    else Placed(edits[..|edits| - 1], level) + FileSet(AddedBy(edits[|edits| - 1], level))
  }

  /** Replayed from the empty version, the edits give what they gave one by one. */
  ghost predicate Replays(edits: seq<Edit>, level: nat) {
    Save([], Accumulate(edits, level)) == Live([], edits, level)
  }

  /** The level does not hold g.  Of the other files it ever held under g's number, none has g's smallest key,
      and each is still there or comes back with g. */
  ghost predicate IsNew(before: seq<Edit>, e: Edit, level: nat, g: File) {
    && g !in Live([], before, level)
    && forall h :: h in Placed(before, level) && h.number == g.number && h != g ==>
         !Same(h, g) && (h in Live([], before, level) || h in AddedBy(e, level))
  }

  ghost predicate AddsNew(before: seq<Edit>, e: Edit, level: nat) {
    forall g :: g in AddedBy(e, level) ==> IsNew(before, e, level, g)
  }

  // ----- Sets under the builder's order

  lemma OrderOrSame(f: File, g: File)
    ensures Same(f, g) <==> !BySmallest(f, g) && !BySmallest(g, f)
  {
  }

  ghost predicate Holds(files: seq<File>, f: File) {
    exists h :: h in files && Same(h, f)
  }

  lemma {:induction false} InsertedMembers(added: seq<File>, f: File)
    requires InOrder(added)
    ensures InOrder(InsertFile(added, f))
    ensures forall g :: g in InsertFile(added, f) <==> g in added || (g == f && !Holds(added, f))
  {
    if added != [] {
      TailInOrder(added);
      assert forall g :: g in added <==> g == added[0] || g in added[1..];
      if BySmallest(f, added[0]) {
        ConsInOrder(f, added);
        assert !Holds(added, f);
      } else if BySmallest(added[0], f) {
        InsertedMembers(added[1..], f);
        assert Holds(added, f) <==> Holds(added[1..], f);
        ConsInOrder(added[0], InsertFile(added[1..], f));
      } else {
        OrderOrSame(f, added[0]);
        assert added[0] in added && Same(added[0], f);
      }
    }
  }

  /** Adding files to what is there: those it holds already stay out. */
  lemma {:induction false} AddedMembers(ls: LevelState, none: LevelState, files: seq<File>)
    requires InOrder(ls.added) && none.added == []
    ensures var r, s := AddFiles(ls, files), AddFiles(none, files);
            && InOrder(r.added) && InOrder(s.added)
            && (forall h :: h in r.added <==> h in ls.added || (h in s.added && !Holds(ls.added, h)))
            && r.deleted == ls.deleted - Numbers(s.added) && s.deleted == none.deleted - Numbers(s.added)
  {
    if files != [] {
      var n := |files| - 1;
      var init, f := files[..n], files[n];
      AddedMembers(ls, none, init);
      OneMoreMember(ls, AddFiles(ls, init), AddFiles(none, init), f);
    }
  }

  lemma OneMoreMember(ls: LevelState, r: LevelState, s: LevelState, f: File)
    requires InOrder(ls.added) && InOrder(r.added) && InOrder(s.added)
    requires forall h :: h in r.added <==> h in ls.added || (h in s.added && !Holds(ls.added, h))
    ensures var r', s' := AddFile(r, f), AddFile(s, f);
            && InOrder(r'.added) && InOrder(s'.added)
            && (forall h :: h in r'.added <==> h in ls.added || (h in s'.added && !Holds(ls.added, h)))
            && Numbers(s'.added) == Numbers(s.added) + {f.number}
  {
    InsertedMembers(r.added, f);
    InsertedMembers(s.added, f);
    assert Holds(r.added, f) <==> Holds(ls.added, f) || Holds(s.added, f);
  }

  /** A list in order holds nothing twice, and of two files that are the same only one. */
  lemma NoneTwice(files: seq<File>, f: File, g: File)
    requires InOrder(files) && f in files && g in files && Same(f, g)
    ensures f == g && multiset(files)[f] == 1
  {
    var i :| 0 <= i < |files| && files[i] == f;
    var j :| 0 <= j < |files| && files[j] == g;
    assert i < j ==> BySmallest(files[i], files[j]);
    assert j < i ==> BySmallest(files[j], files[i]);
    CountedOnce(files, i);
  }

  lemma CountedOnce(files: seq<File>, i: nat)
    requires InOrder(files) && i < |files|
    ensures multiset(files)[files[i]] == 1
  {
    assert files == files[..i] + [files[i]] + files[i + 1..];
    forall j | 0 <= j < |files| && j != i ensures files[j] != files[i] {
      assert i < j ==> BySmallest(files[i], files[j]);
      assert j < i ==> BySmallest(files[j], files[i]);
    }
    assert files[i] !in files[..i] && files[i] !in files[i + 1..];
  }

  lemma HeadCount(files: seq<File>, f: File)
    requires files != []
    ensures multiset(files)[f] == multiset(files[1..])[f] + if files[0] == f then 1 else 0
  {
    assert files == [files[0]] + files[1..];
  }

  lemma {:induction false} MergeCount(base: seq<File>, added: seq<File>, f: File)
    ensures multiset(Merge(base, added))[f] == multiset(base)[f] + multiset(added)[f]
    decreases |base| + |added|
  {
    if base != [] && added != [] {
      HeadCount(Merge(base, added), f);
      if BySmallest(added[0], base[0]) {
        MergeCount(base, added[1..], f);
        HeadCount(added, f);
        assert Merge(base, added)[1..] == Merge(base, added[1..]);
      } else {
        MergeCount(base[1..], added, f);
        HeadCount(base, f);
        assert Merge(base, added)[1..] == Merge(base[1..], added);
      }
    }
  }

  lemma {:induction false} NotDeletedCount(files: seq<File>, deleted: set<nat>, f: File)
    ensures multiset(NotDeleted(files, deleted))[f] == if f.number in deleted then 0 else multiset(files)[f]
  {
    if files != [] {
      NotDeletedCount(files[1..], deleted, f);
      assert files == [files[0]] + files[1..];
    }
  }

  /** How often a file is in a saved level. */
  lemma SavedCount(base: seq<File>, ls: LevelState, f: File)
    ensures multiset(Save(base, ls))[f]
         == if f.number in ls.deleted then 0 else multiset(base)[f] + multiset(ls.added)[f]
  {
    MergeCount(base, ls.added, f);
    NotDeletedCount(Merge(base, ls.added), ls.deleted, f);
  }

  // ----- One more edit

  /** What an edit does to the builder of all edits, and to one of its own. */
  lemma EditMembers(ls: LevelState, e: Edit, level: nat)
    requires InOrder(ls.added)
    ensures var r, s, own := ApplyLevel(ls, e, level), AddedBy(e, level), ApplyLevel(EMPTY, e, level);
            && InOrder(r.added) && InOrder(s)
            && (forall h :: h in r.added <==> h in ls.added || (h in s && !Holds(ls.added, h)))
            && r.deleted == (ls.deleted + DeletedAt(e, level)) - Numbers(s)
            && own.deleted == DeletedAt(e, level) - Numbers(s)
  {
    var X := DeletedAt(e, level);
    assert {} + X == X;
    AddedMembers(ls.(deleted := ls.deleted + X), EMPTY.(deleted := EMPTY.deleted + X), FilesAt(e.added, level));
  }

  lemma {:induction false} AccumulatedInOrder(edits: seq<Edit>, level: nat)
    ensures InOrder(Accumulate(edits, level).added)
  {
    if edits != [] {
      var n := |edits| - 1;
      AccumulatedInOrder(edits[..n], level);
      EditMembers(Accumulate(edits[..n], level), edits[n], level);
    }
  }

  lemma Snoc(before: seq<Edit>, e: Edit, level: nat)
    ensures Accumulate(before + [e], level) == ApplyLevel(Accumulate(before, level), e, level)
    ensures Live([], before + [e], level) == Save(Live([], before, level), ApplyLevel(EMPTY, e, level))
    ensures Placed(before + [e], level) == Placed(before, level) + FileSet(AddedBy(e, level))
  {
    assert (before + [e])[..|before|] == before;
  }

  /** So far replay and installation agree, and every file that was put on the level is known to the builder. */
  ghost predicate Agrees(edits: seq<Edit>, level: nat) {
    Replays(edits, level) && FileSet(Accumulate(edits, level).added) == Placed(edits, level)
  }

  lemma AgreedMembers(edits: seq<Edit>, level: nat, h: File)
    requires Agrees(edits, level)
    ensures h in Accumulate(edits, level).added <==> h in Placed(edits, level)
    ensures h in Live([], edits, level) <==>
      h in Placed(edits, level) && h.number !in Accumulate(edits, level).deleted
  {
    var acc := Accumulate(edits, level);
    SaveLevelMembers([], acc.deleted, acc.added);
    assert h in FileSet(acc.added) <==> h in acc.added;
  }

  lemma NoneSame(before: seq<Edit>, e: Edit, level: nat)
    requires Agrees(before, level) && AddsNew(before, e, level)
    ensures forall f, g :: f in Live([], before, level) && g in AddedBy(e, level) ==> !Same(f, g)
  {
    forall f, g | f in Live([], before, level) && g in AddedBy(e, level) ensures !Same(f, g) {
      AgreedMembers(before, level, f);
      assert IsNew(before, e, level, g);
    }
  }

  /** A file the builder holds already is not added under another description. */
  lemma KnownMember(before: seq<Edit>, e: Edit, level: nat, h: File)
    requires Agrees(before, level) && AddsNew(before, e, level)
    ensures h in ApplyLevel(Accumulate(before, level), e, level).added
      <==> h in Placed(before, level) || h in AddedBy(e, level)
  {
    var acc := Accumulate(before, level);
    AccumulatedInOrder(before, level);
    EditMembers(acc, e, level);
    AgreedMembers(before, level, h);
    if h in AddedBy(e, level) && Holds(acc.added, h) {
      var x :| x in acc.added && Same(x, h);
      AgreedMembers(before, level, x);
      assert IsNew(before, e, level, h);
    }
  }

  lemma SameMember(before: seq<Edit>, e: Edit, level: nat, h: File)
    requires Agrees(before, level) && AddsNew(before, e, level)
    ensures h in Save([], ApplyLevel(Accumulate(before, level), e, level))
      <==> h in Save(Live([], before, level), ApplyLevel(EMPTY, e, level))
  {
    var acc, s := Accumulate(before, level), AddedBy(e, level);
    var own, acc' := ApplyLevel(EMPTY, e, level), ApplyLevel(acc, e, level);
    AccumulatedInOrder(before, level);
    EditMembers(acc, e, level);
    SaveLevelMembers([], acc'.deleted, acc'.added);
    SaveLevelMembers(Live([], before, level), own.deleted, s);
    KnownMember(before, e, level, h);
    AgreedMembers(before, level, h);
    if h.number in Numbers(s) {
      var g :| g in s && g.number == h.number;
      assert IsNew(before, e, level, g);
    }
  }

  /** Under these conditions the two go on agreeing. */
  lemma NewFilesAgree(before: seq<Edit>, e: Edit, level: nat)
    requires Agrees(before, level) && AddsNew(before, e, level)
    ensures Agrees(before + [e], level)
  {
    var acc, live, s := Accumulate(before, level), Live([], before, level), AddedBy(e, level);
    var own, acc' := ApplyLevel(EMPTY, e, level), ApplyLevel(acc, e, level);
    Snoc(before, e, level);
    AccumulatedInOrder(before, level);
    EditMembers(acc, e, level);
    SaveLevelInOrder([], acc.deleted, acc.added);
    SaveLevelInOrder([], acc'.deleted, acc'.added);
    NoneSame(before, e, level);
    SaveLevelInOrder(live, own.deleted, s);
    SaveLevelMembers([], acc'.deleted, acc'.added);
    SaveLevelMembers(live, own.deleted, s);
    hide Accumulate, Live, AddedBy, ApplyLevel, Placed, SaveLevel, Agrees, AddsNew;
    forall h ensures h in Save([], acc') <==> h in Save(live, own) {
      SameMember(before, e, level, h);
    }
    InOrderIsUnique(Save([], acc'), Save(live, own));
    forall h ensures h in acc'.added <==> h in Placed(before, level) + FileSet(s) {
      KnownMember(before, e, level, h);
    }
  }

  lemma NotInLevel(before: seq<Edit>, e: Edit, level: nat, g: File)
    requires Agrees(before, level) && Replays(before + [e], level) && g in AddedBy(e, level)
    ensures g !in Live([], before, level)
  {
    var acc, live, s := Accumulate(before, level), Live([], before, level), AddedBy(e, level);
    var own, acc' := ApplyLevel(EMPTY, e, level), ApplyLevel(acc, e, level);
    Snoc(before, e, level);
    AccumulatedInOrder(before, level);
    EditMembers(acc, e, level);
    assert g.number in Numbers(s);
    SavedCount([], acc', g);
    SavedCount(live, own, g);
    if g in acc'.added {
      NoneTwice(acc'.added, g, g);
    }
  }

  lemma NotBeside(before: seq<Edit>, e: Edit, level: nat, g: File, h: File)
    requires Agrees(before, level) && Replays(before + [e], level) && g in AddedBy(e, level)
    requires h in Placed(before, level) && h.number == g.number && h != g
    ensures !Same(h, g) && (h in Live([], before, level) || h in AddedBy(e, level))
  {
    var acc, live, s := Accumulate(before, level), Live([], before, level), AddedBy(e, level);
    var own, acc' := ApplyLevel(EMPTY, e, level), ApplyLevel(acc, e, level);
    Snoc(before, e, level);
    AccumulatedInOrder(before, level);
    EditMembers(acc, e, level);
    AgreedMembers(before, level, h);
    assert g.number in Numbers(s);
    SaveLevelMembers([], acc'.deleted, acc'.added);
    SaveLevelMembers(live, own.deleted, s);
    if Same(h, g) {
      assert g in Save(live, own);
      if g in acc.added {
        NoneTwice(acc.added, h, g);
      }
    } else {
      assert h in Save([], acc');
    }
  }

  /** And they agree under no others. */
  lemma AgreeingFilesAreNew(before: seq<Edit>, e: Edit, level: nat)
    requires Agrees(before, level) && Replays(before + [e], level)
    ensures AddsNew(before, e, level)
  {
    forall g | g in AddedBy(e, level) ensures IsNew(before, e, level, g) {
      NotInLevel(before, e, level, g);
      forall h | h in Placed(before, level) && h.number == g.number && h != g
        ensures !Same(h, g) && (h in Live([], before, level) || h in AddedBy(e, level))
      {
        NotBeside(before, e, level, g, h);
      }
    }
  }

  // ----- Whole manifests

  /** However much of the manifest there is, its replay gives the version of that time. */
  ghost predicate AlwaysReplays(edits: seq<Edit>, level: nat) {
    forall n {:trigger edits[..n]} :: 0 <= n <= |edits| ==> Replays(edits[..n], level)
  }

  ghost predicate AlwaysAddsNew(edits: seq<Edit>, level: nat) {
    forall n {:trigger edits[n]} :: 0 <= n < |edits| ==> AddsNew(edits[..n], edits[n], level)
  }

  lemma PrefixOfSnoc(before: seq<Edit>, e: Edit, n: nat)
    requires n <= |before|
    ensures (before + [e])[..n] == before[..n]
  {
  }

  lemma AlwaysReplaysSnoc(before: seq<Edit>, e: Edit, level: nat)
    ensures AlwaysReplays(before + [e], level) <==> AlwaysReplays(before, level) && Replays(before + [e], level)
  {
    hide Replays;
    var edits := before + [e];
    assert edits[..|edits|] == edits;
    if AlwaysReplays(edits, level) {
      forall n | 0 <= n <= |before| ensures Replays(before[..n], level) {
        PrefixOfSnoc(before, e, n);
        assert Replays(edits[..n], level);
      }
    }
    if AlwaysReplays(before, level) && Replays(edits, level) {
      forall n | 0 <= n <= |edits| ensures Replays(edits[..n], level) {
        if n <= |before| {
          PrefixOfSnoc(before, e, n);
          assert Replays(before[..n], level);
        }
      }
    }
  }

  lemma AlwaysAddsNewSnoc(before: seq<Edit>, e: Edit, level: nat)
    ensures AlwaysAddsNew(before + [e], level) <==> AlwaysAddsNew(before, level) && AddsNew(before, e, level)
  {
    hide AddsNew;
    var edits := before + [e];
    PrefixOfSnoc(before, e, |before|);
    assert before[..|before|] == before;
    if AlwaysAddsNew(edits, level) {
      assert AddsNew(edits[..|before|], edits[|before|], level);
      forall n | 0 <= n < |before| ensures AddsNew(before[..n], before[n], level) {
        PrefixOfSnoc(before, e, n);
        assert AddsNew(edits[..n], edits[n], level);
      }
    }
    if AlwaysAddsNew(before, level) && AddsNew(before, e, level) {
      forall n | 0 <= n < |edits| ensures AddsNew(edits[..n], edits[n], level) {
        PrefixOfSnoc(before, e, n);
        if n < |before| {
          assert AddsNew(before[..n], before[n], level);
        }
      }
    }
  }

  /** Replaying a manifest gives what installing its edits gave, at each point, exactly when every file an edit
      puts on a level is new to it. */
  lemma {:induction false} ReplaysIffNew(edits: seq<Edit>, level: nat)
    ensures AlwaysReplays(edits, level) <==> AlwaysAddsNew(edits, level)
    ensures AlwaysReplays(edits, level) ==> Agrees(edits, level)
  {
    if edits == [] {
    } else {
      var before, e := edits[..|edits| - 1], edits[|edits| - 1];
      assert edits == before + [e];
      ReplaysIffNew(before, level);
      AlwaysReplaysSnoc(before, e, level);
      AlwaysAddsNewSnoc(before, e, level);
      if AlwaysReplays(before, level) {
        if Replays(before + [e], level) {
          AgreeingFilesAreNew(before, e, level);
        }
        if AddsNew(before, e, level) {
          NewFilesAgree(before, e, level);
        }
      }
    }
  }

  // ----- What goes wrong otherwise

  function Adds(f: File, level: nat): Edit {
    Edit({}, [(level, f)])
  }

  function Deletes(f: File, level: nat): Edit {
    Edit({(level, f.number)}, [])
  }

  /** A file deleted and added in one edit. */
  function Moves(f: File, level: nat): Edit {
    Edit({(level, f.number)}, [(level, f)])
  }

  lemma OneFile(ls: LevelState, f: File, level: nat)
    ensures AddFiles(ls, FilesAt([(level, f)], level)) == AddFile(ls, f)
    ensures AddFiles(ls, FilesAt([], level)) == ls
  {
    assert [(level, f)][..0] == [] && [f][..0] == [];
    assert FilesAt([(level, f)], level) == [f];
  }

  lemma OneEdit(ls: LevelState, f: File, level: nat)
    ensures ApplyLevel(ls, Adds(f, level), level) == AddFile(ls, f)
    ensures ApplyLevel(ls, Deletes(f, level), level) == ls.(deleted := ls.deleted + {f.number})
    ensures ApplyLevel(ls, Moves(f, level), level) == AddFile(ls.(deleted := ls.deleted + {f.number}), f)
  {
    OneFile(ls, f, level);
    OneFile(ls.(deleted := ls.deleted + {f.number}), f, level);
    assert DeletedAt(Adds(f, level), level) == {} && ls.deleted + {} == ls.deleted;
    assert DeletedAt(Deletes(f, level), level) == {f.number} == DeletedAt(Moves(f, level), level) by {
      assert (level, f.number) in Deletes(f, level).deleted && (level, f.number) in Moves(f, level).deleted;
    }
  }

  lemma KeptFiles(f: File, g: File)
    ensures NotDeleted([f], {}) == [f] && NotDeleted([f], {f.number}) == [] && NotDeleted([f, g], {}) == [f, g]
  {
    assert [f][1..] == [] && [g][1..] == [] && [f, g][1..] == [g];
    assert NotDeleted([], {}) == [];
    assert NotDeleted([g], {}) == [g];
  }

  lemma Started(f: File, level: nat)
    ensures Accumulate([Adds(f, level)], level) == LevelState({}, [f])
    ensures Live([], [Adds(f, level)], level) == [f]
  {
    var none: seq<Edit> := [];
    assert none + [Adds(f, level)] == [Adds(f, level)];
    Snoc(none, Adds(f, level), level);
    OneEdit(EMPTY, f, level);
    KeptFiles(f, f);
    assert {} - {f.number} == {};
  }

  lemma Stopped(f: File, level: nat)
    ensures Accumulate([Adds(f, level), Deletes(f, level)], level) == LevelState({f.number}, [f])
    ensures Live([], [Adds(f, level), Deletes(f, level)], level) == []
  {
    assert [Adds(f, level)] + [Deletes(f, level)] == [Adds(f, level), Deletes(f, level)];
    Started(f, level);
    Snoc([Adds(f, level)], Deletes(f, level), level);
    OneEdit(LevelState({}, [f]), f, level);
    OneEdit(EMPTY, f, level);
    KeptFiles(f, f);
    hide Accumulate, Live, ApplyLevel, NotDeleted, Adds, Deletes;
    assert {} + {f.number} == {f.number};
  }

  lemma SavedAgain(f: File, g: File)
    requires f.number == g.number && BySmallest(f, g)
    ensures Save([], AddFile(LevelState({f.number}, [f]), g)) == [f, g]
    ensures Save([], AddFile(EMPTY, g)) == [g]
  {
    KeptFiles(f, g);
    KeptFiles(g, g);
    hide NotDeleted;
    assert {f.number} - {g.number} == {} && {} - {g.number} == {};
    assert InsertFile([f], g) == [f] + InsertFile([], g) == [f, g];
    assert Merge([], [f, g]) == [f, g];
  }

  /** A file number comes back with a larger smallest key: the replay has the old file again as well. */
  lemma OldFileComesBack(f: File, g: File, level: nat)
    requires f.number == g.number && BySmallest(f, g)
    ensures var edits := [Adds(f, level), Deletes(f, level), Adds(g, level)];
            Save([], Accumulate(edits, level)) == [f, g] && Live([], edits, level) == [g]
  {
    var two := [Adds(f, level), Deletes(f, level)];
    var edits := two + [Adds(g, level)];
    assert edits == [Adds(f, level), Deletes(f, level), Adds(g, level)];
    Stopped(f, level);
    Snoc(two, Adds(g, level), level);
    OneEdit(LevelState({f.number}, [f]), g, level);
    OneEdit(EMPTY, g, level);
    hide Accumulate, Live, ApplyLevel, Adds, Deletes, AddFile, Save, BySmallest;
    SavedAgain(f, g);
  }

  /** A file is taken out and put back by one edit: the version in use has it twice. */
  lemma MovedFileIsDoubled(f: File, level: nat)
    ensures var edits := [Adds(f, level), Moves(f, level)];
            Save([], Accumulate(edits, level)) == [f] && Live([], edits, level) == [f, f]
  {
    assert [Adds(f, level)] + [Moves(f, level)] == [Adds(f, level), Moves(f, level)];
    Started(f, level);
    Snoc([Adds(f, level)], Moves(f, level), level);
    OneEdit(LevelState({}, [f]), f, level);
    OneEdit(EMPTY, f, level);
    KeptFiles(f, f);
    hide Accumulate, Live, ApplyLevel, NotDeleted, Adds, Moves;
    assert ({} + {f.number}) - {f.number} == {};
    assert Merge([f], [f]) == [f, f];
  }
}
