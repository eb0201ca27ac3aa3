/**
 The versions still in use: a list, the current one last, each with a count of its holders, and the files of
 those versions, each with a count of the versions it is in.
 */
module VersionLists {
  import opened Basics

  /** A FileMetaData object: which one it is, its level, and the number of the table file. */
  datatype FileMeta = FileMeta(id: nat, level: nat, number: nat)

  datatype Version = Version(id: nat, files: seq<FileMeta>, refs: nat)

  // ----- The list of versions

  function Ref(list: seq<Version>, k: nat): (r: seq<Version>)
    requires k < |list|
    ensures |r| == |list|
  {
    list[k := list[k].(refs := list[k].refs + 1)]
  }

  /** Drop a reference; a version without one leaves the list. */
  function Unref(list: seq<Version>, k: nat): seq<Version>
    requires k < |list|
  {
    if list[k].refs <= 1 then list[..k] + list[k + 1..] else list[k := list[k].(refs := list[k].refs - 1)]
  }

  /** A new current version takes the place of the one before, which loses a reference. */
  function Append(list: seq<Version>, id: nat, files: seq<FileMeta>): (r: seq<Version>)
    ensures r != [] && r[|r| - 1] == Version(id, files, 1)
  {
    (if list == [] then [] else Unref(list, |list| - 1)) + [Version(id, files, 1)]
  }

  ghost predicate Listed(list: seq<Version>, id: nat) {
    exists k :: 0 <= k < |list| && list[k].id == id
  }

  /** A version's count is of those who hold it, and one more if it is current. */
  ghost predicate CountOk(list: seq<Version>, k: nat, holders: multiset<nat>) {
    k < |list| && list[k].refs == holders[list[k].id] + (if k == |list| - 1 then 1 else 0) > 0
  }

  /** The oldest come first, and all before the next. */
  ghost predicate Ascends(list: seq<Version>, next: nat) {
    && (forall i, j :: 0 <= i < j < |list| ==> list[i].id < list[j].id)
    && (forall k :: 0 <= k < |list| ==> list[k].id < next)
  }

  ghost predicate AllListed(list: seq<Version>, holders: multiset<nat>) {
    forall id :: id in holders ==> Listed(list, id)
  }

  /** Every version held is listed, and every version listed is held or current. */
  ghost predicate ListOk(list: seq<Version>, holders: multiset<nat>, next: nat) {
    && list != [] && (forall k :: 0 <= k < |list| ==> CountOk(list, k, holders))
    && AllListed(list, holders) && Ascends(list, next)
  }

  lemma ListedAt(list: seq<Version>, id: nat) returns (k: nat)
    requires Listed(list, id)
    ensures k < |list| && list[k].id == id
  {
    k :| 0 <= k < |list| && list[k].id == id;
  }

  lemma RefOk(list: seq<Version>, holders: multiset<nat>, next: nat, k: nat)
    requires ListOk(list, holders, next) && k < |list|
    ensures ListOk(Ref(list, k), holders + multiset{list[k].id}, next)
  {
    var list', holders' := Ref(list, k), holders + multiset{list[k].id};
    forall i | 0 <= i < |list| ensures CountOk(list', i, holders') {
      assert CountOk(list, i, holders);
    }
    forall id | id in holders' ensures Listed(list', id) {
      if id == list[k].id {
        assert list'[k].id == id;
      } else {
        SameListed(list, list', id);
      }
    }
  }

  lemma UnrefOk(list: seq<Version>, holders: multiset<nat>, next: nat, k: nat)
    requires ListOk(list, holders, next) && k < |list| && list[k].id in holders
    ensures ListOk(Unref(list, k), holders - multiset{list[k].id}, next)
  {
    assert CountOk(list, k, holders);
    if list[k].refs == 1 {
      LastHolderGone(list, holders, next, k);
    } else {
      OneHolderGone(list, holders, next, k);
    }
  }

  lemma LastHolderGone(list: seq<Version>, holders: multiset<nat>, next: nat, k: nat)
    requires ListOk(list, holders, next) && k < |list| && list[k].id in holders && list[k].refs == 1
    ensures ListOk(list[..k] + list[k + 1..], holders - multiset{list[k].id}, next)
  {
    var list', holders' := list[..k] + list[k + 1..], holders - multiset{list[k].id};
    assert CountOk(list, k, holders);
    hide Listed;
    forall i | 0 <= i < |list'| ensures CountOk(list', i, holders') {
      assert CountOk(list, if i < k then i else i + 1, holders);
    }
    forall id | id in holders' ensures Listed(list', id) {
      StillListed(list, k, id);
    }
  }

  lemma StillListed(list: seq<Version>, k: nat, id: nat)
    requires k < |list| && Listed(list, id) && id != list[k].id
    ensures Listed(list[..k] + list[k + 1..], id)
  {
    var i := ListedAt(list, id);
    assert (list[..k] + list[k + 1..])[if i < k then i else i - 1] == list[i];
  }

  lemma OneHolderGone(list: seq<Version>, holders: multiset<nat>, next: nat, k: nat)
    requires ListOk(list, holders, next) && k < |list| && list[k].id in holders && list[k].refs > 1
    ensures ListOk(Unref(list, k), holders - multiset{list[k].id}, next)
  {
    var list', holders' := Unref(list, k), holders - multiset{list[k].id};
    hide Listed;
    forall i | 0 <= i < |list'| ensures CountOk(list', i, holders') {
      assert CountOk(list, i, holders);
    }
    forall id | id in holders' ensures Listed(list', id) {
      SameListed(list, list', id);
    }
  }

  lemma SameListed(list: seq<Version>, list': seq<Version>, id: nat)
    requires Listed(list, id) && |list'| >= |list| && forall i :: 0 <= i < |list| ==> list'[i].id == list[i].id
    ensures Listed(list', id)
  {
    var i := ListedAt(list, id);
    assert list'[i].id == id;
  }

  lemma RefUnref(list: seq<Version>, k: nat)
    requires k < |list| && list[k].refs > 0
    ensures Unref(Ref(list, k), k) == list && Ref(list, k)[k].files == list[k].files
    ensures Ref(list, k)[k].id == list[k].id
  {
  }

  lemma CurrentCounted(list: seq<Version>, holders: multiset<nat>, next: nat)
    requires ListOk(list, holders, next)
    ensures |list| > 0 && list[|list| - 1].refs > 0
  {
    assert CountOk(list, |list| - 1, holders);
  }

  lemma AppendOk(list: seq<Version>, holders: multiset<nat>, id: nat, files: seq<FileMeta>)
    requires ListOk(list, holders, id)
    ensures ListOk(Append(list, id, files), holders, id + 1)
  {
    var n := |list| - 1;
    assert CountOk(list, n, holders);
    if list[n].refs == 1 {
      CurrentGone(list, holders, id, files);
    } else {
      CurrentHeld(list, holders, id, files);
    }
  }

  lemma HeldBefore(list: seq<Version>, holders: multiset<nat>, next: nat)
    requires ListOk(list, holders, next)
    ensures next !in holders
  {
    forall h | h in holders ensures h < next {
      assert Listed(list, h);
      var i := ListedAt(list, h);
    }
  }

  lemma CurrentGone(list: seq<Version>, holders: multiset<nat>, id: nat, files: seq<FileMeta>)
    requires ListOk(list, holders, id) && list[|list| - 1].refs == 1
    ensures ListOk(Append(list, id, files), holders, id + 1)
  {
    var n, list' := |list| - 1, Append(list, id, files);
    assert CountOk(list, n, holders);
    HeldBefore(list, holders, id);
    hide Listed;
    forall i | 0 <= i < |list'| ensures CountOk(list', i, holders) {
      assert CountOk(list, i, holders);
    }
    forall h | h in holders ensures Listed(list', h) {
      StillListed(list, n, h);
      SameListed(list[..n] + list[n + 1..], list', h);
    }
  }

  lemma CurrentHeld(list: seq<Version>, holders: multiset<nat>, id: nat, files: seq<FileMeta>)
    requires ListOk(list, holders, id) && list[|list| - 1].refs > 1
    ensures ListOk(Append(list, id, files), holders, id + 1)
  {
    var n, list' := |list| - 1, Append(list, id, files);
    HeldBefore(list, holders, id);
    hide Listed;
    forall i | 0 <= i < |list'| ensures CountOk(list', i, holders) {
      if i <= n {
        assert CountOk(list, i, holders);
      }
    }
    forall h | h in holders ensures Listed(list', h) {
      SameListed(list, list', h);
    }
  }

  /** The file numbers of a version. */
  function Numbers(files: seq<FileMeta>): set<nat> {
    set f | f in files :: f.number
  }

  /** The file numbers of all versions listed. */
  ghost function Live(list: seq<Version>): set<nat> {
    set k, n | 0 <= k < |list| && n in Numbers(list[k].files) :: n
  }

  lemma LiveSnoc(list: seq<Version>, i: nat)
    requires i < |list|
    ensures Live(list[..i + 1]) == Live(list[..i]) + Numbers(list[i].files)
  {
    hide Numbers;
    assert list[..i + 1][i] == list[i];
    forall n | n in Live(list[..i]) ensures n in Live(list[..i + 1]) {
      var k :| 0 <= k < i && n in Numbers(list[..i][k].files);
      assert list[..i + 1][k] == list[..i][k];
    }
  }

  // ----- Counting the uses of files

  function Counted(files: seq<FileMeta>): multiset<FileMeta> {
    multiset(files)
  }

  /** How often each file is in a version listed. */
  ghost function Uses(list: seq<Version>): multiset<FileMeta> {
    if list == [] then multiset{}
    else Uses(list[..|list| - 1]) + Counted(list[|list| - 1].files)
  }

  lemma UsesSnoc(list: seq<Version>, v: Version)
    ensures Uses(list + [v]) == Uses(list) + Counted(v.files)
  {
    assert (list + [v])[..|list|] == list;
  }

  lemma {:induction false} UsesConcat(a: seq<Version>, b: seq<Version>)
    ensures Uses(a + b) == Uses(a) + Uses(b)
  {
    hide Counted;
    if b == [] {
      assert a + b == a;
    } else {
      var n := |b| - 1;
      UsesConcat(a, b[..n]);
      UsesSnoc(a + b[..n], b[n]);
      assert a + b == (a + b[..n]) + [b[n]];
    }
  }

  lemma UsesOne(v: Version)
    ensures Uses([v]) == Counted(v.files)
  {
    assert [v][..0] == [];
  }

  lemma UsesAt(list: seq<Version>, k: nat, refs: nat)
    requires k < |list|
    ensures Uses(list) == Uses(list[..k] + list[k + 1..]) + Counted(list[k].files)
    ensures Uses(list[k := list[k].(refs := refs)]) == Uses(list)
  {
    hide Uses, Counted;
    var v := list[k].(refs := refs);
    assert list == list[..k] + ([list[k]] + list[k + 1..]);
    assert list[k := v] == list[..k] + ([v] + list[k + 1..]);
    UsesOne(list[k]);
    UsesOne(v);
    UsesConcat(list[..k], list[k + 1..]);
    UsesConcat([list[k]], list[k + 1..]);
    UsesConcat([v], list[k + 1..]);
    UsesConcat(list[..k], [list[k]] + list[k + 1..]);
    UsesConcat(list[..k], [v] + list[k + 1..]);
  }

  /** A file is counted, and so still there, exactly if some version listed has it. */
  lemma {:induction false} CountedIffListed(list: seq<Version>, f: FileMeta)
    ensures f in Uses(list) <==> exists k :: 0 <= k < |list| && f in list[k].files
  {
    if list != [] {
      var n := |list| - 1;
      CountedIffListed(list[..n], f);
      if k :| 0 <= k < n && f in list[..n][k].files {
        assert f in list[k].files;
      }
      if k :| 0 <= k < |list| && f in list[k].files {
        assert k < n ==> f in list[..n][k].files;
      }
    }
  }

  /** Those at a level and with a number not deleted. */
  function Kept(files: seq<FileMeta>, deleted: set<(nat, nat)>): seq<FileMeta> {
    if files == [] then []
    else
      var n := |files| - 1;
      Kept(files[..n], deleted) + if (files[n].level, files[n].number) in deleted then [] else [files[n]]
  }

  lemma KeptNone(deleted: set<(nat, nat)>)
    ensures Kept([], deleted) == []
  {
  }

  lemma KeptSnoc(files: seq<FileMeta>, deleted: set<(nat, nat)>, i: nat)
    requires i < |files|
    ensures Kept(files[..i + 1], deleted)
      == Kept(files[..i], deleted) + if (files[i].level, files[i].number) in deleted then [] else [files[i]]
  {
    assert files[..i + 1][..i] == files[..i];
  }

  function Keys(files: seq<FileMeta>): (r: set<(nat, nat)>) {
    set f | f in files :: (f.level, f.number)
  }

  /** What an edit makes of a version's files; a file it adds is not deleted. */
  function Edited(base: seq<FileMeta>, made: seq<FileMeta>, deleted: set<(nat, nat)>): seq<FileMeta> {
    Kept(base + made, deleted - Keys(made))
  }

  lemma {:induction false} KeptIff(files: seq<FileMeta>, deleted: set<(nat, nat)>, f: FileMeta)
    ensures f in Kept(files, deleted) <==> f in files && (f.level, f.number) !in deleted
  {
    if files != [] {
      KeptIff(files[..|files| - 1], deleted, f);
    }
  }

  lemma EditedNumbers(base: seq<FileMeta>, made: seq<FileMeta>, deleted: set<(nat, nat)>)
    ensures Numbers(made) <= Numbers(Edited(base, made, deleted)) <= Numbers(base) + Numbers(made)
  {
    hide Kept;
    forall f: FileMeta ensures f in Edited(base, made, deleted)
      <==> f in base + made && (f.level, f.number) !in deleted - Keys(made)
    {
      KeptIff(base + made, deleted - Keys(made), f);
    }
    forall n | n in Numbers(made) ensures n in Numbers(Edited(base, made, deleted)) {
      var f :| f in made && f.number == n;
      assert (f.level, f.number) in Keys(made);
      assert f in Edited(base, made, deleted);
    }
  }

  /** The files made for an edit's additions. */
  ghost predicate MadeFor(made: seq<FileMeta>, added: seq<(nat, nat)>) {
    |made| == |added| && forall i :: 0 <= i < |added| ==> (made[i].level, made[i].number) == added[i]
  }

  lemma SameKeys(made: seq<FileMeta>, added: seq<(nat, nat)>)
    requires MadeFor(made, added)
    ensures Keys(made) == set a | a in added
  {
    forall a | a in added ensures a in Keys(made) {
      var i :| 0 <= i < |added| && added[i] == a;
      assert made[i] in made;
    }
  }

  class VersionSet {
    var list: seq<Version>
    /** The reference counts of the files; one without references is gone. */
    var fileRefs: multiset<FileMeta>
    var nextVersion: nat
    var nextFile: nat
    ghost var holders: multiset<nat>

    ghost predicate Valid()
      reads this
    {
      CountsWith(multiset{})
    }

    /** A file is counted once for each version it is in, and as often as others hold it. */
    ghost predicate CountsWith(others: multiset<FileMeta>)
      reads this
    {
      ListOk(list, holders, nextVersion) && fileRefs == Uses(list) + others
    }

    constructor ()
      ensures Valid() && holders == multiset{} && |list| == 1 && list[0].files == []
    {
      list, fileRefs, nextVersion, nextFile := [Version(0, [], 1)], multiset{}, 1, 0;
      holders := multiset{};
      new;
      UsesOne(list[0]);
    }

    /** Hold a version: a reader's, or the input of a compaction. */
    method RefVersion(k: nat, ghost others: multiset<FileMeta>)
      requires CountsWith(others) && k < |list|
      modifies this`list, this`holders
      ensures CountsWith(others) && list == Ref(old(list), k)
      ensures holders == old(holders) + multiset{old(list[k].id)}
    {
      hide Uses, ListOk;
      RefOk(list, holders, nextVersion, k);
      UsesAt(list, k, list[k].refs + 1);
      list, holders := Ref(list, k), holders + multiset{list[k].id};
    }

    /** Let a version go; the last holder deletes it, and the files only it had. */
    method UnrefVersion(k: nat, ghost others: multiset<FileMeta>)
      requires CountsWith(others) && k < |list| && list[k].id in holders
      modifies this`list, this`holders, this`fileRefs
      ensures CountsWith(others) && list == Unref(old(list), k)
      ensures holders == old(holders) - multiset{old(list[k].id)}
    {
      UnrefOk(list, holders, nextVersion, k);
      assert CountOk(list, k, holders);
      hide Uses, ListOk;
      holders := holders - multiset{list[k].id};
      DropReference(k, others);
    }

    method DropReference(k: nat, ghost others: multiset<FileMeta>)
      requires k < |list| && list[k].refs > 0 && fileRefs == Uses(list) + others
      modifies this`list, this`fileRefs
      ensures list == Unref(old(list), k) && fileRefs == Uses(list) + others
    {
      hide Uses, Counted;
      var v := list[k];
      UsesAt(list, k, v.refs - 1);
      if v.refs == 1 {
        list := list[..k] + list[k + 1..];
        DropFiles(v.files);
      } else {
        list := list[k := v.(refs := v.refs - 1)];
      }
    }

    method DropFiles(files: seq<FileMeta>)
      requires Counted(files) <= fileRefs
      modifies this`fileRefs
      ensures fileRefs == old(fileRefs) - Counted(files)
    {
      for i := 0 to |files|
        invariant fileRefs == old(fileRefs) - multiset(files[..i])
      {
        assert files[..i + 1] == files[..i] + [files[i]];
        assert files == files[..i + 1] + files[i + 1..];
        assert files[i] in fileRefs;
        fileRefs := fileRefs - multiset{files[i]};
      }
      assert files[..|files|] == files;
    }

    method AppendVersion(files: seq<FileMeta>)
      requires CountsWith(Counted(files))
      modifies this
      ensures Valid() && list == Append(old(list), old(nextVersion), files) && holders == old(holders)
    {
      hide ListOk, Uses, Counted;
      AppendOk(list, holders, nextVersion, files);
      CurrentCounted(list, holders, nextVersion);
      DropReference(|list| - 1, Counted(files));
      UsesSnoc(list, Version(nextVersion, files, 1));
      list := list + [Version(nextVersion, files, 1)];
      nextVersion := nextVersion + 1;
    }

    /** The builder's new files, each with one reference, and what is left to delete. */
    method MakeFiles(added: seq<(nat, nat)>, deleted: set<(nat, nat)>)
      returns (made: seq<FileMeta>, left: set<(nat, nat)>)
      modifies this`fileRefs, this`nextFile
      ensures MadeFor(made, added) && fileRefs == old(fileRefs) + Counted(made)
      ensures left == deleted - set a | a in added
    {
      made, left := [], deleted;
      for i := 0 to |added|
        invariant MadeFor(made, added[..i]) && fileRefs == old(fileRefs) + Counted(made)
        invariant left == deleted - set a | a in added[..i]
      {
        var f := FileMeta(nextFile, added[i].0, added[i].1);
        fileRefs, nextFile := fileRefs + multiset{f}, nextFile + 1;
        made, left := made + [f], left - {added[i]};
      }
    }

    /** The files of the new version, each with one more reference. */
    method SaveTo(files: seq<FileMeta>, deleted: set<(nat, nat)>) returns (saved: seq<FileMeta>)
      modifies this`fileRefs
      ensures saved == Kept(files, deleted) && fileRefs == old(fileRefs) + Counted(saved)
    {
      hide Kept;
      saved := [];
      KeptNone(deleted);
      for i := 0 to |files|
        invariant saved == Kept(files[..i], deleted) && fileRefs == old(fileRefs) + Counted(saved)
      {
        KeptSnoc(files, deleted, i);
        if (files[i].level, files[i].number) !in deleted {
          fileRefs := fileRefs + multiset{files[i]};
          saved := saved + [files[i]];
        }
      }
      assert files[..|files|] == files;
    }

    /** The builder: it holds the current version while it works, and lets its new files go when it is done. */
    method BuildFiles(added: seq<(nat, nat)>, deleted: set<(nat, nat)>)
      returns (saved: seq<FileMeta>, ghost made: seq<FileMeta>)
      requires Valid()
      modifies this`list, this`holders, this`fileRefs, this`nextFile
      ensures CountsWith(Counted(saved)) && list == old(list) && holders == old(holders) && MadeFor(made, added)
      ensures list != [] && saved == Edited(list[|list| - 1].files, made, deleted)
    {
      hide Uses, ListOk, Counted, MadeFor, Kept, Edited, Ref, Unref;
      CurrentCounted(list, holders, nextVersion);
      var base := |list| - 1;
      RefUnref(list, base);
      RefVersion(base, multiset{});
      saved, made := BuildOn(list[base].files, added, deleted);
      assert CountsWith(Counted(saved)) && list[base].id in holders;
      UnrefVersion(base, Counted(saved));
    }

    method BuildOn(base: seq<FileMeta>, added: seq<(nat, nat)>, deleted: set<(nat, nat)>)
      returns (saved: seq<FileMeta>, ghost made: seq<FileMeta>)
      modifies this`fileRefs, this`nextFile
      ensures fileRefs == old(fileRefs) + Counted(saved) && MadeFor(made, added)
      ensures saved == Edited(base, made, deleted)
    {
      hide Counted, MadeFor, Kept;
      var newFiles, left := MakeFiles(added, deleted);
      saved := SaveTo(base + newFiles, left);
      DropFiles(newFiles);
      made := newFiles;
      SameKeys(made, added);
    }

    /** A new version from the current one; it is thrown away if its edit could not be written. */
    method LogAndApply(added: seq<(nat, nat)>, deleted: set<(nat, nat)>, written: bool)
      returns (ghost made: seq<FileMeta>)
      requires Valid()
      modifies this
      ensures Valid() && holders == old(holders) && MadeFor(made, added) && old(list) != []
      ensures list == if !written then old(list)
        else Append(old(list), old(nextVersion), Edited(old(list)[|old(list)| - 1].files, made, deleted))
    {
      hide Uses, ListOk, Counted, MadeFor, Kept, Edited;
      var saved;
      saved, made := BuildFiles(added, deleted);
      if written {
        AppendVersion(saved);
      } else {
        DropFiles(saved);
      }
    }

    method AddLiveFiles(live: set<nat>) returns (r: set<nat>)
      ensures r == live + Live(list)
    {
      r := live;
      for i := 0 to |list|
        invariant r == live + Live(list[..i])
      {
        var files := list[i].files;
        LiveSnoc(list, i);
        for j := 0 to |files|
          invariant r == live + Live(list[..i]) + Numbers(files[..j])
        {
          r := r + {files[j].number};
        }
      }
    }
  }
}
