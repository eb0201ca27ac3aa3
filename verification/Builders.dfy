/**
 VersionSet::Builder: applying version edits to a level, one by one or all at once.
 */
module Builders {
  import opened InternalKeys
  import opened Tables
  import opened Versions

  /** Builder::BySmallestKey: by smallest key, ties broken by file number. */
  predicate BySmallest(f: File, g: File) {
    Less(f.Smallest(), g.Smallest()) || (f.Smallest() == g.Smallest() && f.number < g.number)
  }

  /** The same file in that order. */
  predicate Same(f: File, g: File) {
    f.Smallest() == g.Smallest() && f.number == g.number
  }

  ghost predicate InOrder(files: seq<File>) {
    forall i, j {:trigger BySmallest(files[i], files[j])} :: 0 <= i < j < |files| ==> BySmallest(files[i], files[j])
  }

  /** Files of the base and added files, in order; on a tie the base file comes first. */
  function Merge(base: seq<File>, added: seq<File>): seq<File> {
    if base == [] then added
    else if added == [] then base
    else if BySmallest(added[0], base[0]) then [added[0]] + Merge(base, added[1..])
    else [base[0]] + Merge(base[1..], added)
  }

  function NotDeleted(files: seq<File>, deleted: set<nat>): seq<File> {
    if files == [] then []
    else (if files[0].number in deleted then [] else [files[0]]) + NotDeleted(files[1..], deleted)
  }

  /** What Builder::SaveTo makes of one level. */
  function SaveLevel(base: seq<File>, deleted: set<nat>, added: seq<File>): seq<File> {
    NotDeleted(Merge(base, added), deleted)
  }

  // ----- The loop of SaveTo

  lemma {:induction false} NotDeletedConcat(a: seq<File>, b: seq<File>, deleted: set<nat>)
    ensures NotDeleted(a + b, deleted) == NotDeleted(a, deleted) + NotDeleted(b, deleted)
  {
    if a == [] {
      assert a + b == b;
    } else {
      assert (a + b)[1..] == a[1..] + b;
      NotDeletedConcat(a[1..], b, deleted);
    }
  }

  lemma TakeBase(files: seq<File>, base: seq<File>, b: nat, added: seq<File>, deleted: set<nat>)
    requires b < |base| && (added == [] || !BySmallest(added[0], base[b]))
    ensures files + SaveLevel(base[b..], deleted, added)
         == files + NotDeleted([base[b]], deleted) + SaveLevel(base[b + 1..], deleted, added)
  {
    assert base[b..][1..] == base[b + 1..] && base[b..] == [base[b]] + base[b + 1..];
    assert Merge(base[b..], added) == [base[b]] + Merge(base[b + 1..], added);
    NotDeletedConcat([base[b]], Merge(base[b + 1..], added), deleted);
  }

  lemma TakeAdded(files: seq<File>, base: seq<File>, added: seq<File>, a: nat, deleted: set<nat>)
    requires a < |added| && (base == [] || BySmallest(added[a], base[0]))
    ensures files + SaveLevel(base, deleted, added[a..])
         == files + NotDeleted([added[a]], deleted) + SaveLevel(base, deleted, added[a + 1..])
  {
    assert added[a..][1..] == added[a + 1..] && added[a..] == [added[a]] + added[a + 1..];
    assert Merge(base, added[a..]) == [added[a]] + Merge(base, added[a + 1..]);
    NotDeletedConcat([added[a]], Merge(base, added[a + 1..]), deleted);
  }

  /** One level of Builder::SaveTo: before each added file, the base files that are not after it. */
  method SaveTo(base: seq<File>, deleted: set<nat>, added: seq<File>) returns (files: seq<File>)
    ensures files == SaveLevel(base, deleted, added)
  {
    files := [];
    var b := 0;
    for a := 0 to |added|
      invariant b <= |base|
      invariant SaveLevel(base, deleted, added) == files + SaveLevel(base[b..], deleted, added[a..])
    {
      files, b := AddBaseFiles(files, base, b, deleted, added[a..]);
      TakeAdded(files, base[b..], added, a, deleted);
      files := MaybeAddFile(files, deleted, added[a]);
    }
    assert added[|added|..] == [];
    files, b := AddBaseFiles(files, base, b, deleted, []);
  }

  /** Add the base files from index b up to the upper bound of the first of the remaining added files. */
  method AddBaseFiles(files: seq<File>, base: seq<File>, b: nat, deleted: set<nat>, rest: seq<File>)
    returns (r: seq<File>, b': nat)
    requires b <= |base|
    ensures b <= b' <= |base| && (b' == |base| || (rest != [] && BySmallest(rest[0], base[b'])))
    ensures r + SaveLevel(base[b'..], deleted, rest) == files + SaveLevel(base[b..], deleted, rest)
  {
    r, b' := files, b;
    while b' < |base| && (rest == [] || !BySmallest(rest[0], base[b']))
      invariant b <= b' <= |base|
      invariant r + SaveLevel(base[b'..], deleted, rest) == files + SaveLevel(base[b..], deleted, rest)
    {
      TakeBase(r, base, b', rest, deleted);
      r := MaybeAddFile(r, deleted, base[b']);
      b' := b' + 1;
    }
  }

  method MaybeAddFile(files: seq<File>, deleted: set<nat>, f: File) returns (r: seq<File>)
    ensures r == files + NotDeleted([f], deleted)
  {
    if f.number in deleted {
      r := files;
    } else {
      r := files + [f];
    }
  }

  // ----- Members and order

  lemma {:induction false} MergeMembers(base: seq<File>, added: seq<File>)
    ensures forall f :: f in Merge(base, added) <==> f in base || f in added
    decreases |base| + |added|
  {
    if base != [] && added != [] {
      if BySmallest(added[0], base[0]) {
        MergeMembers(base, added[1..]);
        assert added == [added[0]] + added[1..];
      } else {
        MergeMembers(base[1..], added);
        assert base == [base[0]] + base[1..];
      }
    }
  }

  lemma {:induction false} NotDeletedMembers(files: seq<File>, deleted: set<nat>)
    ensures forall f :: f in NotDeleted(files, deleted) <==> f in files && f.number !in deleted
  {
    if files != [] {
      NotDeletedMembers(files[1..], deleted);
      assert files == [files[0]] + files[1..];
    }
  }

  lemma SaveLevelMembers(base: seq<File>, deleted: set<nat>, added: seq<File>)
    ensures forall f :: f in SaveLevel(base, deleted, added) <==> (f in base || f in added) && f.number !in deleted
  {
    MergeMembers(base, added);
    NotDeletedMembers(Merge(base, added), deleted);
  }

  lemma ConsInOrder(f: File, files: seq<File>)
    requires InOrder(files) && forall g :: g in files ==> BySmallest(f, g)
    ensures InOrder([f] + files)
  {
    var r := [f] + files;
    forall i, j | 0 <= i < j < |r| ensures BySmallest(r[i], r[j]) {
      assert r[j] == files[j - 1] && files[j - 1] in files;
      if i > 0 {
        assert BySmallest(files[i - 1], files[j - 1]);
      }
    }
  }

  lemma TailInOrder(files: seq<File>)
    requires InOrder(files) && files != []
    ensures InOrder(files[1..]) && forall g :: g in files[1..] ==> BySmallest(files[0], g)
  {
    forall i, j | 0 <= i < j < |files[1..]| ensures BySmallest(files[1..][i], files[1..][j]) {
      assert BySmallest(files[i + 1], files[j + 1]);
    }
    forall g | g in files[1..] ensures BySmallest(files[0], g) {
      var k :| 0 <= k < |files[1..]| && files[1..][k] == g;
      assert BySmallest(files[0], files[k + 1]);
    }
  }

  lemma {:induction false} MergeInOrder(base: seq<File>, added: seq<File>)
    requires InOrder(base) && InOrder(added)
    requires forall f, g :: f in base && g in added ==> !Same(f, g)
    ensures InOrder(Merge(base, added))
    decreases |base| + |added|
  {
    if base != [] && added != [] {
      if BySmallest(added[0], base[0]) {
        TailInOrder(added);
        MergeInOrder(base, added[1..]);
        MergeMembers(base, added[1..]);
        TailInOrder(base);
        assert forall g :: g in base ==> g == base[0] || g in base[1..];
        ConsInOrder(added[0], Merge(base, added[1..]));
      } else {
        TailInOrder(base);
        MergeInOrder(base[1..], added);
        MergeMembers(base[1..], added);
        TailInOrder(added);
        assert base[0] in base && added[0] in added;
        assert forall g :: g in added ==> g == added[0] || g in added[1..];
        ConsInOrder(base[0], Merge(base[1..], added));
      }
    }
  }

  lemma {:induction false} NotDeletedInOrder(files: seq<File>, deleted: set<nat>)
    requires InOrder(files)
    ensures InOrder(NotDeleted(files, deleted))
  {
    if files != [] {
      TailInOrder(files);
      NotDeletedInOrder(files[1..], deleted);
      NotDeletedMembers(files[1..], deleted);
      ConsInOrder(files[0], NotDeleted(files[1..], deleted));
    }
  }

  lemma SaveLevelInOrder(base: seq<File>, deleted: set<nat>, added: seq<File>)
    requires InOrder(base) && InOrder(added)
    requires forall f, g :: f in base && g in added ==> !Same(f, g)
    ensures InOrder(SaveLevel(base, deleted, added))
  {
    MergeInOrder(base, added);
    NotDeletedInOrder(Merge(base, added), deleted);
  }

  /** Files in order whose key ranges are pairwise apart form a sorted level, as SaveTo asserts. */
  lemma ApartIsSorted(files: seq<File>)
    requires InOrder(files)
    requires forall f, g :: f in files && g in files && f != g ==> Precedes(f, g) || Precedes(g, f)
    ensures LevelSorted(files)
  {
    forall i, j | 0 <= i < j < |files| ensures Precedes(files[i], files[j]) {
      assert BySmallest(files[i], files[j]);
      FileKeyOrder(files[i]);
      FileKeyOrder(files[j]);
      assert files[i] in files && files[j] in files;
    }
  }

  lemma SortedIsInOrder(files: seq<File>)
    requires LevelSorted(files)
    ensures InOrder(files)
    ensures forall f, g :: f in files && g in files && f != g ==> Precedes(f, g) || Precedes(g, f)
  {
    forall i, j | 0 <= i < j < |files| ensures BySmallest(files[i], files[j]) {
      assert Precedes(files[i], files[j]);
      FileKeyOrder(files[i]);
    }
    forall f, g | f in files && g in files && f != g ensures Precedes(f, g) || Precedes(g, f) {
      var i :| 0 <= i < |files| && files[i] == f;
      var j :| 0 <= j < |files| && files[j] == g;
      assert i < j ==> Precedes(files[i], files[j]);
      assert j < i ==> Precedes(files[j], files[i]);
    }
  }

  /** Files in order are determined by their set. */
  lemma {:induction false} InOrderIsUnique(a: seq<File>, b: seq<File>)
    requires InOrder(a) && InOrder(b) && forall f :: f in a <==> f in b
    ensures a == b
  {
    assert a != [] ==> a[0] in a;
    assert b != [] ==> b[0] in b;
    if a != [] {
      HeadIsLeast(a);
      HeadIsLeast(b);
      assert a[0] in b;
      assert b[0] in a;
      assert forall f :: f in a[1..] <==> f in a && f != a[0];
      assert forall f :: f in b[1..] <==> f in b && f != b[0];
      InOrderIsUnique(a[1..], b[1..]);
    }
  }

  lemma HeadIsLeast(a: seq<File>)
    requires InOrder(a) && a != []
    ensures InOrder(a[1..])
    ensures forall f :: f in a[1..] <==> f in a && f != a[0]
    ensures forall f :: f in a && f != a[0] ==> BySmallest(a[0], f)
  {
    TailInOrder(a);
    assert forall f :: f in a <==> f == a[0] || f in a[1..];
  }
}
