/**
 Inputs without gaps: every user key between the ends of a compaction's first inputs lies in the range
 of some input.  A flush that overlaps no input then cannot land between them.
 */
module JoinedInputs {
  import opened Basics
  import opened InternalKeys
  import opened Tables
  import opened Versions
  import opened Overlap
  import opened CompactionInputs

  ghost predicate Spanned(files: seq<File>, u: UserKey) {
    && (exists a :: a in files && a.Smallest().user <= u)
    && exists b :: b in files && u <= b.Largest().user
  }

  ghost predicate Covered(in0: seq<File>, in1: seq<File>, u: UserKey) {
    exists d :: (d in in0 || d in in1) && Covers(d, u)
  }

  ghost predicate Joined(in0: seq<File>, in1: seq<File>) {
    forall u :: Spanned(in0, u) ==> Covered(in0, in1, u)
  }

  lemma CoveredByMore(in0: seq<File>, in1: seq<File>, more0: seq<File>, more1: seq<File>, u: UserKey)
    requires Covered(in0, in1, u)
    requires forall d :: d in in0 || d in in1 ==> d in more0 || d in more1
    ensures Covered(more0, more1, u)
  {
  }

  lemma JoinedWithMore(in0: seq<File>, in1: seq<File>)
    requires Joined(in0, [])
    ensures Joined(in0, in1)
  {
    forall u | Spanned(in0, u) ensures Covered(in0, in1, u) {
      CoveredByMore(in0, [], in0, in1, u);
    }
  }

  lemma OneFileJoined(f: File)
    ensures Joined([f], [])
  {
    forall u | Spanned([f], u) ensures Covered([f], [], u) {
      assert f in [f] && Covers(f, u);
    }
  }

  // ----- Boundary files

  /** From the last file of a run to the last of its boundary files, each starts where the one before ends. */
  lemma {:induction false} ChainCovers(files: seq<File>, j: nat, u: UserKey) returns (k: nat)
    requires 0 < j <= |files|
    requires files[j - 1].Smallest().user <= u <= files[BoundaryEnd(files, j) - 1].Largest().user
    ensures j - 1 <= k < BoundaryEnd(files, j) && Covers(files[k], u)
    decreases |files| - j
  {
    if u <= files[j - 1].Largest().user {
      k := j - 1;
    } else {
      k := ChainCovers(files, j + 1, u);
    }
  }

  lemma SpanEnds(files: seq<File>, i: nat, e: nat, u: UserKey)
    requires LevelSorted(files) && i < e <= |files| && Spanned(files[i..e], u)
    ensures files[i].Smallest().user <= u <= files[e - 1].Largest().user
  {
    var a: nat :| a < e - i && files[i..e][a].Smallest().user <= u;
    var b: nat :| b < e - i && u <= files[i..e][b].Largest().user;
    LevelUserOrder(files, i, i + a);
    LevelUserOrder(files, i + b, e - 1);
  }

  lemma BoundaryKeepsJoined(files: seq<File>, i: nat, j: nat, in1: seq<File>)
    requires LevelSorted(files) && i < j <= |files| && Joined(files[i..j], in1)
    ensures Joined(files[i..BoundaryEnd(files, j)], in1)
  {
    hide Covered;
    var e := BoundaryEnd(files, j);
    forall u | Spanned(files[i..e], u) ensures Covered(files[i..e], in1, u) {
      SpanEnds(files, i, e, u);
      if u <= files[j - 1].Largest().user {
        assert files[i..j][0] == files[i] && files[i..j][j - i - 1] == files[j - 1];
        assert Spanned(files[i..j], u);
        SliceWithin(files, i, j, e);
        CoveredByMore(files[i..j], in1, files[i..e], in1, u);
      } else {
        FileKeyOrder(files[j - 1]);
        var k := ChainCovers(files, j, u);
        assert files[i..e][k - i] == files[k];
        CoveredBy(files[i..e], in1, files[k], u);
      }
    }
  }

  lemma CoveredBy(in0: seq<File>, in1: seq<File>, d: File, u: UserKey)
    requires d in in0 && Covers(d, u)
    ensures Covered(in0, in1, u)
  {
  }

  lemma SliceWithin(files: seq<File>, i: nat, j: nat, e: nat)
    requires i <= j <= e <= |files|
    ensures forall d :: d in files[i..j] ==> d in files[i..e]
  {
    assert files[i..j] == files[i..e][..j - i];
  }

  // ----- Level 0

  /** The least closed range is filled by the files that overlap it, except perhaps inside what was asked for. */
  lemma LeastClosedCovers(files: seq<File>, begin: UserKey, end: UserKey, lo: Bound, hi: Bound, u: UserKey)
    requires LeastClosed(files, Some(begin), Some(end), lo, hi) && begin <= end
    requires Spanned(Overlapping(files, lo, hi), u) && !(begin <= u <= end)
    ensures Covered(Overlapping(files, lo, hi), [], u)
  {
    var inputs := Overlapping(files, lo, hi);
    OverlappingMembers(files, lo, hi);
    if !Covered(inputs, [], u) {
      var a :| a in inputs && a.Smallest().user <= u;
      var b :| b in inputs && u <= b.Largest().user;
      assert Inside(a, lo, hi) && Inside(b, lo, hi);
      assert !Covers(a, u) && !Covers(b, u);
      FileKeyOrder(a);
      FileKeyOrder(b);
      if u > end {
        CutAbove(files, lo, hi, u, inputs);
        assert Contains(lo, Some(u), Some(begin), Some(end));
      } else {
        CutBelow(files, lo, hi, u, inputs);
        assert Contains(Some(u), hi, Some(begin), Some(end));
      }
    }
  }

  /** A closed range may be cut at a user key in no file. */
  lemma CutAbove(files: seq<File>, lo: Bound, hi: Bound, u: UserKey, inputs: seq<File>)
    requires Closed(files, lo, hi) && (hi.Some? ==> u <= hi.value)
    requires forall f :: f in inputs <==> f in files && Overlaps(f, lo, hi)
    requires !Covered(inputs, [], u)
    ensures Closed(files, lo, Some(u))
  {
    forall g | g in files && Overlaps(g, lo, Some(u)) ensures Inside(g, lo, Some(u)) {
      assert g in inputs && !Covers(g, u);
    }
  }

  lemma CutBelow(files: seq<File>, lo: Bound, hi: Bound, u: UserKey, inputs: seq<File>)
    requires Closed(files, lo, hi) && (lo.Some? ==> lo.value <= u)
    requires forall f :: f in inputs <==> f in files && Overlaps(f, lo, hi)
    requires !Covered(inputs, [], u)
    ensures Closed(files, Some(u), hi)
  {
    forall g | g in files && Overlaps(g, Some(u), hi) ensures Inside(g, Some(u), hi) {
      assert g in inputs && !Covers(g, u);
    }
  }

  /** All level-0 files that have to go with one of them. */
  lemma ClosureJoined(files: seq<File>, f: File, lo: Bound, hi: Bound)
    requires f in Overlapping(files, lo, hi)
    requires LeastClosed(files, Some(f.Smallest().user), Some(f.Largest().user), lo, hi)
    ensures Joined(Overlapping(files, lo, hi), [])
  {
    var inputs := Overlapping(files, lo, hi);
    FileKeyOrder(f);
    forall u | Spanned(inputs, u) ensures Covered(inputs, [], u) {
      if f.Smallest().user <= u <= f.Largest().user {
        assert Covers(f, u);
      } else {
        LeastClosedCovers(files, f.Smallest().user, f.Largest().user, lo, hi, u);
      }
    }
  }

  // ----- The next level's inputs

  /** The range of both input sets. */
  lemma BothCovered(parents: seq<File>, in0: seq<File>, in1: seq<File>, smallest: InternalKey, largest: InternalKey,
                    u: UserKey)
    requires Joined(in0, []) && IsRange(in0, smallest, largest)
    requires in1 == Overlapping(parents, Some(smallest.user), Some(largest.user))
    requires Spanned(in0 + in1, u)
    ensures Covered(in0, in1, u)
  {
    OverlappingMembers(parents, Some(smallest.user), Some(largest.user));
    var a :| a in in0 + in1 && a.Smallest().user <= u;
    var b :| b in in0 + in1 && u <= b.Largest().user;
    if u > largest.user {
      assert b in in1 && Covers(b, u);
    } else if u < smallest.user {
      assert a in in1 && Covers(a, u);
    } else {
      assert Spanned(in0, u);
      CoveredByMore(in0, [], in0, in1, u);
    }
  }

  /** Files of the level that overlap a filled range leave no gap either. */
  lemma ExpansionJoined(level: nat, files: seq<File>, in0: seq<File>, in1: seq<File>, start: UserKey, limit: UserKey,
                        lo: Bound, hi: Bound)
    requires start <= limit && forall u :: start <= u <= limit ==> Covered(in0, in1, u)
    requires level == 0 ==> LeastClosed(files, Some(start), Some(limit), lo, hi)
    requires level > 0 ==> lo == Some(start) && hi == Some(limit)
    requires forall d :: d in in0 ==> d in Overlapping(files, lo, hi)
    ensures Joined(Overlapping(files, lo, hi), in1)
  {
    var more := Overlapping(files, lo, hi);
    OverlappingMembers(files, lo, hi);
    forall u | Spanned(more, u) ensures Covered(more, in1, u) {
      var a :| a in more && a.Smallest().user <= u;
      var b :| b in more && u <= b.Largest().user;
      if start <= u <= limit {
        CoveredByMore(in0, in1, more, in1, u);
      } else if level == 0 {
        LeastClosedCovers(files, start, limit, lo, hi, u);
        CoveredByMore(more, [], more, in1, u);
      } else {
        assert if u > limit then Covers(b, u) else Covers(a, u);
      }
    }
  }
}
