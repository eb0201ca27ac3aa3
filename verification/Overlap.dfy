/**
 Which files of a level overlap a range of user keys.
 */
module Overlap {
  import opened Basics
  import opened InternalKeys
  import opened Tables
  import opened Versions

  /** One end of a user-key range; None stands for the null pointer, an open end. */
  type Bound = Option<UserKey>

  predicate AfterFile(lo: Bound, f: File) {
    lo.Some? && lo.value > f.Largest().user
  }

  predicate BeforeFile(hi: Bound, f: File) {
    hi.Some? && hi.value < f.Smallest().user
  }

  predicate Overlaps(f: File, lo: Bound, hi: Bound) {
    !AfterFile(lo, f) && !BeforeFile(hi, f)
  }

  function Overlapping(files: seq<File>, lo: Bound, hi: Bound): seq<File> {
    if files == [] then []
    else
      var last := files[|files| - 1];
      Overlapping(files[..|files| - 1], lo, hi) + if Overlaps(last, lo, hi) then [last] else []
  }

  lemma {:induction false} OverlappingMembers(files: seq<File>, lo: Bound, hi: Bound)
    ensures forall f :: f in Overlapping(files, lo, hi) <==> f in files && Overlaps(f, lo, hi)
  {
    if files != [] {
      var n := |files| - 1;
      OverlappingMembers(files[..n], lo, hi);
      assert forall f :: f in files <==> f in files[..n] || f == files[n];
    }
  }

  lemma OverlappingSnoc(files: seq<File>, f: File, lo: Bound, hi: Bound)
    ensures Overlapping(files + [f], lo, hi) == Overlapping(files, lo, hi) + if Overlaps(f, lo, hi) then [f] else []
  {
    assert (files + [f])[..|files|] == files;
  }

  lemma {:induction false} OverlappingConcat(a: seq<File>, b: seq<File>, lo: Bound, hi: Bound)
    ensures Overlapping(a + b, lo, hi) == Overlapping(a, lo, hi) + Overlapping(b, lo, hi)
  {
    if b == [] {
      assert a + b == a;
    } else {
      hide Overlapping, Overlaps;
      var c, f := b[..|b| - 1], b[|b| - 1];
      OverlappingConcat(a, c, lo, hi);
      OverlappingSnoc(a + c, f, lo, hi);
      OverlappingSnoc(c, f, lo, hi);
      assert b == c + [f];
      Glue(a, c, [f]);
      Glue(Overlapping(a, lo, hi), Overlapping(c, lo, hi), if Overlaps(f, lo, hi) then [f] else []);
    }
  }

  lemma {:induction false} OverlappingNone(files: seq<File>, lo: Bound, hi: Bound)
    requires forall i :: 0 <= i < |files| ==> !Overlaps(files[i], lo, hi)
    ensures Overlapping(files, lo, hi) == []
  {
    if files != [] {
      OverlappingNone(files[..|files| - 1], lo, hi);
    }
  }

  lemma {:induction false} OverlappingAll(files: seq<File>, lo: Bound, hi: Bound)
    requires forall i :: 0 <= i < |files| ==> Overlaps(files[i], lo, hi)
    ensures Overlapping(files, lo, hi) == files
  {
    if files != [] {
      OverlappingAll(files[..|files| - 1], lo, hi);
    }
  }

  method SomeFileOverlapsRange(disjointSortedFiles: bool, files: seq<File>, lo: Bound, hi: Bound)
    returns (b: bool)
    requires disjointSortedFiles ==> LevelSorted(files)
    ensures b <==> exists f :: f in files && Overlaps(f, lo, hi)
  {
    if !disjointSortedFiles {
      for i := 0 to |files|
        invariant forall j :: 0 <= j < i ==> !Overlaps(files[j], lo, hi)
      {
        if AfterFile(lo, files[i]) || BeforeFile(hi, files[i]) {
        } else {
          assert files[i] in files;
          return true;
        }
      }
      return false;
    }
    var index := 0;
    if lo.Some? {
      var smallKey := LookupKey(lo.value, MAX_SEQUENCE);
      index := FindFile(files, smallKey);
      forall f | f in files ensures Less(f.Largest(), smallKey) <==> AfterFile(lo, f) {
        LookupKeySplits(lo.value, MAX_SEQUENCE, f.Largest());
      }
    }
    assert forall j :: 0 <= j < index ==> files[j] in files && AfterFile(lo, files[j]);
    if index >= |files| {
      return false;
    }
    assert files[index] in files && !AfterFile(lo, files[index]);
    forall j | index < j < |files| ensures files[index].Smallest().user <= files[j].Smallest().user {
      FileKeyOrder(files[index]);
      assert Precedes(files[index], files[j]);
    }
    return !BeforeFile(hi, files[index]);
  }

  function TotalFileSize(files: seq<File>): nat {
    if files == [] then 0 else files[0].size + TotalFileSize(files[1..])
  }

  lemma {:induction false} TotalFileSizeSnoc(files: seq<File>, f: File)
    ensures TotalFileSize(files + [f]) == TotalFileSize(files) + f.size
  {
    if files != [] {
      TotalFileSizeSnoc(files[1..], f);
      assert (files + [f])[1..] == files[1..] + [f];
    }
  }

  // ----- GetOverlappingInputs

  /** [lo, hi] contains [lo', hi']; the open ends are the same. */
  predicate Contains(lo: Bound, hi: Bound, lo': Bound, hi': Bound) {
    && lo.Some? == lo'.Some? && hi.Some? == hi'.Some?
    && (lo.Some? ==> lo.value <= lo'.value)
    && (hi.Some? ==> hi.value >= hi'.value)
  }

  predicate Inside(f: File, lo: Bound, hi: Bound) {
    && (lo.Some? ==> lo.value <= f.Smallest().user)
    && (hi.Some? ==> f.Largest().user <= hi.value)
  }

  /** No file straddles an end of the range. */
  ghost predicate Closed(files: seq<File>, lo: Bound, hi: Bound) {
    forall f :: f in files && Overlaps(f, lo, hi) ==> Inside(f, lo, hi)
  }

  /** Every closed range around [begin, end] also contains [lo, hi]. */
  ghost predicate Forced(files: seq<File>, begin: Bound, end: Bound, lo: Bound, hi: Bound) {
    && Contains(lo, hi, begin, end)
    && forall lo', hi' :: Contains(lo', hi', begin, end) && Closed(files, lo', hi') ==> Contains(lo', hi', lo, hi)
  }

  /** The smallest closed range that contains [begin, end]. */
  ghost predicate LeastClosed(files: seq<File>, begin: Bound, end: Bound, lo: Bound, hi: Bound) {
    Closed(files, lo, hi) && Forced(files, begin, end, lo, hi)
  }

  /** The files of that range. */
  ghost predicate IsLeastClosedSet(files: seq<File>, begin: Bound, end: Bound, inputs: seq<File>) {
    exists lo, hi :: LeastClosed(files, begin, end, lo, hi) && inputs == Overlapping(files, lo, hi)
  }

  /** Widening the range to take in a file that overlaps it is forced. */
  lemma WideningIsForced(files: seq<File>, begin: Bound, end: Bound, lo: Bound, hi: Bound, f: File)
    requires Forced(files, begin, end, lo, hi) && f in files && Overlaps(f, lo, hi)
    ensures lo.Some? && f.Smallest().user < lo.value ==> Forced(files, begin, end, Some(f.Smallest().user), hi)
    ensures hi.Some? && f.Largest().user > hi.value ==> Forced(files, begin, end, lo, Some(f.Largest().user))
  {
    forall lo', hi' | Contains(lo', hi', begin, end) && Closed(files, lo', hi')
      ensures Inside(f, lo', hi') && Contains(lo', hi', lo, hi)
    {
      assert Overlaps(f, lo', hi');
    }
  }

  /** How many files start before x; each restart that lowers the begin of the range lowers it. */
  ghost function StartingBefore(files: seq<File>, x: UserKey): nat {
    if files == [] then 0
    else (if files[0].Smallest().user < x then 1 else 0) + StartingBefore(files[1..], x)
  }

  ghost function EndingAfter(files: seq<File>, x: UserKey): nat {
    if files == [] then 0
    else (if files[0].Largest().user > x then 1 else 0) + EndingAfter(files[1..], x)
  }

  lemma {:induction false} StartingBeforeIsMonotonic(files: seq<File>, x: UserKey, y: UserKey)
    requires x <= y
    ensures StartingBefore(files, x) <= StartingBefore(files, y)
  {
    if files != [] {
      StartingBeforeIsMonotonic(files[1..], x, y);
    }
  }

  lemma {:induction false} LowerBeginStartsFewer(files: seq<File>, i: nat, y: UserKey)
    requires i < |files| && files[i].Smallest().user < y
    ensures StartingBefore(files, files[i].Smallest().user) < StartingBefore(files, y)
  {
    if i == 0 {
      StartingBeforeIsMonotonic(files[1..], files[i].Smallest().user, y);
    } else {
      LowerBeginStartsFewer(files[1..], i - 1, y);
    }
  }

  lemma {:induction false} EndingAfterIsMonotonic(files: seq<File>, x: UserKey, y: UserKey)
    requires x <= y
    ensures EndingAfter(files, y) <= EndingAfter(files, x)
  {
    if files != [] {
      EndingAfterIsMonotonic(files[1..], x, y);
    }
  }

  lemma {:induction false} HigherEndLeavesFewer(files: seq<File>, i: nat, x: UserKey)
    requires i < |files| && files[i].Largest().user > x
    ensures EndingAfter(files, files[i].Largest().user) < EndingAfter(files, x)
  {
    if i == 0 {
      EndingAfterIsMonotonic(files[1..], x, files[i].Largest().user);
    } else {
      HigherEndLeavesFewer(files[1..], i - 1, x);
    }
  }

  ghost function Straddlers(files: seq<File>, lo: Bound, hi: Bound): nat {
    (if lo.Some? then StartingBefore(files, lo.value) else 0) + (if hi.Some? then EndingAfter(files, hi.value) else 0)
  }

  /** What a scan that has passed i files without restarting has collected. */
  ghost predicate Scanned(level: nat, files: seq<File>, i: nat, begin: Bound, end: Bound, lo: Bound, hi: Bound,
                          inputs: seq<File>)
  {
    && i <= |files|
    && inputs == Overlapping(files[..i], lo, hi)
    && lo.Some? == begin.Some? && hi.Some? == end.Some?
    && (level > 0 ==> lo == begin && hi == end)
    && (level == 0 ==> Closed(files[..i], lo, hi) && Forced(files, begin, end, lo, hi))
  }

  lemma ExtendScan(level: nat, files: seq<File>, i: nat, begin: Bound, end: Bound, lo: Bound, hi: Bound,
                   inputs: seq<File>)
    requires i < |files| && Scanned(level, files, i, begin, end, lo, hi, inputs)
    requires level == 0 && Overlaps(files[i], lo, hi) ==> Inside(files[i], lo, hi)
    ensures Scanned(level, files, i + 1, begin, end, lo, hi,
                    inputs + if Overlaps(files[i], lo, hi) then [files[i]] else [])
  {
    assert files[..i + 1] == files[..i] + [files[i]];
    OverlappingConcat(files[..i], [files[i]], lo, hi);
    assert Overlapping([files[i]], lo, hi) == if Overlaps(files[i], lo, hi) then [files[i]] else [];
  }

  /** Version::GetOverlappingInputs.  At level 0 the range grows, and the scan restarts, whenever a
      file sticks out of it; (lo, hi) is the range the scan ends with. */
  method GetOverlappingInputs(level: nat, files: seq<File>, begin: Bound, end: Bound)
    returns (inputs: seq<File>, ghost lo: Bound, ghost hi: Bound)
    ensures inputs == Overlapping(files, lo, hi)
    ensures level > 0 ==> lo == begin && hi == end && inputs == Overlapping(files, begin, end)
    ensures level == 0 ==> LeastClosed(files, begin, end, lo, hi) && IsLeastClosedSet(files, begin, end, inputs)
  {
    inputs := [];
    var userBegin, userEnd := begin, end;
    var i := 0;
    while i < |files|
      invariant Scanned(level, files, i, begin, end, userBegin, userEnd, inputs)
      decreases Straddlers(files, userBegin, userEnd), |files| - i
    {
      var f := files[i];
      if begin.Some? && f.Largest().user < userBegin.value {
        ExtendScan(level, files, i, begin, end, userBegin, userEnd, inputs);
        i := i + 1;
      } else if end.Some? && f.Smallest().user > userEnd.value {
        ExtendScan(level, files, i, begin, end, userBegin, userEnd, inputs);
        i := i + 1;
      } else if level == 0 && begin.Some? && f.Smallest().user < userBegin.value {
        WideningIsForced(files, begin, end, userBegin, userEnd, f);
        LowerBeginStartsFewer(files, i, userBegin.value);
        userBegin, inputs, i := Some(f.Smallest().user), [], 0;
      } else if level == 0 && end.Some? && f.Largest().user > userEnd.value {
        WideningIsForced(files, begin, end, userBegin, userEnd, f);
        HigherEndLeavesFewer(files, i, userEnd.value);
        userEnd, inputs, i := Some(f.Largest().user), [], 0;
      } else {
        ExtendScan(level, files, i, begin, end, userBegin, userEnd, inputs);
        inputs, i := inputs + [f], i + 1;
      }
    }
    assert files[..|files|] == files;
    lo, hi := userBegin, userEnd;
  }
}
