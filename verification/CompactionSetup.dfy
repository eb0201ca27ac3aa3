/**
 PickCompaction, CompactRange and SetupOtherInputs: the inputs of a compaction, and why moving
 them one level down keeps newer entries above older ones.
 */
module CompactionSetup {
  import opened Basics
  import opened InternalKeys
  import opened Tables
  import opened Versions
  import opened Overlap
  import opened CompactionInputs
  import opened JoinedInputs

  ghost predicate AllIn(part: seq<File>, files: seq<File>) {
    forall f :: f in part ==> f in files
  }

  /** g lies wholly to one side of the user keys of the inputs. */
  ghost predicate Beside(g: File, inputs: seq<File>) {
    || (forall d :: d in inputs ==> g.Largest().user < d.Smallest().user)
    || (forall d :: d in inputs ==> g.Smallest().user > d.Largest().user)
  }

  /** Files of the level that are not inputs hold only newer entries of the user keys they share. */
  ghost predicate LeavesNewer(files: seq<File>, in0: seq<File>) {
    forall g, d {:trigger NewerThan(Elements(g.entries), Elements(d.entries))} ::
      g in files && g !in in0 && d in in0 ==> NewerThan(Elements(g.entries), Elements(d.entries))
  }

  ghost predicate LeavesBeside(files: seq<File>, in0: seq<File>, in1: seq<File>) {
    forall g :: g in files && g !in in1 ==> Beside(g, in0)
  }

  ghost predicate AllTouch(in0: seq<File>, in1: seq<File>) {
    forall h :: h in in1 ==> !Beside(h, in0)
  }

  /** What the choice of inputs must guarantee. */
  ghost predicate Selected(v: Version, level: nat, in0: seq<File>, in1: seq<File>) {
    && |v| == NUM_LEVELS && level + 1 < NUM_LEVELS
    && in0 != [] && AllIn(in0, v[level]) && AllIn(in1, v[level + 1])
    && LeavesNewer(v[level], in0)
    && LeavesBeside(v[level + 1], in0, in1) && AllTouch(in0, in1)
  }

  ghost predicate LevelOk(level: nat, files: seq<File>) {
    if level == 0 then LevelZeroOrdered(files) else LevelSorted(files) && Distinct(LevelEntries(files))
  }

  lemma OrderedLevel(v: Version, level: nat)
    requires Ordered(v) && level < NUM_LEVELS
    ensures LevelOk(level, v[level])
  {
    assert LevelEntries(v[level]) <= VersionEntries(v);
  }

  ghost predicate ClosedSet(files: seq<File>, in0: seq<File>) {
    exists lo, hi :: Closed(files, lo, hi) && in0 == Overlapping(files, lo, hi)
  }

  ghost predicate Run(files: seq<File>, in0: seq<File>) {
    exists i: nat, j: nat :: IsSlice(files, i, j, in0)
  }

  /** Inputs a compaction may start from: at level 0 all files of a closed range, deeper a run of files. */
  ghost predicate Startable(level: nat, files: seq<File>, in0: seq<File>) {
    in0 != [] && if level == 0 then ClosedSet(files, in0) else Run(files, in0)
  }

  /** Inputs of the level in the order an iterator over them needs: level-0 files are read one by one,
      deeper files one after the other. */
  ghost predicate InputsInOrder(level: nat, in0: seq<File>) {
    if level == 0 then forall i, j :: 0 <= i < j < |in0| ==> in0[i].number != in0[j].number else LevelSorted(in0)
  }

  lemma {:induction false} OverlappingNumbersDiffer(files: seq<File>, lo: Bound, hi: Bound)
    requires InputsInOrder(0, files)
    ensures InputsInOrder(0, Overlapping(files, lo, hi))
  {
    if files != [] {
      var n := |files| - 1;
      OverlappingNumbersDiffer(files[..n], lo, hi);
      OverlappingMembers(files[..n], lo, hi);
      var init := Overlapping(files[..n], lo, hi);
      forall i | 0 <= i < |init| ensures init[i].number != files[n].number {
        assert init[i] in files[..n];
      }
    }
  }

  lemma SliceSorted(files: seq<File>, i: nat, j: nat)
    requires LevelSorted(files) && i <= j <= |files|
    ensures LevelSorted(files[i..j])
  {
    forall a, b | 0 <= a < b < j - i ensures Precedes(files[i..j][a], files[i..j][b]) {
      assert Precedes(files[i + a], files[i + b]);
    }
  }

  lemma ParentsSorted(files: seq<File>, inputs: seq<File>, in1: seq<File>)
    requires LevelSorted(files) && ParentsOf(files, inputs, in1)
    ensures LevelSorted(in1)
  {
    var smallest, largest :| IsRange(inputs, smallest, largest)
                             && in1 == Overlapping(files, Some(smallest.user), Some(largest.user));
    var i, j := OverlappingIsSlice(files, Some(smallest.user), Some(largest.user));
    SliceSorted(files, i, j);
  }

  // ----- Level 0 start

  lemma ClosedStart(files: seq<File>, in0: seq<File>)
    requires ClosedSet(files, in0)
    ensures NoBoundary(files, in0) && AllIn(in0, files) && LeavesNewer(files, in0)
  {
    var lo, hi :| Closed(files, lo, hi) && in0 == Overlapping(files, lo, hi);
    OverlappingMembers(files, lo, hi);
    forall f, d | f in files && d in in0 && f.Smallest().user == d.Largest().user ensures f in in0 {
      FileKeyOrder(f);
      FileKeyOrder(d);
      assert Inside(d, lo, hi);
    }
    forall g, d, e, f | g in files && g !in in0 && d in in0 && e in g.entries && f in d.entries
      ensures e.key.user != f.key.user
    {
      WithinFileRange(g, e);
      WithinFileRange(d, f);
      assert Inside(d, lo, hi);
    }
  }

  // ----- Deeper start

  /** A run that shares no user key with the files behind it leaves only newer entries. */
  lemma RunStart(files: seq<File>, i: nat, j: nat, e: nat)
    requires LevelSorted(files) && Distinct(LevelEntries(files)) && i < j <= e <= |files|
    requires SeparatedAt(files, e)
    ensures LeavesNewer(files, files[i..e]) && AllIn(files[i..e], files) && AllIn(files[i..j], files[i..e])
  {
    assert files[i..j] == files[i..e][..j - i];
    forall g, d | g in files && g !in files[i..e] && d in files[i..e]
      ensures NewerThan(Elements(g.entries), Elements(d.entries))
    {
      var a :| 0 <= a < |files| && files[a] == g;
      var b :| i <= b < e && files[b] == d;
      if a < i {
        EarlierFileIsNewer(files, a, b);
      } else {
        assert files[i..e] == files[i..][..e - i];
        LevelUserOrder(files, b, e - 1);
        FilesApart(g, d);
      }
    }
  }

  lemma FilesApart(g: File, d: File)
    requires g.Smallest().user > d.Largest().user
    ensures NewerThan(Elements(g.entries), Elements(d.entries))
  {
    forall e, f | e in g.entries && f in d.entries ensures e.key.user != f.key.user {
      WithinFileRange(g, e);
      WithinFileRange(d, f);
    }
  }

  lemma EarlierFileIsNewer(files: seq<File>, a: nat, b: nat)
    requires LevelSorted(files) && Distinct(LevelEntries(files)) && a < b < |files|
    ensures NewerThan(Elements(files[a].entries), Elements(files[b].entries))
  {
    var g, d := files[a], files[b];
    forall e, f | e in g.entries && f in d.entries && e.key.user == f.key.user ensures e.key.sequence > f.key.sequence {
      WithinFileRange(g, e);
      WithinFileRange(d, f);
      assert Precedes(g, d);
      assert e in LevelEntries(files) && f in LevelEntries(files);
      assert SameSlot(e, f) ==> e == f;
    }
  }

  /** A start with its boundary files added has all that SetupOtherInputs needs of the first inputs. */
  lemma StartWithBoundary(level: nat, files: seq<File>, start: seq<File>, in0: seq<File>)
    requires LevelOk(level, files) && Startable(level, files, start)
    requires NoBoundary(files, start) ==> in0 == start
    requires FullyGrownFrom(files, start, in0)
    ensures in0 != [] && AllIn(start, in0) && AllIn(in0, files) && LeavesNewer(files, in0) && InputsInOrder(level, in0)
  {
    if level == 0 {
      ClosedStart(files, start);
      var lo, hi :| Closed(files, lo, hi) && start == Overlapping(files, lo, hi);
      OverlappingNumbersDiffer(files, lo, hi);
    } else {
      var i: nat, j: nat :| IsSlice(files, i, j, start);
      var e := BoundaryEnd(files, j);
      assert IsSlice(files, i, e, in0);
      BoundaryEndSeparates(files, j);
      RunStart(files, i, j, e);
      SliceSorted(files, i, e);
    }
  }

  /** Boundary files leave no gap. */
  lemma StartJoined(level: nat, files: seq<File>, start: seq<File>, in0: seq<File>, in1: seq<File>)
    requires LevelOk(level, files) && Startable(level, files, start)
    requires NoBoundary(files, start) ==> in0 == start
    requires FullyGrownFrom(files, start, in0)
    requires Joined(start, in1)
    ensures Joined(in0, in1)
  {
    if level == 0 {
      ClosedStart(files, start);
    } else {
      var i: nat, j: nat :| IsSlice(files, i, j, start);
      BoundaryKeepsJoined(files, i, j, in1);
    }
  }

  /** The range of both input sets covers the first inputs, so scanning the level again finds them all. */
  lemma ExpandedStart(level: nat, files: seq<File>, in0: seq<File>, smallest: InternalKey, largest: InternalKey,
                      lo: Bound, hi: Bound)
    requires LevelOk(level, files) && in0 != [] && AllIn(in0, files)
    requires forall f :: f in in0 ==> !Less(f.Smallest(), smallest) && !Less(largest, f.Largest())
    requires if level == 0 then Contains(lo, hi, Some(smallest.user), Some(largest.user)) && Closed(files, lo, hi)
             else lo == Some(smallest.user) && hi == Some(largest.user)
    ensures Startable(level, files, Overlapping(files, lo, hi))
    ensures AllIn(in0, Overlapping(files, lo, hi))
  {
    OverlappingMembers(files, lo, hi);
    forall f | f in in0 ensures f in Overlapping(files, lo, hi) {
      FileKeyOrder(f);
    }
    assert in0[0] in Overlapping(files, lo, hi);
    if level > 0 {
      var i, j := OverlappingIsSlice(files, lo, hi);
      assert IsSlice(files, i, j, Overlapping(files, lo, hi));
    }
  }

  // ----- The next level

  lemma LeftInNextLevel(files: seq<File>, in0: seq<File>, smallest: InternalKey, largest: InternalKey)
    requires IsRange(in0, smallest, largest)
    ensures LeavesBeside(files, in0, Overlapping(files, Some(smallest.user), Some(largest.user)))
    ensures AllIn(Overlapping(files, Some(smallest.user), Some(largest.user)), files)
    ensures AllTouch(in0, Overlapping(files, Some(smallest.user), Some(largest.user)))
  {
    OverlappingMembers(files, Some(smallest.user), Some(largest.user));
    forall g | g in files && !Overlaps(g, Some(smallest.user), Some(largest.user)) ensures Beside(g, in0) {
      if AfterFile(Some(smallest.user), g) {
        assert forall d :: d in in0 ==> g.Largest().user < d.Smallest().user;
      } else {
        assert forall d :: d in in0 ==> g.Smallest().user > d.Largest().user;
      }
    }
  }

  /** Widening a range can only add files; if it adds none, the files are the same. */
  lemma {:induction false} WiderRangeOverlapsMore(files: seq<File>, lo: Bound, hi: Bound, lo': Bound, hi': Bound)
    requires Contains(lo', hi', lo, hi)
    ensures |Overlapping(files, lo, hi)| <= |Overlapping(files, lo', hi')|
    ensures |Overlapping(files, lo, hi)| == |Overlapping(files, lo', hi')| ==>
              Overlapping(files, lo, hi) == Overlapping(files, lo', hi')
  {
    if files != [] {
      WiderRangeOverlapsMore(files[..|files| - 1], lo, hi, lo', hi');
    }
  }

  lemma WiderInputsHaveWiderRange(in0: seq<File>, more: seq<File>, smallest: InternalKey, largest: InternalKey,
                                  smallest': InternalKey, largest': InternalKey)
    requires AllIn(in0, more) && IsRange(in0, smallest, largest) && IsRange(more, smallest', largest')
    ensures Contains(Some(smallest'.user), Some(largest'.user), Some(smallest.user), Some(largest.user))
  {
  }

  // ----- SetupOtherInputs

  /** What GetOverlappingInputs finds. */
  ghost predicate InRange(level: nat, files: seq<File>, begin: Bound, end: Bound, found: seq<File>) {
    if level == 0 then IsLeastClosedSet(files, begin, end, found) else found == Overlapping(files, begin, end)
  }

  /** The files with the boundary files of their last user key. */
  ghost predicate Completed(files: seq<File>, start: seq<File>, r: seq<File>) {
    FullyGrownFrom(files, start, r) && (NoBoundary(files, start) ==> r == start)
  }

  /** All files of the level in the range of both input sets, with their boundary files. */
  ghost predicate IsExpansion(level: nat, files: seq<File>, in0: seq<File>, in1: seq<File>, expanded: seq<File>) {
    exists smallest, largest, found :: IsRange(in0 + in1, smallest, largest)
      && InRange(level, files, Some(smallest.user), Some(largest.user), found) && Completed(files, found, expanded)
  }

  /** The expanded inputs are more, stay below the size limit with their parents, and have no other parents. */
  ghost predicate WorthGrowing(parents: seq<File>, in0: seq<File>, in1: seq<File>, expanded: seq<File>,
                               sizeLimit: nat)
  {
    && in1 != [] && |expanded| > |in0|
    && TotalFileSize(in1) + TotalFileSize(expanded) < sizeLimit
    && ParentsOf(parents, expanded, in1)
  }

  /** The inputs of the level have grown to grown: exactly when it is worth it. */
  ghost predicate GrownInputs(level: nat, files: seq<File>, parents: seq<File>, in0: seq<File>, in1: seq<File>,
                              sizeLimit: nat, grown: seq<File>)
  {
    if in1 == [] then
      grown == in0
    else
      exists expanded :: IsExpansion(level, files, in0, in1, expanded)
                         && grown == if WorthGrowing(parents, in0, in1, expanded, sizeLimit) then expanded else in0
  }

  /** What SetupOtherInputs makes of the files it starts with. */
  ghost predicate SetUp(v: Version, level: nat, start: seq<File>, sizeLimit: nat, in0: seq<File>, in1: seq<File>)
    requires |v| == NUM_LEVELS && level + 1 < NUM_LEVELS
  {
    exists base :: Completed(v[level], start, base) && ParentsOf(v[level + 1], base, in1)
      && GrownInputs(level, v[level], v[level + 1], base, in1, sizeLimit, in0)
  }

  /** The files two levels down in the range of all inputs. */
  ghost predicate GrandparentsOf(v: Version, level: nat, in0: seq<File>, in1: seq<File>, grandparents: seq<File>)
    requires |v| == NUM_LEVELS
  {
    if level + 2 < NUM_LEVELS then
      exists smallest, largest :: IsRange(in0 + in1, smallest, largest)
        && grandparents == Overlapping(v[level + 2], Some(smallest.user), Some(largest.user))
    else grandparents == []
  }

  /** in1 is exactly the files of the next level that overlap the user-key range of the inputs. */
  ghost predicate ParentsOf(files: seq<File>, inputs: seq<File>, in1: seq<File>) {
    exists smallest, largest :: IsRange(inputs, smallest, largest)
      && in1 == Overlapping(files, Some(smallest.user), Some(largest.user))
  }

  /** The parents of some inputs: the next-level files in their range. */
  method FindParents(level: nat, files: seq<File>, in0: seq<File>)
    returns (in1: seq<File>, smallest: InternalKey, largest: InternalKey)
    requires in0 != [] && level > 0
    ensures IsRange(in0, smallest, largest) && in1 == Overlapping(files, Some(smallest.user), Some(largest.user))
    ensures ParentsOf(files, in0, in1)
  {
    smallest, largest := GetRange(in0);
    ghost var l, h;
    in1, l, h := GetOverlappingInputs(level, files, Some(smallest.user), Some(largest.user));
  }

  ghost predicate RangeCovered(in0: seq<File>, in1: seq<File>, start: UserKey, limit: UserKey) {
    start <= limit && forall u :: start <= u <= limit ==> Covered(in0, in1, u)
  }

  lemma BothRangeCovered(parents: seq<File>, in0: seq<File>, in1: seq<File>, smallest: InternalKey,
                         largest: InternalKey, start: InternalKey, limit: InternalKey)
    requires Joined(in0, []) && IsRange(in0, smallest, largest)
    requires in1 == Overlapping(parents, Some(smallest.user), Some(largest.user))
    requires IsRange(in0 + in1, start, limit)
    ensures RangeCovered(in0, in1, start.user, limit.user)
  {
    var a :| a in in0 + in1 && a.Smallest() == start;
    var b :| b in in0 + in1 && b.Largest() == limit;
    FileKeyOrder(a);
    forall u | start.user <= u <= limit.user ensures Covered(in0, in1, u) {
      assert Spanned(in0 + in1, u);
      BothCovered(parents, in0, in1, smallest, largest, u);
    }
  }

  method ExpandInputs(level: nat, files: seq<File>, in0: seq<File>, ghost in1: seq<File>, allStart: InternalKey,
                      allLimit: InternalKey)
    returns (expanded0: seq<File>)
    requires LevelOk(level, files) && in0 != [] && AllIn(in0, files)
    requires forall f :: f in in0 ==> !Less(f.Smallest(), allStart) && !Less(allLimit, f.Largest())
    ensures expanded0 != [] && AllIn(in0, expanded0) && AllIn(expanded0, files)
    ensures LeavesNewer(files, expanded0) && InputsInOrder(level, expanded0)
    ensures IsRange(in0 + in1, allStart, allLimit) ==> IsExpansion(level, files, in0, in1, expanded0)
    ensures RangeCovered(in0, in1, allStart.user, allLimit.user) ==> Joined(expanded0, in1)
  {
    var overlapping, lo, hi := GetOverlappingInputs(level, files, Some(allStart.user), Some(allLimit.user));
    ExpandedStart(level, files, in0, allStart, allLimit, lo, hi);
    expanded0 := AddBoundaryInputs(files, overlapping);
    StartWithBoundary(level, files, overlapping, expanded0);
    assert InRange(level, files, Some(allStart.user), Some(allLimit.user), overlapping);
    assert Completed(files, overlapping, expanded0);
    if RangeCovered(in0, in1, allStart.user, allLimit.user) {
      ExpansionJoined(level, files, in0, in1, allStart.user, allLimit.user, lo, hi);
      StartJoined(level, files, overlapping, expanded0, in1);
    }
  }

  /** The first inputs as SetupOtherInputs maintains them, with their range and their parents. */
  ghost predicate InputsOk(level: nat, files: seq<File>, parents: seq<File>, in0: seq<File>, in1: seq<File>,
                           smallest: InternalKey, largest: InternalKey)
  {
    && in0 != [] && AllIn(in0, files) && LeavesNewer(files, in0) && InputsInOrder(level, in0)
    && IsRange(in0, smallest, largest)
    && in1 == Overlapping(parents, Some(smallest.user), Some(largest.user))
  }

  lemma RangeIsUnique(inputs: seq<File>, smallest: InternalKey, largest: InternalKey, smallest': InternalKey,
                      largest': InternalKey)
    requires IsRange(inputs, smallest, largest) && IsRange(inputs, smallest', largest')
    ensures smallest.user == smallest'.user && largest.user == largest'.user
  {
  }

  lemma ParentsAreUnique(parents: seq<File>, inputs: seq<File>, in1: seq<File>, in1': seq<File>)
    requires ParentsOf(parents, inputs, in1) && ParentsOf(parents, inputs, in1')
    ensures in1 == in1'
  {
    var s, l :| IsRange(inputs, s, l) && in1 == Overlapping(parents, Some(s.user), Some(l.user));
    var s', l' :| IsRange(inputs, s', l') && in1' == Overlapping(parents, Some(s'.user), Some(l'.user));
    RangeIsUnique(inputs, s, l, s', l');
  }

  /** Take the expanded inputs if they are worth it: wider inputs have the same parents if they have as many. */
  method TakeIfWorth(level: nat, ghost files: seq<File>, parents: seq<File>, in0: seq<File>, in1: seq<File>,
                     smallest: InternalKey, largest: InternalKey, expanded0: seq<File>, sizeLimit: nat)
    returns (grown: seq<File>, smallest': InternalKey, largest': InternalKey)
    requires InputsOk(level, files, parents, in0, in1, smallest, largest) && in1 != []
    requires expanded0 != [] && AllIn(in0, expanded0) && AllIn(expanded0, files)
    requires LeavesNewer(files, expanded0) && InputsInOrder(level, expanded0)
    ensures InputsOk(level, files, parents, grown, in1, smallest', largest')
    ensures grown == if WorthGrowing(parents, in0, in1, expanded0, sizeLimit) then expanded0 else in0
  {
    hide LeavesNewer, InputsInOrder, IsRange;
    grown, smallest', largest' := in0, smallest, largest;
    if |expanded0| > |in0| && TotalFileSize(in1) + TotalFileSize(expanded0) < sizeLimit {
      var expanded1, newStart, newLimit := FindParents(level + 1, parents, expanded0);
      if |expanded1| == |in1| {
        WiderInputsHaveWiderRange(in0, expanded0, smallest, largest, newStart, newLimit);
        WiderRangeOverlapsMore(parents, Some(smallest.user), Some(largest.user), Some(newStart.user),
                               Some(newLimit.user));
        grown, smallest', largest' := expanded0, newStart, newLimit;
      } else if ParentsOf(parents, expanded0, in1) {
        ParentsAreUnique(parents, expanded0, in1, expanded1);
        assert false;
      }
    }
  }

  /** See if the inputs in the level can grow without changing their parents. */
  method GrowInputs(level: nat, files: seq<File>, parents: seq<File>, in0: seq<File>, in1: seq<File>,
                    smallest: InternalKey, largest: InternalKey, sizeLimit: nat)
    returns (grown: seq<File>, smallest': InternalKey, largest': InternalKey)
    requires LevelOk(level, files) && InputsOk(level, files, parents, in0, in1, smallest, largest)
    ensures InputsOk(level, files, parents, grown, in1, smallest', largest') && AllIn(in0, grown)
    ensures GrownInputs(level, files, parents, in0, in1, sizeLimit, grown)
    ensures Joined(in0, []) ==> Joined(grown, in1)
  {
    hide LevelOk, LeavesNewer, InputsInOrder, IsExpansion, WorthGrowing, Joined;
    if Joined(in0, []) {
      JoinedWithMore(in0, in1);
    }
    if in1 == [] {
      return in0, smallest, largest;
    }
    var allStart, allLimit := GetRange(in0 + in1);
    assert forall f :: f in in0 ==> f in in0 + in1;
    if Joined(in0, []) {
      BothRangeCovered(parents, in0, in1, smallest, largest, allStart, allLimit);
    }
    var expanded0 := ExpandInputs(level, files, in0, in1, allStart, allLimit);
    hide RangeCovered, IsRange, InputsOk;
    grown, smallest', largest' :=
      TakeIfWorth(level, files, parents, in0, in1, smallest, largest, expanded0, sizeLimit);
  }

  method FindGrandparents(v: Version, level: nat, in0: seq<File>, in1: seq<File>) returns (grandparents: seq<File>)
    requires |v| == NUM_LEVELS && in0 != []
    ensures GrandparentsOf(v, level, in0, in1, grandparents)
  {
    var allStart, allLimit := GetRange(in0 + in1);
    grandparents := [];
    if level + 2 < NUM_LEVELS {
      ghost var l, h;
      grandparents, l, h := GetOverlappingInputs(level + 2, v[level + 2], Some(allStart.user), Some(allLimit.user));
    }
  }

  /** The boundary files of the start, and the parents of the result. */
  method CompleteStart(v: Version, level: nat, start: seq<File>)
    returns (in0: seq<File>, in1: seq<File>, smallest: InternalKey, largest: InternalKey)
    requires Ordered(v) && level + 1 < NUM_LEVELS && Startable(level, v[level], start)
    ensures InputsOk(level, v[level], v[level + 1], in0, in1, smallest, largest)
    ensures LevelOk(level, v[level]) && AllIn(start, in0)
    ensures Completed(v[level], start, in0) && ParentsOf(v[level + 1], in0, in1)
    ensures Joined(start, []) ==> Joined(in0, [])
  {
    OrderedLevel(v, level);
    assert |v| == NUM_LEVELS;
    hide Ordered, FullyGrownFrom, NoBoundary, LevelOk, Startable, LeavesNewer, InputsInOrder, IsRange, ParentsOf,
      Joined;
    in0 := AddBoundaryInputs(v[level], start);
    StartWithBoundary(level, v[level], start, in0);
    if Joined(start, []) {
      StartJoined(level, v[level], start, in0, []);
    }
    in1, smallest, largest := FindParents(level + 1, v[level + 1], in0);
  }

  /** Inputs with all of InputsOk are what a compaction needs. */
  lemma InputsAreSelected(v: Version, level: nat, in0: seq<File>, in1: seq<File>, smallest: InternalKey,
                          largest: InternalKey)
    requires |v| == NUM_LEVELS && level + 1 < NUM_LEVELS
    requires InputsOk(level, v[level], v[level + 1], in0, in1, smallest, largest)
    ensures Selected(v, level, in0, in1) && InputsInOrder(level, in0) && ParentsOf(v[level + 1], in0, in1)
    ensures in0 != [] && IsRange(in0, smallest, largest)
  {
    LeftInNextLevel(v[level + 1], in0, smallest, largest);
  }

  /** VersionSet::SetupOtherInputs; sizeLimit is ExpandedCompactionByteSizeLimit.  base is the set of
      first inputs before the attempt to grow it: growing it leaves the parents as they were. */
  method SetupOtherInputs(v: Version, level: nat, start: seq<File>, sizeLimit: nat)
    returns (in0: seq<File>, in1: seq<File>, grandparents: seq<File>, compactPointer: InternalKey,
             ghost base: seq<File>)
    requires Ordered(v) && level + 1 < NUM_LEVELS && Startable(level, v[level], start)
    ensures Selected(v, level, in0, in1) && InputsInOrder(level, in0)
    ensures AllIn(start, base) && AllIn(base, in0)
    ensures ParentsOf(v[level + 1], base, in1) && ParentsOf(v[level + 1], in0, in1)
    ensures exists smallest :: IsRange(in0, smallest, compactPointer)
    ensures SetUp(v, level, start, sizeLimit, in0, in1) && GrandparentsOf(v, level, in0, in1, grandparents)
    ensures Joined(start, []) ==> Joined(in0, in1)
  {
    assert |v| == NUM_LEVELS;
    hide Ordered, Completed, GrownInputs, InputsOk, Selected, ParentsOf, InputsInOrder, LevelOk, Startable, Joined,
      GrandparentsOf;
    var smallest, largest;
    in0, in1, smallest, largest := CompleteStart(v, level, start);
    base := in0;
    in0, smallest, largest := GrowInputs(level, v[level], v[level + 1], in0, in1, smallest, largest, sizeLimit);
    InputsAreSelected(v, level, in0, in1, smallest, largest);
    compactPointer := largest;
    grandparents := FindGrandparents(v, level, in0, in1);
  }

  // ----- Choosing where to start

  /** Files of the level from the first one that ends after the compaction pointer, wrapping around. */
  method PickFile(files: seq<File>, pointer: Option<InternalKey>) returns (i: nat)
    requires files != []
    ensures i < |files|
    ensures i > 0 ==> pointer.Some? && Less(pointer.value, files[i].Largest())
    ensures pointer.Some? ==> forall k :: 0 <= k < i ==> !Less(pointer.value, files[k].Largest())
    ensures pointer.Some? && !Less(pointer.value, files[i].Largest()) ==>
              forall k :: 0 <= k < |files| ==> !Less(pointer.value, files[k].Largest())
  {
    for k := 0 to |files|
      invariant k > 0 ==> pointer.Some?
      invariant pointer.Some? ==> forall m :: 0 <= m < k ==> !Less(pointer.value, files[m].Largest())
    {
      if pointer.None? || Less(pointer.value, files[k].Largest()) {
        return k;
      }
    }
    return 0;
  }

  lemma OneFileRange(f: File, smallest: InternalKey, largest: InternalKey)
    requires IsRange([f], smallest, largest)
    ensures smallest == f.Smallest() && largest == f.Largest()
  {
    assert forall g :: g in [f] <==> g == f;
  }

  /** What a compaction picked for one file starts with: at level 0 also all files that have to go with it. */
  ghost predicate PickStart(v: Version, level: nat, picked: nat, start: seq<File>)
    requires |v| == NUM_LEVELS && level < NUM_LEVELS && picked < |v[level]|
  {
    var f := v[level][picked];
    if level == 0 then InRange(0, v[0], Some(f.Smallest().user), Some(f.Largest().user), start) else start == [f]
  }

  ghost predicate PickedFrom(v: Version, level: nat, picked: nat, sizeLimit: nat, in0: seq<File>, in1: seq<File>)
    requires |v| == NUM_LEVELS && level + 1 < NUM_LEVELS && picked < |v[level]|
  {
    exists start :: PickStart(v, level, picked, start) && SetUp(v, level, start, sizeLimit, in0, in1)
  }

  /** The file picked, with all files that have to go with it at level 0. */
  method StartFrom(v: Version, level: nat, picked: nat) returns (start: seq<File>)
    requires Ordered(v) && level + 1 < NUM_LEVELS && picked < |v[level]|
    ensures Startable(level, v[level], start) && PickStart(v, level, picked, start)
    ensures v[level][picked] in start && Joined(start, [])
  {
    var f := v[level][picked];
    start := [f];
    OneFileJoined(f);
    assert IsSlice(v[level], picked, picked + 1, start);
    if level == 0 {
      var smallest, largest := GetRange(start);
      assert f in start;
      ghost var lo, hi;
      start, lo, hi := GetOverlappingInputs(0, v[0], Some(smallest.user), Some(largest.user));
      OverlappingMembers(v[0], lo, hi);
      FileKeyOrder(f);
      assert f in start;
      OneFileRange(f, smallest, largest);
      ClosureJoined(v[0], f, lo, hi);
    }
  }

  /** VersionSet::PickCompaction from one file of the level: the size trigger passes PickFile's choice,
      the seek trigger the file that was read too often. */
  method PickCompaction(v: Version, level: nat, picked: nat, sizeLimit: nat)
    returns (in0: seq<File>, in1: seq<File>, grandparents: seq<File>)
    requires Ordered(v) && level + 1 < NUM_LEVELS && picked < |v[level]|
    ensures Selected(v, level, in0, in1) && ParentsOf(v[level + 1], in0, in1) && InputsInOrder(level, in0)
    ensures v[level][picked] in in0 && Joined(in0, in1)
    ensures PickedFrom(v, level, picked, sizeLimit, in0, in1) && GrandparentsOf(v, level, in0, in1, grandparents)
  {
    hide Ordered, Startable, Joined, PickStart, SetUp, Selected, ParentsOf, InputsInOrder, GrandparentsOf;
    var start := StartFrom(v, level, picked);
    var compactPointer;
    ghost var base;
    in0, in1, grandparents, compactPointer, base := SetupOtherInputs(v, level, start, sizeLimit);
  }

  ghost predicate UpToSize(files: seq<File>, limit: nat, n: nat) {
    && 0 < n <= |files| && (n < |files| ==> TotalFileSize(files[..n]) >= limit)
    && forall k :: 0 < k < n ==> TotalFileSize(files[..k]) < limit
  }

  /** How many of the files one output file's worth of data takes. */
  method FilesUpToSize(files: seq<File>, limit: nat) returns (n: nat)
    requires files != []
    ensures UpToSize(files, limit, n)
  {
    var total := 0;
    assert files[..0] == [];
    for k := 0 to |files|
      invariant total == TotalFileSize(files[..k])
      invariant forall m :: 0 < m <= k ==> TotalFileSize(files[..m]) < limit
    {
      TotalFileSizeSnoc(files[..k], files[k]);
      assert files[..k + 1] == files[..k] + [files[k]];
      total := total + files[k].size;
      if total >= limit {
        return k + 1;
      }
    }
    return |files|;
  }

  lemma SliceOfSlice(files: seq<File>, i: nat, j: nat, n: nat)
    requires i <= j <= |files| && 0 < n <= j - i
    ensures IsSlice(files, i, i + n, files[i..j][..n])
  {
  }

  /** The inputs hold the first of the files, up to a total size. */
  ghost predicate TakesUpToSize(files: seq<File>, limit: nat, in0: seq<File>) {
    exists n: nat :: UpToSize(files, limit, n) && AllIn(files[..n], in0)
  }

  /** If nothing overlaps an input, nothing lies between them either. */
  lemma NoGapBesideJoined(f: File, in0: seq<File>, in1: seq<File>)
    requires Joined(in0, in1)
    requires forall d :: d in in0 || d in in1 ==> !Overlaps(d, Some(f.Smallest().user), Some(f.Largest().user))
    ensures Beside(f, in0)
  {
    if !Beside(f, in0) {
      var a :| a in in0 && !(f.Largest().user < a.Smallest().user);
      var b :| b in in0 && !(f.Smallest().user > b.Largest().user);
      FileKeyOrder(f);
      assert Spanned(in0, f.Smallest().user);
      var d :| (d in in0 || d in in1) && Covers(d, f.Smallest().user);
    }
  }

  /** What a manual compaction starts with: at level 0 all files of the least range that is closed under overlap,
      deeper the overlapping files up to a total size. */
  ghost predicate ManualStart(v: Version, level: nat, begin: Bound, end: Bound, fileSizeLimit: nat, start: seq<File>)
    requires |v| == NUM_LEVELS && level < NUM_LEVELS
  {
    if level == 0 then IsLeastClosedSet(v[0], begin, end, start)
    else
      var overlapping := Overlapping(v[level], begin, end);
      |start| <= |overlapping| && start == overlapping[..|start|] && UpToSize(overlapping, fileSizeLimit, |start|)
  }

  ghost predicate NoneOverlaps(files: seq<File>, begin: Bound, end: Bound) {
    forall f :: f in files ==> !Overlaps(f, begin, end)
  }

  /** The least closed range has no file exactly if nothing overlaps the range asked for. */
  lemma NothingInRange(level: nat, files: seq<File>, begin: Bound, end: Bound, lo: Bound, hi: Bound)
    requires level > 0 ==> lo == begin && hi == end
    requires level == 0 ==> LeastClosed(files, begin, end, lo, hi)
    ensures Overlapping(files, lo, hi) == [] <==> NoneOverlaps(files, begin, end)
  {
    OverlappingMembers(files, lo, hi);
    if NoneOverlaps(files, begin, end) {
      assert level == 0 ==> Closed(files, begin, end) && Contains(begin, end, begin, end);
      assert level == 0 ==> Contains(begin, end, lo, hi);
      assert lo == begin && hi == end;
      OverlappingNone(files, lo, hi);
    } else {
      var f :| f in files && Overlaps(f, begin, end);
      assert Overlaps(f, lo, hi);
    }
  }

  /** The files a manual compaction starts from; above level 0, only about one output file's worth. */
  method ManualInputs(v: Version, level: nat, begin: Bound, end: Bound, fileSizeLimit: nat) returns (inputs: seq<File>)
    requires Ordered(v) && level + 1 < NUM_LEVELS
    ensures inputs == [] <==> NoneOverlaps(v[level], begin, end)
    ensures inputs != [] ==> Startable(level, v[level], inputs)
    ensures inputs != [] ==> ManualStart(v, level, begin, end, fileSizeLimit, inputs)
  {
    OrderedLevel(v, level);
    hide Ordered, UpToSize, LeastClosed;
    ghost var lo, hi;
    inputs, lo, hi := GetOverlappingInputs(level, v[level], begin, end);
    NothingInRange(level, v[level], begin, end, lo, hi);
    if inputs == [] {
      return;
    }
    if level > 0 {
      ghost var i, j := OverlappingIsSlice(v[level], lo, hi);
      var n := FilesUpToSize(inputs, fileSizeLimit);
      UpToSizeBound(inputs, fileSizeLimit, n);
      SliceOfSlice(v[level], i, j, n);
      inputs := inputs[..n];
    } else {
      LeastClosedIsClosed(v[0], begin, end, lo, hi);
    }
  }

  lemma LeastClosedIsClosed(files: seq<File>, begin: Bound, end: Bound, lo: Bound, hi: Bound)
    requires LeastClosed(files, begin, end, lo, hi)
    ensures ClosedSet(files, Overlapping(files, lo, hi))
  {
  }

  lemma UpToSizeBound(files: seq<File>, limit: nat, n: nat)
    requires UpToSize(files, limit, n)
    ensures 0 < n <= |files|
  {
  }

  ghost predicate ManualFrom(v: Version, level: nat, begin: Bound, end: Bound, fileSizeLimit: nat, sizeLimit: nat,
                             in0: seq<File>, in1: seq<File>)
    requires |v| == NUM_LEVELS && level + 1 < NUM_LEVELS
  {
    exists start :: ManualStart(v, level, begin, end, fileSizeLimit, start)
      && SetUp(v, level, start, sizeLimit, in0, in1) && AllIn(start, in0)
  }

  lemma ManualTakesUpToSize(v: Version, level: nat, begin: Bound, end: Bound, fileSizeLimit: nat, sizeLimit: nat,
                            in0: seq<File>, in1: seq<File>)
    requires |v| == NUM_LEVELS && 0 < level && level + 1 < NUM_LEVELS
    requires ManualFrom(v, level, begin, end, fileSizeLimit, sizeLimit, in0, in1)
    ensures TakesUpToSize(Overlapping(v[level], begin, end), fileSizeLimit, in0)
  {
  }

  /** VersionSet::CompactRange: a manual compaction of [begin, end], deeper than level 0 cut to about one output
      file. */
  method CompactRange(v: Version, level: nat, begin: Bound, end: Bound, fileSizeLimit: nat, sizeLimit: nat)
    returns (nothing: bool, in0: seq<File>, in1: seq<File>, grandparents: seq<File>)
    requires Ordered(v) && level + 1 < NUM_LEVELS
    ensures nothing <==> NoneOverlaps(v[level], begin, end)
    ensures !nothing ==> Selected(v, level, in0, in1) && ParentsOf(v[level + 1], in0, in1) && InputsInOrder(level, in0)
    ensures !nothing ==> ManualFrom(v, level, begin, end, fileSizeLimit, sizeLimit, in0, in1)
    ensures !nothing ==> GrandparentsOf(v, level, in0, in1, grandparents)
  {
    assert |v| == NUM_LEVELS;
    var inputs := ManualInputs(v, level, begin, end, fileSizeLimit);
    nothing := inputs == [];
    in0, in1, grandparents := [], [], [];
    if nothing {
      return;
    }
    hide Ordered, Overlapping, Selected, InputsInOrder, ParentsOf, UpToSize, Startable, SetUp, ManualStart,
      GrandparentsOf;
    var compactPointer;
    ghost var base;
    in0, in1, grandparents, compactPointer, base := SetupOtherInputs(v, level, inputs, sizeLimit);
  }
}
