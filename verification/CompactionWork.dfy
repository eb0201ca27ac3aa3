/**
 DoCompactionWork: which entries of the merged inputs are kept, and when that leaves every
 reader's view as it was.
 */
module CompactionWork {
  import opened Basics
  import opened InternalKeys
  import opened Tables
  import opened Versions
  import opened Overlap
  import opened OutputCuts

  /** No level below the output level has a file whose user-key range covers u. */
  ghost predicate BaseLevel(v: Version, level: nat, u: UserKey)
    requires |v| == NUM_LEVELS
  {
    forall l, f :: level + 2 <= l < NUM_LEVELS && f in v[l] ==> !Covers(f, u)
  }

  /** The inputs of a compaction, with a cursor into each deeper level, and one into the grandparents. */
  class Compaction {
    const level: nat
    const inputVersion: Version
    const limits: Limits
    const levelPtrs: array<nat>
    var grandparentIndex: nat
    var seenKey: bool
    var overlappedBytes: nat

    /** The largest user key asked about so far; keys arrive in ascending order. */
    ghost var asked: Option<UserKey>

    /** The last key of the input so far, and the one since when the grandparents passed are counted. */
    ghost var lastKey: Option<InternalKey>
    ghost var since: Option<InternalKey>

    ghost predicate Valid()
      reads this, levelPtrs
    {
      && Ordered(inputVersion)
      && levelPtrs.Length == NUM_LEVELS
      && forall l :: level + 2 <= l < NUM_LEVELS ==> Passed(inputVersion[l], levelPtrs[l], asked)
    }

    static ghost predicate Passed(files: seq<File>, n: nat, asked: Option<UserKey>) {
      && n <= |files|
      && (n > 0 ==> asked.Some?)
      && forall k :: 0 <= k < n ==> files[k].Largest().user < asked.value
    }

    /** The grandparents that end before the last key are passed; those since the other key are counted. */
    ghost predicate Counted()
      reads this`grandparentIndex, this`seenKey, this`overlappedBytes, this`lastKey, this`since
    {
      && seenKey == lastKey.Some? == since.Some? && grandparentIndex <= |limits.grandparents|
      && (!seenKey ==> grandparentIndex == 0 && overlappedBytes == 0)
      && (seenKey ==> Ended(limits.grandparents, grandparentIndex, lastKey.value)
                      && overlappedBytes == BytesBetween(limits, since.value, lastKey.value))
    }

    constructor (v: Version, level: nat, limits: Limits)
      requires Ordered(v) && level + 1 < NUM_LEVELS
      ensures Valid() && fresh(levelPtrs) && asked == None && inputVersion == v && this.level == level
      ensures Counted() && lastKey == None && this.limits == limits
    {
      this.level, inputVersion, asked, this.limits := level, v, None, limits;
      grandparentIndex, seenKey, overlappedBytes, lastKey, since := 0, false, 0, None, None;
      levelPtrs := new nat[NUM_LEVELS](_ => 0);
    }

    /** Does too much of the grandparents end before this key?  Then counting starts again. */
    method ShouldStopBefore(key: InternalKey) returns (stop: bool)
      requires Valid() && Counted() && (lastKey.Some? ==> Less(lastKey.value, key))
      modifies this`grandparentIndex, this`seenKey, this`overlappedBytes, this`lastKey, this`since
      ensures Valid() && Counted() && lastKey == Some(key)
      ensures stop <==>
        old(since).Some? && BytesBetween(limits, old(since).value, key) > limits.maxGrandParentOverlapBytes
      ensures since == if stop || old(since).None? then Some(key) else old(since)
    {
      var g := limits.grandparents;
      ghost var before := grandparentIndex;
      hide EndedBytes, TotalFileSize;
      while grandparentIndex < |g| && Less(g[grandparentIndex].Largest(), key)
        invariant before <= grandparentIndex <= |g| && AllEnd(g, grandparentIndex, key)
        invariant seenKey == old(seenKey) && lastKey == old(lastKey) && since == old(since)
        invariant overlappedBytes == old(overlappedBytes)
                    + if seenKey then TotalFileSize(g[..grandparentIndex]) - TotalFileSize(g[..before]) else 0
      {
        TotalFileSizeSnoc(g[..grandparentIndex], g[grandparentIndex]);
        assert g[..grandparentIndex + 1] == g[..grandparentIndex] + [g[grandparentIndex]];
        if seenKey {
          overlappedBytes := overlappedBytes + g[grandparentIndex].size;
        }
        grandparentIndex := grandparentIndex + 1;
      }
      EndedUpTo(g, grandparentIndex, key);
      seenKey, lastKey := true, Some(key);
      stop := overlappedBytes > limits.maxGrandParentOverlapBytes;
      if stop {
        overlappedBytes := 0;
      }
      if stop || since == None {
        since := Some(key);
      }
    }

    /** The advancing cursors give the same answer as a scan of all deeper files, because user keys
        are asked about in ascending order. */
    method IsBaseLevelForKey(u: UserKey) returns (b: bool)
      requires Valid() && (asked.Some? ==> asked.value <= u)
      modifies this`asked, levelPtrs
      ensures Valid() && asked == Some(u)
      ensures b <==> BaseLevel(inputVersion, level, u)
    {
      asked := Some(u);
      b := true;
      var lvl := level + 2;
      while lvl < NUM_LEVELS
        invariant level + 2 <= lvl && asked == Some(u) && Valid()
        invariant forall l, f :: level + 2 <= l < lvl && l < NUM_LEVELS && f in inputVersion[l] ==> !Covers(f, u)
      {
        var covered := AdvanceTo(lvl, u);
        if covered {
          return false;
        }
        lvl := lvl + 1;
      }
    }

    /** Skip the files of one level that end before u; is u in the range of the next one? */
    method AdvanceTo(lvl: nat, u: UserKey) returns (covered: bool)
      requires Valid() && asked == Some(u) && level + 2 <= lvl < NUM_LEVELS
      modifies levelPtrs
      ensures Valid()
      ensures covered <==> exists f :: f in inputVersion[lvl] && Covers(f, u)
    {
      var files := inputVersion[lvl];
      while levelPtrs[lvl] < |files|
        invariant Valid()
        decreases |files| - levelPtrs[lvl]
      {
        var f := files[levelPtrs[lvl]];
        if u <= f.Largest().user {
          NextFileDecides(files, levelPtrs[lvl], u);
          return f.Smallest().user <= u;
        }
        levelPtrs[lvl] := levelPtrs[lvl] + 1;
      }
      return false;
    }
  }

  /** Once the files before n end before u and file n does not, only file n can cover u. */
  lemma NextFileDecides(files: seq<File>, n: nat, u: UserKey)
    requires LevelSorted(files) && n < |files| && u <= files[n].Largest().user
    requires forall k :: 0 <= k < n ==> files[k].Largest().user < u
    ensures (exists f :: f in files && Covers(f, u)) <==> files[n].Smallest().user <= u
  {
    assert files[n].Smallest().user <= u ==> files[n] in files && Covers(files[n], u);
    forall k | n < k < |files| && Covers(files[k], u) ensures files[n].Smallest().user <= u {
      assert Precedes(files[n], files[k]);
      FileKeyOrder(files[n]);
    }
  }

  // ----- The drop rules

  /** Rule (A): the entry before, of the same user key, is already old enough for every snapshot. */
  predicate Hidden(merged: seq<Entry>, i: nat, ss: nat)
    requires i < |merged|
  {
    i > 0 && merged[i - 1].key.user == merged[i].key.user && merged[i - 1].key.sequence <= ss
  }

  /** A deletion marker no snapshot can tell from the absence of older data. */
  ghost predicate Obsolete(v: Version, level: nat, k: InternalKey, ss: nat)
    requires |v| == NUM_LEVELS
  {
    k.kind.Deletion? && k.sequence <= ss && BaseLevel(v, level, k.user)
  }

  ghost function Kept(v: Version, level: nat, merged: seq<Entry>, ss: nat): seq<Entry>
    requires |v| == NUM_LEVELS
  {
    if merged == [] then []
    else
      var n := |merged| - 1;
      Kept(v, level, merged[..n], ss)
      + if Hidden(merged, n, ss) || Obsolete(v, level, merged[n].key, ss) then [] else [merged[n]]
  }

  function Flatten(outputs: seq<seq<Entry>>): seq<Entry> {
    if outputs == [] then [] else Flatten(outputs[..|outputs| - 1]) + outputs[|outputs| - 1]
  }

  lemma FlattenSnoc(outputs: seq<seq<Entry>>, o: seq<Entry>)
    ensures Flatten(outputs + [o]) == Flatten(outputs) + o
  {
    assert (outputs + [o])[..|outputs|] == outputs;
  }

  lemma KeptSnoc(v: Version, level: nat, merged: seq<Entry>, i: nat, ss: nat)
    requires |v| == NUM_LEVELS && i < |merged|
    ensures Kept(v, level, merged[..i + 1], ss) == Kept(v, level, merged[..i], ss)
              + if Hidden(merged, i, ss) || Obsolete(v, level, merged[i].key, ss) then [] else [merged[i]]
  {
    assert merged[..i + 1][..i] == merged[..i];
  }

  lemma NothingKept(v: Version, level: nat, ss: nat)
    requires |v| == NUM_LEVELS
    ensures Kept(v, level, [], ss) == [] && Flatten([]) == []
  {
  }

  lemma NextKept(c: Compaction, merged: seq<Entry>, i: nat, ss: nat)
    requires |c.inputVersion| == NUM_LEVELS && Sorted(merged) && i < |merged|
    ensures Kept(c.inputVersion, c.level, merged[..i + 1], ss) == Kept(c.inputVersion, c.level, merged[..i], ss)
              + if Hidden(merged, i, ss) || Obsolete(c.inputVersion, c.level, merged[i].key, ss) then []
                else [merged[i]]
    ensures i > 0 ==> merged[i - 1].key.user <= merged[i].key.user
  {
    KeptSnoc(c.inputVersion, c.level, merged, i, ss);
    assert i > 0 ==> Less(merged[i - 1].key, merged[i].key);
  }

  /** The loop of DoCompactionWork: however the output files are cut, they hold exactly the kept entries, in order. */
  method DoCompactionWork(c: Compaction, merged: seq<Entry>, ss: SequenceNumber) returns (outputs: seq<seq<Entry>>)
    requires c.Valid() && c.asked == None && c.Counted() && c.lastKey == None && Sorted(merged)
    requires ss < MAX_SEQUENCE
    modifies c, c.levelPtrs
    ensures Flatten(outputs) == Kept(c.inputVersion, c.level, merged, ss)
    ensures Distinct(Elements(merged)) ==> NothingTooOld(c.inputVersion, c.level, merged, Flatten(outputs), ss)
    ensures WellCut(c.limits, merged, outputs)
    ensures forall o :: o in outputs ==> o != []
  {
    hide NothingTooOld, Distinct;
    if Distinct(Elements(merged)) {
      KeptIsNotTooOld(c.inputVersion, c.level, merged, ss);
    }
    hide Kept, Flatten, Sorted, CutSoFar, WellCut;
    NothingKept(c.inputVersion, c.level, ss);
    outputs := [];
    var builder: seq<Entry> := [];
    var currentUserKey: Option<UserKey> := None;
    var lastSequenceForKey: SequenceNumber := MAX_SEQUENCE;
    for i := 0 to |merged|
      invariant Worked(c, merged, ss, i, currentUserKey, lastSequenceForKey, outputs, builder)
    {
      currentUserKey, lastSequenceForKey, outputs, builder :=
        WorkOn(c, merged, ss, i, currentUserKey, lastSequenceForKey, outputs, builder);
    }
    assert merged[..|merged|] == merged;
    outputs := LastOutput(c, merged, outputs, builder);
  }

  /** The first i entries are dealt with. */
  ghost predicate Worked(c: Compaction, merged: seq<Entry>, ss: nat, i: nat, currentUserKey: Option<UserKey>,
                         lastSequenceForKey: SequenceNumber, outputs: seq<seq<Entry>>, builder: seq<Entry>)
    reads c, c.levelPtrs
  {
    && i <= |merged| && c.Valid() && CutUpTo(c, merged, i, outputs, builder)
    && (c.asked.Some? ==> i > 0 && c.asked.value <= merged[i - 1].key.user)
    && currentUserKey == (if i == 0 then None else Some(merged[i - 1].key.user))
    && (i > 0 ==> lastSequenceForKey == merged[i - 1].key.sequence)
    && Flatten(outputs) + builder == Kept(c.inputVersion, c.level, merged[..i], ss)
  }

  /** One turn of the loop. */
  method WorkOn(c: Compaction, merged: seq<Entry>, ss: SequenceNumber, i: nat, currentUserKey: Option<UserKey>,
                lastSequenceForKey: SequenceNumber, outputs: seq<seq<Entry>>, builder: seq<Entry>)
    returns (currentUserKey': Option<UserKey>, lastSequenceForKey': SequenceNumber, r: seq<seq<Entry>>,
             b: seq<Entry>)
    requires i < |merged| && Sorted(merged) && ss < MAX_SEQUENCE
    requires Worked(c, merged, ss, i, currentUserKey, lastSequenceForKey, outputs, builder)
    modifies c, c.levelPtrs
    ensures Worked(c, merged, ss, i + 1, currentUserKey', lastSequenceForKey', r, b)
  {
    hide Kept, Flatten, Sorted, Obsolete, CutSoFar, BytesBetween;
    var key := merged[i].key;
    NextKept(c, merged, i, ss);
    r, b := StopBefore(c, merged, i, outputs, builder);
    currentUserKey', lastSequenceForKey' := currentUserKey, lastSequenceForKey;
    if currentUserKey' != Some(key.user) {
      currentUserKey' := Some(key.user);
      lastSequenceForKey' := MAX_SEQUENCE;
    }
    var drop := ShouldDrop(c, key, lastSequenceForKey', ss);
    lastSequenceForKey' := key.sequence;
    if !drop {
      r, b := AddToOutput(c.limits, merged, r, b, c.since.value, merged[i]);
    }
  }

  /** The files cut before the i-th entry, and the count of grandparents that goes with them. */
  ghost predicate CutUpTo(c: Compaction, merged: seq<Entry>, i: nat, outputs: seq<seq<Entry>>, builder: seq<Entry>)
    requires i <= |merged|
    reads c`grandparentIndex, c`seenKey, c`overlappedBytes, c`lastKey, c`since
  {
    && c.Counted() && c.lastKey == (if i == 0 then None else Some(merged[i - 1].key))
    && (i == 0 ==> outputs == [] && builder == [])
    && (i > 0 ==> CutSoFar(c.limits, merged, outputs, builder, c.since.value, merged[i - 1].key))
  }

  /** Close the file being built if too much of the grandparents ends before the next entry. */
  method StopBefore(c: Compaction, merged: seq<Entry>, i: nat, outputs: seq<seq<Entry>>, builder: seq<Entry>)
    returns (r: seq<seq<Entry>>, b: seq<Entry>)
    requires i < |merged| && c.Valid() && Sorted(merged) && CutUpTo(c, merged, i, outputs, builder)
    modifies c`grandparentIndex, c`seenKey, c`overlappedBytes, c`lastKey, c`since
    ensures c.Valid() && CutUpTo(c, merged, i + 1, r, b) && c.since.Some?
    ensures BytesBetween(c.limits, c.since.value, merged[i].key) <= c.limits.maxGrandParentOverlapBytes
    ensures Flatten(r) + b == Flatten(outputs) + builder
  {
    hide CutSoFar, Flatten, EndedBytes, c.Valid;
    r, b := outputs, builder;
    var stopBefore := c.ShouldStopBefore(merged[i].key);
    ghost var since := old(c.since);
    if i == 0 {
      NothingCut(c.limits, merged, merged[0]);
    } else if stopBefore && builder != [] {
      FinishedForOverlap(c.limits, merged, outputs, builder, since.value, merged[i - 1].key, merged[i]);
      r, b := FinishOutput(outputs, builder);
    } else {
      GoneOn(c.limits, merged, outputs, builder, since.value, merged[i - 1].key, merged[i], c.since.value);
    }
  }

  /** Rules (A) and (B) for one entry. */
  method ShouldDrop(c: Compaction, key: InternalKey, lastSequenceForKey: SequenceNumber, ss: nat) returns (drop: bool)
    requires c.Valid() && (c.asked.Some? ==> c.asked.value <= key.user)
    modifies c`asked, c.levelPtrs
    ensures c.Valid() && (c.asked == old(c.asked) || c.asked == Some(key.user))
    ensures drop <==> lastSequenceForKey <= ss || Obsolete(c.inputVersion, c.level, key, ss)
  {
    drop := false;
    if lastSequenceForKey <= ss {
      drop := true;
    } else if key.kind.Deletion? && key.sequence <= ss {
      drop := c.IsBaseLevelForKey(key.user);
    }
  }

  /** Add an entry to the output file being built; close the file if it is big enough. */
  method AddToOutput(limits: Limits, ghost merged: seq<Entry>, outputs: seq<seq<Entry>>, builder: seq<Entry>,
                     ghost since: InternalKey, e: Entry)
    returns (r: seq<seq<Entry>>, b: seq<Entry>)
    requires CutSoFar(limits, merged, outputs, builder, since, e.key)
    requires BytesBetween(limits, since, e.key) <= limits.maxGrandParentOverlapBytes
    ensures Flatten(r) + b == Flatten(outputs) + builder + [e]
    ensures CutSoFar(limits, merged, r, b, since, e.key)
  {
    hide Flatten, GrewToSize, OverlapsLittle, Building, BytesBetween;
    r, b := outputs, builder + [e];
    assert Flatten(r) + b == Flatten(outputs) + builder + [e];
    EntryJoined(limits, merged, outputs, builder, since, e);
    if limits.sizeOf(b) >= limits.maxOutputFileSize {
      FinishedForSize(limits, merged, outputs, b, since, e.key);
      r, b := FinishOutput(r, b);
    }
  }

  method FinishOutput(outputs: seq<seq<Entry>>, builder: seq<Entry>) returns (r: seq<seq<Entry>>, empty: seq<Entry>)
    requires builder != []
    ensures Flatten(r) + empty == Flatten(outputs) + builder && r == outputs + [builder] && empty == []
  {
    FlattenSnoc(outputs, builder);
    r, empty := outputs + [builder], [];
  }

  /** The file still being built at the end of the input is finished too. */
  method LastOutput(c: Compaction, ghost merged: seq<Entry>, outputs: seq<seq<Entry>>, builder: seq<Entry>)
    returns (r: seq<seq<Entry>>)
    requires CutUpTo(c, merged, |merged|, outputs, builder)
    ensures Flatten(r) == Flatten(outputs) + builder && WellCut(c.limits, merged, r)
    ensures forall o :: o in r ==> o != []
  {
    r := outputs;
    if builder != [] {
      LastFile(c.limits, merged, outputs, builder, c.since.value, merged[|merged| - 1].key);
      ghost var empty;
      r, empty := FinishOutput(outputs, builder);
    }
    hide GrewToSize, OverlapsLittle, CutFor, Flatten;
    assert forall o :: o in r ==> o != [] by {
      forall o | o in r ensures o != [] {
        var i :| 0 <= i < |r| && r[i] == o;
        assert FileOk(c.limits, r[i]);
      }
    }
  }

  // ----- The kept entries as a set

  ghost predicate HiddenIn(M: set<Entry>, e: Entry, ss: nat) {
    exists f :: f in M && f.key.user == e.key.user && e.key.sequence < f.key.sequence <= ss
  }

  ghost function KeptSet(v: Version, level: nat, M: set<Entry>, ss: nat): set<Entry>
    requires |v| == NUM_LEVELS
  {
    set e | e in M && !HiddenIn(M, e, ss) && !Obsolete(v, level, e.key, ss)
  }

  /** Looking at the entry before is enough to know whether any entry hides this one. */
  lemma NeighbourHides(merged: seq<Entry>, i: nat, ss: nat)
    requires Sorted(merged) && Distinct(Elements(merged)) && i < |merged|
    ensures Hidden(merged, i, ss) <==> HiddenIn(Elements(merged), merged[i], ss)
  {
    if Hidden(merged, i, ss) {
      assert merged[i - 1] in Elements(merged) && merged[i] in Elements(merged)
             && Less(merged[i - 1].key, merged[i].key);
      assert !SameSlot(merged[i - 1], merged[i]);
    }
    if HiddenIn(Elements(merged), merged[i], ss) {
      var f :| f in merged && f.key.user == merged[i].key.user && merged[i].key.sequence < f.key.sequence <= ss;
      var j :| 0 <= j < |merged| && merged[j] == f;
      var lo, hi := if i < j then i else j, if i < j then j else i;
      assert Less(merged[lo].key, merged[hi].key);
      assert j < i - 1 ==> Less(merged[j].key, merged[i - 1].key);
      assert Less(merged[i - 1].key, merged[i].key);
    }
  }

  ghost predicate KeptAt(v: Version, level: nat, merged: seq<Entry>, i: nat, ss: nat)
    requires |v| == NUM_LEVELS && i < |merged|
  {
    !Hidden(merged, i, ss) && !Obsolete(v, level, merged[i].key, ss)
  }

  lemma {:induction false} KeptComesFrom(v: Version, level: nat, merged: seq<Entry>, ss: nat, e: Entry) returns (i: nat)
    requires |v| == NUM_LEVELS && e in Kept(v, level, merged, ss)
    ensures i < |merged| && merged[i] == e && KeptAt(v, level, merged, i, ss)
  {
    var n := |merged| - 1;
    if e in Kept(v, level, merged[..n], ss) {
      i := KeptComesFrom(v, level, merged[..n], ss, e);
    } else {
      i := n;
    }
  }

  lemma {:induction false} KeptHolds(v: Version, level: nat, merged: seq<Entry>, ss: nat, i: nat)
    requires |v| == NUM_LEVELS && i < |merged| && KeptAt(v, level, merged, i, ss)
    ensures merged[i] in Kept(v, level, merged, ss)
  {
    var n := |merged| - 1;
    if i < n {
      assert merged[..n][i] == merged[i];
      KeptHolds(v, level, merged[..n], ss, i);
    }
  }

  lemma {:induction false} KeptSorted(v: Version, level: nat, merged: seq<Entry>, ss: nat)
    requires |v| == NUM_LEVELS && Sorted(merged)
    ensures Sorted(Kept(v, level, merged, ss))
  {
    if merged != [] {
      var n := |merged| - 1;
      KeptSorted(v, level, merged[..n], ss);
      var init := Kept(v, level, merged[..n], ss);
      forall i | 0 <= i < |init| ensures Less(init[i].key, merged[n].key) {
        var j := KeptComesFrom(v, level, merged[..n], ss, init[i]);
        assert merged[..n][j] == merged[j];
      }
    }
  }

  lemma KeptIsKeptSet(v: Version, level: nat, merged: seq<Entry>, ss: nat)
    requires |v| == NUM_LEVELS && Sorted(merged) && Distinct(Elements(merged))
    ensures Elements(Kept(v, level, merged, ss)) == KeptSet(v, level, Elements(merged), ss)
  {
    forall e ensures e in Kept(v, level, merged, ss) <==> e in KeptSet(v, level, Elements(merged), ss) {
      if e in Kept(v, level, merged, ss) {
        var i := KeptComesFrom(v, level, merged, ss, e);
        NeighbourHides(merged, i, ss);
      }
      if e in KeptSet(v, level, Elements(merged), ss) {
        var i :| 0 <= i < |merged| && merged[i] == e;
        NeighbourHides(merged, i, ss);
        KeptHolds(v, level, merged, ss, i);
      }
    }
  }

  // ----- What the outputs hold

  /** A level below the output level has a file over the user key. */
  ghost predicate HeldDeeper(v: Version, level: nat, u: UserKey)
    requires |v| == NUM_LEVELS
  {
    exists l, f :: level + 2 <= l < NUM_LEVELS && f in v[l] && Covers(f, u)
  }

  /** Of the deletions all snapshots see, only those over something deeper are written again. */
  ghost predicate MarkersNeeded(v: Version, level: nat, written: seq<Entry>, ss: nat)
    requires |v| == NUM_LEVELS
  {
    forall e :: e in written && e.key.kind.Deletion? && e.key.sequence <= ss ==> HeldDeeper(v, level, e.key.user)
  }

  /** No snapshot needs an older version of anything, and there is nothing deeper. */
  ghost predicate Settled(v: Version, level: nat, merged: seq<Entry>, ss: nat)
    requires |v| == NUM_LEVELS
  {
    forall e :: e in merged ==> e.key.sequence <= ss && !HeldDeeper(v, level, e.key.user)
  }

  /** Of every user key its newest entry, unless that is a deletion. */
  ghost function NewestValues(M: set<Entry>, ss: nat): set<Entry> {
    set e | e in M && e.key.kind.Put? && Newest(M, e.key.user, ss, e)
  }

  /** Of the entries of a user key that all snapshots are behind, only one is written. */
  ghost predicate OneOldPerKey(written: seq<Entry>, ss: nat) {
    forall e, f {:trigger Above(e, f)} :: e in written && f in written && Above(e, f) && e.key.user == f.key.user ==>
      e.key.sequence > ss
  }

  /** What a compaction may not write again. */
  ghost predicate NothingTooOld(v: Version, level: nat, merged: seq<Entry>, written: seq<Entry>, ss: nat)
    requires |v| == NUM_LEVELS
  {
    && MarkersNeeded(v, level, written, ss) && OneOldPerKey(written, ss)
    && (Settled(v, level, merged, ss) ==> Elements(written) == NewestValues(Elements(merged), ss))
  }

  lemma KeptIsNotTooOld(v: Version, level: nat, merged: seq<Entry>, ss: nat)
    requires |v| == NUM_LEVELS && Sorted(merged) && Distinct(Elements(merged))
    ensures NothingTooOld(v, level, merged, Kept(v, level, merged, ss), ss)
  {
    KeptMarkersNeeded(v, level, merged, ss);
    KeptOncePerKey(v, level, merged, ss);
    hide Kept, Settled, NewestValues, MarkersNeeded, OneOldPerKey;
    if Settled(v, level, merged, ss) {
      SettledIsNewestValues(v, level, merged, ss);
    }
  }

  lemma KeptOncePerKey(v: Version, level: nat, merged: seq<Entry>, ss: nat)
    requires |v| == NUM_LEVELS && Sorted(merged) && Distinct(Elements(merged))
    ensures OneOldPerKey(Kept(v, level, merged, ss), ss)
  {
    KeptIsKeptSet(v, level, merged, ss);
    var M := Elements(merged);
    forall e, f | e in Kept(v, level, merged, ss) && f in Kept(v, level, merged, ss) && Above(e, f)
                  && e.key.user == f.key.user
      ensures e.key.sequence > ss
    {
      assert e in KeptSet(v, level, M, ss) && f in KeptSet(v, level, M, ss);
      assert !HiddenIn(M, f, ss);
    }
  }

  lemma KeptMarkersNeeded(v: Version, level: nat, merged: seq<Entry>, ss: nat)
    requires |v| == NUM_LEVELS
    ensures MarkersNeeded(v, level, Kept(v, level, merged, ss), ss)
  {
    forall e | e in Kept(v, level, merged, ss) && e.key.kind.Deletion? && e.key.sequence <= ss
      ensures HeldDeeper(v, level, e.key.user)
    {
      var i := KeptComesFrom(v, level, merged, ss, e);
    }
  }

  lemma SettledIsNewestValues(v: Version, level: nat, merged: seq<Entry>, ss: nat)
    requires |v| == NUM_LEVELS && Sorted(merged) && Distinct(Elements(merged)) && Settled(v, level, merged, ss)
    ensures Elements(Kept(v, level, merged, ss)) == NewestValues(Elements(merged), ss)
  {
    var M := Elements(merged);
    KeptIsKeptSet(v, level, merged, ss);
    forall e ensures e in KeptSet(v, level, M, ss) <==> e in NewestValues(M, ss) {
      if e in M {
        assert e.key.sequence <= ss && !HeldDeeper(v, level, e.key.user);
        assert BaseLevel(v, level, e.key.user);
        NewestIsNotHidden(M, ss, e);
      }
    }
  }

  lemma NewestIsNotHidden(M: set<Entry>, ss: nat, e: Entry)
    requires e in M && e.key.sequence <= ss
    ensures Newest(M, e.key.user, ss, e) <==> !HiddenIn(M, e, ss)
  {
  }

  // ----- What readers see

  /** Dropping the markers of M is invisible: where a dropped marker is what the oldest snapshot sees, the
      remaining entries R hold nothing older, or their next older entry is itself a deletion. */
  ghost predicate SafeToDrop(v: Version, level: nat, R: set<Entry>, M: set<Entry>, ss: nat)
    requires |v| == NUM_LEVELS
  {
    forall e, f ::
      (e in M && Obsolete(v, level, e.key, ss) && Newest(R + M, e.key.user, ss, e)
       && Newest(R, e.key.user, e.key.sequence, f))
      ==> f.key.kind.Deletion?
  }

  ghost predicate SameViewFrom(ss: nat, E: set<Entry>, F: set<Entry>) {
    forall u, s: nat :: ss <= s ==> View(E, u, s) == View(F, u, s)
  }

  /** Dropping keeps every view at or above the smallest snapshot exactly when it is safe. */
  lemma DropsPreserveViews(v: Version, level: nat, R: set<Entry>, M: set<Entry>, ss: nat)
    requires |v| == NUM_LEVELS && Distinct(R + M)
    ensures SameViewFrom(ss, R + M, R + KeptSet(v, level, M, ss)) <==> SafeToDrop(v, level, R, M, ss)
  {
    var K := KeptSet(v, level, M, ss);
    if SafeToDrop(v, level, R, M, ss) {
      forall u, s: nat | ss <= s ensures View(R + M, u, s) == View(R + K, u, s) {
        SafeDropKeepsView(v, level, R, M, ss, u, s);
      }
    } else {
      var e, f :| e in M && Obsolete(v, level, e.key, ss) && Newest(R + M, e.key.user, ss, e)
        && Newest(R, e.key.user, e.key.sequence, f) && f.key.kind.Put?;
      UnsafeDropChangesView(v, level, R, M, ss, e, f);
    }
  }

  lemma SafeDropKeepsView(v: Version, level: nat, R: set<Entry>, M: set<Entry>, ss: nat, u: UserKey, s: nat)
    requires |v| == NUM_LEVELS && Distinct(R + M) && SafeToDrop(v, level, R, M, ss) && ss <= s
    ensures View(R + M, u, s) == View(R + KeptSet(v, level, M, ss), u, s)
  {
    var K := KeptSet(v, level, M, ss);
    assert R + K <= R + M;
    if w :| w in R + M && Sees(w, u, s) {
      var e := NewestExists(R + M, u, s, w);
      ViewOfNewest(R + M, u, s, e);
      if e in R + K {
        assert Newest(R + K, u, s, e);
        ViewOfNewest(R + K, u, s, e);
      } else {
        assert Obsolete(v, level, e.key, ss) && Newest(R + M, u, ss, e);
        OnlyDeletionsBelow(v, level, R, M, ss, u, s, e);
      }
    } else {
      ViewOfNothing(R + M, u, s);
      ViewOfNothing(R + K, u, s);
    }
  }

  /** A dropped marker takes every older input entry of its user key with it. */
  lemma NothingKeptBelow(v: Version, level: nat, M: set<Entry>, ss: nat, e: Entry)
    requires |v| == NUM_LEVELS && Distinct(M) && e in M && Obsolete(v, level, e.key, ss)
    ensures forall g :: g in KeptSet(v, level, M, ss) && g.key.user == e.key.user ==> g.key.sequence > e.key.sequence
  {
    forall g | g in KeptSet(v, level, M, ss) && g.key.user == e.key.user ensures g.key.sequence > e.key.sequence {
      assert g.key.sequence < e.key.sequence ==> HiddenIn(M, g, ss);
      assert g.key.sequence == e.key.sequence ==> SameSlot(g, e);
    }
  }

  /** With the marker e gone, a reader finds at most an older deletion. */
  lemma OnlyDeletionsBelow(v: Version, level: nat, R: set<Entry>, M: set<Entry>, ss: nat, u: UserKey, s: nat, e: Entry)
    requires |v| == NUM_LEVELS && Distinct(R + M) && SafeToDrop(v, level, R, M, ss) && ss <= s
    requires e in M && e !in R && Obsolete(v, level, e.key, ss) && Newest(R + M, u, s, e) && Newest(R + M, u, ss, e)
    ensures View(R + KeptSet(v, level, M, ss), u, s) == None
  {
    var K := KeptSet(v, level, M, ss);
    if w :| w in R + K && Sees(w, u, s) {
      var f := NewestExists(R + K, u, s, w);
      ViewOfNewest(R + K, u, s, f);
      assert f.key.sequence <= e.key.sequence;
      NothingKeptBelow(v, level, M, ss, e);
      assert f in R && Newest(R, u, e.key.sequence, f);
    } else {
      ViewOfNothing(R + K, u, s);
    }
  }

  lemma UnsafeDropChangesView(v: Version, level: nat, R: set<Entry>, M: set<Entry>, ss: nat, e: Entry, f: Entry)
    requires |v| == NUM_LEVELS && Distinct(R + M)
    requires e in M && Obsolete(v, level, e.key, ss) && Newest(R + M, e.key.user, ss, e)
    requires Newest(R, e.key.user, e.key.sequence, f) && f.key.kind.Put?
    ensures View(R + M, e.key.user, ss) == None && View(R + KeptSet(v, level, M, ss), e.key.user, ss) == Some(f.value)
  {
    var K := KeptSet(v, level, M, ss);
    var u := e.key.user;
    ViewOfNewest(R + M, u, ss, e);
    assert R + K <= R + M;
    NothingKeptBelow(v, level, M, ss, e);
    assert Newest(R + K, u, ss, f);
    ViewOfNewest(R + K, u, ss, f);
  }
}
