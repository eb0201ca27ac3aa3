/**
 Where a compaction cuts its output files: when one is big enough, or would overlap too much of the level after
 the next.
 */
module OutputCuts {
  import opened Basics
  import opened InternalKeys
  import opened Tables
  import opened Versions
  import opened Overlap

  /** What the compaction knows about sizes: that of a table file with some entries, and the two limits. */
  datatype Limits = Limits(
    grandparents: seq<File>, maxGrandParentOverlapBytes: nat, sizeOf: seq<Entry> -> nat, maxOutputFileSize: nat)

  /** The size of the files, from the first one on, that end before a key. */
  function EndedBytes(files: seq<File>, k: InternalKey): nat {
    if files == [] || !Less(files[0].Largest(), k) then 0 else files[0].size + EndedBytes(files[1..], k)
  }

  /** The size of the grandparents that end between two keys. */
  function BytesBetween(limits: Limits, a: InternalKey, b: InternalKey): int {
    EndedBytes(limits.grandparents, b) - EndedBytes(limits.grandparents, a)
  }

  /** In a sorted level these are exactly the files that end before the key. */
  lemma {:induction false} EndedBytesAre(files: seq<File>, k: InternalKey) returns (n: nat)
    requires LevelSorted(files)
    ensures n <= |files| && EndedBytes(files, k) == TotalFileSize(files[..n])
    ensures forall i :: 0 <= i < |files| ==> (Less(files[i].Largest(), k) <==> i < n)
  {
    if files == [] {
      n := 0;
    } else if !Less(files[0].Largest(), k) {
      LargestAscends(files, 0);
      n := 0;
    } else {
      assert LevelSorted(files[1..]) by {
        forall i, j | 0 <= i < j < |files| - 1 ensures Precedes(files[1..][i], files[1..][j]) {
          assert Precedes(files[i + 1], files[j + 1]);
        }
      }
      var m := EndedBytesAre(files[1..], k);
      n := m + 1;
      assert files[..n][1..] == files[1..][..m];
      assert forall i :: 1 <= i < |files| ==> files[i] == files[1..][i - 1];
    }
  }

  lemma {:induction false} EndedGrows(files: seq<File>, a: InternalKey, b: InternalKey)
    requires !Less(b, a)
    ensures EndedBytes(files, a) <= EndedBytes(files, b)
  {
    if files != [] {
      EndedGrows(files[1..], a, b);
    }
  }

  /** After n files that end before the key, the others are looked at. */
  lemma {:induction false} EndedFrom(files: seq<File>, n: nat, k: InternalKey)
    requires n <= |files| && forall i :: 0 <= i < n ==> Less(files[i].Largest(), k)
    ensures EndedBytes(files, k) == TotalFileSize(files[..n]) + EndedBytes(files[n..], k)
  {
    if n == 0 {
      assert files[0..] == files;
    } else {
      EndedFrom(files[1..], n - 1, k);
      assert files[..n][1..] == files[1..][..n - 1] && files[1..][n - 1..] == files[n..];
    }
  }

  ghost predicate AllEnd(files: seq<File>, n: nat, k: InternalKey) {
    n <= |files| && forall i :: 0 <= i < n ==> Less(files[i].Largest(), k)
  }

  /** The first n files are those that end before the key. */
  ghost predicate Ended(files: seq<File>, n: nat, k: InternalKey) {
    AllEnd(files, n, k) && EndedBytes(files, k) == TotalFileSize(files[..n])
  }

  lemma EndedUpTo(files: seq<File>, n: nat, k: InternalKey)
    requires AllEnd(files, n, k) && (n < |files| ==> !Less(files[n].Largest(), k))
    ensures Ended(files, n, k)
  {
    EndedFrom(files, n, k);
  }

  // ----- One output file

  /** The file was not big enough before its last entry. */
  ghost predicate GrewToSize(limits: Limits, o: seq<Entry>) {
    forall j :: 0 < j < |o| ==> limits.sizeOf(o[..j]) < limits.maxOutputFileSize
  }

  /** From its first key to its last one, not too much of the grandparents ends. */
  ghost predicate OverlapsLittle(limits: Limits, o: seq<Entry>) {
    o != [] ==> BytesBetween(limits, o[0].key, o[|o| - 1].key) <= limits.maxGrandParentOverlapBytes
  }

  /** It is cut before a key for its size, or for the grandparents since an input entry that is not after its first. */
  ghost predicate CutFor(limits: Limits, merged: seq<Entry>, o: seq<Entry>, next: InternalKey) {
    || limits.sizeOf(o) >= limits.maxOutputFileSize
    || (o != [] && exists e :: e in merged && !Less(o[0].key, e.key)
                               && BytesBetween(limits, e.key, next) > limits.maxGrandParentOverlapBytes)
  }

  ghost predicate FileOk(limits: Limits, o: seq<Entry>) {
    o != [] && GrewToSize(limits, o) && OverlapsLittle(limits, o)
  }

  /** No file is too big or overlaps too much, and each but the last is cut before the next one's first key for a
      reason. */
  ghost predicate WellCut(limits: Limits, merged: seq<Entry>, outputs: seq<seq<Entry>>) {
    && (forall i :: 0 <= i < |outputs| ==> FileOk(limits, outputs[i]))
    && forall i :: 0 < i < |outputs| ==> CutFor(limits, merged, outputs[i - 1], outputs[i][0].key)
  }

  lemma CutForLater(limits: Limits, merged: seq<Entry>, o: seq<Entry>, k: InternalKey, next: InternalKey)
    requires CutFor(limits, merged, o, k) && !Less(next, k)
    ensures CutFor(limits, merged, o, next)
  {
    EndedGrows(limits.grandparents, k, next);
    if limits.sizeOf(o) < limits.maxOutputFileSize {
      var e :| e in merged && !Less(o[0].key, e.key)
               && BytesBetween(limits, e.key, k) > limits.maxGrandParentOverlapBytes;
      assert BytesBetween(limits, e.key, next) > limits.maxGrandParentOverlapBytes;
    }
  }

  // ----- The files so far

  /** The file being built: it may still grow, and began at or after the entry since when overlap is counted. */
  ghost predicate Building(limits: Limits, b: seq<Entry>, since: InternalKey, last: InternalKey) {
    b != [] ==>
      && (forall j :: 0 < j <= |b| ==> limits.sizeOf(b[..j]) < limits.maxOutputFileSize)
      && OverlapsLittle(limits, b) && !Less(b[0].key, since) && !Less(last, b[|b| - 1].key)
  }

  /** Why the last finished file was cut: before the file being built, or before what comes next. */
  ghost predicate LastCut(limits: Limits, merged: seq<Entry>, outputs: seq<seq<Entry>>, b: seq<Entry>,
                          last: InternalKey)
  {
    outputs != [] ==> CutFor(limits, merged, outputs[|outputs| - 1], if b == [] then last else b[0].key)
  }

  ghost predicate CutSoFar(limits: Limits, merged: seq<Entry>, outputs: seq<seq<Entry>>, b: seq<Entry>,
                           since: InternalKey, last: InternalKey)
  {
    && WellCut(limits, merged, outputs) && Building(limits, b, since, last)
    && LastCut(limits, merged, outputs, b, last) && !Less(last, since)
    && exists e :: e in merged && e.key == since
  }

  lemma WellCutSnoc(limits: Limits, merged: seq<Entry>, outputs: seq<seq<Entry>>, o: seq<Entry>)
    requires WellCut(limits, merged, outputs) && FileOk(limits, o)
    requires outputs != [] ==> CutFor(limits, merged, outputs[|outputs| - 1], o[0].key)
    ensures WellCut(limits, merged, outputs + [o])
  {
    hide GrewToSize, OverlapsLittle, CutFor;
    var all: seq<seq<Entry>> := outputs + [o];
    forall i: nat | 0 < i < |all| ensures CutFor(limits, merged, all[i - 1], all[i][0].key) {
      assert all[i - 1] == outputs[i - 1];
    }
  }

  lemma NothingCut(limits: Limits, merged: seq<Entry>, first: Entry)
    requires first in merged
    ensures CutSoFar(limits, merged, [], [], first.key, first.key)
  {
  }

  lemma LastFile(limits: Limits, merged: seq<Entry>, outputs: seq<seq<Entry>>, b: seq<Entry>, since: InternalKey,
                 last: InternalKey)
    requires CutSoFar(limits, merged, outputs, b, since, last) && b != []
    ensures WellCut(limits, merged, outputs + [b])
  {
    WellCutSnoc(limits, merged, outputs, b);
  }

  /** The file being built is finished for its size. */
  lemma FinishedForSize(limits: Limits, merged: seq<Entry>, outputs: seq<seq<Entry>>, b: seq<Entry>,
                        since: InternalKey, last: InternalKey)
    requires b != [] && GrewToSize(limits, b) && OverlapsLittle(limits, b)
    requires limits.sizeOf(b) >= limits.maxOutputFileSize
    requires WellCut(limits, merged, outputs) && LastCut(limits, merged, outputs, b, last) && !Less(last, since)
    requires exists e :: e in merged && e.key == since
    ensures CutSoFar(limits, merged, outputs + [b], [], since, last)
  {
    WellCutSnoc(limits, merged, outputs, b);
  }

  /** The next key is so far on in the grandparents that the file being built ends before it. */
  lemma FinishedForOverlap(limits: Limits, merged: seq<Entry>, outputs: seq<seq<Entry>>, b: seq<Entry>,
                           since: InternalKey, last: InternalKey, next: Entry)
    requires CutSoFar(limits, merged, outputs, b, since, last) && next in merged && b != []
    requires BytesBetween(limits, since, next.key) > limits.maxGrandParentOverlapBytes
    ensures CutSoFar(limits, merged, outputs + [b], [], next.key, next.key)
  {
    WellCutSnoc(limits, merged, outputs, b);
    hide WellCut, FileOk, OverlapsLittle;
  }

  /** The next key is taken note of, with no file finished. */
  lemma GoneOn(limits: Limits, merged: seq<Entry>, outputs: seq<seq<Entry>>, b: seq<Entry>, since: InternalKey,
               last: InternalKey, next: Entry, since': InternalKey)
    requires CutSoFar(limits, merged, outputs, b, since, last) && next in merged && Less(last, next.key)
    requires since' == since || (since' == next.key && b == [])
    ensures CutSoFar(limits, merged, outputs, b, since', next.key)
  {
    if outputs != [] && b == [] {
      CutForLater(limits, merged, outputs[|outputs| - 1], last, next.key);
    }
    hide WellCut, CutFor, OverlapsLittle;
  }

  /** An entry joins the file being built. */
  lemma EntryJoined(limits: Limits, merged: seq<Entry>, outputs: seq<seq<Entry>>, b: seq<Entry>, since: InternalKey,
                    e: Entry)
    requires CutSoFar(limits, merged, outputs, b, since, e.key)
    requires BytesBetween(limits, since, e.key) <= limits.maxGrandParentOverlapBytes
    ensures GrewToSize(limits, b + [e]) && OverlapsLittle(limits, b + [e])
    ensures LastCut(limits, merged, outputs, b + [e], e.key)
    ensures limits.sizeOf(b + [e]) < limits.maxOutputFileSize ==>
              CutSoFar(limits, merged, outputs, b + [e], since, e.key)
  {
    var c := b + [e];
    forall j | 0 < j <= |b| ensures limits.sizeOf(c[..j]) < limits.maxOutputFileSize {
      assert c[..j] == b[..j];
    }
    assert c[..|c|] == c;
    if b != [] {
      EndedGrows(limits.grandparents, since, b[0].key);
    }
    hide WellCut, CutFor;
  }
}
