/**
 Recovery when a memtable switch had left two log files, of the immutable memtable and of the memtable: a crash cuts
 each of them on its own.
 */
module TwoLogs {
  import opened Basics
  import opened InternalKeys
  import opened Tables
  import opened Versions
  import opened Histories
  import opened GroupCommit
  import opened CommitLogs
  import opened WriteBatches
  import opened LogFormat
  import opened LogRoundTrips
  import opened LogRecovery
  import opened RecoveredRuns
  import opened RecoverySteps
  import opened Durability
  import Stores

  // ----- The history that is left

  /** The writes up to e1, and those from b to e2; what was between is lost. */
  ghost function Survivors(h: History, e1: nat, b: nat, e2: nat): (h': History)
    requires e1 <= b <= e2 <= |h|
    ensures |h'| == e2
  {
    h[..e1] + Nones(b - e1) + h[b..e2]
  }

  lemma SurvivorAt(h: History, e1: nat, b: nat, e2: nat, p: nat)
    requires e1 <= b <= e2 <= |h| && p < e2
    ensures Survivors(h, e1, b, e2)[p] == if e1 <= p < b then None else h[p]
  {
  }

  ghost predicate NoWrites(h: History, a: nat, b: nat) {
    forall p :: a <= p < b && p < |h| ==> h[p].None?
  }

  lemma EntryIsAt(h: History, a: nat, b: nat, p: nat)
    requires p < |h| && b <= |h| && h[p].Some?
    ensures EntryOf(h[p].value, p + 1) in LogEntries(h, a, b) <==> a <= p < b
  {
    LogEntriesBounds(h, a, b);
  }

  lemma SurvivorsArePrefix(h: History, a: nat, e1: nat, b: nat, e2: nat, n: nat)
    requires a <= e1 <= b <= e2 <= |h| && a <= n <= |h|
    requires LogEntries(Survivors(h, e1, b, e2), a, e2) == LogEntries(h, a, n)
    ensures NoWrites(h, e1, b) || NoWrites(h, b, e2)
  {
    var h' := Survivors(h, e1, b, e2);
    if !NoWrites(h, e1, b) && !NoWrites(h, b, e2) {
      var p: nat :| e1 <= p < b && p < |h| && h[p].Some?;
      var q: nat :| b <= q < e2 && q < |h| && h[q].Some?;
      SurvivorAt(h, e1, b, e2, p);
      SurvivorAt(h, e1, b, e2, q);
      EntryIsAt(h', a, e2, q);
      EntryIsAt(h, a, n, q);
      EntryIsAt(h, a, n, p);
      NotAt(h', a, e2, p, h[p].value);
    }
  }

  lemma NotAt(h: History, a: nat, b: nat, p: nat, op: Op)
    requires b <= |h| && p < |h| && h[p].None?
    ensures EntryOf(op, p + 1) !in LogEntries(h, a, b)
  {
  }

  lemma SameEntries(h: History, h': History, a: nat, n: nat, n': nat)
    requires n <= |h| && n' <= |h'|
    requires forall p :: a <= p < n && h[p].Some? ==> p < n' && h'[p] == h[p]
    requires forall p :: a <= p < n' && h'[p].Some? ==> p < n && h[p] == h'[p]
    ensures LogEntries(h, a, n) == LogEntries(h', a, n')
  {
  }

  /** The entries are those of the writes from a up to some later one. */
  ghost predicate IsPrefix(h: History, a: nat, entries: set<Entry>) {
    exists n :: a <= n <= |h| && entries == LogEntries(h, a, n)
  }

  /**
   What two cut logs give back is a prefix of the history exactly if the lost end of the older one, or the recovered
   part of the newer one, has no writes.
   */
  lemma PrefixIffNothingBetween(h: History, a: nat, e1: nat, b: nat, e2: nat)
    requires a <= e1 <= b <= e2 <= |h|
    ensures IsPrefix(h, a, LogEntries(Survivors(h, e1, b, e2), a, e2))
       <==> NoWrites(h, e1, b) || NoWrites(h, b, e2)
  {
    var h' := Survivors(h, e1, b, e2);
    forall p: nat | p < e2 ensures h'[p] == if e1 <= p < b then None else h[p] {
      SurvivorAt(h, e1, b, e2, p);
    }
    if NoWrites(h, e1, b) {
      SameEntries(h', h, a, e2, e2);
      assert LogEntries(h', a, e2) == LogEntries(h, a, e2);
    } else if NoWrites(h, b, e2) {
      SameEntries(h', h, a, e2, e1);
      assert LogEntries(h', a, e2) == LogEntries(h, a, e1);
    }
    hide LogEntries, NoWrites, Survivors;
    forall n: nat | a <= n <= |h| && LogEntries(h', a, e2) == LogEntries(h, a, n)
      ensures NoWrites(h, e1, b) || NoWrites(h, b, e2)
    {
      SurvivorsArePrefix(h, a, e1, b, e2, n);
    }
  }

  lemma OnlyEntry(h: History, p: nat)
    requires p < |h| && h[p].Some? && forall i :: 0 <= i < |h| && i != p ==> h[i].None?
    ensures LogEntries(h, 0, |h|) == {EntryOf(h[p].value, p + 1)}
  {
  }

  ghost function TwoWrites(): History {
    [Some(OpPut(1.0, [1])), Some(OpPut(2.0, [2]))]
  }

  /** Two writes with a memtable switch between them, the older log empty after the crash: the second write is there
      without the first. */
  lemma LaterWriteAlone()
    ensures LogEntries(Survivors(TwoWrites(), 0, 1, 2), 0, 2) == {EntryOf(OpPut(2.0, [2]), 2)}
    ensures !IsPrefix(TwoWrites(), 0, LogEntries(Survivors(TwoWrites(), 0, 1, 2), 0, 2))
  {
    var h := TwoWrites();
    assert Survivors(h, 0, 1, 2) == [None, Some(OpPut(2.0, [2]))];
    assert h[0].Some? && h[1].Some?;
    OnlyEntry(Survivors(h, 0, 1, 2), 1);
    PrefixIffNothingBetween(h, 0, 0, 1, 2);
  }

  // ----- Reading both files

  /** The records of the run from the k-th to the m-th are in the older file, the rest in the newer. */
  ghost predicate Split(run: seq<State>, events: seq<Event>, k: nat, m: nat, st: Stores.Store) {
    && LogFrom(run, events, k, st.flushed) && LogFrom(run, events, m, st.switched) && k <= m
    && st.flushed <= st.switched <= |st.history|
    && run[|events|].lastSequence <= |run[|events|].history|
    && (Unpublished(run[|events|]) ==> run[|events|].log != [])
    && st.history == Completed(run[|events|])
  }

  lemma SpelledJoin(order: KeyOrder, g1: seq<Group>, g2: seq<Group>, log: seq<Record>, k: nat, m: nat)
    requires k <= m <= |log| && Spells(order, g1, log[k..m]) && Spells(order, g2, log[m..])
    ensures Spells(order, g1 + g2, log[k..])
  {
    forall i | 0 <= i < |log| - k ensures SpellsRecord(order, (g1 + g2)[i], log[k..][i]) {
      if i < m - k {
        assert SpellsRecord(order, g1[i], log[k..m][i]);
      } else {
        assert SpellsRecord(order, g2[i - (m - k)], log[m..][i - (m - k)]);
      }
    }
  }

  /** The older file's writes end before the switch. */
  lemma SpelledEnd(order: KeyOrder, start: nat, g: seq<Group>, h0: seq<Option<Op>>, log: seq<Record>, k: nat, m: nat,
                   b: nat)
    requires k <= m <= |log| && Spells(order, g, log[k..m]) && start <= b && LogEnd(|h0|, log[..m]) <= b
    ensures LastSequence(start, g) <= b
  {
    if k < m {
      var n := m - k - 1;
      assert SpellsRecord(order, g[n], log[k..m][n]);
      assert log[k..m][n] == log[m - 1] && log[..m][m - 1] == log[m - 1];
      SpelledSize(order, g[n], log[m - 1]);
    }
  }

  lemma FirstGroups(order: KeyOrder, h0: History, g1: seq<Group>, g2: seq<Group>, h: History)
    requires Chained(|h0|, g1 + g2) && HistoryOf(order, h0, g1 + g2) <= h
    ensures Chained(|h0|, g1) && HistoryOf(order, h0, g1) <= h
  {
    hide Chained, HistoryOf;
    HistoryGrows(order, h0, g1 + g2, |g1|);
    assert (g1 + g2)[..|g1|] == g1;
  }

  lemma BothSpelled(run: seq<State>, events: seq<Event>, k: nat, m: nat, st: Stores.Store, order: KeyOrder,
                    g1: seq<Group>, g2: seq<Group>)
    requires Split(run, events, k, m, st)
    requires Spells(order, g1, run[|events|].log[k..m]) && Spells(order, g2, run[|events|].log[m..])
    ensures Chained(st.flushed, g1 + g2) && HistoryOf(order, st.history[..st.flushed], g1 + g2) <= st.history
  {
    assert |run| == |events| + 1;
    hide Spells, Completed, Chained, HistoryOf, IsRun, LogEnd, Unpublished;
    SpelledJoin(order, g1, g2, run[|events|].log, k, m);
    SpelledFrom(run, events, k, st, order, g1 + g2);
  }

  lemma OlderSpelled(run: seq<State>, events: seq<Event>, k: nat, m: nat, st: Stores.Store, order: KeyOrder,
                     g1: seq<Group>, g2: seq<Group>)
    requires Split(run, events, k, m, st)
    requires Spells(order, g1, run[|events|].log[k..m]) && Spells(order, g2, run[|events|].log[m..])
    ensures Chained(st.flushed, g1) && HistoryOf(order, st.history[..st.flushed], g1) <= st.history
    ensures LastSequence(st.flushed, g1) <= st.switched
  {
    assert |run| == |events| + 1 && st.flushed <= |st.history|;
    assert LogEnd(|run[0].history|, run[|events|].log[..m]) <= st.switched && st.flushed <= st.switched;
    hide Split, Spells, Chained, HistoryOf, LastSequence, LogEnd;
    SpelledEnd(order, st.flushed, g1, run[0].history, run[|events|].log, k, m, st.switched);
    BothSpelled(run, events, k, m, st, order, g1, g2);
    FirstGroups(order, st.history[..st.flushed], g1, g2, st.history);
  }

  lemma NewerSpelled(run: seq<State>, events: seq<Event>, k: nat, m: nat, st: Stores.Store, order: KeyOrder,
                     g2: seq<Group>)
    requires Split(run, events, k, m, st) && Spells(order, g2, run[|events|].log[m..])
    ensures Chained(st.switched, g2) && HistoryOf(order, st.history[..st.switched], g2) <= st.history
  {
    hide Spells, Completed, Chained, HistoryOf, LogEnd;
    SpelledFrom(run, events, m, st.(flushed := st.switched), order, g2);
  }

  /** What recovery makes of one file. */
  datatype FromLog = FromLog(tables: seq<seq<Entry>>, mem: Option<seq<Entry>>, count: nat, cuts: seq<nat>)

  ghost predicate FoundIn(h: History, start: nat, groups: seq<Group>, maxSequence0: nat, maxSequence: nat, f: FromLog) {
    Recovered(h, start, groups, f.count, maxSequence0, f.tables, f.mem, maxSequence, f.cuts)
  }

  /** DBImpl::Recover: the log files in the order of their numbers. */
  method RecoverLogs(crc: Checksum, older: Bytes, newer: Bytes, order: KeyOrder, buffer: WriteBuffer, maxSequence0: nat,
                     ghost run: seq<State>, ghost events: seq<Event>, ghost k: nat, ghost m: nat,
                     ghost st: Stores.Store, ghost g1: seq<Group>, ghost g2: seq<Group>)
    returns (tables1: seq<seq<Entry>>, mem1: Option<seq<Entry>>, maxSequence1: nat, tables2: seq<seq<Entry>>,
             mem2: Option<seq<Entry>>, maxSequence2: nat, ghost f1: FromLog, ghost f2: FromLog)
    requires Split(run, events, k, m, st)
    requires Spells(order, g1, run[|events|].log[k..m]) && Spells(order, g2, run[|events|].log[m..])
    requires older <= LogOf(crc, EncodeGroups(g1)) && newer <= LogOf(crc, EncodeGroups(g2))
    ensures f1.tables == tables1 && f1.mem == mem1 && f2.tables == tables2 && f2.mem == mem2
    ensures WhollyInside(crc, EncodeGroups(g1), |older|, f1.count)
    ensures WhollyInside(crc, EncodeGroups(g2), |newer|, f2.count)
    ensures FoundIn(st.history, st.flushed, g1, maxSequence0, maxSequence1, f1)
    ensures FoundIn(st.history, st.switched, g2, maxSequence1, maxSequence2, f2)
    ensures FlushedWhenFull(buffer, tables1, mem1) && FlushedWhenFull(buffer, tables2, mem2)
  {
    OlderSpelled(run, events, k, m, st, order, g1, g2);
    NewerSpelled(run, events, k, m, st, order, g2);
    assert st.flushed <= st.switched <= |st.history|;
    hide Split, Spells, Recovered, FlushedWhenFull, LogOf, WhollyInside, Chained, HistoryOf, EncodeGroups;
    ghost var h, count1, cuts1, count2, cuts2 := st.history, 0, [], 0, [];
    tables1, mem1, maxSequence1, count1, cuts1 :=
      RecoverFrom(crc, older, order, buffer, maxSequence0, h, st.flushed, g1);
    tables2, mem2, maxSequence2, count2, cuts2 :=
      RecoverFrom(crc, newer, order, buffer, maxSequence1, h, st.switched, g2);
    f1, f2 := FromLog(tables1, mem1, count1, cuts1), FromLog(tables2, mem2, count2, cuts2);
  }

  // ----- What is found, as one history

  lemma {:induction false} ReplaySame(h: History, h': History, a: nat, b: nat)
    requires b <= |h| && b <= |h'| && forall p :: a <= p < b ==> h'[p] == h[p]
    ensures Replay(h', a, b) == Replay(h, a, b)
  {
    hide InsertSorted;
    if a < b {
      ReplaySame(h, h', a, b - 1);
    }
  }

  lemma {:induction false} CutsAscend(h: History, tables: seq<seq<Entry>>, cuts: seq<nat>, i: nat)
    requires AllPieces(h, tables, cuts) && i <= |tables|
    ensures cuts[0] <= cuts[i] <= cuts[|tables|]
  {
    if tables != [] {
      var n := |tables| - 1;
      LastPiece(h, tables, cuts);
      CutsAscend(h, tables[..n], cuts[..n + 1], if i <= n then i else n);
    }
  }

  lemma MemIsPiece(h: History, h': History, e1: nat, b: nat, f: FromLog)
    requires |f.cuts| == |f.tables| + 1 && e1 <= b <= |h'| && b <= |h|
    requires if f.mem.Some? then IsPiece(h, f.mem.value, f.cuts[|f.tables|], e1) else f.cuts[|f.tables|] == e1
    requires forall p :: 0 <= p < b ==> h'[p] == if e1 <= p then None else h[p]
    ensures IsPiece(h', Contents(f.mem), f.cuts[|f.tables|], b)
  {
    var c := f.cuts[|f.tables|];
    ReplayGap(h', c, e1, b);
    ReplaySame(h, h', c, e1);
  }

  ghost predicate Agree(h: History, h': History, a: nat, b: nat) {
    b <= |h| && b <= |h'| && forall p :: a <= p < b ==> h'[p] == h[p]
  }

  lemma TablesArePieces(h: History, h': History, a: nat, b: nat, tables: seq<seq<Entry>>, cuts: seq<nat>, i: nat)
    requires AllPieces(h, tables, cuts) && a <= cuts[0] && cuts[|tables|] <= b && Agree(h, h', a, b) && i < |tables|
    ensures IsPiece(h', tables[i], cuts[i], cuts[i + 1])
  {
    CutsAscend(h, tables, cuts, i);
    CutsAscend(h, tables, cuts, i + 1);
    assert IsPiece(h, tables[i], cuts[i], cuts[i + 1]);
    hide Replay;
    ReplaySame(h, h', cuts[i], cuts[i + 1]);
  }

  lemma SurvivorsAgree(h: History, e1: nat, b: nat, e2: nat)
    requires e1 <= b <= e2 <= |h|
    ensures var h' := Survivors(h, e1, b, e2);
            && Agree(h, h', 0, e1) && Agree(h, h', b, e2)
            && forall p :: 0 <= p < b ==> h'[p] == if e1 <= p then None else h[p]
  {
    forall p: nat | p < e2 ensures Survivors(h, e1, b, e2)[p] == if e1 <= p < b then None else h[p] {
      SurvivorAt(h, e1, b, e2, p);
    }
    hide Survivors;
  }

  /** The tables of the older file, its memtable as one more table, and what the newer file gives rebuild the history
      that is left. */
  lemma BothRebuilt(h: History, a: nat, e1: nat, b: nat, e2: nat, f1: FromLog, f2: FromLog)
    requires Rebuilt(h, a, e1, f1.tables, f1.mem, f1.cuts) && Rebuilt(h, b, e2, f2.tables, f2.mem, f2.cuts)
    requires e1 <= b <= e2
    ensures Rebuilt(Survivors(h, e1, b, e2), a, e2, f1.tables + [Contents(f1.mem)] + f2.tables, f2.mem,
                    f1.cuts + f2.cuts)
  {
    var h' := Survivors(h, e1, b, e2);
    SurvivorsAgree(h, e1, b, e2);
    assert AllPieces(h, f1.tables, f1.cuts) && AllPieces(h, f2.tables, f2.cuts);
    hide Survivors, Replay, AllPieces, IsPiece, Agree;
    var n := |f1.tables|;
    var tables, cuts := f1.tables + [Contents(f1.mem)] + f2.tables, f1.cuts + f2.cuts;
    forall i | 0 <= i < |tables| ensures IsPiece(h', tables[i], cuts[i], cuts[i + 1]) {
      if i < n {
        TablesArePieces(h, h', 0, e1, f1.tables, f1.cuts, i);
      } else if i > n {
        TablesArePieces(h, h', b, e2, f2.tables, f2.cuts, i - n - 1);
      } else {
        MemIsPiece(h, h', e1, b, f1);
      }
    }
    if f2.mem.Some? {
      CutsAscend(h, f2.tables, f2.cuts, |f2.tables|);
      RestIsPiece(h, h', b, f2.cuts[|f2.tables|], e2, f2.mem.value);
    }
  }

  lemma RestIsPiece(h: History, h': History, b: nat, c: nat, e2: nat, table: seq<Entry>)
    requires Agree(h, h', b, e2) && b <= c && IsPiece(h, table, c, e2)
    ensures IsPiece(h', table, c, e2)
  {
    hide Replay;
    ReplaySame(h, h', c, e2);
  }

  /**
   Recovery from both files is a run of the store, which ends with the history that is left.
   */
  lemma BothAreRun(st: Stores.Store, e1: nat, e2: nat, f1: FromLog, f2: FromLog, sizes: seq<nat>, nextFile: nat)
    returns (steps: seq<Stores.Action>, st': Stores.Store)
    requires Stores.Inv(st) && e1 <= st.switched <= e2
    requires Rebuilt(st.history, st.flushed, e1, f1.tables, f1.mem, f1.cuts)
    requires Rebuilt(st.history, st.switched, e2, f2.tables, f2.mem, f2.cuts)
    requires |sizes| == |f1.tables| + 1 + |f2.tables|
    requires forall l, f: File :: 0 <= l < |st.version| && f in st.version[l] ==> f.number < nextFile
    ensures Stores.LeadsTo(st, steps, st') && Stores.Inv(st')
    ensures st'.history == Survivors(st.history, e1, st.switched, e2) && st'.lastSequence == e2
    ensures st'.mem == Contents(f2.mem) && st'.imm.None?
    ensures TablesAdded(st.version, st'.version, nextFile + 1, sizes, f1.tables + [Contents(f1.mem)] + f2.tables)
  {
    var h := Survivors(st.history, e1, st.switched, e2);
    RebuiltHoldsLog(st.history, st.flushed, e1, f1.tables, f1.mem, f1.cuts);
    assert h[..st.flushed] == st.history[..st.flushed];
    BothRebuilt(st.history, st.flushed, e1, st.switched, e2, f1, f2);
    hide Stores.Inv, Rebuilt, Survivors, TablesAdded, Stores.LeadsTo;
    steps, st' := RecoveryIsRun(st, h, e2, f1.tables + [Contents(f1.mem)] + f2.tables, f2.mem, f1.cuts + f2.cuts, sizes,
                                nextFile);
    assert h[..e2] == h;
  }

  // ----- Durability

  /** Every batch written with a sync is among the writes that are left. */
  ghost predicate SyncedLeft(c: State, e1: nat, b: nat, e2: nat) {
    forall i {:trigger c.spans[i]} :: 0 <= i < |c.spans| && AsksSync(c, c.spans[i].w) ==>
      c.spans[i].end <= e1 || b <= c.spans[i].start <= c.spans[i].end <= e2
  }

  /** No file is shorter than at its last sync: then only writes without one are lost. */
  lemma SyncedWritesAreLeft(crc: Checksum, older: nat, newer: nat, order: KeyOrder, run: seq<State>,
                            events: seq<Event>, k: nat, m: nat, st: Stores.Store, g1: seq<Group>, g2: seq<Group>,
                            count1: nat, count2: nat)
    requires Split(run, events, k, m, st)
    requires Spells(order, g1, run[|events|].log[k..m]) && Spells(order, g2, run[|events|].log[m..])
    requires WhollyInside(crc, EncodeGroups(g1), older, count1) && WhollyInside(crc, EncodeGroups(g2), newer, count2)
    requires ReachesSyncs(crc, EncodeGroups(g1), run[|events|].synced, k, older)
    requires ReachesSyncs(crc, EncodeGroups(g2), run[|events|].synced, m, newer)
    ensures count1 <= |g1| && count2 <= |g2|
    ensures SyncedLeft(run[|events|], EndBefore(st.flushed, g1, count1), st.switched,
                       EndBefore(st.switched, g2, count2))
  {
    RunsSync(run, events);
    RunsLink(run, events);
    OlderSpelled(run, events, k, m, st, order, g1, g2);
    NewerSpelled(run, events, k, m, st, order, g2);
    EncodedSize(g1);
    EncodedSize(g2);
    var c := run[|events|];
    assert count1 <= |g1| && count2 <= |g2| && SpansSynced(c);
    hide SyncsOk, SpansSynced, Linked, Spells, Chained, HistoryOf, WhollyInside, ReachesSyncs, EncodeGroups, Completed,
      IsRun;
    forall i | 0 <= i < |c.spans| && AsksSync(c, c.spans[i].w)
      ensures var sp := c.spans[i];
              sp.end <= EndBefore(st.flushed, g1, count1)
              || st.switched <= sp.start <= sp.end <= EndBefore(st.switched, g2, count2)
    {
      SyncedSpanIsLeft(crc, older, newer, order, run[0].history, c, k, m, st.flushed, st.switched, g1, g2, count1,
                       count2,
                       i);
    }
  }

  lemma SyncedSpanIsLeft(crc: Checksum, older: nat, newer: nat, order: KeyOrder, h0: seq<Option<Op>>, c: State, k: nat,
                         m: nat, flushed: nat, switched: nat, g1: seq<Group>, g2: seq<Group>, count1: nat,
                         count2: nat, i: nat)
    requires SpansSynced(c) && Linked(|h0|, c.log) && k <= m <= |c.log| && LogEnd(|h0|, c.log[..k]) <= flushed
    requires m < |c.log| ==> switched < c.log[m].sequence
    requires Spells(order, g1, c.log[k..m]) && Spells(order, g2, c.log[m..])
    requires Chained(flushed, g1) && Chained(switched, g2) && count1 <= |g1| && count2 <= |g2|
    requires WhollyInside(crc, EncodeGroups(g1), older, count1) && WhollyInside(crc, EncodeGroups(g2), newer, count2)
    requires ReachesSyncs(crc, EncodeGroups(g1), c.synced, k, older)
    requires ReachesSyncs(crc, EncodeGroups(g2), c.synced, m, newer)
    requires i < |c.spans| && AsksSync(c, c.spans[i].w)
    ensures c.spans[i].end <= EndBefore(flushed, g1, count1)
         || switched <= c.spans[i].start <= c.spans[i].end <= EndBefore(switched, g2, count2)
  {
    assert InSynced(c, c.spans[i]);
    hide SpansSynced, Linked, Chained, WhollyInside, ReachesSyncs, EncodeGroups, LogEnd, Spells;
    var r: nat :| SyncedAt(c, c.spans[i], r);
    if r < k {
      OlderRecordEnds(h0, c.log, k, r);
      StartIsBefore(flushed, g1, count1);
    } else if r < m {
      assert c.log[..m][k..] == c.log[k..m] && c.log[..m][r] == c.log[r];
      FileRecordEnds(crc, older, order, c.log[..m], c.synced, k, flushed, g1, count1, r);
    } else {
      LaterRecordStarts(h0, c.log, m, r);
      FileRecordEnds(crc, newer, order, c.log, c.synced, m, switched, g2, count2, r);
    }
  }

  lemma {:induction false} LaterRecordStarts(h0: seq<Option<Op>>, log: seq<Record>, m: nat, r: nat)
    requires Linked(|h0|, log) && m <= r < |log|
    ensures log[m].sequence <= log[r].sequence
  {
    LinkedPrefix(|h0|, log, r + 1);
    LinkedAscends(|h0|, log[..r + 1], m);
  }
}
