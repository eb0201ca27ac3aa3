/**
 Durability: wherever a crash cuts the log behind its last sync, the writes of every writer that asked for a sync and
 was told of success come back.
 */
module Durability {
  import opened Basics
  import opened InternalKeys
  import opened Histories
  import opened GroupCommit
  import opened CommitLogs
  import opened WriteBatches
  import opened LogFormat
  import opened LogRoundTrips
  import opened LogRecovery
  import opened RecoveredRuns
  import Stores

  // ----- What a sync covers

  /** The span is that of its writer's batch within record r, and the log was synced when that was the last one. */
  ghost predicate SyncedAt(c: State, sp: Span, r: nat) {
    && r in c.synced && r < |c.log| && 0 < c.log[r].sequence && sp.w in c.writers
    && Cuts(c.log[r].ops, c.log[r].sequence - 1, sp, OpsOf(c.writers[sp.w]))
  }

  ghost predicate InSynced(c: State, sp: Span) {
    exists r: nat :: SyncedAt(c, sp, r)
  }

  ghost predicate AsksSync(c: State, w: WriterId) {
    w in c.writers && c.writers[w].sync
  }

  /** If any writer of the group asks for a sync, its leader does. */
  ghost predicate LeaderSyncs(c: State, count: nat) {
    forall i :: 0 <= i < count && i < |c.queue| && AsksSync(c, c.queue[i]) ==> AsksSync(c, c.queue[0])
  }

  ghost predicate SpansSynced(c: State) {
    forall i :: 0 <= i < |c.spans| && AsksSync(c, c.spans[i].w) ==> InSynced(c, c.spans[i])
  }

  ghost predicate GroupsSync(c: State) {
    forall w :: w in c.phase && c.phase[w].Writing? ==> LeaderSyncs(c, c.phase[w].count)
  }

  ghost predicate SyncsOk(c: State) {
    SpansSynced(c) && GroupsSync(c) && forall r :: r in c.synced ==> r < |c.log|
  }

  /** What was synced stays synced. */
  lemma SpansStaySynced(c: State, c': State)
    requires SpansSynced(c) && c'.spans == c.spans && c.log <= c'.log && c.synced <= c'.synced
    requires forall i :: 0 <= i < |c.spans| && AsksSync(c', c.spans[i].w) ==>
      AsksSync(c, c.spans[i].w) && c'.writers[c.spans[i].w] == c.writers[c.spans[i].w]
    ensures SpansSynced(c')
  {
    forall i | 0 <= i < |c'.spans| && AsksSync(c', c'.spans[i].w) ensures InSynced(c', c'.spans[i]) {
      var r: nat :| SyncedAt(c, c.spans[i], r);
      assert SyncedAt(c', c'.spans[i], r);
    }
  }

  lemma ArriveKeepsSyncs(c: State, w: WriterId, writer: Writer)
    requires CommitInv(c) && SyncsOk(c) && Can(c, Arrive(w, writer))
    ensures SyncsOk(Next(c, Arrive(w, writer)))
  {
    var c' := Next(c, Arrive(w, writer));
    forall i | 0 <= i < |c.spans| ensures c.spans[i].w != w {
      assert SpanOk(c, c.spans[i]);
    }
    SpansStaySynced(c, c');
    assert w !in c.queue;
    forall x | x in c'.phase && c'.phase[x].Writing? ensures LeaderSyncs(c', c'.phase[x].count) {
      assert InFlight(c, x, c.phase[x]) && LeaderSyncs(c, c.phase[x].count);
      assert forall i :: 0 <= i < |c.queue| ==> c'.queue[i] == c.queue[i];
    }
  }

  lemma FormKeepsSyncs(c: State, w: WriterId, count: nat)
    requires CommitInv(c) && SyncsOk(c) && Can(c, Form(w, count))
    ensures SyncsOk(Next(c, Form(w, count)))
  {
    var c' := Next(c, Form(w, count));
    NobodyWrites(c, w);
    SpansStaySynced(c, c');
    var ws := Members(c, c.queue);
    forall i | 0 <= i < count && AsksSync(c', c'.queue[i]) ensures AsksSync(c', c'.queue[0]) {
      assert i > 0 ==> MayJoin(ws, i);
    }
  }

  /** Steps that leave the queue alone. */
  lemma StayingKeepsSyncs(c: State, e: Event)
    requires SyncsOk(c) && Can(c, e)
    requires e.Sleep? || e.AppendRecord? || e.InsertNext? || e.SyncLog? || e.BackgroundFails? || e.TakeSnapshot?
      || e.ReleaseSnapshot?
    ensures SyncsOk(Next(c, e))
  {
    var c' := Next(c, e);
    SpansStaySynced(c, c');
    forall x | x in c'.phase && c'.phase[x].Writing? ensures LeaderSyncs(c', c'.phase[x].count) {
      assert LeaderSyncs(c, c.phase[x].count);
    }
  }

  /** Steps that take writers off the queue without publishing anything. */
  lemma LeavingKeepsSyncs(c: State, e: Event)
    requires CommitInv(c) && SyncsOk(c) && Can(c, e) && (e.GiveUp? || e.PassNull? || e.LogFails? || e.SyncFails?)
    ensures SyncsOk(Next(c, e))
  {
    LeavingStopsWriting(c, e);
    SpansStaySynced(c, Next(c, e));
  }

  lemma LeavingStopsWriting(c: State, e: Event)
    requires QueueOk(c) && GroupOk(c) && Can(c, e) && (e.GiveUp? || e.PassNull? || e.LogFails? || e.SyncFails?)
    ensures forall x :: x in Next(c, e).phase ==> !Next(c, e).phase[x].Writing?
  {
    if e.GiveUp? || e.PassNull? {
      NobodyWrites(c, e.w);
    } else {
      OnlyWriter(c, e.w);
      hide QueueOk, GroupOk, InFlight;
      assert e.w in c.queue[..c.phase[e.w].count];
    }
  }

  lemma LeaderHasSynced(c: State, w: WriterId, i: nat)
    requires GroupOk(c) && GroupsSync(c) && Can(c, Commit(w)) && i < c.phase[w].count && AsksSync(c, c.queue[i])
    ensures c.log != [] && |c.log| - 1 in c.synced && c.log[|c.log| - 1] == Record(c.lastSequence + 1, c.phase[w].ops)
  {
    OnlyWriter(c, w);
    assert LeaderSyncs(c, c.phase[w].count);
    assert AsksSync(c, c.queue[0]);
  }

  lemma GroupIsSynced(c: State, w: WriterId, sp: Span)
    requires GroupOk(c) && GroupsSync(c) && Can(c, Commit(w))
    requires sp in SpansOf(c, c.queue[..c.phase[w].count], c.lastSequence) && AsksSync(c, sp.w)
    ensures c.log != [] && SyncedAt(c, sp, |c.log| - 1)
  {
    OnlyWriter(c, w);
    var ids := c.queue[..c.phase[w].count];
    assert c.phase[w].ops == AllOps(Members(c, ids));
    hide GroupOk, GroupsSync, Can, InFlight, SpansOf, Cuts;
    SpanWithin(c, ids, c.lastSequence, sp);
    var i: nat :| i < |ids| && ids[i] == sp.w;
    LeaderHasSynced(c, w, i);
  }

  lemma CommitEffects(c: State, w: WriterId)
    requires GroupOk(c) && Can(c, Commit(w))
    ensures var c' := Next(c, Commit(w));
            && c'.spans == c.spans + SpansOf(c, c.queue[..c.phase[w].count], c.lastSequence)
            && c'.writers == c.writers && c'.log == c.log && c'.synced == c.synced
            && forall x :: x in c'.phase ==> !c'.phase[x].Writing?
  {
    OnlyWriter(c, w);
    assert w in c.queue[..c.phase[w].count];
    hide GroupOk, InFlight, SpansOf;
  }

  lemma CommitKeepsSyncs(c: State, w: WriterId)
    requires CommitInv(c) && SyncsOk(c) && Can(c, Commit(w))
    ensures SyncsOk(Next(c, Commit(w)))
  {
    var c' := Next(c, Commit(w));
    CommitEffects(c, w);
    var added := SpansOf(c, c.queue[..c.phase[w].count], c.lastSequence);
    assert GroupOk(c) && GroupsSync(c) && SpansSynced(c);
    hide CommitInv, Can, Next, SpansOf, SpansSynced, GroupOk, SyncedAt;
    forall sp | sp in added && AsksSync(c, sp.w) ensures c.log != [] && SyncedAt(c, sp, |c.log| - 1) {
      GroupIsSynced(c, w, sp);
    }
    MoreSpansSynced(c, c', added);
  }

  lemma MoreSpansSynced(c: State, c': State, added: seq<Span>)
    requires c'.writers == c.writers && c'.log == c.log && c'.synced == c.synced && c'.spans == c.spans + added
    requires SpansSynced(c)
    requires forall sp :: sp in added && AsksSync(c, sp.w) ==> c.log != [] && SyncedAt(c, sp, |c.log| - 1)
    ensures SpansSynced(c')
  {
    forall i | 0 <= i < |c'.spans| && AsksSync(c', c'.spans[i].w) ensures InSynced(c', c'.spans[i]) {
      if i < |c.spans| {
        OlderStaysSynced(c, c', i);
      } else {
        assert c'.spans[i] in added;
        StaysSynced(c, c', c'.spans[i], |c.log| - 1);
      }
    }
  }

  lemma StaysSynced(c: State, c': State, sp: Span, r: nat)
    requires c'.writers == c.writers && c'.log == c.log && c'.synced == c.synced && SyncedAt(c, sp, r)
    ensures InSynced(c', sp)
  {
    assert SyncedAt(c', sp, r);
  }

  lemma OlderStaysSynced(c: State, c': State, i: nat)
    requires c'.writers == c.writers && c'.log == c.log && c'.synced == c.synced
    requires SpansSynced(c) && i < |c.spans| && AsksSync(c, c.spans[i].w)
    ensures InSynced(c', c.spans[i])
  {
    assert InSynced(c, c.spans[i]);
    var r: nat :| SyncedAt(c, c.spans[i], r);
    StaysSynced(c, c', c.spans[i], r);
  }

  lemma NextKeepsSyncs(c: State, e: Event)
    requires CommitInv(c) && SyncsOk(c) && Can(c, e)
    ensures SyncsOk(Next(c, e))
  {
    hide CommitInv, SyncsOk, Can, Next;
    match e
    case Arrive(w, writer) => ArriveKeepsSyncs(c, w, writer);
    case Form(w, count) => FormKeepsSyncs(c, w, count);
    case Commit(w) => CommitKeepsSyncs(c, w);
    case GiveUp(_) => LeavingKeepsSyncs(c, e);
    case PassNull(_) => LeavingKeepsSyncs(c, e);
    case LogFails(_) => LeavingKeepsSyncs(c, e);
    case SyncFails(_) => LeavingKeepsSyncs(c, e);
    case _ => StayingKeepsSyncs(c, e);
  }

  lemma {:induction false} RunsSync(run: seq<State>, events: seq<Event>)
    requires IsRun(run, events)
    ensures SyncsOk(run[|events|])
  {
    if events == [] {
    } else {
      var n := |events| - 1;
      RunsKeepInv(run[..n + 1], events[..n]);
      RunsSync(run[..n + 1], events[..n]);
      hide CommitInv, SyncsOk, Can, Next;
      NextKeepsSyncs(run[n], events[n]);
    }
  }

  // ----- What a log cut behind the syncs holds

  lemma {:induction false} LinkedPrefix(start: nat, log: seq<Record>, n: nat)
    requires Linked(start, log) && n <= |log|
    ensures Linked(start, log[..n])
  {
    if n < |log| {
      LinkedPrefix(start, Init(log), n);
      assert Init(log)[..n] == log[..n];
    } else {
      assert log[..n] == log;
    }
  }

  lemma SliceOfExtension(h: seq<Option<Op>>, h': seq<Option<Op>>, a: nat, b: nat)
    requires a <= b <= |h| && h <= h'
    ensures h'[a..b] == h[a..b]
  {
  }

  /** A record's writes stand in the history of the log at its numbers. */
  lemma {:induction false} RecordInHistory(h0: seq<Option<Op>>, log: seq<Record>, r: nat)
    requires Linked(|h0|, log) && r < |log|
    ensures var a := log[r].sequence - 1;
            0 <= a && a + |log[r].ops| <= |LogHistory(h0, log)|
            && LogHistory(h0, log)[a..a + |log[r].ops|] == Somes(log[r].ops)
  {
    LastLogged(h0, log);
    if r < |log| - 1 {
      var a := log[r].sequence - 1;
      RecordInHistory(h0, Init(log), r);
      assert Init(log)[r] == log[r];
      hide LogHistory;
      SliceOfExtension(LogHistory(h0, Init(log)), LogHistory(h0, log), a, a + |log[r].ops|);
    }
  }

  lemma RunsLink(run: seq<State>, events: seq<Event>)
    requires IsRun(run, events)
    ensures Linked(|run[0].history|, run[|events|].log)
  {
    RunsMatch(run, events);
    hide IsRun, CommitInv;
    MatchGivesHistory(run[0].history, run[|events|]);
  }

  /** The cut keeps every record that was the last one when a sync of the log succeeded. */
  ghost predicate KeepsSynced(c: State, n: nat) {
    n <= |c.log| && forall r :: r in c.synced ==> r < n
  }

  /**
   In every interleaving, and also after errors: once a writer that asked for a sync is told of success, every cut
   of the log behind its syncs holds the whole batch, at consecutive numbers.
   */
  lemma SyncedWritesSurvive(run: seq<State>, events: seq<Event>, n: nat, w: WriterId) returns (at: nat)
    requires IsRun(run, events) && KeepsSynced(run[|events|], n)
    requires var c := run[|events|];
      w in c.phase && c.phase[w] == Done(true) && AsksSync(c, w) && c.writers[w].batch.Some?
    ensures var h0, c := run[0].history, run[|events|];
            var batch := c.writers[w].batch.value;
            && Linked(|h0|, c.log[..n]) && at + |batch| <= |LogHistory(h0, c.log[..n])|
            && LogHistory(h0, c.log[..n])[at..at + |batch|] == Somes(batch)
  {
    RunsKeepInv(run, events);
    RunsSync(run, events);
    RunsLink(run, events);
    var h0, c := run[0].history, run[|events|];
    hide IsRun;
    at := SpanSurvives(h0, c, n, w);
  }

  lemma SyncedSpan(c: State, w: WriterId) returns (i: nat, r: nat)
    requires CommitInv(c) && SyncsOk(c)
    requires w in c.phase && c.phase[w] == Done(true) && AsksSync(c, w) && c.writers[w].batch.Some?
    ensures i < |c.spans| && c.spans[i].w == w && SyncedAt(c, c.spans[i], r)
    ensures c.spans[i].end - c.spans[i].start == |c.writers[w].batch.value|
  {
    assert HasSpan(c.spans, w);
    i :| 0 <= i < |c.spans| && c.spans[i].w == w;
    assert InSynced(c, c.spans[i]);
    hide CommitInv, SyncsOk;
    r :| SyncedAt(c, c.spans[i], r);
  }

  lemma SpanSurvives(h0: seq<Option<Op>>, c: State, n: nat, w: WriterId) returns (at: nat)
    requires CommitInv(c) && SyncsOk(c) && Linked(|h0|, c.log) && KeepsSynced(c, n)
    requires w in c.phase && c.phase[w] == Done(true) && AsksSync(c, w) && c.writers[w].batch.Some?
    ensures var batch := c.writers[w].batch.value;
            && Linked(|h0|, c.log[..n]) && at + |batch| <= |LogHistory(h0, c.log[..n])|
            && LogHistory(h0, c.log[..n])[at..at + |batch|] == Somes(batch)
  {
    hide CommitInv, SyncsOk, Linked, LogHistory, Cuts;
    var i, r := SyncedSpan(c, w);
    LinkedPrefix(|h0|, c.log, n);
    assert c.log[..n][r] == c.log[r];
    RecordInHistory(h0, c.log[..n], r);
    SpanInHistory(LogHistory(h0, c.log[..n]), c.log[r].ops, c.log[r].sequence - 1, c.spans[i],
                  c.writers[w].batch.value);
    at := c.spans[i].start;
  }

  // ----- A log file cut behind its syncs

  lemma EndsAscend(crc: Checksum, records: seq<Bytes>, i: nat, j: nat)
    requires i <= j <= |records|
    ensures EndOf(crc, records, i) <= EndOf(crc, records, j)
  {
    LogGrows(crc, records[..j], i);
    assert records[..j][..i] == records[..i];
  }

  /** The file, which starts with record k of the log, is no shorter than it was at any sync. */
  ghost predicate ReachesSyncs(crc: Checksum, records: seq<Bytes>, synced: set<nat>, k: nat, size: nat) {
    forall r {:trigger r in synced} :: r in synced && k <= r < k + |records| ==> EndOf(crc, records, r - k + 1) <= size
  }

  lemma SyncsAreInside(crc: Checksum, records: seq<Bytes>, synced: set<nat>, k: nat, size: nat, count: nat, r: nat)
    requires WhollyInside(crc, records, size, count) && ReachesSyncs(crc, records, synced, k, size)
    requires r in synced && k <= r < k + |records|
    ensures r - k < count
  {
    if count <= r - k {
      EndsAscend(crc, records, count + 1, r - k + 1);
    }
  }

  /** Every batch written with a sync lies at or before end. */
  ghost predicate SyncedBefore(c: State, end: nat) {
    forall i {:trigger c.spans[i]} :: 0 <= i < |c.spans| && AsksSync(c, c.spans[i].w) ==> c.spans[i].end <= end
  }

  lemma OlderRecordEnds(h0: seq<Option<Op>>, log: seq<Record>, k: nat, r: nat)
    requires Linked(|h0|, log) && r < k <= |log|
    ensures log[r].sequence - 1 + |log[r].ops| <= LogEnd(|h0|, log[..k])
  {
    LinkedPrefix(|h0|, log, k);
    assert log[..k][r] == log[r];
    RecordInHistory(h0, log[..k], r);
  }

  lemma GroupEnds(start: nat, groups: seq<Group>, count: nat, j: nat)
    requires Chained(start, groups) && j < count <= |groups|
    ensures groups[j].Last() <= EndBefore(start, groups, count)
  {
    ChainedPrefix(start, groups, count);
    ChainedPrefix(start, groups[..count], j + 1);
    assert groups[..count][..j + 1] == groups[..j + 1];
  }

  lemma StartIsBefore(start: nat, groups: seq<Group>, count: nat)
    requires Chained(start, groups) && count <= |groups|
    ensures start <= EndBefore(start, groups, count)
  {
    ChainedPrefix(start, groups, count);
    ChainedPrefix(start, groups[..count], 0);
  }

  lemma FileRecordEnds(crc: Checksum, size: nat, order: KeyOrder, log: seq<Record>, synced: set<nat>, k: nat,
                       flushed: nat, groups: seq<Group>, count: nat, r: nat)
    requires k <= r < |log| && r in synced && Spells(order, groups, log[k..]) && Chained(flushed, groups)
    requires WhollyInside(crc, EncodeGroups(groups), size, count)
    requires ReachesSyncs(crc, EncodeGroups(groups), synced, k, size)
    ensures count <= |groups| && log[r].sequence - 1 + |log[r].ops| <= EndBefore(flushed, groups, count)
  {
    EncodedSize(groups);
    assert count <= |groups| && |groups| == |log| - k;
    hide Chained, WhollyInside, ReachesSyncs, EncodeGroups, GroupFits;
    SyncsAreInside(crc, EncodeGroups(groups), synced, k, size, count, r);
    assert log[k..][r - k] == log[r];
    assert SpellsRecord(order, groups[r - k], log[r]);
    SpelledSize(order, groups[r - k], log[r]);
    GroupEnds(flushed, groups, count, r - k);
  }

  lemma SyncedIsRecovered(crc: Checksum, size: nat, order: KeyOrder, h0: seq<Option<Op>>, c: State, k: nat,
                          flushed: nat, groups: seq<Group>, count: nat, i: nat)
    requires SpansSynced(c) && Linked(|h0|, c.log) && k <= |c.log| && LogEnd(|h0|, c.log[..k]) <= flushed
    requires Spells(order, groups, c.log[k..]) && Chained(flushed, groups)
    requires WhollyInside(crc, EncodeGroups(groups), size, count) && count <= |groups|
    requires ReachesSyncs(crc, EncodeGroups(groups), c.synced, k, size)
    requires i < |c.spans| && AsksSync(c, c.spans[i].w)
    ensures c.spans[i].end <= EndBefore(flushed, groups, count)
  {
    assert InSynced(c, c.spans[i]);
    hide SpansSynced, Linked, Chained, WhollyInside, ReachesSyncs, EncodeGroups, LogEnd, Spells;
    var r: nat :| SyncedAt(c, c.spans[i], r);
    if r < k {
      OlderRecordEnds(h0, c.log, k, r);
      StartIsBefore(flushed, groups, count);
    } else {
      FileRecordEnds(crc, size, order, c.log, c.synced, k, flushed, groups, count, r);
    }
  }

  lemma EncodedSize(groups: seq<Group>)
    ensures |EncodeGroups(groups)| == |groups|
  {
  }

  /**
   Recovery of a log file, cut anywhere behind the last sync of it: the recovered part of the store's history
   reaches beyond every batch that was written with a sync.
   */
  method RecoverSynced(crc: Checksum, file: Bytes, order: KeyOrder, buffer: WriteBuffer, maxSequence0: nat,
                       ghost run: seq<State>, ghost events: seq<Event>, ghost k: nat, ghost st: Stores.Store,
                       ghost groups: seq<Group>)
    returns (tables: seq<seq<Entry>>, mem: Option<seq<Entry>>, maxSequence: nat, ghost count: nat, ghost cuts: seq<nat>)
    requires LogFrom(run, events, k, st.flushed) && st.flushed <= |st.history|
    requires var c := run[|events|];
      c.lastSequence <= |c.history| && (Unpublished(c) ==> c.log != []) && st.history == Completed(c)
    requires Spells(order, groups, run[|events|].log[k..])
    requires file <= LogOf(crc, EncodeGroups(groups))
    requires ReachesSyncs(crc, EncodeGroups(groups), run[|events|].synced, k, |file|)
    ensures WhollyInside(crc, EncodeGroups(groups), |file|, count)
    ensures Recovered(st.history, st.flushed, groups, count, maxSequence0, tables, mem, maxSequence, cuts)
    ensures count <= |groups| && SyncedBefore(run[|events|], EndBefore(st.flushed, groups, count))
  {
    ghost var c := run[|events|];
    SpelledFrom(run, events, k, st, order, groups);
    RunsSync(run, events);
    RunsLink(run, events);
    tables, mem, maxSequence, count, cuts :=
      RecoverRun(crc, file, order, buffer, maxSequence0, run, events, k, st, groups);
    AllRecovered(crc, |file|, order, run[0].history, c, k, st.flushed, groups, count);
  }

  lemma AllRecovered(crc: Checksum, size: nat, order: KeyOrder, h0: seq<Option<Op>>, c: State, k: nat, flushed: nat,
                     groups: seq<Group>, count: nat)
    requires SyncsOk(c) && Linked(|h0|, c.log) && k <= |c.log| && LogEnd(|h0|, c.log[..k]) <= flushed
    requires Spells(order, groups, c.log[k..]) && Chained(flushed, groups)
    requires WhollyInside(crc, EncodeGroups(groups), size, count)
    requires ReachesSyncs(crc, EncodeGroups(groups), c.synced, k, size)
    ensures count <= |groups| && SyncedBefore(c, EndBefore(flushed, groups, count))
  {
    EncodedSize(groups);
    assert count <= |groups| && SpansSynced(c);
    hide SyncsOk, SpansSynced, Linked, LogEnd, Spells, Chained, WhollyInside, ReachesSyncs, EncodeGroups;
    forall i | 0 <= i < |c.spans| && AsksSync(c, c.spans[i].w)
      ensures c.spans[i].end <= EndBefore(flushed, groups, count)
    {
      SyncedIsRecovered(crc, size, order, h0, c, k, flushed, groups, count, i);
    }
  }
}
