/**
 RecoverLogFile: rebuilding the memtable from a log that a crash may have cut short.
 */
module LogRecovery {
  import opened Basics
  import opened Coding
  import opened WriteBatches
  import opened LogFormat
  import opened LogReaders
  import opened LogRoundTrips
  import opened InternalKeys
  import opened Tables
  import opened Histories
  import Stores
  import Versions

  /** Where the user comparator puts a key. */
  type KeyOrder = Bytes -> UserKey

  function ToOp(order: KeyOrder, u: Update): Op {
    match u
    case Put(key, value) => OpPut(order(key), value)
    case Delete(key) => OpDelete(order(key))
  }

  /** One log record: the batches of a group, and the sequence number before that of its first write. */
  datatype Group = Group(before: nat, updates: seq<Update>) {
    function Last(): nat {
      before + |updates|
    }
  }

  function LastSequence(start: nat, groups: seq<Group>): nat {
    if groups == [] then start else groups[|groups| - 1].Last()
  }

  /** Sequence numbers ascend from group to group; failed writes may have left gaps. */
  ghost predicate Chained(start: nat, groups: seq<Group>) {
    groups == [] ||
      var init, g := groups[..|groups| - 1], groups[|groups| - 1];
      Chained(start, init) && LastSequence(start, init) <= g.before && GroupFits(g)
  }

  ghost predicate GroupFits(g: Group) {
    g.Last() + 1 < MAX_SEQUENCE && |g.updates| <= MAX_UINT32 && AllFit(g.updates)
  }

  function SomeOps(order: KeyOrder, us: seq<Update>): seq<Option<Op>> {
    seq(|us|, i requires 0 <= i < |us| => Some(ToOp(order, us[i])))
  }

  /** The history of writes that the logged groups add to h0; numbers no group used were lost. */
  ghost function HistoryOf(order: KeyOrder, h0: History, groups: seq<Group>): (h: History)
    requires Chained(|h0|, groups)
    ensures |h| == LastSequence(|h0|, groups)
  {
    if groups == [] then h0
    else
      var init, g := groups[..|groups| - 1], groups[|groups| - 1];
      var h := HistoryOf(order, h0, init);
      h + Nones(g.before - |h|) + SomeOps(order, g.updates)
  }

  function EncodeGroups(groups: seq<Group>): seq<Bytes> {
    seq(|groups|, i requires 0 <= i < |groups| => EncodeBatch(groups[i].before + 1, groups[i].updates))
  }

  /** WriteBatchInternal::InsertInto: each update at the next sequence number. */
  function InsertBatch(order: KeyOrder, mem: seq<Entry>, before: nat, us: seq<Update>): seq<Entry>
    requires before + |us| <= MAX_SEQUENCE
  {
    if us == [] then mem
    else
      var n := |us| - 1;
      InsertSorted(InsertBatch(order, mem, before, us[..n]), EntryOf(ToOp(order, us[n]), before + n + 1))
  }

  // ----- A group in the history

  lemma {:induction false} ChainedPrefix(start: nat, groups: seq<Group>, k: nat)
    requires Chained(start, groups) && k <= |groups|
    ensures Chained(start, groups[..k]) && LastSequence(start, groups[..k]) <= LastSequence(start, groups)
  {
    if k < |groups| {
      ChainedPrefix(start, groups[..|groups| - 1], k);
      assert groups[..|groups| - 1][..k] == groups[..k];
    } else {
      assert groups[..k] == groups;
    }
  }

  lemma ChainedNext(start: nat, groups: seq<Group>, k: nat)
    requires Chained(start, groups) && k < |groups|
    ensures Chained(start, groups[..k]) && Chained(start, groups[..k + 1])
    ensures LastSequence(start, groups[..k]) <= groups[k].before && GroupFits(groups[k])
    ensures LastSequence(start, groups[..k + 1]) == groups[k].Last() <= LastSequence(start, groups)
  {
    ChainedPrefix(start, groups, k + 1);
    assert groups[..k + 1][..k] == groups[..k];
  }

  lemma {:induction false} HistoryGrows(order: KeyOrder, h0: History, groups: seq<Group>, k: nat)
    requires Chained(|h0|, groups) && k <= |groups|
    ensures Chained(|h0|, groups[..k])
    ensures HistoryOf(order, h0, groups[..k]) <= HistoryOf(order, h0, groups)
  {
    ChainedPrefix(|h0|, groups, k);
    if k < |groups| {
      HistoryGrows(order, h0, groups[..|groups| - 1], k);
      assert groups[..|groups| - 1][..k] == groups[..k];
    } else {
      assert groups[..k] == groups;
    }
  }

  /** h holds nothing from b on up to the group, and then the group's writes. */
  ghost predicate Holds(order: KeyOrder, h: History, b: nat, g: Group) {
    && b <= g.before && g.Last() <= |h|
    && (forall p :: b <= p < g.before ==> h[p].None?)
    && (forall i :: 0 <= i < |g.updates| ==> h[g.before + i] == Some(ToOp(order, g.updates[i])))
  }

  lemma HoldsLast(order: KeyOrder, h: History, g: Group)
    requires |h| <= g.before && GroupFits(g)
    ensures |h + Nones(g.before - |h|) + SomeOps(order, g.updates)| < MAX_SEQUENCE
    ensures Holds(order, h + Nones(g.before - |h|) + SomeOps(order, g.updates), |h|, g)
  {
  }

  lemma HoldsInLonger(order: KeyOrder, h: History, h': History, b: nat, g: Group)
    requires Holds(order, h, b, g) && h <= h'
    ensures Holds(order, h', b, g)
  {
  }

  lemma GroupInHistory(order: KeyOrder, h0: History, groups: seq<Group>, k: nat)
    requires Chained(|h0|, groups) && k < |groups|
    ensures Holds(order, HistoryOf(order, h0, groups), LastSequence(|h0|, groups[..k]), groups[k])
  {
    ChainedNext(|h0|, groups, k);
    HistoryGrows(order, h0, groups, k + 1);
    assert groups[..k + 1][..k] == groups[..k];
    HoldsLast(order, HistoryOf(order, h0, groups[..k]), groups[k]);
    HoldsInLonger(order, HistoryOf(order, h0, groups[..k + 1]), HistoryOf(order, h0, groups),
                  LastSequence(|h0|, groups[..k]), groups[k]);
  }

  // ----- Replaying a group

  lemma {:induction false} ReplayGap(h: History, a: nat, b: nat, c: nat)
    requires a <= b <= c <= |h| && forall p :: b <= p < c ==> h[p].None?
    ensures Replay(h, a, c) == Replay(h, a, b)
  {
    if b < c {
      ReplayGap(h, a, b, c - 1);
    }
  }

  lemma {:induction false} ReplayBatch(order: KeyOrder, h: History, a: nat, before: nat, us: seq<Update>)
    requires a <= before && before + |us| <= |h|
    requires forall i :: 0 <= i < |us| ==> h[before + i] == Some(ToOp(order, us[i]))
    ensures Replay(h, a, before + |us|) == InsertBatch(order, Replay(h, a, before), before, us)
  {
    hide InsertSorted;
    if us != [] {
      var n := |us| - 1;
      ReplayBatch(order, h, a, before, us[..n]);
      assert h[before + n] == Some(ToOp(order, us[n]));
    }
  }

  /** Inserting a group into the replay of the writes before it gives the replay up to its end. */
  lemma ReplayGroup(order: KeyOrder, h: History, a: nat, b: nat, g: Group)
    requires Holds(order, h, b, g) && a <= b
    ensures Replay(h, a, g.Last()) == InsertBatch(order, Replay(h, a, b), g.before, g.updates)
  {
    hide Replay, InsertBatch;
    ReplayGap(h, a, b, g.before);
    ReplayBatch(order, h, a, g.before, g.updates);
  }

  // ----- RecoverLogFile

  ghost predicate IsPiece(h: History, table: seq<Entry>, from: nat, to: nat) {
    from <= to <= |h| && table == Replay(h, from, to)
  }

  /** The writes (start..end] in pieces: tables flushed on the way, up to each of the cuts, and the memtable. */
  ghost predicate Rebuilt(h: History, start: nat, end: nat, tables: seq<seq<Entry>>, mem: Option<seq<Entry>>,
                          cuts: seq<nat>)
  {
    && |cuts| == |tables| + 1 && cuts[0] == start && cuts[|tables|] <= end <= |h|
    && (forall i {:trigger tables[i]} :: 0 <= i < |tables| ==> IsPiece(h, tables[i], cuts[i], cuts[i + 1]))
    && (if mem.Some? then IsPiece(h, mem.value, cuts[|tables|], end) else cuts[|tables|] == end)
  }

  function Contents(mem: Option<seq<Entry>>): seq<Entry> {
    if mem.Some? then mem.value else []
  }

  /** One more group recovered. */
  lemma RebuildMore(order: KeyOrder, h: History, start: nat, end: nat, tables: seq<seq<Entry>>, mem: Option<seq<Entry>>,
                    cuts: seq<nat>, g: Group)
    requires Rebuilt(h, start, end, tables, mem, cuts) && Holds(order, h, end, g) && GroupFits(g)
    ensures Rebuilt(h, start, g.Last(), tables, Some(InsertBatch(order, Contents(mem), g.before, g.updates)), cuts)
  {
    ReplayGroup(order, h, cuts[|tables|], end, g);
  }

  /** The memtable written out as a table. */
  lemma RebuildFlush(h: History, start: nat, end: nat, tables: seq<seq<Entry>>, mem: seq<Entry>, cuts: seq<nat>)
    requires Rebuilt(h, start, end, tables, Some(mem), cuts)
    ensures Rebuilt(h, start, end, tables + [mem], None, cuts + [end])
  {
    var tables', cuts' := tables + [mem], cuts + [end];
    forall i | 0 <= i < |tables'| ensures IsPiece(h, tables'[i], cuts'[i], cuts'[i + 1]) {
      if i < |tables| {
        assert IsPiece(h, tables[i], cuts[i], cuts[i + 1]);
      }
    }
  }

  /** MemTableInserter: each update is added at the next sequence number. */
  method InsertUpdates(order: KeyOrder, mem: seq<Entry>, sequence: nat, updates: seq<Update>) returns (mem': seq<Entry>)
    requires 0 < sequence && sequence + |updates| <= MAX_SEQUENCE
    ensures mem' == InsertBatch(order, mem, sequence - 1, updates)
  {
    hide InsertSorted;
    mem' := mem;
    for i := 0 to |updates|
      invariant mem' == InsertBatch(order, mem, sequence - 1, updates[..i])
    {
      assert updates[..i + 1][..i] == updates[..i];
      mem' := InsertSorted(mem', EntryOf(ToOp(order, updates[i]), sequence + i));
    }
    assert updates[..|updates|] == updates;
  }

  /** Take a log record apart. */
  method DecodeRecord(record: Bytes, ghost before: nat, ghost us: seq<Update>)
    returns (sequence: nat, count: nat, updates: seq<Update>, status: Status)
    requires before < MAX_SEQUENCE && |us| <= MAX_UINT32 && AllFit(us) && record == EncodeBatch(before + 1, us)
    ensures sequence == before + 1 && count == |us| && updates == us && status == Ok
  {
    BatchRoundTrip(before + 1, us);
    var batch := new WriteBatch.FromContents(record);
    updates, status := batch.Iterate();
    sequence, count := SequenceOf(record), CountOf(record);
  }

  /** Put one log record's updates into the memtable. */
  method InsertRecord(order: KeyOrder, record: Bytes, mem: seq<Entry>, ghost g: Group)
    returns (mem': seq<Entry>, last: nat, status: Status)
    requires GroupFits(g) && record == EncodeBatch(g.before + 1, g.updates)
    ensures status == Ok && last == g.Last() && mem' == InsertBatch(order, mem, g.before, g.updates)
  {
    var sequence, count, updates;
    sequence, count, updates, status := DecodeRecord(record, g.before, g.updates);
    mem' := InsertUpdates(order, mem, sequence, updates);
    last := sequence + count - 1;
  }

  function Max(a: nat, b: nat): (m: nat)
    ensures m >= a && m >= b && (m == a || m == b)
  {
    if a >= b then a else b
  }

  /** The last sequence number used before group k. */
  function EndBefore(start: nat, groups: seq<Group>, k: nat): nat
    requires k <= |groups|
  {
    if k == 0 then start else groups[k - 1].Last()
  }

  /** Each group's writes follow those of the groups before it in the history. */
  ghost predicate Planned(order: KeyOrder, h: History, start: nat, groups: seq<Group>) {
    forall k {:trigger groups[k]} :: 0 <= k < |groups| ==>
      Holds(order, h, EndBefore(start, groups, k), groups[k]) && GroupFits(groups[k])
  }

  lemma PlannedGroup(order: KeyOrder, h: History, start: nat, groups: seq<Group>, k: nat)
    requires Planned(order, h, start, groups) && k < |groups|
    ensures Holds(order, h, EndBefore(start, groups, k), groups[k]) && GroupFits(groups[k])
  {
  }

  lemma HistoryIsPlanned(order: KeyOrder, h0: History, groups: seq<Group>)
    requires Chained(|h0|, groups)
    ensures Planned(order, HistoryOf(order, h0, groups), |h0|, groups)
  {
    forall k | 0 <= k < |groups|
      ensures Holds(order, HistoryOf(order, h0, groups), EndBefore(|h0|, groups, k), groups[k]) && GroupFits(groups[k])
    {
      ChainedNext(|h0|, groups, k);
      GroupInHistory(order, h0, groups, k);
      EndIsLast(|h0|, groups, k);
    }
  }

  lemma EndIsLast(start: nat, groups: seq<Group>, k: nat)
    requires k <= |groups|
    ensures EndBefore(start, groups, k) == LastSequence(start, groups[..k])
  {
  }

  /** The first count groups are recovered. */
  ghost predicate Recovered(h: History, start: nat, groups: seq<Group>, count: nat, maxSequence0: nat,
                            tables: seq<seq<Entry>>, mem: Option<seq<Entry>>, maxSequence: nat, cuts: seq<nat>)
  {
    && count <= |groups|
    && Rebuilt(h, start, EndBefore(start, groups, count), tables, mem, cuts)
    && maxSequence == if count == 0 then maxSequence0 else Max(maxSequence0, EndBefore(start, groups, count))
  }

  lemma RecoverMore(order: KeyOrder, h: History, start: nat, groups: seq<Group>, count: nat, maxSequence0: nat,
                    tables: seq<seq<Entry>>, mem: Option<seq<Entry>>, maxSequence: nat, cuts: seq<nat>, g: Group)
    requires count < |groups| && g == groups[count] && Holds(order, h, EndBefore(start, groups, count), g)
    requires GroupFits(g)
    requires Recovered(h, start, groups, count, maxSequence0, tables, mem, maxSequence, cuts)
    ensures Recovered(h, start, groups, count + 1, maxSequence0, tables,
                      Some(InsertBatch(order, Contents(mem), g.before, g.updates)), Max(maxSequence, g.Last()), cuts)
  {
    RebuildMore(order, h, start, EndBefore(start, groups, count), tables, mem, cuts, g);
  }

  /** How much memory a memtable takes, and how much it may. */
  datatype WriteBuffer = WriteBuffer(usage: seq<Entry> -> nat, size: nat)

  /** Only full memtables became tables, and the one that is left is not full. */
  ghost predicate FlushedWhenFull(buffer: WriteBuffer, tables: seq<seq<Entry>>, mem: Option<seq<Entry>>) {
    && (forall t :: t in tables ==> buffer.usage(t) > buffer.size)
    && (mem.Some? ==> buffer.usage(mem.value) <= buffer.size)
  }

  /** Write the memtable out as a table if it is full. */
  method FlushIfFull(buffer: WriteBuffer, tables: seq<seq<Entry>>, mem: seq<Entry>, ghost maxSequence: nat,
                     ghost cuts: seq<nat>, ghost h: History, ghost start: nat, ghost groups: seq<Group>,
                     ghost count: nat, ghost maxSequence0: nat)
    returns (tables': seq<seq<Entry>>, mem': Option<seq<Entry>>, ghost cuts': seq<nat>)
    requires Recovered(h, start, groups, count, maxSequence0, tables, Some(mem), maxSequence, cuts)
    requires FlushedWhenFull(buffer, tables, None)
    ensures Recovered(h, start, groups, count, maxSequence0, tables', mem', maxSequence, cuts')
    ensures FlushedWhenFull(buffer, tables', mem')
  {
    if buffer.usage(mem) > buffer.size {
      ghost var end := EndBefore(start, groups, count);
      RebuildFlush(h, start, end, tables, mem, cuts);
      return tables + [mem], None, cuts + [end];
    }
    return tables, Some(mem), cuts;
  }

  /** Insert a record; write the memtable out as a table if it is full. */
  method RecoverRecord(order: KeyOrder, buffer: WriteBuffer, record: Bytes, tables: seq<seq<Entry>>,
                       mem: Option<seq<Entry>>, maxSequence: nat, ghost cuts: seq<nat>,
                       ghost h: History, ghost start: nat, ghost groups: seq<Group>, ghost count: nat,
                       ghost maxSequence0: nat)
    returns (tables': seq<seq<Entry>>, mem': Option<seq<Entry>>, maxSequence': nat, ghost cuts': seq<nat>)
    requires Planned(order, h, start, groups) && count < |groups|
    requires record == EncodeBatch(groups[count].before + 1, groups[count].updates)
    requires Recovered(h, start, groups, count, maxSequence0, tables, mem, maxSequence, cuts)
    requires FlushedWhenFull(buffer, tables, mem)
    ensures Recovered(h, start, groups, count + 1, maxSequence0, tables', mem', maxSequence', cuts')
    ensures FlushedWhenFull(buffer, tables', mem')
  {
    hide Rebuilt, Planned, Holds, EncodeBatch, InsertBatch, AllFit;
    ghost var g := groups[count];
    PlannedGroup(order, h, start, groups, count);
    RecoverMore(order, h, start, groups, count, maxSequence0, tables, mem, maxSequence, cuts, g);
    var m, last, status := InsertRecord(order, record, Contents(mem), g);
    maxSequence' := Max(maxSequence, last);
    tables', mem', cuts' :=
      FlushIfFull(buffer, tables, m, maxSequence', cuts, h, start, groups, count + 1, maxSequence0);
  }

  /** The reader's next record is that of group n, or the log ends before it. */
  ghost predicate Reads(reader: LogReader, groups: seq<Group>, n: nat, record: Option<Bytes>)
    reads reader
  {
    if record.Some? then
      && n < |groups| && record.value == EncodeBatch(groups[n].before + 1, groups[n].updates)
      && HasRead(reader, reader.crc, EncodeGroups(groups), n + 1)
    else WhollyInside(reader.crc, EncodeGroups(groups), |reader.file|, n)
  }

  method ReadGroup(reader: LogReader, ghost groups: seq<Group>, ghost n: nat) returns (record: Option<Bytes>)
    requires HasRead(reader, reader.crc, EncodeGroups(groups), n)
    modifies reader
    ensures Reads(reader, groups, n, record)
  {
    ghost var records := EncodeGroups(groups);
    record := ReadNext(reader, records, n);
    if n < |groups| {
      EncodedGroup(groups, n);
    }
  }

  lemma EncodedGroup(groups: seq<Group>, n: nat)
    requires n < |groups|
    ensures |EncodeGroups(groups)| == |groups|
    ensures EncodeGroups(groups)[n] == EncodeBatch(groups[n].before + 1, groups[n].updates)
  {
  }

  /** The loop of RecoverLogFile: read records until the log ends, insert their updates, and write full
      memtables out as tables. */
  method RecoverRecords(reader: LogReader, order: KeyOrder, buffer: WriteBuffer, maxSequence0: nat, ghost h: History,
                        ghost start: nat, ghost groups: seq<Group>)
    returns (tables: seq<seq<Entry>>, mem: Option<seq<Entry>>, maxSequence: nat, ghost count: nat, ghost cuts: seq<nat>)
    requires Planned(order, h, start, groups) && start <= |h|
    requires HasRead(reader, reader.crc, EncodeGroups(groups), 0)
    modifies reader
    ensures WhollyInside(reader.crc, EncodeGroups(groups), |reader.file|, count)
    ensures Recovered(h, start, groups, count, maxSequence0, tables, mem, maxSequence, cuts)
    ensures FlushedWhenFull(buffer, tables, mem)
  {
    hide Planned, HasRead, WhollyInside;
    tables, mem, maxSequence, count, cuts := [], None, maxSequence0, 0, [start];
    var record := ReadGroup(reader, groups, 0);
    while record.Some?
      invariant count <= |groups| && Reads(reader, groups, count, record)
      invariant Recovered(h, start, groups, count, maxSequence0, tables, mem, maxSequence, cuts)
      invariant FlushedWhenFull(buffer, tables, mem)
      decreases |groups| - count
    {
      tables, mem, maxSequence, cuts :=
        RecoverRecord(order, buffer, record.value, tables, mem, maxSequence, cuts, h, start, groups, count,
                      maxSequence0);
      count := count + 1;
      record := ReadGroup(reader, groups, count);
    }
  }

  /** A log cut off by a crash gives back the writes of the groups wholly in it, with their sequence numbers. */
  method RecoverLogFile(crc: Checksum, file: Bytes, order: KeyOrder, buffer: WriteBuffer, maxSequence0: nat,
                        ghost h0: History, ghost groups: seq<Group>)
    returns (tables: seq<seq<Entry>>, mem: Option<seq<Entry>>, maxSequence: nat, ghost count: nat, ghost cuts: seq<nat>)
    requires Chained(|h0|, groups) && file <= LogOf(crc, EncodeGroups(groups))
    ensures WhollyInside(crc, EncodeGroups(groups), |file|, count)
    ensures Recovered(HistoryOf(order, h0, groups), |h0|, groups, count, maxSequence0, tables, mem, maxSequence, cuts)
    ensures FlushedWhenFull(buffer, tables, mem)
  {
    HistoryIsPlanned(order, h0, groups);
    HistoryGrows(order, h0, groups, 0);
    assert groups[..0] == [] && EncodeGroups(groups)[..0] == [];
    var reader := new LogReader(crc, file);
    tables, mem, maxSequence, count, cuts :=
      RecoverRecords(reader, order, buffer, maxSequence0, HistoryOf(order, h0, groups), |h0|, groups);
  }

  // ----- What is recovered

  ghost function EntriesIn(tables: seq<seq<Entry>>): set<Entry> {
    if tables == [] then {} else EntriesIn(tables[..|tables| - 1]) + Elements(tables[|tables| - 1])
  }

  lemma {:induction false} TablesHoldLog(h: History, tables: seq<seq<Entry>>, cuts: seq<nat>)
    requires |cuts| == |tables| + 1
    requires forall i {:trigger tables[i]} :: 0 <= i < |tables| ==> IsPiece(h, tables[i], cuts[i], cuts[i + 1])
    requires cuts[|tables|] <= |h|
    ensures cuts[0] <= cuts[|tables|]
    ensures EntriesIn(tables) == LogEntries(h, cuts[0], cuts[|tables|])
  {
    if tables == [] {
      assert LogEntries(h, cuts[0], cuts[0]) == {};
    } else {
      var n := |tables| - 1;
      assert IsPiece(h, tables[n], cuts[n], cuts[n + 1]);
      TablesHoldLog(h, tables[..n], cuts[..n + 1]);
      ReplayHoldsLog(h, cuts[n], cuts[n + 1]);
      LogEntriesSplit(h, cuts[0], cuts[n], cuts[n + 1]);
    }
  }

  /** The recovered tables and memtable hold exactly the entries of the recovered writes. */
  lemma RebuiltHoldsLog(h: History, start: nat, end: nat, tables: seq<seq<Entry>>, mem: Option<seq<Entry>>,
                        cuts: seq<nat>)
    requires Rebuilt(h, start, end, tables, mem, cuts)
    ensures start <= end && EntriesIn(tables) + Elements(Contents(mem)) == LogEntries(h, start, end)
  {
    var last := cuts[|tables|];
    TablesHoldLog(h, tables, cuts);
    LogEntriesSplit(h, start, last, end);
    if mem.Some? {
      ReplayHoldsLog(h, last, end);
    } else {
      assert LogEntries(h, last, end) == {};
    }
  }

  /** After recovery from a log cut at any byte, every reader sees the history up to the end of the last
      group wholly in the log. */
  lemma RecoveredReadsHistory(st: Stores.Store, groups: seq<Group>, count: nat, maxSequence0: nat,
                              tables: seq<seq<Entry>>, mem: Option<seq<Entry>>, maxSequence: nat, cuts: seq<nat>,
                              u: UserKey, s: nat)
    requires Stores.Inv(st) && st.flushed <= s
    requires Recovered(st.history, st.flushed, groups, count, maxSequence0, tables, mem, maxSequence, cuts)
    ensures View(Versions.VersionEntries(st.version) + (EntriesIn(tables) + Elements(Contents(mem))), u, s)
         == ReadHistory(st.history, u, Histories.Min(s, EndBefore(st.flushed, groups, count)))
  {
    var end := EndBefore(st.flushed, groups, count);
    RebuiltHoldsLog(st.history, st.flushed, end, tables, mem, cuts);
    Stores.FilesRepresentFromFlushed(st, u, s);
    LogExtendsView(Versions.VersionEntries(st.version), st.history, st.flushed, end, u, s);
  }

  /** Recovery without a flush is the crash step of the store, at the end of the last whole group. */
  lemma RecoveryIsCrashStep(st: Stores.Store, groups: seq<Group>, count: nat, maxSequence0: nat,
                            mem: Option<seq<Entry>>, maxSequence: nat, cuts: seq<nat>, nextFile: nat)
    requires Stores.Inv(st)
    requires Recovered(st.history, st.flushed, groups, count, maxSequence0, [], mem, maxSequence, cuts)
    requires forall l, f: File :: 0 <= l < |st.version| && f in st.version[l] ==> f.number < nextFile
    ensures var kept := EndBefore(st.flushed, groups, count);
            && Stores.Enabled(st, Stores.Crash(kept, kept, nextFile))
            && Stores.Step(st, Stores.Crash(kept, kept, nextFile)).mem == Contents(mem)
  {
    var kept := EndBefore(st.flushed, groups, count);
    RebuiltHoldsLog(st.history, st.flushed, kept, [], mem, cuts);
    assert mem.None? ==> Replay(st.history, st.flushed, kept) == [];
  }
}
