/**
 From group commit to recovery: whatever the writers did, and wherever the crash cut the log, the recovered
 memtables hold a prefix of the store's own history.
 */
module RecoveredRuns {
  import opened Basics
  import opened InternalKeys
  import opened Histories
  import opened GroupCommit
  import opened CommitLogs
  import opened WriteBatches
  import opened LogFormat
  import opened LogRoundTrips
  import opened LogRecovery
  import opened Tables
  import Stores

  // ----- The log as bytes

  /** The groups are the log records with keys and values spelled out. */
  ghost predicate Spells(order: KeyOrder, groups: seq<Group>, log: seq<Record>) {
    && |groups| == |log|
    && forall i :: 0 <= i < |log| ==> SpellsRecord(order, groups[i], log[i])
  }

  ghost predicate SpellsRecord(order: KeyOrder, g: Group, r: Record) {
    GroupFits(g) && g.before + 1 == r.sequence && SomeOps(order, g.updates) == Somes(r.ops)
  }

  lemma SpelledSize(order: KeyOrder, g: Group, r: Record)
    requires SpellsRecord(order, g, r)
    ensures |g.updates| == |r.ops|
  {
    assert |SomeOps(order, g.updates)| == |Somes(r.ops)|;
  }

  lemma {:induction false} SpelledHistory(order: KeyOrder, h0: History, groups: seq<Group>, log: seq<Record>)
    requires Spells(order, groups, log) && Linked(|h0|, log)
    ensures Chained(|h0|, groups) && LastSequence(|h0|, groups) == LogEnd(|h0|, log)
    ensures HistoryOf(order, h0, groups) == LogHistory(h0, log)
  {
    if log != [] {
      var n := |log| - 1;
      hide GroupFits;
      SpelledHistory(order, h0, groups[..n], log[..n]);
      assert SpellsRecord(order, groups[n], log[n]);
      SpelledSize(order, groups[n], log[n]);
    }
  }

  // ----- The part of the log behind a flush

  lemma {:induction false} LinkedAscends(start: nat, log: seq<Record>, k: nat)
    requires Linked(start, log) && k < |log|
    ensures log[k].sequence <= log[|log| - 1].sequence
  {
    if k < |log| - 1 {
      LinkedAscends(start, Init(log), k);
      assert Init(log)[k] == log[k];
    }
  }

  lemma AccountedBefore(h0: seq<Option<Op>>, log: seq<Record>, h: seq<Option<Op>>)
    requires log != [] && Accounted(h0, log, h)
    ensures Last(log).sequence - 1 <= |h| && Last(log).sequence > 0
    ensures Accounted(h0, Init(log), h[..Last(log).sequence - 1])
    ensures h[..Last(log).sequence - 1] + Somes(Last(log).ops) <= h
    ensures forall p :: Last(log).sequence - 1 + |Last(log).ops| <= p < |h| ==> h[p].None?
  {
    LastLogged(h0, log);
    var l := LogHistory(h0, Init(log));
    var n := Last(log).sequence - 1;
    assert LogHistory(h0, log)[..n] == l + Nones(n - |l|);
    assert h[..n] == LogHistory(h0, log)[..n];
  }

  lemma AccountedLonger(h0: seq<Option<Op>>, log: seq<Record>, h: seq<Option<Op>>, h': seq<Option<Op>>)
    requires Accounted(h0, log, h) && h <= h' && forall p :: |h| <= p < |h'| ==> h'[p].None?
    ensures Accounted(h0, log, h')
  {
    forall p | |LogHistory(h0, log)| <= p < |h'| ensures h'[p].None? {
      assert p < |h| ==> h'[p] == h[p];
    }
  }

  /** A log file that starts behind some records accounts for the history behind them. */
  lemma {:induction false} AccountedFrom(h0: seq<Option<Op>>, log: seq<Record>, h: seq<Option<Op>>, k: nat, b: nat)
    requires Accounted(h0, log, h) && k <= |log| && b <= |h|
    requires LogEnd(|h0|, log[..k]) <= b && (k < |log| ==> b < log[k].sequence)
    ensures Accounted(h[..b], log[k..], h)
  {
    if k == |log| {
      assert log[..k] == log && log[k..] == [];
    } else {
      var init, r := Init(log), Last(log);
      var h' := h[..r.sequence - 1];
      LinkedAscends(|h0|, log, k);
      AccountedBefore(h0, log, h);
      assert init[..k] == log[..k] && h'[..b] == h[..b];
      AccountedFrom(h0, init, h', k, b);
      AccountedMore(h[..b], init[k..], h', r);
      assert init[k..] + [r] == log[k..];
      AccountedLonger(h[..b], log[k..], h' + Somes(r.ops), h);
    }
  }

  // ----- Recovery

  lemma {:induction false} ReplayOfPrefix(h: History, h': History, a: nat, b: nat)
    requires h <= h' && b <= |h|
    ensures Replay(h, a, b) == Replay(h', a, b)
  {
    hide InsertSorted;
    if a < b {
      ReplayOfPrefix(h, h', a, b - 1);
    }
  }

  lemma RecoveredInLonger(h: History, h': History, start: nat, groups: seq<Group>, count: nat, maxSequence0: nat,
                          tables: seq<seq<Entry>>, mem: Option<seq<Entry>>, maxSequence: nat, cuts: seq<nat>)
    requires h <= h' && Recovered(h, start, groups, count, maxSequence0, tables, mem, maxSequence, cuts)
    ensures Recovered(h', start, groups, count, maxSequence0, tables, mem, maxSequence, cuts)
  {
    forall i | 0 <= i < |tables| ensures IsPiece(h', tables[i], cuts[i], cuts[i + 1]) {
      assert IsPiece(h, tables[i], cuts[i], cuts[i + 1]);
      ReplayOfPrefix(h, h', cuts[i], cuts[i + 1]);
    }
    if mem.Some? {
      ReplayOfPrefix(h, h', cuts[|tables|], EndBefore(start, groups, count));
    }
  }

  /** The log of a run in which no group of writes failed to sync, from the k-th record on. */
  ghost predicate LogFrom(run: seq<State>, events: seq<Event>, k: nat, b: nat) {
    && IsRun(run, events) && k <= |run[|events|].log|
    && (!run[|events|].unsynced || (run[|events|].log != [] && Last(run[|events|].log).ops == []))
    && LogEnd(|run[0].history|, run[|events|].log[..k]) <= b
    && (k < |run[|events|].log| ==> b < run[|events|].log[k].sequence)
  }

  lemma SpelledFrom(run: seq<State>, events: seq<Event>, k: nat, st: Stores.Store, order: KeyOrder, groups: seq<Group>)
    requires LogFrom(run, events, k, st.flushed) && st.flushed <= |st.history|
    requires var c := run[|events|];
      c.lastSequence <= |c.history| && (Unpublished(c) ==> c.log != []) && st.history == Completed(c)
    requires Spells(order, groups, run[|events|].log[k..])
    ensures Chained(st.flushed, groups) && HistoryOf(order, st.history[..st.flushed], groups) <= st.history
  {
    var c := run[|events|];
    LogGivesHistory(run, events);
    AccountedFrom(run[0].history, c.log, st.history, k, st.flushed);
    SpelledHistory(order, st.history[..st.flushed], groups, c.log[k..]);
  }

  /** One log file, which holds what the history has behind start. */
  method RecoverFrom(crc: Checksum, file: Bytes, order: KeyOrder, buffer: WriteBuffer, maxSequence0: nat,
                     ghost h: History, ghost start: nat, ghost groups: seq<Group>)
    returns (tables: seq<seq<Entry>>, mem: Option<seq<Entry>>, maxSequence: nat, ghost count: nat, ghost cuts: seq<nat>)
    requires start <= |h| && Chained(start, groups) && HistoryOf(order, h[..start], groups) <= h
    requires file <= LogOf(crc, EncodeGroups(groups))
    ensures WhollyInside(crc, EncodeGroups(groups), |file|, count)
    ensures Recovered(h, start, groups, count, maxSequence0, tables, mem, maxSequence, cuts)
    ensures FlushedWhenFull(buffer, tables, mem)
  {
    hide Recovered, FlushedWhenFull, LogOf, WhollyInside, Chained, HistoryOf, EncodeGroups;
    ghost var h0 := h[..start];
    tables, mem, maxSequence, count, cuts := RecoverLogFile(crc, file, order, buffer, maxSequence0, h0, groups);
    RecoveredInLonger(HistoryOf(order, h0, groups), h, start, groups, count, maxSequence0, tables, mem, maxSequence,
                      cuts);
  }

  /**
   Recovery of a log, cut anywhere, that the writers of any interleaving wrote: what is rebuilt is the store's
   history from the last flush to the end of the last group wholly in the file.  A group whose record is
   complete counts as inserted, whether or not the crash came before it was.
   */
  method RecoverRun(crc: Checksum, file: Bytes, order: KeyOrder, buffer: WriteBuffer, maxSequence0: nat,
                    ghost run: seq<State>, ghost events: seq<Event>, ghost k: nat, ghost st: Stores.Store,
                    ghost groups: seq<Group>)
    returns (tables: seq<seq<Entry>>, mem: Option<seq<Entry>>, maxSequence: nat, ghost count: nat, ghost cuts: seq<nat>)
    requires LogFrom(run, events, k, st.flushed) && st.flushed <= |st.history|
    requires var c := run[|events|];
      c.lastSequence <= |c.history| && (Unpublished(c) ==> c.log != []) && st.history == Completed(c)
    requires Spells(order, groups, run[|events|].log[k..])
    requires file <= LogOf(crc, EncodeGroups(groups))
    ensures WhollyInside(crc, EncodeGroups(groups), |file|, count)
    ensures Recovered(st.history, st.flushed, groups, count, maxSequence0, tables, mem, maxSequence, cuts)
    ensures FlushedWhenFull(buffer, tables, mem)
  {
    hide LogFrom, Spells, Recovered, FlushedWhenFull, LogOf, WhollyInside, Chained, HistoryOf, EncodeGroups, Completed,
      Unpublished;
    SpelledFrom(run, events, k, st, order, groups);
    tables, mem, maxSequence, count, cuts :=
      RecoverFrom(crc, file, order, buffer, maxSequence0, st.history, st.flushed, groups);
  }
}
