/**
 The history of writes, the simple thing every read must agree with, and how entries represent it.
 */
module Histories {
  import opened Basics
  import opened InternalKeys
  import opened Tables

  datatype Op = OpPut(user: UserKey, value: Bytes) | OpDelete(user: UserKey)

  /** Position i holds the write with sequence i + 1, or None if the write failed or was lost in a crash, but
      not its number. */
  type History = h: seq<Option<Op>> | |h| < MAX_SEQUENCE

  function EntryOf(op: Op, s: SequenceNumber): Entry {
    match op
    case OpPut(u, v) => Entry(InternalKey(u, s, Put), v)
    case OpDelete(u) => Entry(InternalKey(u, s, Deletion), [])
  }

  function Somes(ops: seq<Op>): seq<Option<Op>> {
    seq(|ops|, i requires 0 <= i < |ops| => Some(ops[i]))
  }

  function Nones(n: nat): seq<Option<Op>> {
    seq(n, _ => None)
  }

  predicate Touches(h: History, i: nat, u: UserKey)
    requires i < |h|
  {
    h[i].Some? && h[i].value.user == u
  }

  /** What user key u holds after the first s writes: the last write that touches u decides. */
  function ReadHistory(h: History, u: UserKey, s: nat): Option<Bytes>
    requires s <= |h|
  {
    if s == 0 then None
    else if Touches(h, s - 1, u) then (if h[s - 1].value.OpPut? then Some(h[s - 1].value.value) else None)
    else ReadHistory(h, u, s - 1)
  }

  function Min(a: nat, b: nat): nat {
    if a <= b then a else b
  }

  /** The entries of the writes at positions [a..b). */
  function LogEntries(h: History, a: nat, b: nat): set<Entry>
    requires b <= |h|
  {
    set i | a <= i < b && h[i].Some? :: EntryOf(h[i].value, i + 1)
  }

  lemma {:induction false} ReadHistoryOfPrefix(h: History, h': History, u: UserKey, s: nat)
    requires s <= |h| && s <= |h'| && h[..s] == h'[..s]
    ensures ReadHistory(h, u, s) == ReadHistory(h', u, s)
  {
    if s > 0 {
      assert h[s - 1] == h[..s][s - 1] && h'[s - 1] == h'[..s][s - 1];
      assert h[..s - 1] == h[..s][..s - 1] && h'[..s - 1] == h'[..s][..s - 1];
      ReadHistoryOfPrefix(h, h', u, s - 1);
    }
  }

  lemma LogEntriesOfPrefix(h: History, h': History, a: nat, b: nat)
    requires b <= |h| && b <= |h'| && h[..b] == h'[..b]
    ensures LogEntries(h, a, b) == LogEntries(h', a, b)
  {
    forall i | 0 <= i < b ensures h[i] == h'[i] {
      assert h[i] == h[..b][i] && h'[i] == h'[..b][i];
    }
  }

  lemma LogEntriesSnoc(h: History, a: nat, b: nat)
    requires a <= b < |h|
    ensures LogEntries(h, a, b + 1)
         == LogEntries(h, a, b) + if h[b].Some? then {EntryOf(h[b].value, b + 1)} else {}
  {
  }

  lemma LogEntriesSplit(h: History, a: nat, m: nat, b: nat)
    requires a <= m <= b <= |h|
    ensures LogEntries(h, a, b) == LogEntries(h, a, m) + LogEntries(h, m, b)
  {
  }

  lemma LogEntriesBounds(h: History, a: nat, b: nat)
    requires b <= |h|
    ensures forall e :: e in LogEntries(h, a, b) ==> a < e.key.sequence <= b
    ensures Distinct(LogEntries(h, a, b))
  {
  }

  lemma LogExtendsDistinct(E: set<Entry>, h: History, a: nat, b: nat)
    requires a <= b <= |h| && Distinct(E) && forall e :: e in E ==> e.key.sequence <= a
    ensures Distinct(E + LogEntries(h, a, b))
    ensures forall e :: e in E + LogEntries(h, a, b) ==> e.key.sequence <= b
  {
    LogEntriesBounds(h, a, b);
  }

  /** Adding the write after position b to entries that represent the writes up to b. */
  lemma OneMoreWrite(F: set<Entry>, G: set<Entry>, h: History, b: nat, u: UserKey, s: nat)
    requires b < |h| && Distinct(G) && (forall e :: e in F ==> e.key.sequence <= b)
    requires G == F + if h[b].Some? then {EntryOf(h[b].value, b + 1)} else {}
    requires View(F, u, s) == ReadHistory(h, u, Min(s, b))
    ensures View(G, u, s) == ReadHistory(h, u, Min(s, b + 1))
  {
    if b < s && Touches(h, b, u) {
      var e := EntryOf(h[b].value, b + 1);
      assert Newest(G, u, s, e);
      ViewOfNewest(G, u, s, e);
    } else {
      ViewDependsOnVisible(F, G, u, s, s);
    }
  }

  /** Entries that represent the first a writes, with later log entries on top, represent the writes up to b. */
  lemma {:induction false} LogExtendsView(E: set<Entry>, h: History, a: nat, b: nat, u: UserKey, s: nat)
    requires a <= b <= |h| && Distinct(E) && forall e :: e in E ==> e.key.sequence <= a
    requires View(E, u, s) == ReadHistory(h, u, Min(s, a))
    ensures View(E + LogEntries(h, a, b), u, s) == ReadHistory(h, u, Min(s, b))
  {
    if a == b {
      assert LogEntries(h, a, b) == {};
      assert E + {} == E;
    } else {
      LogExtendsView(E, h, a, b - 1, u, s);
      OneMoreLogEntry(E, h, a, b - 1, u, s);
    }
  }

  lemma OneMoreLogEntry(E: set<Entry>, h: History, a: nat, b: nat, u: UserKey, s: nat)
    requires a <= b < |h| && Distinct(E) && forall e :: e in E ==> e.key.sequence <= a
    requires View(E + LogEntries(h, a, b), u, s) == ReadHistory(h, u, Min(s, b))
    ensures View(E + LogEntries(h, a, b + 1), u, s) == ReadHistory(h, u, Min(s, b + 1))
  {
    LogEntriesSnoc(h, a, b);
    LogExtendsDistinct(E, h, a, b);
    LogExtendsDistinct(E, h, a, b + 1);
    OneMoreWrite(E + LogEntries(h, a, b), E + LogEntries(h, a, b + 1), h, b, u, s);
  }

  /** Inserting the writes [a..b) one by one into an empty memtable. */
  function Replay(h: History, a: nat, b: nat): seq<Entry>
    requires b <= |h|
  {
    if b <= a then []
    else if h[b - 1].None? then Replay(h, a, b - 1)
    else InsertSorted(Replay(h, a, b - 1), EntryOf(h[b - 1].value, b))
  }

  lemma {:induction false} ReplayHoldsLog(h: History, a: nat, b: nat)
    requires a <= b <= |h|
    ensures Sorted(Replay(h, a, b)) && Elements(Replay(h, a, b)) == LogEntries(h, a, b)
  {
    if a < b {
      hide Replay, LogEntries, Sorted;
      ReplayHoldsLog(h, a, b - 1);
      ReplayOneMore(h, a, b - 1);
    } else {
      assert LogEntries(h, a, b) == {};
    }
  }

  lemma ReplayOneMore(h: History, a: nat, b: nat)
    requires a <= b < |h| && Sorted(Replay(h, a, b)) && Elements(Replay(h, a, b)) == LogEntries(h, a, b)
    ensures Sorted(Replay(h, a, b + 1)) && Elements(Replay(h, a, b + 1)) == LogEntries(h, a, b + 1)
  {
    LogEntriesSnoc(h, a, b);
    if h[b].Some? {
      InsertNewest(h, a, b, Replay(h, a, b), h[b].value);
    }
  }

  /** A memtable that holds the writes up to b takes the next one. */
  lemma InsertNewest(h: History, a: nat, b: nat, mem: seq<Entry>, op: Op)
    requires a <= b <= |h| && Sorted(mem) && Elements(mem) == LogEntries(h, a, b)
    ensures Sorted(InsertSorted(mem, EntryOf(op, b + 1)))
    ensures Elements(InsertSorted(mem, EntryOf(op, b + 1))) == Elements(mem) + {EntryOf(op, b + 1)}
  {
    LogEntriesBounds(h, a, b);
    forall f | f in mem ensures f.key.Tag() != EntryOf(op, b + 1).key.Tag() {
      assert f in Elements(mem);
    }
    InsertSortedKeepsOrder(mem, EntryOf(op, b + 1));
  }
}
