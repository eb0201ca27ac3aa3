/**
 Recovery as the store sees it: a crash, and then the recovered writes made again, with a flush to level 0 for every
 table that recovery writes.
 */
module RecoverySteps {
  import opened Basics
  import opened InternalKeys
  import opened Tables
  import opened Versions
  import opened Builders
  import opened VersionChanges
  import opened Histories
  import opened Stores
  import opened LogRecovery

  // ----- Writes made again

  /** The writes of a history from a to b; numbers of failed ones are skipped. */
  ghost function Rewrite(h: History, a: nat, b: nat): seq<Action>
    requires a <= b <= |h|
  {
    if a == b then []
    else Rewrite(h, a, b - 1) + [if h[b - 1].Some? then Insert(h[b - 1].value) else Skip(1)]
  }

  lemma RewriteOne(st: Store, h: History, m: nat, b: nat)
    requires |st.version| == NUM_LEVELS && m <= b < |h| && st.history == h[..b] && st.mem == Replay(h, m, b)
    ensures var a := if h[b].Some? then Insert(h[b].value) else Skip(1);
            Enabled(st, a) && Step(st, a) == st.(mem := Replay(h, m, b + 1), history := h[..b + 1])
  {
    hide InsertSorted;
    if h[b].Some? {
      assert h[..b + 1] == h[..b] + [Some(h[b].value)];
    } else {
      assert h[..b + 1] == h[..b] + seq(1, _ => None);
    }
  }

  lemma {:induction false} RewriteLeads(st: Store, h: History, m: nat, a: nat, b: nat)
    requires |st.version| == NUM_LEVELS && m <= a <= b <= |h| && st.history == h[..a] && st.mem == Replay(h, m, a)
    ensures LeadsTo(st, Rewrite(h, a, b), st.(mem := Replay(h, m, b), history := h[..b]))
  {
    if a == b {
      assert LeadsTo(st, [], st);
    } else {
      hide Replay;
      RewriteLeads(st, h, m, a, b - 1);
      var mid := st.(mem := Replay(h, m, b - 1), history := h[..b - 1]);
      RewriteOne(mid, h, m, b - 1);
      var last := if h[b - 1].Some? then Insert(h[b - 1].value) else Skip(1);
      hide LeadsTo, Enabled, Step;
      LeadsToOne(mid, last);
      LeadsOn(st, Rewrite(h, a, b - 1), mid, [last], Step(mid, last));
    }
  }

  // ----- A table

  /** The store after the writes up to position a were flushed, with nothing else going on. */
  ghost predicate AtCut(st: Store, h: History, a: nat) {
    && |st.version| == NUM_LEVELS && a <= |h| && st.history == h[..a] && st.lastSequence == a
    && st.mem == [] && st.imm.None? && st.running.None? && st.snapshots == [] && st.flushed == a == st.switched
  }

  ghost function WithTable(v: Version, number: nat, size: nat, table: seq<Entry>): Version
    requires |v| == NUM_LEVELS && Sorted(table)
  {
    if table == [] then v else AfterFlush(v, 0, File(number, size, table))
  }

  ghost function TableSteps(h: History, a: nat, b: nat, size: nat): seq<Action>
    requires a <= b <= |h|
  {
    Rewrite(h, a, b) + [Publish(b), SwitchMemtable, Flush(0, size)]
  }

  lemma PublishAll(st: Store, b: nat)
    requires |st.version| == NUM_LEVELS && st.lastSequence <= b <= |st.history|
    ensures LeadsTo(st, [Publish(b)], st.(lastSequence := b))
  {
    LeadsToOne(st, Publish(b));
    hide LeadsTo;
  }

  lemma SwitchOne(st: Store)
    requires |st.version| == NUM_LEVELS && st.imm.None?
    ensures LeadsTo(st, [SwitchMemtable],
                    st.(imm := Some(st.mem), mem := [], switched := |st.history|, nextFile := st.nextFile + 1))
  {
    LeadsToOne(st, SwitchMemtable);
    hide LeadsTo;
  }

  lemma FlushOne(st: Store, size: nat)
    requires |st.version| == NUM_LEVELS && st.imm.Some? && Sorted(st.imm.value) && st.running.None?
    ensures LeadsTo(st, [Flush(0, size)],
                    st.(imm := None, flushed := st.switched, nextFile := st.nextFile + 1,
                        version := WithTable(st.version, st.nextFile, size, st.imm.value)))
  {
    assert Enabled(st, Flush(0, size));
    LeadsToOne(st, Flush(0, size));
    hide LeadsTo, AfterFlush, Sorted;
  }

  lemma SwitchAndFlush(st: Store, h: History, b: nat, size: nat)
    requires |st.version| == NUM_LEVELS && b <= |h| && st.history == h[..b] && st.lastSequence <= b && Sorted(st.mem)
    requires st.imm.None? && st.running.None? && st.snapshots == []
    ensures var st' := st.(mem := [], lastSequence := b,
                           version := WithTable(st.version, st.nextFile + 1, size, st.mem),
                           nextFile := st.nextFile + 2, flushed := b, switched := b);
            LeadsTo(st, [Publish(b), SwitchMemtable, Flush(0, size)], st')
  {
    hide LeadsTo, WithTable, Sorted;
    var st1 := st.(lastSequence := b);
    var st2 := st1.(imm := Some(st.mem), mem := [], switched := b, nextFile := st.nextFile + 1);
    var st3 := st.(mem := [], lastSequence := b, version := WithTable(st.version, st.nextFile + 1, size, st.mem),
                   nextFile := st.nextFile + 2, flushed := b, switched := b);
    PublishAll(st, b);
    SwitchOne(st1);
    FlushOne(st2, size);
    LeadsOn(st, [Publish(b)], st1, [SwitchMemtable], st2);
    LeadsOn(st, [Publish(b)] + [SwitchMemtable], st2, [Flush(0, size)], st3);
    assert [Publish(b)] + [SwitchMemtable] + [Flush(0, size)] == [Publish(b), SwitchMemtable, Flush(0, size)];
  }

  lemma TableIsRun(st: Store, h: History, a: nat, b: nat, size: nat) returns (st': Store)
    requires AtCut(st, h, a) && a <= b <= |h|
    ensures LeadsTo(st, TableSteps(h, a, b, size), st') && AtCut(st', h, b) && st'.nextFile == st.nextFile + 2
    ensures Sorted(Replay(h, a, b)) && st'.version == WithTable(st.version, st.nextFile + 1, size, Replay(h, a, b))
  {
    ReplayHoldsLog(h, a, b);
    RewriteLeads(st, h, a, a, b);
    var mid := st.(mem := Replay(h, a, b), history := h[..b]);
    hide LeadsTo, Replay, WithTable, Sorted;
    SwitchAndFlush(mid, h, b, size);
    st' := mid.(mem := [], lastSequence := b, version := WithTable(st.version, st.nextFile + 1, size, mid.mem),
                nextFile := st.nextFile + 2, flushed := b, switched := b);
    LeadsOn(st, Rewrite(h, a, b), mid, [Publish(b), SwitchMemtable, Flush(0, size)], st');
  }

  // ----- All tables

  /** v' is v with every table that is not empty as a file of level 0, later ones under larger numbers. */
  ghost predicate TablesAdded(v: Version, v': Version, number: nat, sizes: seq<nat>, tables: seq<seq<Entry>>) {
    && |v| == |v'| == NUM_LEVELS && |sizes| == |tables|
    && (forall l :: 1 <= l < NUM_LEVELS ==> v'[l] == v[l])
    && forall f :: f in v'[0] <==> f in v[0] || IsTable(f, number, sizes, tables)
  }

  ghost predicate IsTable(f: File, number: nat, sizes: seq<nat>, tables: seq<seq<Entry>>)
    requires |sizes| == |tables|
  {
    exists i :: 0 <= i < |tables| && f.number == number + 2 * i && f.size == sizes[i] && f.entries == tables[i]
  }

  lemma OneMoreTable(v: Version, v': Version, number: nat, sizes: seq<nat>, tables: seq<seq<Entry>>, size: nat,
                     table: seq<Entry>)
    requires TablesAdded(v, v', number, sizes, tables) && Sorted(table)
    ensures TablesAdded(v, WithTable(v', number + 2 * |tables|, size, table), number, sizes + [size], tables + [table])
  {
    var sizes', tables' := sizes + [size], tables + [table];
    var w := WithTable(v', number + 2 * |tables|, size, table);
    forall f: File ensures IsTable(f, number, sizes', tables') <==>
        IsTable(f, number, sizes, tables) ||
        (f.number == number + 2 * |tables| && f.size == size && f.entries == table)
    {
      TableInMore(f, number, sizes, tables, size, table);
    }
    if table != [] {
      SaveLevelMembers(v'[0], {}, [File(number + 2 * |tables|, size, table)]);
    }
    hide SaveLevel, IsTable;
    forall f ensures f in w[0] <==> f in v[0] || IsTable(f, number, sizes', tables') {
    }
  }

  lemma TableInMore(f: File, number: nat, sizes: seq<nat>, tables: seq<seq<Entry>>, size: nat, table: seq<Entry>)
    requires |sizes| == |tables|
    ensures IsTable(f, number, sizes + [size], tables + [table]) <==>
      IsTable(f, number, sizes, tables) || (f.number == number + 2 * |tables| && f.size == size && f.entries == table)
  {
    var sizes', tables' := sizes + [size], tables + [table];
    if IsTable(f, number, sizes, tables) {
      var i :| 0 <= i < |tables| && f.number == number + 2 * i && f.size == sizes[i] && f.entries == tables[i];
      assert sizes'[i] == sizes[i] && tables'[i] == tables[i];
    }
    if f.number == number + 2 * |tables| && f.size == size && f.entries == table {
      assert sizes'[|tables|] == size && tables'[|tables|] == table;
    }
  }

  ghost predicate AllPieces(h: History, tables: seq<seq<Entry>>, cuts: seq<nat>) {
    && |cuts| == |tables| + 1
    && forall i {:trigger tables[i]} :: 0 <= i < |tables| ==> IsPiece(h, tables[i], cuts[i], cuts[i + 1])
  }

  lemma LastPiece(h: History, tables: seq<seq<Entry>>, cuts: seq<nat>)
    requires AllPieces(h, tables, cuts) && tables != []
    ensures var n := |tables| - 1;
            && AllPieces(h, tables[..n], cuts[..n + 1]) && cuts[n] <= cuts[n + 1] <= |h|
            && tables[n] == Replay(h, cuts[n], cuts[n + 1])
  {
    var n := |tables| - 1;
    assert IsPiece(h, tables[n], cuts[n], cuts[n + 1]);
    forall i | 0 <= i < n ensures IsPiece(h, tables[..n][i], cuts[..n + 1][i], cuts[..n + 1][i + 1]) {
      assert IsPiece(h, tables[i], cuts[i], cuts[i + 1]);
    }
  }

  lemma NextTableIsRun(st: Store, h: History, first: seq<Action>, mid: Store, tables: seq<seq<Entry>>,
                       sizes: seq<nat>, a: nat, b: nat, size: nat)
    returns (st': Store)
    requires LeadsTo(st, first, mid) && AtCut(mid, h, a) && a <= b <= |h| && |sizes| == |tables|
    requires TablesAdded(st.version, mid.version, st.nextFile + 1, sizes, tables)
    requires mid.nextFile == st.nextFile + 2 * |tables|
    ensures LeadsTo(st, first + TableSteps(h, a, b, size), st') && AtCut(st', h, b)
    ensures st'.nextFile == st.nextFile + 2 * |tables| + 2
    ensures TablesAdded(st.version, st'.version, st.nextFile + 1, sizes + [size], tables + [Replay(h, a, b)])
  {
    hide LeadsTo, TableSteps, AtCut, WithTable, TablesAdded, Replay, Sorted;
    st' := TableIsRun(mid, h, a, b, size);
    LeadsOn(st, first, mid, TableSteps(h, a, b, size), st');
    OneMoreTable(st.version, mid.version, st.nextFile + 1, sizes, tables, size, Replay(h, a, b));
  }

  lemma {:induction false} TablesAreRun(st: Store, h: History, tables: seq<seq<Entry>>, cuts: seq<nat>, sizes: seq<nat>)
    returns (steps: seq<Action>, st': Store)
    requires AllPieces(h, tables, cuts) && AtCut(st, h, cuts[0]) && |sizes| == |tables|
    ensures |cuts| == |tables| + 1
    ensures LeadsTo(st, steps, st') && AtCut(st', h, cuts[|tables|]) && st'.nextFile == st.nextFile + 2 * |tables|
    ensures TablesAdded(st.version, st'.version, st.nextFile + 1, sizes, tables)
  {
    if tables == [] {
      steps, st' := [], st;
    } else {
      var n := |tables| - 1;
      LastPiece(h, tables, cuts);
      assert |cuts| == n + 2;
      hide LeadsTo, TableSteps, AtCut, TablesAdded, AllPieces, Replay, Sorted;
      assert cuts[..n + 1][0] == cuts[0] && cuts[..n + 1][n] == cuts[n];
      var first, mid := TablesAreRun(st, h, tables[..n], cuts[..n + 1], sizes[..n]);
      st' := NextTableIsRun(st, h, first, mid, tables[..n], sizes[..n], cuts[n], cuts[n + 1], sizes[n]);
      steps := first + TableSteps(h, cuts[n], cuts[n + 1], sizes[n]);
      assert sizes[..n] + [sizes[n]] == sizes && tables[..n] + [tables[n]] == tables;
    }
  }

  // ----- Recovery

  lemma CrashToFlushed(st: Store, h: History, nextFile: nat)
    requires Inv(st) && st.flushed <= |h| && h[..st.flushed] == st.history[..st.flushed]
    requires forall l, f: File :: 0 <= l < |st.version| && f in st.version[l] ==> f.number < nextFile
    ensures Enabled(st, Crash(st.flushed, st.flushed, nextFile))
    ensures var st' := Step(st, Crash(st.flushed, st.flushed, nextFile));
            AtCut(st', h, st.flushed) && st'.version == st.version && st'.nextFile == nextFile
  {
  }

  /**
   Recovery, whatever tables it writes on the way, is a run of the store: a crash that leaves only what was flushed,
   then the recovered writes again, each table flushed to level 0 and the rest in the memtable.  h is the history
   that recovery finds: it may have lost writes the crashed store had made.
   */
  lemma RecoveryIsRun(st: Store, h: History, end: nat, tables: seq<seq<Entry>>, mem: Option<seq<Entry>>,
                      cuts: seq<nat>, sizes: seq<nat>, nextFile: nat)
    returns (steps: seq<Action>, st': Store)
    requires Inv(st) && st.flushed <= |h| && h[..st.flushed] == st.history[..st.flushed]
    requires Rebuilt(h, st.flushed, end, tables, mem, cuts) && |sizes| == |tables|
    requires forall l, f: File :: 0 <= l < |st.version| && f in st.version[l] ==> f.number < nextFile
    ensures LeadsTo(st, steps, st') && Inv(st')
    ensures st'.history == h[..end] && st'.lastSequence == end && st'.flushed == cuts[|tables|]
    ensures st'.mem == Contents(mem) && st'.imm.None? && st'.running.None? && st'.snapshots == []
    ensures TablesAdded(st.version, st'.version, nextFile + 1, sizes, tables)
  {
    var crash := Crash(st.flushed, st.flushed, nextFile);
    CrashToFlushed(st, h, nextFile);
    LeadsToOne(st, crash);
    var st1 := Step(st, crash);
    hide Inv, Enabled, Step, LeadsTo, TablesAdded;
    var more, st2 := TablesAreRun(st1, h, tables, cuts, sizes);
    LeadsOn(st, [crash], st1, more, st2);
    var last, st3 := RestIsRun(st2, h, cuts[|tables|], end);
    assert mem.None? ==> Replay(h, end, end) == [];
    LeadsOn(st, [crash] + more, st2, last, st3);
    LeadsToKeepsInv(st, [crash] + more + last, st3);
    steps, st' := [crash] + more + last, st3;
  }

  lemma RestIsRun(st: Store, h: History, a: nat, b: nat) returns (steps: seq<Action>, st': Store)
    requires AtCut(st, h, a) && a <= b <= |h|
    ensures LeadsTo(st, steps, st') && st' == st.(mem := Replay(h, a, b), history := h[..b], lastSequence := b)
  {
    RewriteLeads(st, h, a, a, b);
    var mid := st.(mem := Replay(h, a, b), history := h[..b]);
    hide LeadsTo, Replay;
    PublishAll(mid, b);
    st' := mid.(lastSequence := b);
    steps := Rewrite(h, a, b) + [Publish(b)];
    LeadsOn(st, Rewrite(h, a, b), mid, [Publish(b)], st');
  }
}
