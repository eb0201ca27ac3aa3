/**
 Group commit: writers queue up, the one at the front logs and applies the batches of a prefix of
 the queue without holding the mutex, and then publishes them all at once.
 */
module GroupCommit {
  import opened Basics
  import opened InternalKeys
  import opened Histories
  import opened Stores

  type WriterId = nat

  /** batch is None for the null batch that only waits for earlier writes; size is its byte size. */
  datatype Writer = Writer(batch: Option<seq<Op>>, size: nat, sync: bool)

  function OpsOf(w: Writer): seq<Op> {
    if w.batch.Some? then w.batch.value else []
  }

  // ----- BuildBatchGroup

  const KIB := 1024
  const MAX_GROUP_SIZE := 1024 * KIB
  const SMALL_WRITE := 128 * KIB

  function MaxSize(first: Writer): nat {
    if first.size <= SMALL_WRITE then first.size + SMALL_WRITE else MAX_GROUP_SIZE
  }

  function TotalSize(ws: seq<Writer>): nat {
    if ws == [] then 0
    else TotalSize(ws[..|ws| - 1]) + if ws[|ws| - 1].batch.Some? then ws[|ws| - 1].size else 0
  }

  function AllOps(ws: seq<Writer>): seq<Op> {
    if ws == [] then [] else AllOps(ws[..|ws| - 1]) + OpsOf(ws[|ws| - 1])
  }

  /** Writer i may join the group of the writers before it. */
  predicate MayJoin(ws: seq<Writer>, i: nat)
    requires 0 < i < |ws|
  {
    (ws[i].sync ==> ws[0].sync) && (ws[i].batch.Some? ==> TotalSize(ws[..i + 1]) <= MaxSize(ws[0]))
  }

  /** The group is the longest prefix in which each writer may join those before it. */
  ghost predicate IsGroup(ws: seq<Writer>, count: nat) {
    && 1 <= count <= |ws|
    && (forall i :: 0 < i < count ==> MayJoin(ws, i))
    && (count < |ws| ==> !MayJoin(ws, count))
  }

  method BuildBatchGroup(ws: seq<Writer>) returns (count: nat, ops: seq<Op>)
    requires ws != [] && ws[0].batch.Some?
    ensures IsGroup(ws, count) && ops == AllOps(ws[..count])
  {
    var first := ws[0];
    ops := first.batch.value;
    var size := first.size;
    var maxSize := MAX_GROUP_SIZE;
    if size <= SMALL_WRITE {
      maxSize := size + SMALL_WRITE;
    }
    count := 1;
    assert ws[..1][..0] == [] && ws[..1] == [first];
    while count < |ws|
      invariant 1 <= count <= |ws| && maxSize == MaxSize(first)
      invariant size == TotalSize(ws[..count]) && ops == AllOps(ws[..count])
      invariant forall i :: 0 < i < count ==> MayJoin(ws, i)
    {
      var w := ws[count];
      assert ws[..count + 1][..count] == ws[..count];
      if w.sync && !first.sync {
        break;
      }
      if w.batch.Some? {
        size := size + w.size;
        if size > maxSize {
          break;
        }
        ops := ops + w.batch.value;
      }
      count := count + 1;
    }
  }

  /** Only a lone first writer may exceed the limit. */
  lemma GroupStaysSmall(ws: seq<Writer>, count: nat)
    requires IsGroup(ws, count) && ws[0].batch.Some?
    ensures TotalSize(ws[..count]) == ws[0].size
         || TotalSize(ws[..count]) <= if ws[0].size <= 131072 then ws[0].size + 131072 else 1048576
  {
    var k := count;
    while k > 1 && ws[k - 1].batch.None?
      invariant 1 <= k <= count && TotalSize(ws[..k]) == TotalSize(ws[..count])
    {
      assert ws[..k][..k - 1] == ws[..k - 1];
      k := k - 1;
    }
    if k > 1 {
      assert MayJoin(ws, k - 1);
    } else {
      assert ws[..1][..0] == [] && ws[..1] == [ws[0]];
    }
  }

  lemma {:induction false} TotalSizeGrows(ws: seq<Writer>, i: nat, k: nat)
    requires i <= k <= |ws|
    ensures TotalSize(ws[..i]) <= TotalSize(ws[..k])
    decreases k
  {
    if i < k {
      TotalSizeGrows(ws, i, k - 1);
      assert ws[..k][..k - 1] == ws[..k - 1];
    }
  }

  /** The first writers all join if none of them wants a sync that the leader does not do, and they stay within
      1 MiB, or 128 KiB more than a leader of at most 128 KiB. */
  lemma GroupTakesAll(ws: seq<Writer>, count: nat, k: nat)
    requires IsGroup(ws, count) && 1 <= k <= |ws|
    requires ws[0].sync || forall i :: 0 <= i < k ==> !ws[i].sync
    requires TotalSize(ws[..k]) <= if ws[0].size <= 131072 then ws[0].size + 131072 else 1048576
    ensures k <= count
  {
    if count < k {
      TotalSizeGrows(ws, count + 1, k);
    }
  }

  // ----- The state

  datatype Phase =
    | Waiting
    | Writing(count: nat, ops: seq<Op>, logged: bool, inserted: nat)
    | Done(ok: bool)

  /** A log record: a batch group with the sequence number of its first write. */
  datatype Record = Record(sequence: nat, ops: seq<Op>)

  /** Writer w's batch is history[start..end]. */
  datatype Span = Span(w: WriterId, start: nat, end: nat)

  /** origin, spans, unsynced and synced are bookkeeping: how much history there was when the database was opened,
      where each successful batch went, whether a sync failed, and which records were the last of the log when a
      sync of it succeeded. */
  datatype State = State(
    origin: nat, history: History, lastSequence: nat, snapshots: seq<nat>, queue: seq<WriterId>,
    writers: map<WriterId, Writer>, phase: map<WriterId, Phase>,
    asleep: set<WriterId>, log: seq<Record>, backgroundError: bool, spans: seq<Span>, unsynced: bool, synced: set<nat>)

  function Members(c: State, ids: seq<WriterId>): seq<Writer>
    requires forall w :: w in ids ==> w in c.writers
  {
    seq(|ids|, i requires 0 <= i < |ids| => c.writers[ids[i]])
  }

  ghost predicate Leads(c: State, w: WriterId) {
    c.queue != [] && c.queue[0] == w && w in c.phase && w in c.writers && w !in c.asleep && c.phase[w].Waiting?
  }

  predicate IsWriting(c: State, w: WriterId) {
    w in c.phase && c.phase[w].Writing? && c.phase[w].count <= |c.queue|
  }

  // ----- Steps

  datatype Event =
    | Arrive(w: WriterId, writer: Writer)
    | Sleep(w: WriterId)
    | GiveUp(w: WriterId)
    | PassNull(w: WriterId)
    | Form(w: WriterId, count: nat)
    | AppendRecord(w: WriterId)
    | InsertNext(w: WriterId)
    | Commit(w: WriterId)
    | LogFails(w: WriterId)
    | SyncLog(w: WriterId)
    | SyncFails(w: WriterId)
    | BackgroundFails
    | TakeSnapshot
    | ReleaseSnapshot(index: nat)

  predicate Room(c: State, n: nat) {
    |c.history| + n < MAX_SEQUENCE
  }

  predicate LastSynced(c: State) {
    c.log != [] && |c.log| - 1 in c.synced
  }

  /** A writer that asked for it has synced the log. */
  predicate SyncedFor(c: State, w: WriterId) {
    w in c.writers && (c.writers[w].sync ==> LastSynced(c))
  }

  /** The record is written, and the writer is to sync the log before it inserts anything. */
  predicate MaySync(c: State, w: WriterId) {
    && IsWriting(c, w) && c.phase[w].logged && c.phase[w].inserted == 0 && c.log != []
    && w in c.writers && c.writers[w].sync && !LastSynced(c)
  }

  ghost predicate Can(c: State, e: Event) {
    match e
    case Arrive(w, writer) => w !in c.phase
    case Sleep(w) => w in c.queue && c.queue[0] != w && w in c.phase && c.phase[w].Waiting?
    case GiveUp(w) => Leads(c, w)
    case PassNull(w) => Leads(c, w) && !c.backgroundError && c.writers[w].batch.None?
    case Form(w, count) =>
      && Leads(c, w) && !c.backgroundError && c.writers[w].batch.Some? && count <= |c.queue|
      && (forall x :: x in c.queue ==> x in c.writers)
      && IsGroup(Members(c, c.queue), count) && Room(c, |AllOps(Members(c, c.queue[..count]))|)
    case AppendRecord(w) => IsWriting(c, w) && !c.phase[w].logged
    case InsertNext(w) =>
      && IsWriting(c, w) && c.phase[w].logged && c.phase[w].inserted < |c.phase[w].ops| && Room(c, 1)
      && SyncedFor(c, w)
    case Commit(w) =>
      && IsWriting(c, w) && c.phase[w].logged && c.phase[w].inserted == |c.phase[w].ops|
      && (forall x :: x in c.queue ==> x in c.writers) && SyncedFor(c, w)
    case LogFails(w) => IsWriting(c, w) && !c.phase[w].logged && Room(c, |c.phase[w].ops|)
    case SyncLog(w) => MaySync(c, w)
    case SyncFails(w) => MaySync(c, w) && Room(c, |c.phase[w].ops|)
    case BackgroundFails => true
    case TakeSnapshot => true
    case ReleaseSnapshot(index) => index < |c.snapshots|
  }

  /** Take the first count writers off the queue with a common status; wake them and the new front. */
  function Pop(c: State, count: nat, ok: bool): State
    requires count <= |c.queue|
  {
    var rest := c.queue[count..];
    c.(queue := rest,
       phase := map w | w in c.phase :: if w in c.queue[..count] then Done(ok) else c.phase[w],
       asleep := set w | w in c.asleep && w !in c.queue[..count] && (rest != [] ==> w != rest[0]))
  }

  /** The spans of the batches of a group whose first write follows position base. */
  function SpansOf(c: State, ids: seq<WriterId>, base: nat): seq<Span>
    requires forall w :: w in ids ==> w in c.writers
  {
    if ids == [] then []
    else
      var n := |ids| - 1;
      SpansOf(c, ids[..n], base)
      + if c.writers[ids[n]].batch.None? then []
        else [Span(ids[n], base + |AllOps(Members(c, ids[..n]))|, base + |AllOps(Members(c, ids))|)]
  }

  /** A group is published by one update of the last sequence number. */
  function Published(c: State, w: WriterId): State
    requires IsWriting(c, w) && forall x :: x in c.queue ==> x in c.writers
  {
    c.(lastSequence := c.lastSequence + |c.phase[w].ops|,
       spans := c.spans + SpansOf(c, c.queue[..c.phase[w].count], c.lastSequence))
  }

  /** A failed group uses up its sequence numbers. */
  function Lost(c: State, n: nat): State
    requires Room(c, n)
  {
    c.(history := c.history + seq(n, _ => None), lastSequence := c.lastSequence + n)
  }

  ghost function Next(c: State, e: Event): State
    requires Can(c, e)
  {
    match e
    case Arrive(w, writer) =>
      c.(queue := c.queue + [w], writers := c.writers[w := writer], phase := c.phase[w := Waiting])
    case Sleep(w) => c.(asleep := c.asleep + {w})
    case GiveUp(w) => Pop(c, 1, false)
    case PassNull(w) => Pop(c, 1, true)
    case Form(w, count) =>
      c.(phase := c.phase[w := Writing(count, AllOps(Members(c, c.queue[..count])), false, 0)])
    case AppendRecord(w) =>
      c.(log := c.log + [Record(c.lastSequence + 1, c.phase[w].ops)],
         phase := c.phase[w := c.phase[w].(logged := true)])
    case InsertNext(w) =>
      c.(history := c.history + [Some(c.phase[w].ops[c.phase[w].inserted])],
         phase := c.phase[w := c.phase[w].(inserted := c.phase[w].inserted + 1)])
    case Commit(w) =>
      Pop(Published(c, w), c.phase[w].count, true)
    case LogFails(w) => Pop(Lost(c, |c.phase[w].ops|), c.phase[w].count, false)
    case SyncLog(w) => c.(synced := c.synced + {|c.log| - 1})
    case SyncFails(w) =>
      Pop(Lost(c, |c.phase[w].ops|).(backgroundError := true, unsynced := true), c.phase[w].count, false)
    case BackgroundFails => c.(backgroundError := true)
    case TakeSnapshot => c.(snapshots := c.snapshots + [c.lastSequence])
    case ReleaseSnapshot(index) => c.(snapshots := c.snapshots[..index] + c.snapshots[index + 1..])
  }

  // ----- The invariant

  /** Every writer that is not done is queued once, and none sleeps that should act. */
  ghost predicate QueueOk(c: State) {
    && (forall i, j :: 0 <= i < j < |c.queue| ==> c.queue[i] != c.queue[j])
    && c.phase.Keys == c.writers.Keys
    && (forall w :: w in c.queue <==> w in c.phase && !c.phase[w].Done?)
    && (forall w :: w in c.asleep ==> w in c.queue && c.queue[0] != w && c.phase[w].Waiting?)
  }

  /** A writer in the unlocked phase is at the front; its group is a prefix of the queue, and the
      history past the published sequence is what it has inserted so far. */
  ghost predicate InFlight(c: State, w: WriterId, p: Phase) {
    && p.Writing? && 1 <= p.count <= |c.queue| && c.queue[0] == w
    && (forall x :: x in c.queue ==> x in c.writers)
    && p.ops == AllOps(Members(c, c.queue[..p.count]))
    && p.inserted <= |p.ops| && (!p.logged ==> p.inserted == 0) && (p.inserted > 0 ==> SyncedFor(c, w))
    && c.lastSequence <= |c.history|
    && c.history[c.lastSequence..] == Somes(p.ops[..p.inserted])
    && (p.logged ==> c.log != [] && c.log[|c.log| - 1] == Record(c.lastSequence + 1, p.ops))
  }

  ghost predicate GroupOk(c: State) {
    && (forall w :: w in c.phase && c.phase[w].Writing? ==> InFlight(c, w, c.phase[w]))
    && ((forall w :: w in c.phase ==> !c.phase[w].Writing?) ==> |c.history| == c.lastSequence)
  }

  ghost predicate Logged(log: seq<Record>, p: nat, op: Op) {
    exists i :: 0 <= i < |log| && log[i].sequence <= p + 1 < log[i].sequence + |log[i].ops|
      && log[i].ops[p + 1 - log[i].sequence] == op
  }

  ghost predicate Unpublished(c: State) {
    exists w :: w in c.phase && c.phase[w].Writing? && c.phase[w].logged
  }

  /** Log records use disjoint, ascending sequence numbers, and nothing reaches the memtable unlogged. */
  ghost predicate LogOk(c: State) {
    && (forall i, j :: 0 <= i < j < |c.log| ==> c.log[i].sequence + |c.log[i].ops| <= c.log[j].sequence)
    && (forall i :: 0 <= i < |c.log| ==> 0 < c.log[i].sequence)
    && (forall i :: 0 <= i < (if Unpublished(c) then |c.log| - 1 else |c.log|) ==>
          c.log[i].sequence + |c.log[i].ops| <= c.lastSequence + 1)
    && (forall p :: c.origin <= p < |c.history| && c.history[p].Some? ==> Logged(c.log, p, c.history[p].value))
  }

  ghost predicate SpanOk(c: State, sp: Span) {
    && sp.start <= sp.end <= c.lastSequence <= |c.history|
    && sp.w in c.phase && sp.w in c.writers && c.phase[sp.w] == Done(true) && c.writers[sp.w].batch.Some?
    && c.history[sp.start..sp.end] == Somes(c.writers[sp.w].batch.value)
    && forall s :: s in c.snapshots ==> s <= sp.start || sp.end <= s
  }

  /** The visible history is made of the whole batches of the successful writers, in disjoint spans that no
      snapshot cuts. */
  ghost predicate SpansOk(c: State) {
    && (forall i :: 0 <= i < |c.spans| ==> SpanOk(c, c.spans[i]))
    && Ascending(c.spans)
    && (forall w :: w in c.phase && w in c.writers && c.phase[w] == Done(true) && c.writers[w].batch.Some? ==>
      HasSpan(c.spans, w))
    && c.lastSequence <= |c.history| && (forall s :: s in c.snapshots ==> s <= c.lastSequence)
    && (forall p :: c.origin <= p < c.lastSequence && c.history[p].Some? ==> InSpan(c.spans, p))
  }

  predicate After(a: Span, b: Span) {
    a.end <= b.start && a.w != b.w
  }

  ghost predicate Ascending(spans: seq<Span>) {
    forall i, j {:trigger After(spans[i], spans[j])} :: 0 <= i < j < |spans| ==> After(spans[i], spans[j])
  }

  ghost predicate HasSpan(spans: seq<Span>, w: WriterId) {
    exists i :: 0 <= i < |spans| && spans[i].w == w
  }

  ghost predicate InSpan(spans: seq<Span>, p: nat) {
    exists i :: 0 <= i < |spans| && spans[i].start <= p < spans[i].end
  }

  ghost predicate CommitInv(c: State) {
    QueueOk(c) && GroupOk(c) && LogOk(c) && SpansOk(c)
  }

  // ----- Steps that only touch the snapshots or the queue

  /** A new snapshot is at the published sequence, which no span contains. */
  lemma NewSnapshotsKeepInv(c: State, snapshots: seq<nat>)
    requires CommitInv(c) && forall s :: s in snapshots ==> s in c.snapshots || s == c.lastSequence
    ensures CommitInv(c.(snapshots := snapshots))
  {
    var c' := c.(snapshots := snapshots);
    forall w | w in c'.phase && c'.phase[w].Writing? ensures InFlight(c', w, c'.phase[w]) {
      assert InFlight(c, w, c.phase[w]);
    }
    assert Unpublished(c') ==> Unpublished(c);
    forall i | 0 <= i < |c'.spans| ensures SpanOk(c', c'.spans[i]) {
      assert SpanOk(c, c.spans[i]);
    }
  }

  lemma SnapshotsKeepInv(c: State, e: Event)
    requires CommitInv(c) && Can(c, e) && (e.TakeSnapshot? || e.ReleaseSnapshot?)
    ensures CommitInv(Next(c, e))
  {
    NewSnapshotsKeepInv(c, if e.TakeSnapshot? then c.snapshots + [c.lastSequence]
                           else c.snapshots[..e.index] + c.snapshots[e.index + 1..]);
  }

  lemma FlagsKeepGroup(c: State, c': State)
    requires GroupOk(c) && c' == c.(backgroundError := c'.backgroundError, synced := c'.synced)
    requires c.synced <= c'.synced
    ensures GroupOk(c')
  {
    forall w | w in c'.phase && c'.phase[w].Writing? ensures InFlight(c', w, c'.phase[w]) {
      assert InFlight(c, w, c.phase[w]);
      assert Members(c', c'.queue[..c.phase[w].count]) == Members(c, c.queue[..c.phase[w].count]);
    }
  }

  lemma FlagsKeepLog(c: State, c': State)
    requires LogOk(c) && c' == c.(backgroundError := c'.backgroundError, synced := c'.synced)
    ensures LogOk(c')
  {
    assert Unpublished(c') ==> Unpublished(c);
  }

  /** A sync, or an error of a flush or compaction, touches neither the queue nor the history. */
  lemma FlagsKeepInv(c: State, c': State)
    requires CommitInv(c) && c' == c.(backgroundError := c'.backgroundError, synced := c'.synced)
    requires c.synced <= c'.synced
    ensures CommitInv(c')
  {
    FlagsKeepGroup(c, c');
    FlagsKeepLog(c, c');
    SpansStand(c, c');
    hide GroupOk, LogOk, SpansOk;
  }

  lemma FlagEventsKeepInv(c: State, e: Event)
    requires CommitInv(c) && Can(c, e) && (e.SyncLog? || e.BackgroundFails?)
    ensures CommitInv(Next(c, e))
  {
    hide CommitInv;
    FlagsKeepInv(c, Next(c, e));
  }

  /** Spans stand as long as history only grows, nothing is published and no writer becomes or stops being done. */
  lemma SpansStand(c: State, c': State)
    requires SpansOk(c) && c'.spans == c.spans && c'.snapshots == c.snapshots && c'.origin == c.origin
    requires c'.lastSequence == c.lastSequence && |c.history| <= |c'.history|
    requires c'.history[..|c.history|] == c.history
    requires forall w :: w in c.phase && w in c.writers && c.phase[w].Done? ==>
               w in c'.phase && w in c'.writers && c'.phase[w] == c.phase[w] && c'.writers[w] == c.writers[w]
    requires forall w :: w in c'.phase && c'.phase[w].Done? && w in c'.writers ==>
      w in c.phase && w in c.writers && c.phase[w].Done?
    ensures SpansOk(c')
  {
    var n := |c.history|;
    forall i | 0 <= i < |c'.spans| ensures SpanOk(c', c'.spans[i]) {
      var sp := c.spans[i];
      assert SpanOk(c, sp);
      SliceOfLonger(c.history, c'.history, sp.start, sp.end);
    }
    forall p | c.origin <= p < c'.lastSequence && c'.history[p].Some? ensures InSpan(c'.spans, p) {
      assert c'.history[p] == c'.history[..n][p];
    }
  }

  lemma SliceOfLonger(h: History, h': History, i: nat, j: nat)
    requires i <= j <= |h| <= |h'| && h'[..|h|] == h
    ensures h'[i..j] == h[i..j]
  {
    forall k | i <= k < j ensures h'[k] == h[k] {
      assert h'[k] == h'[..|h|][k];
    }
  }

  lemma ArriveKeepsMembers(c: State, w: WriterId, writer: Writer, count: nat)
    requires Can(c, Arrive(w, writer)) && w !in c.queue && count <= |c.queue|
    requires forall x :: x in c.queue ==> x in c.writers
    ensures var c' := Next(c, Arrive(w, writer));
            && c'.queue[..count] == c.queue[..count] && (forall x :: x in c'.queue ==> x in c'.writers)
            && Members(c', c'.queue[..count]) == Members(c, c.queue[..count])
  {
    var c' := Next(c, Arrive(w, writer));
    forall i | 0 <= i < count ensures c'.writers[c'.queue[i]] == c.writers[c.queue[i]] {
      assert c.queue[i] in c.queue;
    }
  }

  /** A group in flight does not notice writers that join the queue behind it. */
  lemma ArriveKeepsGroup(c: State, w: WriterId, writer: Writer)
    requires QueueOk(c) && GroupOk(c) && Can(c, Arrive(w, writer))
    ensures GroupOk(Next(c, Arrive(w, writer)))
    ensures Unpublished(Next(c, Arrive(w, writer))) <==> Unpublished(c)
  {
    var c' := Next(c, Arrive(w, writer));
    assert w !in c.queue;
    forall x | x in c'.phase && c'.phase[x].Writing? ensures InFlight(c', x, c'.phase[x]) {
      var p := c.phase[x];
      assert InFlight(c, x, p);
      ArriveKeepsMembers(c, w, writer, p.count);
    }
    assert forall x :: x in c.phase ==> x in c'.phase && c'.phase[x] == c.phase[x];
  }

  lemma ArriveKeepsInv(c: State, w: WriterId, writer: Writer)
    requires CommitInv(c) && Can(c, Arrive(w, writer))
    ensures CommitInv(Next(c, Arrive(w, writer)))
  {
    ArriveKeepsQueue(c, w, writer);
    ArriveKeepsGroup(c, w, writer);
    ArriveKeepsSpans(c, w, writer);
  }

  lemma ArriveKeepsQueue(c: State, w: WriterId, writer: Writer)
    requires QueueOk(c) && Can(c, Arrive(w, writer))
    ensures QueueOk(Next(c, Arrive(w, writer)))
  {
    assert w !in c.queue;
  }

  lemma ArriveKeepsSpans(c: State, w: WriterId, writer: Writer)
    requires QueueOk(c) && SpansOk(c) && Can(c, Arrive(w, writer))
    ensures SpansOk(Next(c, Arrive(w, writer)))
  {
    SpansStand(c, Next(c, Arrive(w, writer)));
  }

  lemma SleepKeepsInv(c: State, w: WriterId)
    requires CommitInv(c) && Can(c, Sleep(w))
    ensures CommitInv(Next(c, Sleep(w)))
  {
    var asleep := c.asleep + {w};
    hide LogOk, GroupOk, SpansOk;
    AsleepKeepsGroup(c, asleep);
    AsleepKeepsLog(c, asleep);
    SpansStand(c, c.(asleep := asleep));
  }

  lemma AsleepKeepsGroup(c: State, asleep: set<WriterId>)
    requires GroupOk(c)
    ensures GroupOk(c.(asleep := asleep))
  {
    var c' := c.(asleep := asleep);
    forall x | x in c'.phase && c'.phase[x].Writing? ensures InFlight(c', x, c'.phase[x]) {
      assert InFlight(c, x, c.phase[x]);
    }
  }

  lemma AsleepKeepsLog(c: State, asleep: set<WriterId>)
    requires LogOk(c)
    ensures LogOk(c.(asleep := asleep))
  {
    assert Unpublished(c.(asleep := asleep)) ==> Unpublished(c);
  }

  // ----- Steps of the writer at the front

  lemma NobodyWrites(c: State, w: WriterId)
    requires QueueOk(c) && GroupOk(c) && Leads(c, w)
    ensures forall x :: x in c.phase ==> !c.phase[x].Writing?
    ensures |c.history| == c.lastSequence
  {
    forall x | x in c.phase ensures !c.phase[x].Writing? {
      assert c.phase[x].Writing? ==> InFlight(c, x, c.phase[x]);
    }
  }

  /** With w in flight, no one else is. */
  lemma OnlyWriter(c: State, w: WriterId)
    requires GroupOk(c) && IsWriting(c, w)
    ensures InFlight(c, w, c.phase[w]) && c.queue[0] == w
    ensures forall x :: x in c.phase && c.phase[x].Writing? ==> x == w
    ensures Unpublished(c) <==> c.phase[w].logged
  {
    forall x | x in c.phase && c.phase[x].Writing? ensures x == w {
      assert InFlight(c, x, c.phase[x]);
    }
  }

  lemma FormKeepsInv(c: State, w: WriterId, count: nat)
    requires CommitInv(c) && Can(c, Form(w, count))
    ensures CommitInv(Next(c, Form(w, count)))
  {
    var c' := Next(c, Form(w, count));
    NobodyWrites(c, w);
    var p := c'.phase[w];
    assert Members(c', c'.queue[..count]) == Members(c, c.queue[..count]);
    assert p.ops[..0] == [] && c.history[c.lastSequence..] == [];
    assert InFlight(c', w, p);
    assert !Unpublished(c) && !Unpublished(c');
    SpansStand(c, c');
  }

  lemma AppendKeepsLog(c: State, w: WriterId)
    requires GroupOk(c) && LogOk(c) && Can(c, AppendRecord(w))
    ensures LogOk(Next(c, AppendRecord(w)))
  {
    var c' := Next(c, AppendRecord(w));
    OnlyWriter(c, w);
    forall q | c.origin <= q < |c'.history| && c'.history[q].Some? ensures Logged(c'.log, q, c'.history[q].value) {
      MoreRecordsLog(c.log, c'.log, q, c.history[q].value);
    }
    assert Unpublished(c') by {
      assert c'.phase[w].Writing? && c'.phase[w].logged;
    }
  }

  lemma AppendKeepsInv(c: State, w: WriterId)
    requires CommitInv(c) && Can(c, AppendRecord(w))
    ensures CommitInv(Next(c, AppendRecord(w)))
  {
    var c' := Next(c, AppendRecord(w));
    OnlyWriter(c, w);
    AppendKeepsLog(c, w);
    AppendKeepsGroup(c, w);
    SpansStand(c, c');
    hide LogOk, GroupOk, SpansOk;
  }

  lemma AppendKeepsGroup(c: State, w: WriterId)
    requires CommitInv(c) && Can(c, AppendRecord(w))
    ensures GroupOk(Next(c, AppendRecord(w)))
  {
    var c' := Next(c, AppendRecord(w));
    var p := c.phase[w];
    OnlyWriter(c, w);
    hide LogOk, SpansOk;
    assert Members(c', c'.queue[..p.count]) == Members(c, c.queue[..p.count]);
    assert InFlight(c', w, c'.phase[w]);
  }

  lemma MoreRecordsLog(log: seq<Record>, log': seq<Record>, q: nat, op: Op)
    requires Logged(log, q, op) && |log| <= |log'| && log'[..|log|] == log
    ensures Logged(log', q, op)
  {
    var i :| 0 <= i < |log| && log[i].sequence <= q + 1 < log[i].sequence + |log[i].ops|
             && log[i].ops[q + 1 - log[i].sequence] == op;
    assert log'[i] == log'[..|log|][i];
  }

  lemma InsertNextKeepsGroup(c: State, w: WriterId)
    requires GroupOk(c) && Can(c, InsertNext(w))
    ensures GroupOk(Next(c, InsertNext(w)))
  {
    var c' := Next(c, InsertNext(w));
    var p := c.phase[w];
    OnlyWriter(c, w);
    var last := c.lastSequence;
    assert p.ops[..p.inserted + 1] == p.ops[..p.inserted] + [p.ops[p.inserted]];
    assert c'.history[last..] == c.history[last..] + [Some(p.ops[p.inserted])];
    assert c'.history[last..] == Somes(p.ops[..p.inserted + 1]);
    assert Members(c', c'.queue[..p.count]) == Members(c, c.queue[..p.count]);
    assert InFlight(c', w, c'.phase[w]);
  }

  lemma InsertNextKeepsLog(c: State, w: WriterId)
    requires GroupOk(c) && LogOk(c) && Can(c, InsertNext(w))
    ensures LogOk(Next(c, InsertNext(w)))
  {
    var c' := Next(c, InsertNext(w));
    var p := c.phase[w];
    OnlyWriter(c, w);
    assert c'.phase[w].Writing? && c'.phase[w].logged;
    assert Unpublished(c');
    var n := |c.history|;
    assert n == c.lastSequence + p.inserted by {
      assert |c.history[c.lastSequence..]| == p.inserted;
    }
    assert Logged(c'.log, n, p.ops[p.inserted]) by {
      assert c.log[|c.log| - 1] == Record(c.lastSequence + 1, p.ops);
    }
    forall q | c.origin <= q < |c'.history| && c'.history[q].Some? ensures Logged(c'.log, q, c'.history[q].value) {
      if q < n {
        assert c'.history[q] == c.history[q];
      }
    }
  }

  lemma InsertNextKeepsInv(c: State, w: WriterId)
    requires CommitInv(c) && Can(c, InsertNext(w))
    ensures CommitInv(Next(c, InsertNext(w)))
  {
    hide LogOk, GroupOk;
    var c' := Next(c, InsertNext(w));
    OnlyWriter(c, w);
    InsertNextKeepsGroup(c, w);
    InsertNextKeepsLog(c, w);
    SpansStand(c, c');
  }

  // ----- The end of a group

  lemma PopKeepsQueue(c: State, count: nat, ok: bool)
    requires QueueOk(c) && 1 <= count <= |c.queue|
    requires forall w :: w in c.phase && c.phase[w].Writing? ==> w == c.queue[0]
    ensures QueueOk(Pop(c, count, ok))
  {
    var c' := Pop(c, count, ok);
    forall w ensures w in c'.queue <==> w in c.queue && w !in c.queue[..count] {
      QueueSplits(c.queue, count, w);
    }
    forall w | w in c'.asleep ensures w in c'.queue && c'.queue[0] != w && c'.phase[w].Waiting? {
    }
  }

  lemma QueueSplits(queue: seq<WriterId>, count: nat, w: WriterId)
    requires count <= |queue| && forall i, j :: 0 <= i < j < |queue| ==> queue[i] != queue[j]
    ensures w in queue[count..] <==> w in queue && w !in queue[..count]
  {
    assert queue == queue[..count] + queue[count..];
  }

  /** What a state must satisfy just before its first count writers are taken off the queue. */
  ghost predicate Closing(c: State, count: nat, ok: bool) {
    && QueueOk(c) && 1 <= count <= |c.queue|
    && (forall w :: w in c.phase && c.phase[w].Writing? ==> w == c.queue[0])
    && |c.history| == c.lastSequence
    && LogOk(c.(phase := map[]))
    && (forall i :: 0 <= i < |c.spans| ==> SpanPlaced(c, c.spans[i], c.queue[..count], ok))
    && Ascending(c.spans)
    && (forall w :: w in c.phase && c.phase[w] == Done(true) && c.writers[w].batch.Some? ==> HasSpan(c.spans, w))
    && (ok ==> forall w :: w in c.queue[..count] && c.writers[w].batch.Some? ==> HasSpan(c.spans, w))
    && (forall s :: s in c.snapshots ==> s <= c.lastSequence)
    && (forall p :: c.origin <= p < c.lastSequence && c.history[p].Some? ==> InSpan(c.spans, p))
  }

  ghost predicate SpanPlaced(c: State, sp: Span, popped: seq<WriterId>, ok: bool) {
    && sp.start <= sp.end <= c.lastSequence <= |c.history|
    && sp.w in c.phase && sp.w in c.writers && c.writers[sp.w].batch.Some?
    && (c.phase[sp.w] == Done(true) || (ok && sp.w in popped))
    && c.history[sp.start..sp.end] == Somes(c.writers[sp.w].batch.value)
    && forall s :: s in c.snapshots ==> s <= sp.start || sp.end <= s
  }

  lemma PopKeepsInv(c: State, count: nat, ok: bool)
    requires Closing(c, count, ok)
    ensures CommitInv(Pop(c, count, ok))
  {
    var c' := Pop(c, count, ok);
    PopKeepsQueue(c, count, ok);
    assert c.queue[0] in c.queue[..count];
    assert !Unpublished(c') && !Unpublished(c.(phase := map[]));
    assert LogOk(c');
    forall i | 0 <= i < |c'.spans| ensures SpanOk(c', c'.spans[i]) {
      var sp := c.spans[i];
      assert SpanPlaced(c, sp, c.queue[..count], ok);
      assert c.phase[sp.w] == Done(true) ==> sp.w !in c.queue;
      assert c.queue == c.queue[..count] + c.queue[count..];
    }
  }

  /** A writer that leaves alone changes nothing but the queue. */
  lemma LeaveKeepsInv(c: State, w: WriterId, ok: bool)
    requires CommitInv(c) && Leads(c, w) && (ok ==> c.writers[w].batch.None?)
    ensures CommitInv(Pop(c, 1, ok))
  {
    NobodyWrites(c, w);
    assert !Unpublished(c) && !Unpublished(c.(phase := map[]));
    assert forall x :: x in c.queue[..1] <==> x == w;
    forall i | 0 <= i < |c.spans| ensures SpanPlaced(c, c.spans[i], c.queue[..1], ok) {
      assert SpanOk(c, c.spans[i]);
    }
    PopKeepsInv(c, 1, ok);
  }

  // ----- Spans of a committed group

  lemma GroupSnoc(c: State, ids: seq<WriterId>)
    requires ids != [] && forall w :: w in ids ==> w in c.writers
    ensures AllOps(Members(c, ids)) == AllOps(Members(c, ids[..|ids| - 1])) + OpsOf(c.writers[ids[|ids| - 1]])
  {
    assert Members(c, ids)[..|ids| - 1] == Members(c, ids[..|ids| - 1]);
  }

  lemma AscendingConcat(a: seq<Span>, b: seq<Span>)
    requires Ascending(a) && Ascending(b)
    requires forall x, y {:trigger After(x, y)} :: x in a && y in b ==> After(x, y)
    ensures Ascending(a + b)
  {
    var r := a + b;
    forall i, j | 0 <= i < j < |r| ensures After(r[i], r[j]) {
      if j < |a| {
        assert After(a[i], a[j]);
      } else if i >= |a| {
        assert After(b[i - |a|], b[j - |a|]);
      } else {
        assert a[i] in a && b[j - |a|] in b;
      }
    }
  }

  /** The span cuts batch out of writes that begin at position base. */
  ghost predicate Cuts(ops: seq<Op>, base: nat, sp: Span, batch: seq<Op>) {
    base <= sp.start <= sp.end <= base + |ops| && ops[sp.start - base..sp.end - base] == batch
  }

  lemma CutsPrefix(a: seq<Op>, b: seq<Op>, base: nat, sp: Span, batch: seq<Op>)
    requires Cuts(a, base, sp, batch)
    ensures Cuts(a + b, base, sp, batch)
  {
  }

  lemma CutsSuffix(a: seq<Op>, b: seq<Op>, base: nat, w: WriterId)
    ensures Cuts(a + b, base, Span(w, base + |a|, base + |a + b|), b)
  {
  }

  /** A span of a group belongs to a member and cuts its batch out of the group's writes. */
  lemma {:induction false} SpanWithin(c: State, ids: seq<WriterId>, base: nat, sp: Span)
    requires (forall w :: w in ids ==> w in c.writers) && sp in SpansOf(c, ids, base)
    ensures sp.w in ids && c.writers[sp.w].batch.Some?
    ensures Cuts(AllOps(Members(c, ids)), base, sp, c.writers[sp.w].batch.value)
  {
    var n := |ids| - 1;
    GroupSnoc(c, ids);
    var before, batch := AllOps(Members(c, ids[..n])), OpsOf(c.writers[ids[n]]);
    if sp in SpansOf(c, ids[..n], base) {
      SpanWithin(c, ids[..n], base, sp);
      CutsPrefix(before, batch, base, sp, c.writers[sp.w].batch.value);
    } else {
      CutsSuffix(before, batch, base, ids[n]);
    }
  }

  lemma {:induction false} SpansOfAscend(c: State, ids: seq<WriterId>, base: nat)
    requires forall w :: w in ids ==> w in c.writers
    requires forall i, j :: 0 <= i < j < |ids| ==> ids[i] != ids[j]
    ensures Ascending(SpansOf(c, ids, base))
  {
    if ids != [] {
      var n := |ids| - 1;
      SpansOfAscend(c, ids[..n], base);
      if c.writers[ids[n]].batch.Some? {
        var last := Span(ids[n], base + |AllOps(Members(c, ids[..n]))|, base + |AllOps(Members(c, ids))|);
        forall x, y | x in SpansOf(c, ids[..n], base) && y in [last] ensures After(x, y) {
          SpanWithin(c, ids[..n], base, x);
        }
        AscendingConcat(SpansOf(c, ids[..n], base), [last]);
      }
    }
  }

  /** Every batch of the group gets its span, and the spans cover the group's writes. */
  lemma {:induction false} SpansOfCover(c: State, ids: seq<WriterId>, base: nat)
    requires forall w :: w in ids ==> w in c.writers
    ensures forall w :: w in ids && c.writers[w].batch.Some? ==> HasSpan(SpansOf(c, ids, base), w)
    ensures forall p :: base <= p < base + |AllOps(Members(c, ids))| ==> InSpan(SpansOf(c, ids, base), p)
  {
    if ids != [] {
      var n := |ids| - 1;
      SpansOfCover(c, ids[..n], base);
      GroupSnoc(c, ids);
      var init, all := SpansOf(c, ids[..n], base), SpansOf(c, ids, base);
      assert forall i :: 0 <= i < |init| ==> all[i] == init[i];
      forall w | w in ids && c.writers[w].batch.Some? ensures HasSpan(all, w) {
        if w in ids[..n] {
          assert HasSpan(init, w);
          var i :| 0 <= i < |init| && init[i].w == w;
          assert all[i].w == w;
        } else {
          assert all[|init|].w == w;
        }
      }
      forall p | base <= p < base + |AllOps(Members(c, ids))| ensures InSpan(all, p) {
        if p < base + |AllOps(Members(c, ids[..n]))| {
          assert InSpan(init, p);
          var i :| 0 <= i < |init| && init[i].start <= p < init[i].end;
          assert all[i].start <= p < all[i].end;
        } else {
          assert all[|init|].start <= p < all[|init|].end;
        }
      }
    } else {
      assert Members(c, ids) == [];
    }
  }

  // ----- Ends of a group

  lemma CommittedSpansAscend(c: State, ids: seq<WriterId>)
    requires QueueOk(c) && SpansOk(c) && ids <= c.queue && forall w :: w in ids ==> w in c.writers
    ensures Ascending(c.spans + SpansOf(c, ids, c.lastSequence))
  {
    var base := c.lastSequence;
    assert forall w :: w in ids ==> w in c.queue;
    SpansOfAscend(c, ids, base);
    forall x, y | x in c.spans && y in SpansOf(c, ids, base) ensures After(x, y) {
      var i :| 0 <= i < |c.spans| && c.spans[i] == x;
      assert SpanOk(c, c.spans[i]);
      SpanWithin(c, ids, base, y);
    }
    AscendingConcat(c.spans, SpansOf(c, ids, base));
  }

  lemma MemberSpan(c: State, w: WriterId, sp: Span)
    requires IsWriting(c, w) && InFlight(c, w, c.phase[w]) && c.phase[w].inserted == |c.phase[w].ops|
    requires sp in SpansOf(c, c.queue[..c.phase[w].count], c.lastSequence)
    ensures sp.w in c.queue[..c.phase[w].count] && sp.w in c.writers && c.writers[sp.w].batch.Some?
    ensures Cuts(c.phase[w].ops, c.lastSequence, sp, c.writers[sp.w].batch.value)
    ensures c.lastSequence <= |c.history| && c.history[c.lastSequence..] == Somes(c.phase[w].ops)
  {
    var p := c.phase[w];
    assert p.ops[..p.inserted] == p.ops;
    SpanWithin(c, c.queue[..p.count], c.lastSequence, sp);
  }

  /** A member of the group finds its whole batch in the newly published part of the history. */
  lemma CommittedSpan(c: State, w: WriterId, sp: Span)
    requires IsWriting(c, w) && InFlight(c, w, c.phase[w]) && c.phase[w].inserted == |c.phase[w].ops|
    requires (forall x :: x in c.queue ==> x in c.phase) && (forall s :: s in c.snapshots ==> s <= c.lastSequence)
    requires sp in SpansOf(c, c.queue[..c.phase[w].count], c.lastSequence)
    ensures SpanPlaced(Published(c, w), sp, c.queue[..c.phase[w].count], true)
  {
    var p := c.phase[w];
    MemberSpan(c, w, sp);
    hide InFlight, SpansOf, Somes;
    CutsPublished(c.history, c.lastSequence, p.ops, sp, c.writers[sp.w].batch.value);
    InPrefix(c.queue, p.count, sp.w);
  }

  lemma InPrefix(queue: seq<WriterId>, count: nat, w: WriterId)
    requires count <= |queue| && w in queue[..count]
    ensures w in queue
  {
  }

  lemma SliceOfSlice(h: seq<Option<Op>>, a: nat, b: nat, i: nat, j: nat)
    requires a <= i <= j <= b <= |h|
    ensures h[i..j] == h[a..b][i - a..j - a]
  {
    var s, t := h[i..j], h[a..b][i - a..j - a];
    forall k | 0 <= k < j - i ensures s[k] == t[k] {
      assert h[a..b][i - a + k] == h[i + k];
    }
  }

  lemma SomesOfSlice(ops: seq<Op>, x: nat, y: nat)
    requires x <= y <= |ops|
    ensures Somes(ops)[x..y] == Somes(ops[x..y])
  {
  }

  lemma SpanInHistory(h: seq<Option<Op>>, ops: seq<Op>, a: nat, sp: Span, batch: seq<Op>)
    requires a + |ops| <= |h| && h[a..a + |ops|] == Somes(ops) && Cuts(ops, a, sp, batch)
    ensures sp.end <= |h| && h[sp.start..sp.end] == Somes(batch)
  {
    SliceOfSlice(h, a, a + |ops|, sp.start, sp.end);
    SomesOfSlice(ops, sp.start - a, sp.end - a);
    assert Somes(ops)[sp.start - a..sp.end - a] == Somes(batch);
    assert h[sp.start..sp.end] == h[a..a + |ops|][sp.start - a..sp.end - a];
    assert h[sp.start..sp.end] == Somes(ops)[sp.start - a..sp.end - a];
  }

  lemma CutsPublished(h: History, base: nat, ops: seq<Op>, sp: Span, batch: seq<Op>)
    requires base <= |h| && h[base..] == Somes(ops) && Cuts(ops, base, sp, batch)
    ensures |h| == base + |ops| && h[sp.start..sp.end] == Somes(batch)
  {
    assert |Somes(ops)| == |ops|;
    assert h[base..base + |ops|] == h[base..];
    SpanInHistory(h, ops, base, sp, batch);
  }

  lemma OlderSpan(c: State, w: WriterId, sp: Span)
    requires SpanOk(c, sp) && IsWriting(c, w) && (forall x :: x in c.queue ==> x in c.writers)
    requires c.lastSequence + |c.phase[w].ops| <= |c.history|
    ensures SpanPlaced(Published(c, w), sp, c.queue[..c.phase[w].count], true)
  {
  }

  lemma CommittedSpans(c: State, w: WriterId)
    requires SpansOk(c) && IsWriting(c, w) && InFlight(c, w, c.phase[w]) && c.phase[w].inserted == |c.phase[w].ops|
    requires (forall x :: x in c.queue ==> x in c.phase) && c.lastSequence + |c.phase[w].ops| <= |c.history|
    ensures forall sp :: sp in Published(c, w).spans ==>
      SpanPlaced(Published(c, w), sp, c.queue[..c.phase[w].count], true)
  {
    forall sp | sp in Published(c, w).spans ensures SpanPlaced(Published(c, w), sp, c.queue[..c.phase[w].count], true) {
      if sp in c.spans {
        var i :| 0 <= i < |c.spans| && c.spans[i] == sp;
        assert SpanOk(c, c.spans[i]);
        OlderSpan(c, w, sp);
      } else {
        CommittedSpan(c, w, sp);
      }
    }
  }

  lemma CommitClosesQueue(c: State, w: WriterId)
    requires CommitInv(c) && Can(c, Commit(w))
    ensures var c1, n := Published(c, w), c.phase[w].count;
            && QueueOk(c1) && 1 <= n <= |c1.queue|
            && (forall x :: x in c1.phase && c1.phase[x].Writing? ==> x == c1.queue[0])
            && |c1.history| == c1.lastSequence
            && (forall s :: s in c1.snapshots ==> s <= c1.lastSequence)
  {
    OnlyWriter(c, w);
    assert |c.history[c.lastSequence..]| == |c.phase[w].ops|;
  }

  lemma CommitClosesSpans(c: State, w: WriterId)
    requires CommitInv(c) && Can(c, Commit(w))
    ensures var c1, n := Published(c, w), c.phase[w].count;
            && n <= |c1.queue| && Ascending(c1.spans)
            && forall i :: 0 <= i < |c1.spans| ==> SpanPlaced(c1, c1.spans[i], c1.queue[..n], true)
  {
    OnlyWriter(c, w);
    assert |c.history[c.lastSequence..]| == |c.phase[w].ops|;
    CommittedSpans(c, w);
    CommittedSpansAscend(c, c.queue[..c.phase[w].count]);
  }

  lemma CommitCloses(c: State, w: WriterId)
    requires CommitInv(c) && Can(c, Commit(w))
    ensures Closing(Published(c, w), c.phase[w].count, true)
  {
    CommitClosesQueue(c, w);
    CommitClosesSpans(c, w);
    CommitCovers(c, w);
    CommitKeepsLog(c, w);
    hide CommitInv, QueueOk, LogOk, SpanPlaced, HasSpan, InSpan, Ascending, SpansOf;
  }

  lemma CommitCovers(c: State, w: WriterId)
    requires CommitInv(c) && Can(c, Commit(w))
    ensures var c1 := Published(c, w);
            && (forall x :: x in c.phase && c.phase[x] == Done(true) && c.writers[x].batch.Some? ==>
              HasSpan(c1.spans, x))
            && (forall x :: x in c.queue[..c.phase[w].count] && c.writers[x].batch.Some? ==> HasSpan(c1.spans, x))
            && (c1.lastSequence <= |c1.history|)
            && (forall p :: c.origin <= p < c1.lastSequence && c1.history[p].Some? ==> InSpan(c1.spans, p))
  {
    OnlyWriter(c, w);
    var ids, base := c.queue[..c.phase[w].count], c.lastSequence;
    var spans := SpansOf(c, ids, base);
    assert |c.history[base..]| == |c.phase[w].ops|;
    SpansOfCover(c, ids, base);
    forall x | HasSpan(c.spans, x) || HasSpan(spans, x) ensures HasSpan(c.spans + spans, x) {
      SpansConcat(c.spans, spans, x, 0);
    }
    forall q: nat | InSpan(c.spans, q) || InSpan(spans, q) ensures InSpan(c.spans + spans, q) {
      SpansConcat(c.spans, spans, 0, q);
    }
  }

  lemma SpansConcat(a: seq<Span>, b: seq<Span>, w: WriterId, p: nat)
    ensures HasSpan(a, w) || HasSpan(b, w) ==> HasSpan(a + b, w)
    ensures InSpan(a, p) || InSpan(b, p) ==> InSpan(a + b, p)
  {
    assert forall i :: 0 <= i < |a| ==> (a + b)[i] == a[i];
    assert forall i :: 0 <= i < |b| ==> (a + b)[|a| + i] == b[i];
  }

  lemma CommitKeepsLog(c: State, w: WriterId)
    requires CommitInv(c) && Can(c, Commit(w))
    ensures LogOk(Published(c, w).(phase := map[]))
  {
    OnlyWriter(c, w);
    assert !Unpublished(Published(c, w).(phase := map[]));
  }

  /** A failed group leaves only unused sequence numbers behind. */
  lemma FailureCloses(c: State, w: WriterId, broken: bool, unsynced: bool)
    requires CommitInv(c) && IsWriting(c, w) && c.phase[w].inserted == 0 && Room(c, |c.phase[w].ops|)
    ensures Closing(Lost(c, |c.phase[w].ops|).(backgroundError := broken, unsynced := unsynced), c.phase[w].count,
                    false)
  {
    var p := c.phase[w];
    OnlyWriter(c, w);
    var c1 := Lost(c, |p.ops|).(backgroundError := broken, unsynced := unsynced);
    var n := |c.history|;
    assert n == c.lastSequence by {
      assert |c.history[c.lastSequence..]| == 0;
    }
    forall i | 0 <= i < |c1.spans| ensures SpanPlaced(c1, c1.spans[i], c1.queue[..p.count], false) {
      var sp := c.spans[i];
      assert SpanOk(c, sp);
      assert c1.history[sp.start..sp.end] == c.history[sp.start..sp.end];
    }
    assert forall q :: 0 <= q < n ==> c1.history[q] == c.history[q];
    assert !Unpublished(c1.(phase := map[]));
  }

  lemma CommitKeepsInv(c: State, w: WriterId)
    requires CommitInv(c) && Can(c, Commit(w))
    ensures CommitInv(Next(c, Commit(w)))
  {
    CommitCloses(c, w);
    PopKeepsInv(Published(c, w), c.phase[w].count, true);
  }

  lemma LogFailsKeepsInv(c: State, w: WriterId)
    requires CommitInv(c) && Can(c, LogFails(w))
    ensures CommitInv(Next(c, LogFails(w)))
  {
    OnlyWriter(c, w);
    FailureCloses(c, w, c.backgroundError, c.unsynced);
    PopKeepsInv(Lost(c, |c.phase[w].ops|), c.phase[w].count, false);
  }

  lemma SyncFailsKeepsInv(c: State, w: WriterId)
    requires CommitInv(c) && Can(c, SyncFails(w))
    ensures CommitInv(Next(c, SyncFails(w)))
  {
    FailureCloses(c, w, true, true);
    PopKeepsInv(Lost(c, |c.phase[w].ops|).(backgroundError := true, unsynced := true), c.phase[w].count, false);
  }

  // ----- Runs

  lemma NextKeepsInv(c: State, e: Event)
    requires CommitInv(c) && Can(c, e)
    ensures CommitInv(Next(c, e))
  {
    match e
    case Arrive(w, writer) => ArriveKeepsInv(c, w, writer);
    case Sleep(w) => SleepKeepsInv(c, w);
    case GiveUp(w) => LeaveKeepsInv(c, w, false);
    case PassNull(w) => LeaveKeepsInv(c, w, true);
    case Form(w, count) => FormKeepsInv(c, w, count);
    case AppendRecord(w) => AppendKeepsInv(c, w);
    case InsertNext(w) => InsertNextKeepsInv(c, w);
    case Commit(w) => CommitKeepsInv(c, w);
    case LogFails(w) => LogFailsKeepsInv(c, w);
    case SyncFails(w) => SyncFailsKeepsInv(c, w);
    case SyncLog(w) => FlagEventsKeepInv(c, e);
    case BackgroundFails => FlagEventsKeepInv(c, e);
    case TakeSnapshot => SnapshotsKeepInv(c, e);
    case ReleaseSnapshot(_) => SnapshotsKeepInv(c, e);
  }

  ghost predicate Opened(c: State) {
    && c.origin == |c.history| == c.lastSequence && c.snapshots == [] && c.queue == []
    && c.writers == map[] && c.phase == map[] && c.asleep == {} && c.log == [] && !c.backgroundError && c.spans == []
    && !c.unsynced && c.synced == {}
  }

  ghost predicate IsRun(run: seq<State>, events: seq<Event>) {
    && |run| == |events| + 1 && Opened(run[0])
    && forall i :: 0 <= i < |events| ==> Can(run[i], events[i]) && run[i + 1] == Next(run[i], events[i])
  }

  /** Every interleaving keeps the invariant. */
  lemma {:induction false} RunsKeepInv(run: seq<State>, events: seq<Event>)
    requires IsRun(run, events)
    ensures CommitInv(run[|events|])
  {
    if events != [] {
      var n := |events| - 1;
      RunsKeepInv(run[..n + 1], events[..n]);
      NextKeepsInv(run[n], events[n]);
    }
  }

  // ----- What the invariant says

  /** A reader at a snapshot, or at the published sequence, sees whole batches of successful writers only. */
  lemma ReadersSeeWholeBatches(c: State, s: nat, p: nat) returns (i: nat)
    requires CommitInv(c) && (s in c.snapshots || s == c.lastSequence)
    requires c.origin <= p < s <= |c.history| && c.history[p].Some?
    ensures i < |c.spans| && c.spans[i].start <= p < c.spans[i].end <= s
    ensures var w := c.spans[i].w;
            && w in c.phase && w in c.writers && c.phase[w] == Done(true) && c.writers[w].batch.Some?
            && c.history[c.spans[i].start..c.spans[i].end] == Somes(c.writers[w].batch.value)
  {
    assert InSpan(c.spans, p);
    i :| 0 <= i < |c.spans| && c.spans[i].start <= p < c.spans[i].end;
    assert SpanOk(c, c.spans[i]);
  }

  /** At most one writer is in the unlocked phase, and it is at the front of the queue. */
  lemma OneWriterAtATime(c: State, w: WriterId, x: WriterId)
    requires CommitInv(c) && w in c.phase && c.phase[w].Writing? && x in c.phase && c.phase[x].Writing?
    ensures w == x == c.queue[0]
  {
    assert InFlight(c, w, c.phase[w]) && InFlight(c, x, c.phase[x]);
  }

  lemma GroupExists(ws: seq<Writer>) returns (count: nat)
    requires ws != []
    ensures IsGroup(ws, count)
  {
    count := 1;
    while count < |ws| && MayJoin(ws, count)
      invariant 1 <= count <= |ws| && forall i :: 0 < i < count ==> MayJoin(ws, i)
    {
      count := count + 1;
    }
  }

  lemma {:induction false} AllOpsOfPrefix(ws: seq<Writer>, k: nat)
    requires k <= |ws|
    ensures |AllOps(ws[..k])| <= |AllOps(ws)|
  {
    if k < |ws| {
      AllOpsOfPrefix(ws[..|ws| - 1], k);
      assert ws[..|ws| - 1][..k] == ws[..k];
    } else {
      assert ws[..k] == ws;
    }
  }

  /** What is left before the writer at the front leaves the queue: to form a group, log it, sync, insert, publish. */
  ghost function FrontWork(c: State): nat
    requires c.queue != [] && c.queue[0] in c.phase && forall w :: w in c.queue ==> w in c.writers
  {
    match c.phase[c.queue[0]]
    case Waiting => |AllOps(Members(c, c.queue))| + 4
    case Writing(_, ops, logged, inserted) =>
      1 + (if inserted < |ops| then |ops| - inserted else 0)
      + (if !logged then 2 else if SyncedFor(c, c.queue[0]) then 0 else 1)
    case Done(_) => 0
  }

  /** Fewer writers are queued, or the one at the front has less to do. */
  ghost predicate Closer(c: State, d: State) {
    || |d.queue| < |c.queue|
    || (d.queue == c.queue != [] && c.queue[0] in c.phase && c.queue[0] in d.phase
        && (forall w :: w in c.queue ==> w in c.writers && w in d.writers) && FrontWork(d) < FrontWork(c))
  }

  /** No lost wakeup: while writers are queued, the one at the front can act, if sequence numbers for their
      batches are left; and each of these steps brings the queue closer to its end. */
  lemma QueueMoves(c: State) returns (e: Event)
    requires CommitInv(c) && c.queue != [] && forall w :: w in c.queue ==> w in c.writers
    requires c.lastSequence + |AllOps(Members(c, c.queue))| + 1 < MAX_SEQUENCE
    ensures Can(c, e)
    ensures e == Event.GiveUp(c.queue[0]) || e == PassNull(c.queue[0]) || (e.Form? && e.w == c.queue[0])
         || e == AppendRecord(c.queue[0]) || e == SyncLog(c.queue[0]) || e == InsertNext(c.queue[0])
         || e == Commit(c.queue[0])
    ensures Closer(c, Next(c, e))
  {
    var w := c.queue[0];
    assert w in c.queue;
    if c.phase[w].Writing? {
      assert InFlight(c, w, c.phase[w]);
      hide CommitInv, Closer, Next, InFlight, Members;
      FactsOfWriter(c, w);
      e := NextOfWriter(c, w);
    } else {
      NobodyWrites(c, w);
      assert Leads(c, w) && Room(c, |AllOps(Members(c, c.queue))|);
      hide CommitInv, Closer, Next;
      e := NextOfFront(c, w);
    }
  }

  lemma PopIsCloser(c: State, ok: bool)
    requires c.queue != []
    ensures Closer(c, Pop(c, 1, ok))
  {
  }

  lemma FormIsCloser(c: State, w: WriterId, count: nat)
    requires Can(c, Form(w, count))
    requires |AllOps(Members(c, c.queue[..count]))| <= |AllOps(Members(c, c.queue))|
    ensures Closer(c, Next(c, Form(w, count)))
  {
    var d := Next(c, Form(w, count));
    hide AllOps, SyncedFor, IsGroup;
    assert Members(d, d.queue) == Members(c, c.queue);
    assert FrontWork(d) < FrontWork(c);
  }

  lemma NextOfFront(c: State, w: WriterId) returns (e: Event)
    requires Leads(c, w) && (forall x :: x in c.queue ==> x in c.writers) && Room(c, |AllOps(Members(c, c.queue))|)
    ensures Can(c, e) && (e == Event.GiveUp(w) || e == PassNull(w) || (e.Form? && e.w == w))
    ensures Closer(c, Next(c, e))
  {
    hide Closer, AllOps, IsGroup;
    if c.backgroundError {
      e := GiveUp(w);
      PopIsCloser(c, false);
    } else if c.writers[w].batch.None? {
      e := PassNull(w);
      PopIsCloser(c, true);
    } else {
      var count := GroupExists(Members(c, c.queue));
      GroupIsPart(c, count);
      e := Form(w, count);
      FormIsCloser(c, w, count);
    }
  }

  lemma GroupIsPart(c: State, count: nat)
    requires (forall x :: x in c.queue ==> x in c.writers) && count <= |c.queue|
    ensures |AllOps(Members(c, c.queue[..count]))| <= |AllOps(Members(c, c.queue))|
  {
    AllOpsOfPrefix(Members(c, c.queue), count);
    assert Members(c, c.queue)[..count] == Members(c, c.queue[..count]);
  }

  ghost predicate AtFront(c: State, w: WriterId) {
    && c.queue != [] && w == c.queue[0] && w in c.phase && c.phase[w].Writing?
    && forall x :: x in c.queue ==> x in c.writers
  }

  lemma AppendIsCloser(c: State, w: WriterId)
    requires AtFront(c, w) && Can(c, AppendRecord(w))
    ensures Closer(c, Next(c, AppendRecord(w)))
  {
    var d := Next(c, AppendRecord(w));
    hide SyncedFor;
    assert d.queue == c.queue && FrontWork(d) < FrontWork(c);
  }

  lemma SyncIsCloser(c: State, w: WriterId)
    requires AtFront(c, w) && Can(c, SyncLog(w))
    ensures Closer(c, Next(c, SyncLog(w)))
  {
    var d := Next(c, SyncLog(w));
    assert SyncedFor(d, w) && !SyncedFor(c, w);
    hide SyncedFor;
    assert d.queue == c.queue && FrontWork(d) < FrontWork(c);
  }

  lemma InsertIsCloser(c: State, w: WriterId)
    requires AtFront(c, w) && Can(c, InsertNext(w))
    ensures Closer(c, Next(c, InsertNext(w)))
  {
    var d := Next(c, InsertNext(w));
    assert SyncedFor(d, w) == SyncedFor(c, w);
    hide SyncedFor;
    assert d.queue == c.queue && FrontWork(d) < FrontWork(c);
  }

  lemma CommitIsCloser(c: State, w: WriterId)
    requires AtFront(c, w) && Can(c, Commit(w)) && c.phase[w].count >= 1
    ensures Closer(c, Next(c, Commit(w)))
  {
    hide SpansOf, SyncedFor, FrontWork;
  }

  /** What is known of the writer in the unlocked phase. */
  ghost predicate WriterFacts(c: State, w: WriterId) {
    && AtFront(c, w) && IsWriting(c, w) && c.phase[w].count >= 1
    && c.phase[w].inserted <= |c.phase[w].ops| && |c.history| == c.lastSequence + c.phase[w].inserted
    && (c.phase[w].inserted > 0 ==> SyncedFor(c, w)) && (c.phase[w].logged ==> c.log != [])
    && c.lastSequence + |c.phase[w].ops| + 1 < MAX_SEQUENCE
  }

  lemma FactsOfWriter(c: State, w: WriterId)
    requires c.queue != [] && w in c.phase && InFlight(c, w, c.phase[w])
    requires c.lastSequence + |AllOps(Members(c, c.queue))| + 1 < MAX_SEQUENCE
    ensures WriterFacts(c, w)
  {
    var p := c.phase[w];
    hide AllOps, SyncedFor;
    GroupIsPart(c, p.count);
    assert |c.history[c.lastSequence..]| == p.inserted;
  }

  lemma NextOfWriter(c: State, w: WriterId) returns (e: Event)
    requires WriterFacts(c, w)
    ensures Can(c, e) && (e == AppendRecord(w) || e == SyncLog(w) || e == InsertNext(w) || e == Commit(w))
    ensures Closer(c, Next(c, e))
  {
    hide Closer, Next;
    var p := c.phase[w];
    if !p.logged {
      e := AppendRecord(w);
      AppendIsCloser(c, w);
    } else if !SyncedFor(c, w) {
      e := SyncLog(w);
      SyncIsCloser(c, w);
    } else if p.inserted < |p.ops| {
      e := InsertNext(w);
      InsertIsCloser(c, w);
    } else {
      e := Commit(w);
      CommitIsCloser(c, w);
    }
  }

  // ----- The loop that takes a group off the queue

  /** Writers are popped up to and including the last one of the group, which is still queued; all of them
      but the leader are marked done. */
  method PopGroup(queue: seq<WriterId>, leader: WriterId, count: nat) returns (rest: seq<WriterId>, done: seq<WriterId>)
    requires 1 <= count <= |queue| && queue[0] == leader
    requires forall i, j :: 0 <= i < j < |queue| ==> queue[i] != queue[j]
    ensures rest == queue[count..] && done == queue[1..count]
  {
    var lastWriter := queue[count - 1];
    rest, done := queue, [];
    ghost var popped := 0;
    while true
      invariant popped < count && rest == queue[popped..]
      invariant done == if popped > 0 then queue[1..popped] else []
      decreases count - popped
    {
      var ready := rest[0];
      rest := rest[1..];
      if ready != leader {
        done := done + [ready];
      }
      popped := popped + 1;
      if ready == lastWriter {
        break;
      }
    }
  }

  // ----- Group commit runs on the store

  ghost predicate Agrees(c: State, st: Store) {
    c.history == st.history && c.lastSequence == st.lastSequence && c.snapshots == st.snapshots
  }

  /** What an event does to the store. */
  ghost function StoreSteps(c: State, e: Event): seq<Action>
    requires Can(c, e)
  {
    match e
    case InsertNext(w) => [Insert(c.phase[w].ops[c.phase[w].inserted])]
    case Commit(w) => [Publish(c.lastSequence + |c.phase[w].ops|)]
    case LogFails(w) => [Skip(|c.phase[w].ops|), Publish(c.lastSequence + |c.phase[w].ops|)]
    case SyncFails(w) => [Skip(|c.phase[w].ops|), Publish(c.lastSequence + |c.phase[w].ops|)]
    case TakeSnapshot => [Action.TakeSnapshot]
    case ReleaseSnapshot(index) => [Action.ReleaseSnapshot(index)]
    case _ => []
  }

  /** Whatever the other parts of a store look like, an event is a run of store steps, and the store still agrees. */
  lemma EventsAreStoreSteps(c: State, e: Event, st: Store) returns (st': Store)
    requires CommitInv(c) && Can(c, e) && Agrees(c, st) && |st.version| == Versions.NUM_LEVELS
    ensures LeadsTo(st, StoreSteps(c, e), st') && Agrees(Next(c, e), st')
  {
    hide CommitInv, Can, Next, Agrees, LeadsTo, StoreSteps;
    if e.LogFails? || e.SyncFails? {
      st' := FailureSteps(c, e, st);
    } else if TakesStoreStep(e) {
      st' := OneStoreStep(c, e, st);
    } else {
      st' := NoStoreStep(c, e, st);
    }
  }

  predicate TakesStoreStep(e: Event) {
    e.InsertNext? || e.Commit? || e.TakeSnapshot? || e.ReleaseSnapshot?
  }

  lemma FailureSteps(c: State, e: Event, st: Store) returns (st': Store)
    requires CommitInv(c) && Can(c, e) && Agrees(c, st) && |st.version| == Versions.NUM_LEVELS
    requires e.LogFails? || e.SyncFails?
    ensures LeadsTo(st, StoreSteps(c, e), st') && Agrees(Next(c, e), st')
  {
    NotInserted(c, e);
    FailureIsLoss(c, e, st);
    hide LeadsTo, CommitInv, Can, Next, StoreSteps, Lost, IsWriting, Room;
    st' := FailedStoreSteps(c, e.w, st);
  }

  lemma NotInserted(c: State, e: Event)
    requires CommitInv(c) && Can(c, e) && (e.LogFails? || e.SyncFails?)
    ensures c.phase[e.w].inserted == 0
  {
    assert InFlight(c, e.w, c.phase[e.w]);
  }

  lemma FailureIsLoss(c: State, e: Event, st: Store)
    requires Can(c, e) && (e.LogFails? || e.SyncFails?)
    ensures IsWriting(c, e.w) && Room(c, |c.phase[e.w].ops|)
    ensures var n, c' := |c.phase[e.w].ops|, Next(c, e);
            && StoreSteps(c, e) == [Skip(n), Publish(c.lastSequence + n)]
            && c'.history == Lost(c, n).history && c'.lastSequence == Lost(c, n).lastSequence
            && c'.snapshots == Lost(c, n).snapshots
  {
  }

  lemma NoStoreStep(c: State, e: Event, st: Store) returns (st': Store)
    requires Can(c, e) && Agrees(c, st) && !TakesStoreStep(e) && !e.LogFails? && !e.SyncFails?
    ensures LeadsTo(st, StoreSteps(c, e), st') && Agrees(Next(c, e), st')
  {
    st' := st;
  }

  lemma OneStoreStep(c: State, e: Event, st: Store) returns (st': Store)
    requires CommitInv(c) && Can(c, e) && Agrees(c, st) && |st.version| == Versions.NUM_LEVELS
    requires TakesStoreStep(e)
    ensures LeadsTo(st, StoreSteps(c, e), st') && Agrees(Next(c, e), st')
  {
    if e.Commit? {
      OnlyWriter(c, e.w);
      assert |c.history[c.lastSequence..]| == |c.phase[e.w].ops|;
    }
    var steps := StoreSteps(c, e);
    assert Enabled(st, steps[0]) && steps[1..] == [];
    st' := Step(st, steps[0]);
  }

  lemma FailedStoreSteps(c: State, w: WriterId, st: Store) returns (st': Store)
    requires CommitInv(c) && IsWriting(c, w) && c.phase[w].inserted == 0 && Room(c, |c.phase[w].ops|)
    requires Agrees(c, st) && |st.version| == Versions.NUM_LEVELS
    ensures var n := |c.phase[w].ops|;
            LeadsTo(st, [Skip(n), Publish(c.lastSequence + n)], st') && Agrees(Lost(c, n), st')
  {
    OnlyWriter(c, w);
    assert |c.history[c.lastSequence..]| == 0;
    var n := |c.phase[w].ops|;
    var mid := Step(st, Skip(n));
    st' := Step(mid, Publish(c.lastSequence + n));
    var steps := [Skip(n), Publish(c.lastSequence + n)];
    assert steps[1..] == [Publish(c.lastSequence + n)] && steps[1..][1..] == [];
    assert LeadsTo(mid, steps[1..], st');
  }
}
