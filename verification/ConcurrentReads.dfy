/**
 Readers of the skip list while a writer inserts: every load and every store is a step of its own.
 */
module ConcurrentReads {
  import opened InternalKeys
  import opened Tables
  import opened SkipLists

  /** A search for k stands on node x at a level, or has ended with a node (0 for null). */
  datatype Reader = Searching(k: InternalKey, x: nat, level: nat) | Found(k: InternalKey, node: nat)

  datatype State = State(nodes: seq<Node>, maxHeight: nat, levels: seq<seq<nat>>, writer: Writer,
                         readers: map<nat, Reader>)

  datatype Event =
    | BeginInsert(e: Entry, height: nat)
    | CopyLink
    | StoreLink
    | EndInsert
    | BeginSearch(r: nat, k: InternalKey, height: nat)
    | Advance(r: nat)

  ghost predicate Inv(c: State) {
    && WriterInv(c.nodes, c.maxHeight, c.levels, c.writer)
    && InArena(c.nodes, c.levels[0])
    && forall r :: r in c.readers && c.readers[r].Searching? ==> ReaderOk(c, c.readers[r])
  }

  ghost predicate ReaderOk(c: State, reader: Reader)
    requires reader.Searching?
  {
    reader.level < |c.levels| && OnLevel(c.nodes, c.levels[reader.level], reader.x, reader.k)
  }

  /** The neighbours FindGreaterOrEqual hands to Insert. */
  ghost function Neighbours(c: State, k: InternalKey): seq<nat>
    requires |c.levels| == MAX_HEIGHT && forall l :: 0 <= l < MAX_HEIGHT ==> InArena(c.nodes, c.levels[l])
  {
    seq(MAX_HEIGHT, l requires 0 <= l < MAX_HEIGHT =>
      if l < c.maxHeight then NodeBefore(c.levels[l], Rank(c.nodes, c.levels[l], k)) else 0)
  }

  /** Loads and stores stay inside the arena and inside the links a node has. */
  ghost predicate Can(c: State, e: Event) {
    match e
    case BeginInsert(entry, height) =>
      && c.writer.Idle? && 1 <= height <= MAX_HEIGHT
      && |c.levels| == MAX_HEIGHT && (forall l :: 0 <= l < MAX_HEIGHT ==> InArena(c.nodes, c.levels[l]))
      && (forall f :: f in ContentsOf(c.nodes, c.levels) ==> f.key.Tag() != entry.key.Tag())
    case CopyLink =>
      && c.writer.Inserting? && c.writer.linked < c.writer.height && !c.writer.ready
      && c.writer.linked < |c.writer.prev|
      && TallEnough(c.nodes, c.writer.prev[c.writer.linked], c.writer.linked)
      && TallEnough(c.nodes, c.writer.x, c.writer.linked)
    case StoreLink =>
      && c.writer.Inserting? && c.writer.ready && c.writer.linked < |c.writer.prev| && c.writer.linked < |c.levels|
      && TallEnough(c.nodes, c.writer.prev[c.writer.linked], c.writer.linked)
      && c.writer.x < |c.nodes| && InArena(c.nodes, c.levels[c.writer.linked])
    case EndInsert => c.writer.Inserting? && c.writer.linked == c.writer.height
    case BeginSearch(r, k, height) => 1 <= height <= MAX_HEIGHT
    case Advance(r) =>
      && r in c.readers && c.readers[r].Searching? && TallEnough(c.nodes, c.readers[r].x, c.readers[r].level)
      && c.nodes[c.readers[r].x].next[c.readers[r].level] < |c.nodes|
  }

  /** One turn of the search loop: load the next link and move along, go down, or end. */
  function Turn(nodes: seq<Node>, reader: Reader): Reader
    requires reader.Searching? && reader.x < |nodes| && reader.level < |nodes[reader.x].next|
    requires nodes[reader.x].next[reader.level] < |nodes|
  {
    var next := nodes[reader.x].next[reader.level];
    if next != 0 && Less(nodes[next].entry.key, reader.k) then reader.(x := next)
    else if reader.level == 0 then Reader.Found(reader.k, next)
    else reader.(level := reader.level - 1)
  }

  /** A search may start from a stale maximal height. */
  ghost function Next(c: State, e: Event): State
    requires Can(c, e)
  {
    match e
    case BeginInsert(entry, height) =>
      c.(nodes := c.nodes + [Node(entry, seq(height, _ => 0))],
         maxHeight := if height > c.maxHeight then height else c.maxHeight,
         writer := Inserting(|c.nodes|, height, Neighbours(c, entry.key), 0, false))
    case CopyLink =>
      c.(nodes := SetLink(c.nodes, c.writer.x, c.writer.prev[c.writer.linked], c.writer.linked),
         writer := c.writer.(ready := true))
    case StoreLink =>
      c.(nodes := Publish(c.nodes, c.writer.x, c.writer.prev[c.writer.linked], c.writer.linked),
         levels := Raise(c.levels, c.nodes, c.writer.linked, c.writer.x),
         writer := c.writer.(linked := c.writer.linked + 1, ready := false))
    case EndInsert => c.(writer := Idle)
    case BeginSearch(r, k, height) => c.(readers := c.readers[r := Searching(k, 0, height - 1)])
    case Advance(r) => c.(readers := c.readers[r := Turn(c.nodes, c.readers[r])])
  }

  // ----- Readers do not notice the writer

  ghost predicate Grows(c: State, c': State) {
    && |c.nodes| <= |c'.nodes| && |c.levels| == |c'.levels|
    && (forall n :: 0 <= n < |c.nodes| ==> c'.nodes[n].entry == c.nodes[n].entry)
    && forall l {:trigger Sublist(c.levels[l], c'.levels[l])} :: 0 <= l < |c.levels| ==>
      Sublist(c.levels[l], c'.levels[l])
  }

  lemma ReadersStay(c: State, c': State)
    requires Inv(c) && Grows(c, c') && c'.readers == c.readers
    ensures forall r :: r in c'.readers && c'.readers[r].Searching? ==> ReaderOk(c', c'.readers[r])
  {
    forall r | r in c'.readers && c'.readers[r].Searching? ensures ReaderOk(c', c'.readers[r]) {
      assert ReaderOk(c, c.readers[r]);
      assert Sublist(c.levels[c.readers[r].level], c'.levels[c.readers[r].level]);
    }
  }

  lemma BeginInsertKeepsInv(c: State, entry: Entry, height: nat)
    requires Inv(c) && Can(c, Event.BeginInsert(entry, height))
    ensures Inv(Next(c, Event.BeginInsert(entry, height)))
    ensures ContentsOf(Next(c, Event.BeginInsert(entry, height)).nodes, c.levels) == ContentsOf(c.nodes, c.levels)
  {
    var c' := Next(c, Event.BeginInsert(entry, height));
    SkipLists.BeginInsert(c.nodes, c.maxHeight, c.levels, entry, height, Neighbours(c, entry.key));
    forall l | 0 <= l < |c.levels| ensures Sublist(c.levels[l], c'.levels[l]) {
    }
    ReadersStay(c, c');
  }

  lemma CopyLinkKeepsInv(c: State)
    requires Inv(c) && Can(c, CopyLink)
    ensures Inv(Next(c, CopyLink)) && ContentsOf(Next(c, CopyLink).nodes, c.levels) == ContentsOf(c.nodes, c.levels)
  {
    var c' := Next(c, CopyLink);
    SetLinkStep(c.nodes, c.maxHeight, c.levels, c.writer);
    SameContents(c.nodes, c'.nodes, c.levels[0]);
    forall l | 0 <= l < |c.levels| ensures Sublist(c.levels[l], c'.levels[l]) {
    }
    ReadersStay(c, c');
  }

  lemma StoreLinkKeepsInv(c: State)
    requires Inv(c) && Can(c, StoreLink)
    ensures var c' := Next(c, StoreLink);
            && Inv(c')
            && ContentsOf(c'.nodes, c'.levels) ==
                 if c.writer.linked == 0 then InsertSorted(ContentsOf(c.nodes, c.levels), c.nodes[c.writer.x].entry)
                 else ContentsOf(c.nodes, c.levels)
  {
    var c' := Next(c, StoreLink);
    PublishStep(c.nodes, c.maxHeight, c.levels, c.writer);
    forall l | 0 <= l < |c.levels| ensures Sublist(c.levels[l], c'.levels[l]) {
      var r := Rank(c.nodes, c.levels[c.writer.linked], c.nodes[c.writer.x].entry.key);
      var level := c.levels[c.writer.linked];
      assert level == level[..r] + level[r..];
    }
    ReadersStay(c, c');
  }

  /** A reader always has a link to load, and stays on its level and before its key. */
  lemma ReaderTurns(c: State, r: nat)
    requires Inv(c) && r in c.readers && c.readers[r].Searching?
    ensures Can(c, Advance(r))
    ensures var reader := Turn(c.nodes, c.readers[r]); reader.Searching? ==> ReaderOk(c, reader)
    ensures var reader := Turn(c.nodes, c.readers[r]); reader.Found? ==>
      reader.node == NodeAt(c.levels[0], Rank(c.nodes, c.levels[0], reader.k))
  {
    var reader := c.readers[r];
    var l := reader.level;
    assert ReaderOk(c, reader) && Links(c.nodes, c.levels[l], l);
    var i := ComeDown(c.nodes, c.levels[l], l, reader.x, reader.k);
    StepAlong(c.nodes, c.levels[l], l, i, reader.x, reader.k);
    var next := c.nodes[reader.x].next[l];
    if next != 0 && Less(c.nodes[next].entry.key, reader.k) {
      assert NodeBefore(c.levels[l], i + 1) == next;
    } else if l > 0 {
      assert Sublist(c.levels[l], c.levels[l - 1]);
    }
  }

  /** Every step keeps every level sorted and a sublist of the one below, and every reader on its way. */
  lemma NextKeepsInv(c: State, e: Event)
    requires Inv(c) && Can(c, e)
    ensures Inv(Next(c, e))
  {
    match e
    case BeginInsert(entry, height) => BeginInsertKeepsInv(c, entry, height);
    case CopyLink => CopyLinkKeepsInv(c);
    case StoreLink => StoreLinkKeepsInv(c);
    case EndInsert =>
      forall l | 0 <= l < |c.levels| ensures Sublist(c.levels[l], c.levels[l]) {
      }
      ReadersStay(c, Next(c, EndInsert));
    case BeginSearch(r, k, height) =>
    case Advance(r) => ReaderTurns(c, r);
  }

  ghost predicate IsRun(run: seq<State>, events: seq<Event>) {
    && |run| == |events| + 1
    && Good(run[0].nodes, run[0].maxHeight, run[0].levels) && InArena(run[0].nodes, run[0].levels[0])
    && run[0].writer == Idle && run[0].readers == map[]
    && forall i :: 0 <= i < |events| ==> Can(run[i], events[i]) && run[i + 1] == Next(run[i], events[i])
  }

  lemma {:induction false} RunsKeepInv(run: seq<State>, events: seq<Event>)
    requires IsRun(run, events)
    ensures Inv(run[|events|])
  {
    if events != [] {
      var n := |events| - 1;
      RunsKeepInv(run[..n + 1], events[..n]);
      NextKeepsInv(run[n], events[n]);
    }
  }

  // ----- What a search finds

  /** In every run, a search that ends returns the first node at or after its key among those then in the
      list: null only if all are before it. */
  lemma SearchFindsFirst(run: seq<State>, events: seq<Event>, r: nat)
    requires IsRun(run, events) && r in run[|events|].readers && run[|events|].readers[r].Searching?
    requires Can(run[|events|], Advance(r)) && Turn(run[|events|].nodes, run[|events|].readers[r]).Found?
    ensures var c := run[|events|];
            var found := Turn(c.nodes, c.readers[r]);
            && |c.levels| > 0 && InArena(c.nodes, c.levels[0])
            && (found.node == 0 ==> forall e :: e in ContentsOf(c.nodes, c.levels) ==> Less(e.key, found.k))
            && (found.node != 0 ==>
                  && found.node in c.levels[0] && found.node < |c.nodes|
                  && !Less(c.nodes[found.node].entry.key, found.k)
                  && forall e :: e in ContentsOf(c.nodes, c.levels) && !Less(e.key, found.k) ==>
                       e == c.nodes[found.node].entry || Less(c.nodes[found.node].entry.key, e.key))
  {
    RunsKeepInv(run, events);
    var c := run[|events|];
    ReaderTurns(c, r);
    assert Links(c.nodes, c.levels[0], 0);
    RankIsFirst(c.nodes, c.levels[0], c.readers[r].k);
  }

  lemma RankIsFirst(nodes: seq<Node>, level: seq<nat>, k: InternalKey)
    requires InArena(nodes, level) && Sorted(Entries(nodes, level))
    ensures var n := NodeAt(level, Rank(nodes, level, k));
            && (n == 0 ==> forall e :: e in Entries(nodes, level) ==> Less(e.key, k))
            && (n != 0 ==> && n in level && !Less(nodes[n].entry.key, k)
                           && forall e :: e in Entries(nodes, level) && !Less(e.key, k) ==>
                                e == nodes[n].entry || Less(nodes[n].entry.key, e.key))
  {
    var es, r := Entries(nodes, level), Rank(nodes, level, k);
    if r < |level| {
      assert es[r] == nodes[level[r]].entry;
      forall e | e in es && !Less(e.key, k) ensures e == es[r] || Less(es[r].key, e.key) {
        var j :| 0 <= j < |es| && es[j] == e;
        assert r <= j;
      }
    }
  }
}
