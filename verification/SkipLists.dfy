/**
 The memtable's skip list.  Nodes live in an arena and are named by their index; index 0 is the
 head, and as the value of a link it is the null pointer.  The writer changes one link at a time;
 between any two such changes the list is good for readers.
 */
module SkipLists {
  import opened Basics
  import opened InternalKeys
  import opened Tables

  const MAX_HEIGHT := 12

  datatype Node = Node(entry: Entry, next: seq<nat>)

  // ----- One level as a list of nodes

  ghost predicate InArena(nodes: seq<Node>, level: seq<nat>) {
    forall i :: 0 <= i < |level| ==> 0 < level[i] < |nodes|
  }

  ghost function Entries(nodes: seq<Node>, level: seq<nat>): seq<Entry>
    requires InArena(nodes, level)
  {
    seq(|level|, i requires 0 <= i < |level| => nodes[level[i]].entry)
  }

  /** The node just before position i, and the node at it. */
  ghost function NodeBefore(level: seq<nat>, i: nat): nat
    requires i <= |level|
  {
    if i == 0 then 0 else level[i - 1]
  }

  ghost function NodeAt(level: seq<nat>, i: nat): nat {
    if i < |level| then level[i] else 0
  }

  ghost predicate TallEnough(nodes: seq<Node>, n: nat, l: nat) {
    n < |nodes| && l < |nodes[n].next|
  }

  /** The links of level l, from the head to null, pass exactly the nodes of level, in key order. */
  ghost predicate Links(nodes: seq<Node>, level: seq<nat>, l: nat) {
    && InArena(nodes, level) && Sorted(Entries(nodes, level))
    && forall i {:trigger NodeBefore(level, i)} :: 0 <= i <= |level| ==>
         TallEnough(nodes, NodeBefore(level, i), l) && nodes[NodeBefore(level, i)].next[l] == NodeAt(level, i)
  }

  ghost predicate Sublist(upper: seq<nat>, lower: seq<nat>) {
    forall n :: n in upper ==> n in lower
  }

  /** Every level is sorted and a sublist of the level below; levels from maxHeight on are empty. */
  ghost predicate Good(nodes: seq<Node>, maxHeight: nat, levels: seq<seq<nat>>) {
    && nodes != [] && |levels| == MAX_HEIGHT && 1 <= maxHeight <= MAX_HEIGHT
    && (forall l {:trigger Links(nodes, levels[l], l)} :: 0 <= l < MAX_HEIGHT ==> Links(nodes, levels[l], l))
    && (forall l {:trigger Sublist(levels[l], levels[l - 1])} :: 0 < l < MAX_HEIGHT ==>
      Sublist(levels[l], levels[l - 1]))
    && (forall l :: maxHeight <= l < MAX_HEIGHT ==> levels[l] == [])
  }

  /** The list's contents: its level 0. */
  ghost function ContentsOf(nodes: seq<Node>, levels: seq<seq<nat>>): seq<Entry>
    requires |levels| > 0 && InArena(nodes, levels[0])
  {
    Entries(nodes, levels[0])
  }

  // ----- Searching

  /** How many nodes of the level are before key k. */
  ghost function Rank(nodes: seq<Node>, level: seq<nat>, k: InternalKey): (i: nat)
    requires InArena(nodes, level)
    ensures i <= |level|
  {
    Seek(Entries(nodes, level), k)
  }

  predicate IsBefore(nodes: seq<Node>, n: nat, k: InternalKey)
    requires n < |nodes|
  {
    n == 0 || Less(nodes[n].entry.key, k)
  }

  /** A search for k standing on x at a level: x is the head, or in the level and before k. */
  ghost predicate OnLevel(nodes: seq<Node>, level: seq<nat>, x: nat, k: InternalKey) {
    x < |nodes| && IsBefore(nodes, x, k) && (x != 0 ==> x in level)
  }

  lemma RankBounds(nodes: seq<Node>, level: seq<nat>, k: InternalKey, j: nat)
    requires InArena(nodes, level) && Sorted(Entries(nodes, level)) && j < |level|
    ensures Less(nodes[level[j]].entry.key, k) <==> j < Rank(nodes, level, k)
  {
    var es, r := Entries(nodes, level), Rank(nodes, level, k);
    assert es[j].key == nodes[level[j]].entry.key;
    if r < j {
      assert Less(es[r].key, es[j].key);
    }
  }

  /** The search for k stands at position i of a level and has not passed k. */
  ghost predicate Standing(nodes: seq<Node>, level: seq<nat>, i: nat, x: nat, k: InternalKey)
    requires InArena(nodes, level)
  {
    i <= Rank(nodes, level, k) && NodeBefore(level, i) == x
  }

  /** A search that comes down to a level finds its place there. */
  lemma ComeDown(nodes: seq<Node>, level: seq<nat>, l: nat, x: nat, k: InternalKey) returns (i: nat)
    requires Links(nodes, level, l) && OnLevel(nodes, level, x, k)
    ensures Standing(nodes, level, i, x, k)
  {
    i := 0;
    if x != 0 {
      var j :| 0 <= j < |level| && level[j] == x;
      i := j + 1;
      RankBounds(nodes, level, k, j);
    }
  }

  /** A step along a level either stays before k or shows that the search has reached k's place. */
  lemma StepAlong(nodes: seq<Node>, level: seq<nat>, l: nat, i: nat, x: nat, k: InternalKey)
    requires Links(nodes, level, l) && Standing(nodes, level, i, x, k)
    ensures TallEnough(nodes, x, l) && nodes[x].next[l] < |nodes| && OnLevel(nodes, level, x, k)
    ensures var next := nodes[x].next[l];
            if next != 0 && Less(nodes[next].entry.key, k) then i < |level| && Standing(nodes, level, i + 1, next, k)
            else i == Rank(nodes, level, k) && next == NodeAt(level, i)
  {
    assert NodeBefore(level, i) == x;
    if i < |level| {
      RankBounds(nodes, level, k, i);
    }
    if i > 0 {
      RankBounds(nodes, level, k, i - 1);
    }
  }

  // ----- Insertion, one link at a time

  ghost function InsertAt(level: seq<nat>, i: nat, n: nat): seq<nat>
    requires i <= |level|
  {
    level[..i] + [n] + level[i..]
  }

  /** Storing the link from before k's place to the new node puts it on the level. */
  lemma LinkLevel(nodes: seq<Node>, level: seq<nat>, l: nat, x: nat, nodes': seq<Node>)
    requires Links(nodes, level, l) && 0 < x && TallEnough(nodes, x, l) && x !in level
    requires forall i :: 0 <= i < |level| ==> nodes[level[i]].entry.key.Tag() != nodes[x].entry.key.Tag()
    requires nodes[x].next[l] == NodeAt(level, Rank(nodes, level, nodes[x].entry.key))
    requires var prev := NodeBefore(level, Rank(nodes, level, nodes[x].entry.key));
             TallEnough(nodes, prev, l) && nodes' == nodes[prev := nodes[prev].(next := nodes[prev].next[l := x])]
    ensures var r := Rank(nodes, level, nodes[x].entry.key);
            && Links(nodes', InsertAt(level, r, x), l)
            && Entries(nodes', InsertAt(level, r, x)) == InsertSorted(Entries(nodes, level), nodes[x].entry)
  {
    var r := Rank(nodes, level, nodes[x].entry.key);
    var level' := InsertAt(level, r, x);
    var es := Entries(nodes, level);
    assert Entries(nodes', level') == InsertSorted(es, nodes[x].entry);
    forall f | f in es ensures f.key.Tag() != nodes[x].entry.key.Tag() {
      var i :| 0 <= i < |es| && es[i] == f;
    }
    InsertSortedKeepsOrder(es, nodes[x].entry);
    LinkedAround(nodes, level, l, r, x, nodes');
  }

  lemma LinkedAround(nodes: seq<Node>, level: seq<nat>, l: nat, r: nat, x: nat, nodes': seq<Node>)
    requires Links(nodes, level, l) && r <= |level| && 0 < x && TallEnough(nodes, x, l) && x !in level
    requires nodes[x].next[l] == NodeAt(level, r) && TallEnough(nodes, NodeBefore(level, r), l)
    requires var prev := NodeBefore(level, r); nodes' == nodes[prev := nodes[prev].(next := nodes[prev].next[l := x])]
    ensures forall i {:trigger NodeBefore(InsertAt(level, r, x), i)} :: 0 <= i <= |level| + 1 ==>
              && TallEnough(nodes', NodeBefore(InsertAt(level, r, x), i), l)
              && nodes'[NodeBefore(InsertAt(level, r, x), i)].next[l] == NodeAt(InsertAt(level, r, x), i)
  {
    var level' := InsertAt(level, r, x);
    forall i | 0 <= i <= |level'|
      ensures TallEnough(nodes', NodeBefore(level', i), l) && nodes'[NodeBefore(level', i)].next[l] == NodeAt(level', i)
    {
      var k := if i <= r then i else i - 1;
      var n := NodeBefore(level, k);
      assert TallEnough(nodes, n, l) && nodes[n].next[l] == NodeAt(level, k);
      if i != r && i != r + 1 {
        PlacesDiffer(nodes, level, k, r);
      }
    }
  }

  /** A node is on a level once. */
  lemma PlacesDiffer(nodes: seq<Node>, level: seq<nat>, i: nat, j: nat)
    requires InArena(nodes, level) && Sorted(Entries(nodes, level)) && i <= |level| && j <= |level| && i != j
    ensures NodeBefore(level, i) != NodeBefore(level, j)
  {
    var es := Entries(nodes, level);
    if i > 0 && j > 0 {
      var a, b := if i < j then i - 1 else j - 1, if i < j then j - 1 else i - 1;
      assert Less(es[a].key, es[b].key);
    }
  }

  // ----- What a change of nodes leaves alone

  /** The nodes of a level, and the head, keep their entries and their links on level l. */
  ghost predicate SameOn(nodes: seq<Node>, nodes': seq<Node>, level: seq<nat>, l: nat) {
    && |nodes| <= |nodes'|
    && forall n :: 0 <= n < |nodes| && (n == 0 || n in level) ==>
         && nodes'[n].entry == nodes[n].entry && |nodes'[n].next| == |nodes[n].next|
         && (l < |nodes[n].next| ==> nodes'[n].next[l] == nodes[n].next[l])
  }

  ghost predicate SameEntries(nodes: seq<Node>, nodes': seq<Node>, level: seq<nat>) {
    InArena(nodes, level) && InArena(nodes', level) && Entries(nodes', level) == Entries(nodes, level)
  }

  lemma LinksStay(nodes: seq<Node>, nodes': seq<Node>, level: seq<nat>, l: nat)
    requires Links(nodes, level, l) && SameOn(nodes, nodes', level, l)
    ensures Links(nodes', level, l) && SameEntries(nodes, nodes', level)
  {
    forall i | 0 <= i < |level| ensures nodes'[level[i]].entry == nodes[level[i]].entry {
      assert level[i] in level;
    }
    assert Entries(nodes', level) == Entries(nodes, level);
    forall i | 0 <= i <= |level|
      ensures TallEnough(nodes', NodeBefore(level, i), l) && nodes'[NodeBefore(level, i)].next[l] == NodeAt(level, i)
    {
      assert i > 0 ==> level[i - 1] in level;
    }
  }

  // ----- The writer

  /** Inserting: node x has height links, the lowest linked of which are published; prev are its neighbours,
      and ready says that the next link of x is set. */
  datatype Writer = Idle | Inserting(x: nat, height: nat, prev: seq<nat>, linked: nat, ready: bool)

  ghost predicate UniqueTag(nodes: seq<Node>, level: seq<nat>, x: nat)
    requires InArena(nodes, level) && x < |nodes|
  {
    forall i :: 0 <= i < |level| && level[i] != x ==> nodes[level[i]].entry.key.Tag() != nodes[x].entry.key.Tag()
  }

  /** On a level where x is not linked yet, prev is where it belongs. */
  ghost predicate Pending(nodes: seq<Node>, level: seq<nat>, l: nat, x: nat, prev: nat) {
    && TallEnough(nodes, x, l) && InArena(nodes, level) && x !in level && UniqueTag(nodes, level, x)
    && prev == NodeBefore(level, Rank(nodes, level, nodes[x].entry.key))
  }

  ghost predicate WriterOk(nodes: seq<Node>, maxHeight: nat, levels: seq<seq<nat>>, w: Writer)
    requires |levels| == MAX_HEIGHT
  {
    w.Inserting? ==>
      && 0 < w.x < |nodes| && w.linked <= w.height <= |w.prev| && w.height <= maxHeight <= MAX_HEIGHT
      && (forall l {:trigger levels[l]} :: 0 <= l < w.linked ==> w.x in levels[l])
      && (forall l {:trigger Pending(nodes, levels[l], l, w.x, w.prev[l])} ::
            w.linked <= l < w.height ==> Pending(nodes, levels[l], l, w.x, w.prev[l]))
      && (w.ready ==> w.linked < w.height && Aimed(nodes, levels[w.linked], w.linked, w.x))
  }

  /** The link of x on a level points to the node after its place. */
  ghost predicate Aimed(nodes: seq<Node>, level: seq<nat>, l: nat, x: nat) {
    && TallEnough(nodes, x, l) && InArena(nodes, level)
    && nodes[x].next[l] == NodeAt(level, Rank(nodes, level, nodes[x].entry.key))
  }

  /** Copying the neighbour's link into the new node, unseen by readers. */
  function SetLink(nodes: seq<Node>, x: nat, prev: nat, l: nat): seq<Node>
    requires prev < |nodes| && x < |nodes| && l < |nodes[prev].next| && l < |nodes[x].next|
  {
    nodes[x := nodes[x].(next := nodes[x].next[l := nodes[prev].next[l]])]
  }

  /** Storing the new node into the neighbour's link: from now on readers meet it on this level. */
  function Publish(nodes: seq<Node>, x: nat, prev: nat, l: nat): seq<Node>
    requires prev < |nodes| && l < |nodes[prev].next|
  {
    nodes[prev := nodes[prev].(next := nodes[prev].next[l := x])]
  }

  ghost function Raise(levels: seq<seq<nat>>, nodes: seq<Node>, l: nat, x: nat): seq<seq<nat>>
    requires l < |levels| && x < |nodes| && InArena(nodes, levels[l])
  {
    levels[l := InsertAt(levels[l], Rank(nodes, levels[l], nodes[x].entry.key), x)]
  }

  lemma SetLinkKeepsGood(nodes: seq<Node>, maxHeight: nat, levels: seq<seq<nat>>, l: nat, x: nat, prev: nat)
    requires Good(nodes, maxHeight, levels) && l < MAX_HEIGHT && 0 < x && Pending(nodes, levels[l], l, x, prev)
    ensures TallEnough(nodes, prev, l)
    ensures Good(SetLink(nodes, x, prev, l), maxHeight, levels)
    ensures Aimed(SetLink(nodes, x, prev, l), levels[l], l, x)
    ensures forall m {:trigger levels[m]} :: 0 <= m < MAX_HEIGHT ==>
      SameEntries(nodes, SetLink(nodes, x, prev, l), levels[m])
  {
    assert Links(nodes, levels[l], l);
    var nodes' := SetLink(nodes, x, prev, l);
    forall m | 0 <= m < MAX_HEIGHT ensures Links(nodes', levels[m], m) && SameEntries(nodes, nodes', levels[m]) {
      assert Links(nodes, levels[m], m);
      LinksStay(nodes, nodes', levels[m], m);
    }
  }

  lemma PublishKeepsGood(nodes: seq<Node>, maxHeight: nat, levels: seq<seq<nat>>, l: nat, x: nat, prev: nat)
    requires Good(nodes, maxHeight, levels) && l < maxHeight && 0 < x
    requires Pending(nodes, levels[l], l, x, prev) && Aimed(nodes, levels[l], l, x)
    requires l > 0 ==> x in levels[l - 1]
    ensures TallEnough(nodes, prev, l)
    ensures Good(Publish(nodes, x, prev, l), maxHeight, Raise(levels, nodes, l, x))
    ensures Entries(Publish(nodes, x, prev, l), Raise(levels, nodes, l, x)[l])
      == InsertSorted(Entries(nodes, levels[l]), nodes[x].entry)
    ensures forall m {:trigger levels[m]} :: 0 <= m < MAX_HEIGHT && m != l ==>
      SameEntries(nodes, Publish(nodes, x, prev, l), levels[m])
  {
    assert Links(nodes, levels[l], l);
    var nodes', levels' := Publish(nodes, x, prev, l), Raise(levels, nodes, l, x);
    assert forall i :: 0 <= i < |levels[l]| ==> levels[l][i] in levels[l];
    LinkLevel(nodes, levels[l], l, x, nodes');
    forall m | 0 <= m < MAX_HEIGHT && m != l
      ensures Links(nodes', levels'[m], m) && SameEntries(nodes, nodes', levels[m])
    {
      assert Links(nodes, levels[m], m);
      LinksStay(nodes, nodes', levels[m], m);
    }
    RaiseKeepsSublists(nodes, levels, l, x);
  }

  lemma RaisedMembers(nodes: seq<Node>, levels: seq<seq<nat>>, l: nat, x: nat)
    requires l < |levels| && x < |nodes| && InArena(nodes, levels[l])
    ensures var levels' := Raise(levels, nodes, l, x);
            && |levels'| == |levels| && (forall m :: 0 <= m < |levels| && m != l ==> levels'[m] == levels[m])
            && forall n :: n in levels'[l] <==> n in levels[l] || n == x
  {
    var r := Rank(nodes, levels[l], nodes[x].entry.key);
    assert levels[l] == levels[l][..r] + levels[l][r..];
  }

  lemma RaiseKeepsSublists(nodes: seq<Node>, levels: seq<seq<nat>>, l: nat, x: nat)
    requires |levels| == MAX_HEIGHT && l < MAX_HEIGHT && x < |nodes| && InArena(nodes, levels[l])
    requires forall l {:trigger Sublist(levels[l], levels[l - 1])} :: 0 < l < MAX_HEIGHT ==>
      Sublist(levels[l], levels[l - 1])
    requires l > 0 ==> x in levels[l - 1]
    ensures var levels' := Raise(levels, nodes, l, x);
            && (forall n :: n in levels'[l] <==> n in levels[l] || n == x)
            && forall m {:trigger Sublist(levels'[m], levels'[m - 1])} :: 0 < m < MAX_HEIGHT ==>
              Sublist(levels'[m], levels'[m - 1])
  {
    var levels' := Raise(levels, nodes, l, x);
    RaisedMembers(nodes, levels, l, x);
    hide Raise;
    forall m | 0 < m < MAX_HEIGHT ensures Sublist(levels'[m], levels'[m - 1]) {
      assert Sublist(levels[m], levels[m - 1]);
    }
  }

  /** Adding a node no link leads to yet. */
  lemma NewNodeKeepsGood(nodes: seq<Node>, maxHeight: nat, levels: seq<seq<nat>>, node: Node, maxHeight': nat)
    requires Good(nodes, maxHeight, levels) && maxHeight <= maxHeight' <= MAX_HEIGHT
    ensures Good(nodes + [node], maxHeight', levels)
    ensures forall m {:trigger levels[m]} :: 0 <= m < MAX_HEIGHT ==> SameEntries(nodes, nodes + [node], levels[m])
    ensures forall m {:trigger levels[m]} :: 0 <= m < MAX_HEIGHT ==> |nodes| !in levels[m]
  {
    forall m | 0 <= m < MAX_HEIGHT
      ensures Links(nodes + [node], levels[m], m) && SameEntries(nodes, nodes + [node], levels[m])
      ensures |nodes| !in levels[m]
    {
      assert Links(nodes, levels[m], m);
      LinksStay(nodes, nodes + [node], levels[m], m);
    }
  }

  // ----- Writer steps keep the writer's invariant

  ghost predicate WriterInv(nodes: seq<Node>, maxHeight: nat, levels: seq<seq<nat>>, w: Writer) {
    Good(nodes, maxHeight, levels) && WriterOk(nodes, maxHeight, levels, w)
  }

  lemma SetLinkStep(nodes: seq<Node>, maxHeight: nat, levels: seq<seq<nat>>, w: Writer)
    requires WriterInv(nodes, maxHeight, levels, w) && w.Inserting? && w.linked < w.height
    ensures var prev := w.prev[w.linked];
            && prev < |nodes| && w.linked < |nodes[prev].next| && w.linked < |nodes[w.x].next|
            && WriterInv(SetLink(nodes, w.x, prev, w.linked), maxHeight, levels, w.(ready := true))
  {
    var l := w.linked;
    assert Pending(nodes, levels[l], l, w.x, w.prev[l]);
    SetLinkKeepsGood(nodes, maxHeight, levels, l, w.x, w.prev[l]);
    var nodes' := SetLink(nodes, w.x, w.prev[l], l);
    forall m | w.linked <= m < w.height ensures Pending(nodes', levels[m], m, w.x, w.prev[m]) {
      assert Pending(nodes, levels[m], m, w.x, w.prev[m]);
      PendingStays(nodes, nodes', levels[m], m, w.x, w.prev[m]);
    }
  }

  lemma PendingStays(nodes: seq<Node>, nodes': seq<Node>, level: seq<nat>, l: nat, x: nat, prev: nat)
    requires Pending(nodes, level, l, x, prev) && |nodes'| == |nodes|
    requires forall n :: 0 <= n < |nodes| ==> nodes'[n].entry == nodes[n].entry && |nodes'[n].next| == |nodes[n].next|
    ensures Pending(nodes', level, l, x, prev)
  {
    assert Entries(nodes', level) == Entries(nodes, level);
  }

  lemma PublishStep(nodes: seq<Node>, maxHeight: nat, levels: seq<seq<nat>>, w: Writer)
    requires WriterInv(nodes, maxHeight, levels, w) && w.Inserting? && w.ready
    ensures var l := w.linked;
            && w.prev[l] < |nodes| && l < |nodes[w.prev[l]].next| && InArena(nodes, levels[l])
            && var nodes', levels' := Publish(nodes, w.x, w.prev[l], l), Raise(levels, nodes, l, w.x);
            && WriterInv(nodes', maxHeight, levels', w.(linked := l + 1, ready := false))
            && InArena(nodes, levels[0]) && InArena(nodes', levels'[0])
            && ContentsOf(nodes', levels') ==
                 if l == 0 then InsertSorted(ContentsOf(nodes, levels), nodes[w.x].entry) else ContentsOf(nodes, levels)
  {
    var l := w.linked;
    assert Pending(nodes, levels[l], l, w.x, w.prev[l]) && Links(nodes, levels[0], 0);
    assert l > 0 ==> w.x in levels[l - 1];
    PublishKeepsGood(nodes, maxHeight, levels, l, w.x, w.prev[l]);
    RaiseKeepsSublists(nodes, levels, l, w.x);
    var nodes', levels' := Publish(nodes, w.x, w.prev[l], l), Raise(levels, nodes, l, w.x);
    assert Links(nodes', levels'[0], 0);
    forall m | l < m < w.height ensures Pending(nodes', levels'[m], m, w.x, w.prev[m]) {
      assert Pending(nodes, levels[m], m, w.x, w.prev[m]);
      PendingStays(nodes, nodes', levels[m], m, w.x, w.prev[m]);
    }
    forall m | 0 <= m < l + 1 ensures w.x in levels'[m] {
      assert m < l ==> levels'[m] == levels[m];
    }
  }

  lemma EmptyIsGood(nodes: seq<Node>, levels: seq<seq<nat>>)
    requires |nodes| == 1 && nodes[0].next == seq(MAX_HEIGHT, _ => 0) && levels == seq(MAX_HEIGHT, _ => [])
    ensures Good(nodes, 1, levels) && ContentsOf(nodes, levels) == []
  {
    forall l | 0 <= l < MAX_HEIGHT ensures Links(nodes, levels[l], l) {
    }
  }

  /** Choosing a place for a new entry: the state in which its first link is about to be set. */
  lemma BeginInsert(nodes: seq<Node>, maxHeight: nat, levels: seq<seq<nat>>, e: Entry, height: nat, prev: seq<nat>)
    requires Good(nodes, maxHeight, levels) && 1 <= height <= MAX_HEIGHT
    requires InArena(nodes, levels[0]) && forall f :: f in ContentsOf(nodes, levels) ==> f.key.Tag() != e.key.Tag()
    requires |prev| == MAX_HEIGHT
    requires forall l {:trigger levels[l]} :: 0 <= l < maxHeight && InArena(nodes, levels[l]) ==>
               prev[l] == NodeBefore(levels[l], Rank(nodes, levels[l], e.key))
    requires forall l :: maxHeight <= l < MAX_HEIGHT ==> prev[l] == 0
    ensures WriterInv(nodes + [Node(e, seq(height, _ => 0))], if height > maxHeight then height else maxHeight, levels,
                      Inserting(|nodes|, height, prev, 0, false))
    ensures InArena(nodes + [Node(e, seq(height, _ => 0))], levels[0])
    ensures ContentsOf(nodes + [Node(e, seq(height, _ => 0))], levels) == ContentsOf(nodes, levels)
  {
    var node := Node(e, seq(height, _ => 0));
    var nodes', x := nodes + [node], |nodes|;
    NewNodeKeepsGood(nodes, maxHeight, levels, node, if height > maxHeight then height else maxHeight);
    assert Links(nodes', levels[0], 0);
    assert SameEntries(nodes, nodes', levels[0]);
    forall l | 0 <= l < height ensures Pending(nodes', levels[l], l, x, prev[l]) {
      assert Links(nodes, levels[l], l) && SameEntries(nodes, nodes', levels[l]);
      TagsDiffer(nodes, levels, l, e);
    }
  }

  lemma {:induction false} TagsDiffer(nodes: seq<Node>, levels: seq<seq<nat>>, l: nat, e: Entry)
    requires |levels| == MAX_HEIGHT && l < MAX_HEIGHT && InArena(nodes, levels[0]) && InArena(nodes, levels[l])
    requires forall l {:trigger Sublist(levels[l], levels[l - 1])} :: 0 < l < MAX_HEIGHT ==>
      Sublist(levels[l], levels[l - 1])
    requires forall f :: f in ContentsOf(nodes, levels) ==> f.key.Tag() != e.key.Tag()
    ensures forall n :: n in levels[l] ==> nodes[n].entry.key.Tag() != e.key.Tag()
  {
    forall n | n in levels[l] ensures nodes[n].entry.key.Tag() != e.key.Tag() {
      DownToBottom(levels, l, n);
      var i :| 0 <= i < |levels[0]| && levels[0][i] == n;
      assert ContentsOf(nodes, levels)[i] == nodes[n].entry;
    }
  }

  lemma {:induction false} DownToBottom(levels: seq<seq<nat>>, l: nat, n: nat)
    requires |levels| == MAX_HEIGHT && l < MAX_HEIGHT && n in levels[l]
    requires forall l {:trigger Sublist(levels[l], levels[l - 1])} :: 0 < l < MAX_HEIGHT ==>
      Sublist(levels[l], levels[l - 1])
    ensures n in levels[0]
  {
    if l > 0 {
      assert Sublist(levels[l], levels[l - 1]);
      DownToBottom(levels, l - 1, n);
    }
  }

  lemma SameContents(nodes: seq<Node>, nodes': seq<Node>, level: seq<nat>)
    requires InArena(nodes, level) && |nodes| == |nodes'|
    requires forall n :: 0 <= n < |nodes| ==> nodes'[n].entry == nodes[n].entry
    ensures InArena(nodes', level) && Entries(nodes', level) == Entries(nodes, level)
  {
  }

  // ----- Where an insertion leaves the new node

  /** x has come to level l; the other levels are as they were. */
  ghost predicate AddedAt(before: seq<seq<nat>>, levels: seq<seq<nat>>, l: nat, x: nat) {
    && |levels| == |before| && l < |levels|
    && (forall m :: 0 <= m < |levels| && m != l ==> levels[m] == before[m])
    && forall n :: n in levels[l] <==> n in before[l] || n == x
  }

  /** x is on the lowest h levels, and nothing else has changed. */
  ghost predicate AddedBelow(before: seq<seq<nat>>, levels: seq<seq<nat>>, h: nat, x: nat) {
    && |levels| == |before|
    && forall l {:trigger levels[l]} :: 0 <= l < |levels| ==>
         if l < h then forall n :: n in levels[l] <==> n in before[l] || n == x else levels[l] == before[l]
  }

  lemma AddedMore(before: seq<seq<nat>>, levels: seq<seq<nat>>, levels': seq<seq<nat>>, l: nat, x: nat)
    requires AddedBelow(before, levels, l, x) && AddedAt(levels, levels', l, x)
    ensures AddedBelow(before, levels', l + 1, x)
  {
    forall m | 0 <= m < |levels'|
      ensures if m < l + 1 then forall n :: n in levels'[m] <==> n in before[m] || n == x else levels'[m] == before[m]
    {
      assert m != l ==> levels'[m] == levels[m];
      assert m == l ==> levels[m] == before[m];
    }
  }

  /** The same nodes, with links that may differ. */
  ghost predicate SameNodes(nodes: seq<Node>, nodes': seq<Node>) {
    && |nodes| == |nodes'|
    && forall n :: 0 <= n < |nodes| ==> nodes'[n].entry == nodes[n].entry && |nodes'[n].next| == |nodes[n].next|
  }

  lemma NothingAdded(nodes: seq<Node>, levels: seq<seq<nat>>, x: nat)
    ensures SameNodes(nodes, nodes) && AddedBelow(levels, levels, 0, x)
  {
  }

  lemma StillSameNodes(a: seq<Node>, b: seq<Node>, c: seq<Node>, x: nat)
    requires SameNodes(a, b) && SameNodes(b, c)
    ensures SameNodes(a, c) && (x < |b| ==> x < |c| && c[x].entry == b[x].entry)
  {
  }

  // ----- The skip list

  class SkipList {
    var nodes: seq<Node>
    var maxHeight: nat

    /** For each level, the nodes its links pass. */
    ghost var levels: seq<seq<nat>>

    ghost predicate Valid()
      reads this
    {
      Good(nodes, maxHeight, levels) && InArena(nodes, levels[0])
    }

    ghost function Contents(): seq<Entry>
      requires Valid()
      reads this
    {
      ContentsOf(nodes, levels)
    }

    constructor ()
      ensures Valid() && Contents() == [] && maxHeight == 1
    {
      nodes := [Node(Entry(InternalKey(0.0, 0, Put), []), seq(MAX_HEIGHT, _ => 0))];
      maxHeight, levels := 1, seq(MAX_HEIGHT, _ => []);
      new;
      EmptyIsGood(nodes, levels);
    }

    /** The first node at or after k, or null; and on every level the last node before k, or the head. */
    method FindGreaterOrEqual(k: InternalKey) returns (node: nat, prev: seq<nat>)
      requires Valid()
      ensures node == NodeAt(levels[0], Rank(nodes, levels[0], k))
      ensures |prev| == MAX_HEIGHT
      ensures forall l {:trigger levels[l]} :: 0 <= l < maxHeight && InArena(nodes, levels[l]) ==>
                prev[l] == NodeBefore(levels[l], Rank(nodes, levels[l], k))
      ensures forall l :: maxHeight <= l < MAX_HEIGHT ==> prev[l] == 0
    {
      var x, level := 0, maxHeight - 1;
      prev := seq(MAX_HEIGHT, _ => 0);
      assert Links(nodes, levels[level], level);
      ghost var i := ComeDown(nodes, levels[level], level, x, k);
      while true
        invariant 0 <= level < maxHeight && Links(nodes, levels[level], level)
        invariant Standing(nodes, levels[level], i, x, k)
        invariant |prev| == MAX_HEIGHT && forall l :: maxHeight <= l < MAX_HEIGHT ==> prev[l] == 0
        invariant forall l {:trigger levels[l]} :: level < l < maxHeight && InArena(nodes, levels[l]) ==>
                    prev[l] == NodeBefore(levels[l], Rank(nodes, levels[l], k))
        decreases level, |levels[level]| - i
      {
        StepAlong(nodes, levels[level], level, i, x, k);
        var next := nodes[x].next[level];
        if next != 0 && Less(nodes[next].entry.key, k) {
          x, i := next, i + 1;
        } else {
          prev := prev[level := x];
          if level == 0 {
            return next, prev;
          }
          assert Sublist(levels[level], levels[level - 1]) && Links(nodes, levels[level - 1], level - 1);
          i := ComeDown(nodes, levels[level - 1], level - 1, x, k);
          level := level - 1;
        }
      }
    }

    /** The last node before k, or the head. */
    method FindLessThan(k: InternalKey) returns (node: nat)
      requires Valid()
      ensures node == NodeBefore(levels[0], Rank(nodes, levels[0], k)) && node < |nodes|
    {
      var x, level := 0, maxHeight - 1;
      assert Links(nodes, levels[level], level);
      ghost var i := ComeDown(nodes, levels[level], level, x, k);
      while true
        invariant 0 <= level < maxHeight && Links(nodes, levels[level], level)
        invariant Standing(nodes, levels[level], i, x, k)
        decreases level, |levels[level]| - i
      {
        StepAlong(nodes, levels[level], level, i, x, k);
        var next := nodes[x].next[level];
        if next == 0 || !Less(nodes[next].entry.key, k) {
          if level == 0 {
            return x;
          }
          assert Sublist(levels[level], levels[level - 1]) && Links(nodes, levels[level - 1], level - 1);
          i := ComeDown(nodes, levels[level - 1], level - 1, x, k);
          level := level - 1;
        } else {
          x, i := next, i + 1;
        }
      }
    }

    /** The last node of the list, or the head if it is empty. */
    method FindLast() returns (node: nat)
      requires Valid()
      ensures node == NodeBefore(levels[0], |levels[0]|) && node < |nodes|
    {
      var x, level := 0, maxHeight - 1;
      ghost var i := 0;
      while true
        invariant 0 <= level < maxHeight && i <= |levels[level]| && NodeBefore(levels[level], i) == x
        decreases level, |levels[level]| - i
      {
        assert Links(nodes, levels[level], level);
        var next := nodes[x].next[level];
        if next == 0 {
          if level == 0 {
            return x;
          }
          assert Sublist(levels[level], levels[level - 1]) && Links(nodes, levels[level - 1], level - 1);
          if x != 0 {
            assert x in levels[level];
            ghost var j :| 0 <= j < |levels[level - 1]| && levels[level - 1][j] == x;
            i := j + 1;
          } else {
            i := 0;
          }
          level := level - 1;
        } else {
          x, i := next, i + 1;
        }
      }
    }

    /** Insert one entry under a node of the given height; no entry with the same tag is in the list. */
    method Insert(e: Entry, height: nat)
      requires Valid() && 1 <= height <= MAX_HEIGHT
      requires forall f :: f in Contents() ==> f.key.Tag() != e.key.Tag()
      modifies this
      ensures Valid() && Contents() == InsertSorted(old(Contents()), e)
      ensures SameNodes(old(nodes) + [Node(e, seq(height, _ => 0))], nodes)
      ensures AddedBelow(old(levels), levels, height, |old(nodes)|)
      ensures maxHeight == if height > old(maxHeight) then height else old(maxHeight)
    {
      var found, prev := FindGreaterOrEqual(e.key);
      BeginInsert(nodes, maxHeight, levels, e, height, prev);
      hide SameNodes, AddedBelow, WriterInv, Links, Sublist, Rank, InsertSorted;
      if height > maxHeight {
        maxHeight := height;
      }
      nodes := nodes + [Node(e, seq(height, _ => 0))];
      LinkLevels(|nodes| - 1, height, prev);
    }

    /** Node x, the newest of nodes0, is linked on its lowest i levels, and else all is as it was before. */
    ghost predicate LinkedSoFar(nodes0: seq<Node>, levels0: seq<seq<nat>>, contents0: seq<Entry>, x: nat, height: nat,
                                prev: seq<nat>, i: nat)
      reads this
    {
      && WriterInv(nodes, maxHeight, levels, Inserting(x, height, prev, i, false)) && Valid()
      && SameNodes(nodes0, nodes) && AddedBelow(levels0, levels, i, x) && x < |nodes0|
      && Contents() == if i == 0 then contents0 else InsertSorted(contents0, nodes0[x].entry)
    }

    /** Link the new node on its levels, from the lowest one up. */
    method LinkLevels(x: nat, height: nat, prev: seq<nat>)
      requires WriterInv(nodes, maxHeight, levels, Inserting(x, height, prev, 0, false)) && Valid()
      requires 1 <= height && x < |nodes|
      modifies this`nodes, this`levels
      ensures Valid() && Contents() == InsertSorted(old(Contents()), old(nodes[x].entry))
      ensures SameNodes(old(nodes), nodes) && AddedBelow(old(levels), levels, height, x)
    {
      NothingAdded(nodes, levels, x);
      ghost var nodes0, levels0, contents0 := nodes, levels, Contents();
      assert LinkedSoFar(nodes0, levels0, contents0, x, height, prev, 0);
      for i := 0 to height
        invariant LinkedSoFar(nodes0, levels0, contents0, x, height, prev, i)
      {
        hide LinkedSoFar;
        LinkOneMore(nodes0, levels0, contents0, x, height, prev, i);
      }
    }

    method LinkOneMore(ghost nodes0: seq<Node>, ghost levels0: seq<seq<nat>>, ghost contents0: seq<Entry>, x: nat,
                       ghost height: nat, prev: seq<nat>, i: nat)
      requires i < height && LinkedSoFar(nodes0, levels0, contents0, x, height, prev, i)
      modifies this`nodes, this`levels
      ensures LinkedSoFar(nodes0, levels0, contents0, x, height, prev, i + 1)
    {
      ghost var unlinked, before := nodes, levels;
      LinkNext(x, height, prev, i);
      StillSameNodes(nodes0, unlinked, nodes, x);
      AddedMore(levels0, before, levels, i, x);
    }

    /** Link the new node on one more level: two stores, the second of which readers see. */
    method LinkNext(x: nat, ghost height: nat, prev: seq<nat>, i: nat)
      requires WriterInv(nodes, maxHeight, levels, Inserting(x, height, prev, i, false)) && i < height && Valid()
      modifies this`nodes, this`levels
      ensures WriterInv(nodes, maxHeight, levels, Inserting(x, height, prev, i + 1, false)) && Valid()
      ensures x < |nodes| && SameNodes(old(nodes), nodes) && AddedAt(old(levels), levels, i, x)
      ensures Contents() == if i == 0 then InsertSorted(old(Contents()), old(nodes[x].entry)) else old(Contents())
    {
      ghost var w := Inserting(x, height, prev, i, false);
      SetLinkStep(nodes, maxHeight, levels, w);
      SameContents(nodes, SetLink(nodes, x, prev[i], i), levels[0]);
      nodes := SetLink(nodes, x, prev[i], i);
      PublishStep(nodes, maxHeight, levels, w.(ready := true));
      ghost var raised := Raise(levels, nodes, i, x);
      RaisedMembers(nodes, levels, i, x);
      nodes := Publish(nodes, x, prev[i], i);
      levels := raised;
    }
  }

  // ----- Iterating and the memtable

  /** A node of the list is at one place only: the number of keys before its own. */
  lemma RankOfNode(nodes: seq<Node>, level: seq<nat>, i: nat)
    requires InArena(nodes, level) && Sorted(Entries(nodes, level)) && i < |level|
    ensures Rank(nodes, level, nodes[level[i]].entry.key) == i
  {
    var es, r := Entries(nodes, level), Rank(nodes, level, nodes[level[i]].entry.key);
    assert es[i].key == nodes[level[i]].entry.key;
  }

  class ListIterator {
    const list: SkipList
    var node: nat

    /** The iterator stands on entry i of the list, or at its end. */
    ghost predicate At(i: nat)
      requires list.Valid()
      reads this, list
    {
      i <= |list.Contents()| && node == NodeAt(list.levels[0], i)
    }

    predicate Valid()
      reads this
    {
      node != 0
    }

    constructor (list: SkipList)
      requires list.Valid()
      ensures this.list == list && At(|list.Contents()|)
    {
      this.list, node := list, 0;
    }

    method SeekTo(target: InternalKey)
      requires list.Valid()
      modifies this
      ensures At(Seek(list.Contents(), target))
    {
      var prev;
      node, prev := list.FindGreaterOrEqual(target);
    }

    method SeekToFirst()
      requires list.Valid()
      modifies this
      ensures At(0)
    {
      assert Links(list.nodes, list.levels[0], 0) && NodeBefore(list.levels[0], 0) == 0;
      node := list.nodes[0].next[0];
    }

    method SeekToLast()
      requires list.Valid()
      modifies this
      ensures At(if list.Contents() == [] then 0 else |list.Contents()| - 1)
    {
      node := list.FindLast();
    }

    method Next(ghost i: nat)
      requires list.Valid() && At(i) && Valid()
      modifies this
      ensures At(i + 1)
    {
      assert Links(list.nodes, list.levels[0], 0) && NodeBefore(list.levels[0], i + 1) == node;
      node := list.nodes[node].next[0];
    }

    /** Without back links, the last node before the current key is searched from the top. */
    method Prev(ghost i: nat)
      requires list.Valid() && At(i) && Valid()
      modifies this
      ensures if i == 0 then !Valid() else At(i - 1) && Valid()
    {
      assert Links(list.nodes, list.levels[0], 0) && node == list.levels[0][i];
      RankOfNode(list.nodes, list.levels[0], i);
      node := list.FindLessThan(list.nodes[node].entry.key);
    }
  }

  class MemTable {
    const table: SkipList

    constructor ()
      ensures fresh(table) && table.Valid() && table.Contents() == []
    {
      table := new SkipList();
    }

    method Add(sequence: SequenceNumber, kind: ValueType, key: UserKey, value: Bytes, height: nat)
      requires table.Valid() && 1 <= height <= MAX_HEIGHT
      requires forall f :: f in table.Contents() ==> f.key.Tag() != InternalKey(key, sequence, kind).Tag()
      modifies table
      ensures table.Valid()
      ensures table.Contents() == InsertSorted(old(table.Contents()), Entry(InternalKey(key, sequence, kind), value))
    {
      table.Insert(Entry(InternalKey(key, sequence, kind), value), height);
    }

    method Get(u: UserKey, s: SequenceNumber) returns (r: LookupResult)
      requires table.Valid()
      ensures r == TableGet(table.Contents(), u, s)
    {
      var it := new ListIterator(table);
      it.SeekTo(LookupKey(u, s));
      if !it.Valid() || table.nodes[it.node].entry.key.user != u {
        return NotFound;
      }
      var e := table.nodes[it.node].entry;
      r := if e.key.kind.Put? then Found(e.value) else Deleted;
    }
  }
}
