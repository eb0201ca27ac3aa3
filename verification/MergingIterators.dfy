/**
 MergingIterator: one cursor over the union of several sorted children, in both directions.
 */
module MergingIterators {
  import opened Basics
  import opened InternalKeys
  import opened Tables

  /** A child iterator in its wrapper: a sorted run and a position; past the end means not valid. */
  datatype Cursor = Cursor(entries: seq<Entry>, pos: nat) {
    predicate Valid() {
      pos < |entries|
    }

    function Key(): InternalKey
      requires Valid()
    {
      entries[pos].key
    }

    function SeekToFirst(): Cursor {
      Cursor(entries, 0)
    }

    function SeekToLast(): Cursor {
      Cursor(entries, if entries == [] then 0 else |entries| - 1)
    }

    function SeekTo(target: InternalKey): Cursor {
      Cursor(entries, Seek(entries, target))
    }

    function Next(): Cursor
      requires Valid()
    {
      Cursor(entries, pos + 1)
    }

    /** Stepping before the first entry makes the cursor invalid. */
    function Prev(): Cursor
      requires Valid()
    {
      Cursor(entries, if pos == 0 then |entries| else pos - 1)
    }
  }

  // ----- What a cursor over a set of entries may show

  ghost predicate IsFirst(all: set<Entry>, at: Option<Entry>) {
    && (at.None? ==> all == {})
    && (at.Some? ==> at.value in all && forall f :: f in all ==> !Less(f.key, at.value.key))
  }

  ghost predicate IsLast(all: set<Entry>, at: Option<Entry>) {
    && (at.None? ==> all == {})
    && (at.Some? ==> at.value in all && forall f :: f in all ==> !Less(at.value.key, f.key))
  }

  /** Where a forward, or a backward, movement may land. */
  datatype Lower = FromStart | From(k: InternalKey) | Beyond(k: InternalKey)
  datatype Upper = ToEnd | Until(k: InternalKey)

  predicate Reaches(b: Lower, k: InternalKey) {
    match b
    case FromStart => true
    case From(t) => !Less(k, t)
    case Beyond(t) => Less(t, k)
  }

  predicate Under(b: Upper, k: InternalKey) {
    match b
    case ToEnd => true
    case Until(t) => Less(k, t)
  }

  ghost function AllAbove(all: set<Entry>, b: Lower): set<Entry> {
    set e | e in all && Reaches(b, e.key)
  }

  ghost function AllBelow(all: set<Entry>, b: Upper): set<Entry> {
    set e | e in all && Under(b, e.key)
  }

  /** The cursor stands on its first entry above b. */
  ghost predicate StartsAt(c: Cursor, b: Lower) {
    && c.pos <= |c.entries|
    && (forall j :: 0 <= j < c.pos ==> !Reaches(b, c.entries[j].key))
    && (forall j :: c.pos <= j < |c.entries| ==> Reaches(b, c.entries[j].key))
  }

  /** The cursor stands on its last entry below b, or is invalid if there is none. */
  ghost predicate EndsAt(c: Cursor, b: Upper) {
    && c.pos <= |c.entries|
    && (c.Valid() ==> Under(b, c.Key()))
    && (forall j :: 0 <= j < |c.entries| && (!c.Valid() || j > c.pos) ==> !Under(b, c.entries[j].key))
  }

  // ----- Children of a merging iterator

  datatype Direction = Forward | Reverse

  predicate SameKey(e: Entry, f: Entry) {
    e.key == f.key
  }

  /** Sorted runs whose internal keys are distinct across runs, as unique sequence numbers guarantee. */
  ghost predicate Mergeable(runs: seq<seq<Entry>>) {
    && (forall i :: 0 <= i < |runs| ==> Sorted(runs[i]))
    && forall i, j, e, f {:trigger e in runs[i], f in runs[j], SameKey(e, f)} ::
         0 <= i < j < |runs| && e in runs[i] && f in runs[j] ==> !SameKey(e, f)
  }

  ghost function Union(runs: seq<seq<Entry>>): set<Entry> {
    set i, e | 0 <= i < |runs| && e in runs[i] :: e
  }

  ghost predicate Over(cs: seq<Cursor>, runs: seq<seq<Entry>>) {
    |cs| == |runs| && forall i :: 0 <= i < |cs| ==> cs[i].entries == runs[i] && cs[i].pos <= |runs[i]|
  }

  predicate Stands(cs: seq<Cursor>, current: Option<nat>) {
    current.Some? ==> current.value < |cs| && cs[current.value].Valid()
  }

  ghost predicate Smallest(cs: seq<Cursor>, current: Option<nat>) {
    && Stands(cs, current)
    && (current.None? ==> forall i :: 0 <= i < |cs| ==> !cs[i].Valid())
    && (current.Some? ==> forall i :: 0 <= i < |cs| && cs[i].Valid() && i != current.value ==>
          Less(cs[current.value].Key(), cs[i].Key()))
  }

  ghost predicate Largest(cs: seq<Cursor>, current: Option<nat>) {
    && Stands(cs, current)
    && (current.None? ==> forall i :: 0 <= i < |cs| ==> !cs[i].Valid())
    && (current.Some? ==> forall i :: 0 <= i < |cs| && cs[i].Valid() && i != current.value ==>
          Less(cs[i].Key(), cs[current.value].Key()))
  }

  /** Moving forwards all other children are on their first entry after key(), backwards on their last before. */
  ghost predicate Placed(cs: seq<Cursor>, current: Option<nat>, direction: Direction) {
    && Stands(cs, current)
    && (current.Some? ==>
          forall i :: 0 <= i < |cs| && i != current.value ==>
            if direction.Forward? then StartsAt(cs[i], Beyond(cs[current.value].Key()))
            else EndsAt(cs[i], Until(cs[current.value].Key())))
  }

  function EntryAt(cs: seq<Cursor>, current: Option<nat>): Option<Entry>
    requires Stands(cs, current)
  {
    if current.None? then None else var c := cs[current.value]; Some(c.entries[c.pos])
  }

  lemma KeysDiffer(cs: seq<Cursor>, runs: seq<seq<Entry>>, i: nat, j: nat)
    requires Mergeable(runs) && Over(cs, runs) && i < j < |cs| && cs[i].Valid() && cs[j].Valid()
    ensures Less(cs[i].Key(), cs[j].Key()) || Less(cs[j].Key(), cs[i].Key())
  {
    var e, f := cs[i].entries[cs[i].pos], cs[j].entries[cs[j].pos];
    assert e in runs[i] && f in runs[j];
    assert !SameKey(e, f);
  }

  lemma FromWhere(runs: seq<seq<Entry>>, f: Entry) returns (i: nat, j: nat)
    requires f in Union(runs)
    ensures i < |runs| && j < |runs[i]| && runs[i][j] == f
  {
    i :| i < |runs| && f in runs[i];
    j :| j < |runs[i]| && runs[i][j] == f;
  }

  /** With every child on its first entry above b, the smallest child shows the first entry of the union above b. */
  lemma SmallestIsFirst(cs: seq<Cursor>, runs: seq<seq<Entry>>, current: Option<nat>, b: Lower)
    requires Mergeable(runs) && Over(cs, runs) && Smallest(cs, current)
    requires forall i :: 0 <= i < |cs| ==> StartsAt(cs[i], b)
    ensures Placed(cs, current, Forward) && IsFirst(AllAbove(Union(runs), b), EntryAt(cs, current))
  {
    if current.Some? {
      var c := cs[current.value];
      forall i | 0 <= i < |cs| && i != current.value ensures StartsAt(cs[i], Beyond(c.Key())) {
        StaysBeyond(cs[i], b, c.Key());
      }
      assert c.entries[c.pos] in runs[current.value];
      forall f | f in AllAbove(Union(runs), b) ensures !Less(f.key, c.Key()) {
        var i, j := FromWhere(runs, f);
        assert cs[i].entries[j] == f;
        assert cs[i].pos == j || Less(cs[i].Key(), f.key);
      }
    } else {
      forall f | f in Union(runs) ensures !Reaches(b, f.key) {
        var i, j := FromWhere(runs, f);
        assert !cs[i].Valid() && cs[i].entries[j] == f;
      }
    }
  }

  /** A child that starts above b, with its own first key after k, also starts just beyond k. */
  lemma StaysBeyond(c: Cursor, b: Lower, k: InternalKey)
    requires Sorted(c.entries) && StartsAt(c, b) && Reaches(b, k)
    requires c.Valid() ==> Less(k, c.Key())
    ensures StartsAt(c, Beyond(k))
  {
    forall j | c.pos <= j < |c.entries| ensures Less(k, c.entries[j].key) {
      assert j == c.pos || Less(c.entries[c.pos].key, c.entries[j].key);
    }
  }

  lemma LargestIsLast(cs: seq<Cursor>, runs: seq<seq<Entry>>, current: Option<nat>, b: Upper)
    requires Mergeable(runs) && Over(cs, runs) && Largest(cs, current)
    requires forall i :: 0 <= i < |cs| ==> EndsAt(cs[i], b)
    ensures Placed(cs, current, Reverse) && IsLast(AllBelow(Union(runs), b), EntryAt(cs, current))
  {
    if current.Some? {
      var c := cs[current.value];
      assert c.entries[c.pos] in runs[current.value];
      forall i | 0 <= i < |cs| && i != current.value ensures EndsAt(cs[i], Until(c.Key())) {
        StaysUntil(cs[i], b, c.Key());
      }
      forall f | f in AllBelow(Union(runs), b) ensures !Less(c.Key(), f.key) {
        var i, j := FromWhere(runs, f);
        assert cs[i].entries[j] == f;
        assert cs[i].Valid() && j <= cs[i].pos;
        assert cs[i].pos == j || Less(f.key, cs[i].Key());
      }
    } else {
      forall f | f in Union(runs) ensures !Under(b, f.key) {
        var i, j := FromWhere(runs, f);
        assert !cs[i].Valid() && cs[i].entries[j] == f;
      }
    }
  }

  lemma StaysUntil(c: Cursor, b: Upper, k: InternalKey)
    requires EndsAt(c, b) && Under(b, k)
    requires c.Valid() ==> Less(c.Key(), k)
    ensures EndsAt(c, Until(k))
  {
  }

  lemma SeekSplits(es: seq<Entry>, k: InternalKey)
    requires Sorted(es)
    ensures StartsAt(Cursor(es, Seek(es, k)), From(k))
  {
    var i := Seek(es, k);
    forall j | i <= j < |es| ensures !Less(es[j].key, k) {
      assert i == j || Less(es[i].key, es[j].key);
    }
  }

  lemma StepForward(c: Cursor)
    requires Sorted(c.entries) && c.Valid()
    ensures StartsAt(c.Next(), Beyond(c.Key()))
  {
    forall j | 0 <= j < |c.entries| ensures Less(c.Key(), c.entries[j].key) <==> j > c.pos {
      assert j < c.pos ==> Less(c.entries[j].key, c.entries[c.pos].key);
      assert j > c.pos ==> Less(c.entries[c.pos].key, c.entries[j].key);
    }
  }

  lemma StepBackward(c: Cursor)
    requires Sorted(c.entries) && c.Valid()
    ensures EndsAt(c.Prev(), Until(c.Key()))
  {
    forall j | 0 <= j < |c.entries| ensures Less(c.entries[j].key, c.Key()) <==> j < c.pos {
      assert j < c.pos ==> Less(c.entries[j].key, c.entries[c.pos].key);
      assert j > c.pos ==> Less(c.entries[c.pos].key, c.entries[j].key);
    }
  }

  /** Seek to key and, if it is there, step over it. */
  method PlaceAfter(c: Cursor, key: InternalKey) returns (r: Cursor)
    requires Sorted(c.entries)
    ensures r.entries == c.entries && StartsAt(r, Beyond(key))
  {
    r := c.SeekTo(key);
    SeekSplits(c.entries, key);
    if r.Valid() && r.Key() == key {
      StepForward(r);
      r := r.Next();
    } else {
      StaysBeyond(r, From(key), key);
    }
  }

  /** Seek to key and step back one entry, or to the last entry if nothing is at or after key. */
  method PlaceBefore(c: Cursor, key: InternalKey) returns (r: Cursor)
    requires Sorted(c.entries)
    ensures r.entries == c.entries && EndsAt(r, Until(key))
  {
    r := c.SeekTo(key);
    SeekSplits(c.entries, key);
    if r.Valid() {
      r := r.Prev();
    } else {
      r := r.SeekToLast();
    }
  }

  class MergingIterator {
    const children: array<Cursor>
    var current: Option<nat>
    var direction: Direction
    ghost const runs: seq<seq<Entry>>

    ghost predicate Valid()
      reads this, children
    {
      Mergeable(runs) && Over(children[..], runs) && Placed(children[..], current, direction)
    }

    /** The entry the iterator stands on. */
    function At(): Option<Entry>
      requires Stands(children[..], current)
      reads this, children
    {
      EntryAt(children[..], current)
    }

    constructor (runs: seq<seq<Entry>>)
      requires Mergeable(runs)
      ensures Valid() && At() == None && fresh(children) && this.runs == runs
    {
      this.runs := runs;
      children := new Cursor[|runs|](i requires 0 <= i < |runs| => Cursor(runs[i], |runs[i]|));
      current, direction := None, Forward;
    }

    method FindSmallest()
      requires Mergeable(runs) && Over(children[..], runs)
      modifies this`current
      ensures Smallest(children[..], current)
    {
      var smallest: Option<nat> := None;
      for i := 0 to children.Length
        invariant Smallest(children[..i], smallest)
      {
        if children[i].Valid() {
          if smallest.None? {
            smallest := Some(i);
          } else {
            KeysDiffer(children[..], runs, smallest.value, i);
            if Less(children[i].Key(), children[smallest.value].Key()) {
              smallest := Some(i);
            }
          }
        }
      }
      current := smallest;
      assert children[..children.Length] == children[..];
    }

    method FindLargest()
      requires Mergeable(runs) && Over(children[..], runs)
      modifies this`current
      ensures Largest(children[..], current)
    {
      var largest: Option<nat> := None;
      for i := children.Length downto 0
        invariant Stands(children[..], largest) && (largest.Some? ==> i <= largest.value)
        invariant largest.None? ==> forall j :: i <= j < children.Length ==> !children[j].Valid()
        invariant largest.Some? ==>
          forall j :: i <= j < children.Length && children[j].Valid() && j != largest.value ==>
            Less(children[j].Key(), children[largest.value].Key())
      {
        if children[i].Valid() {
          if largest.None? {
            largest := Some(i);
          } else {
            KeysDiffer(children[..], runs, i, largest.value);
            if Less(children[largest.value].Key(), children[i].Key()) {
              largest := Some(i);
            }
          }
        }
      }
      current := largest;
    }

    method SeekToFirst()
      requires Valid()
      modifies this`current, this`direction, children
      ensures Valid() && IsFirst(Union(runs), At())
    {
      for i := 0 to children.Length
        invariant Over(children[..], runs)
        invariant forall j :: 0 <= j < i ==> StartsAt(children[j], FromStart)
      {
        children[i] := children[i].SeekToFirst();
      }
      FindSmallest();
      direction := Forward;
      SmallestIsFirst(children[..], runs, current, FromStart);
      assert AllAbove(Union(runs), FromStart) == Union(runs);
    }

    method SeekToLast()
      requires Valid()
      modifies this`current, this`direction, children
      ensures Valid() && IsLast(Union(runs), At())
    {
      for i := 0 to children.Length
        invariant Over(children[..], runs)
        invariant forall j :: 0 <= j < i ==> EndsAt(children[j], ToEnd)
      {
        children[i] := children[i].SeekToLast();
      }
      FindLargest();
      direction := Reverse;
      LargestIsLast(children[..], runs, current, ToEnd);
      assert AllBelow(Union(runs), ToEnd) == Union(runs);
    }

    method SeekTo(target: InternalKey)
      requires Valid()
      modifies this`current, this`direction, children
      ensures Valid() && IsFirst(AllAbove(Union(runs), From(target)), At())
    {
      for i := 0 to children.Length
        invariant Over(children[..], runs)
        invariant forall j :: 0 <= j < i ==> StartsAt(children[j], From(target))
      {
        SeekSplits(children[i].entries, target);
        children[i] := children[i].SeekTo(target);
      }
      FindSmallest();
      direction := Forward;
      SmallestIsFirst(children[..], runs, current, From(target));
    }

    /** Move to the next entry of the union.  After moving backwards, first put every other child after key(). */
    method Next()
      requires Valid() && At().Some?
      modifies this`current, this`direction, children
      ensures Valid() && IsFirst(AllAbove(Union(runs), Beyond(old(At().value.key))), At())
    {
      var c := current.value;
      var key := children[c].Key();
      if direction != Forward {
        for i := 0 to children.Length
          invariant Over(children[..], runs) && children[c] == old(children[c])
          invariant forall j :: 0 <= j < i && j != c ==> StartsAt(children[j], Beyond(key))
        {
          if i != c {
            children[i] := PlaceAfter(children[i], key);
          }
        }
        direction := Forward;
      }
      StepForward(children[c]);
      children[c] := children[c].Next();
      FindSmallest();
      SmallestIsFirst(children[..], runs, current, Beyond(key));
    }

    /** Move to the previous entry of the union.  After moving forwards, first put every other child before key(). */
    method Prev()
      requires Valid() && At().Some?
      modifies this`current, this`direction, children
      ensures Valid() && IsLast(AllBelow(Union(runs), Until(old(At().value.key))), At())
    {
      var c := current.value;
      var key := children[c].Key();
      if direction != Reverse {
        for i := 0 to children.Length
          invariant Over(children[..], runs) && children[c] == old(children[c])
          invariant forall j :: 0 <= j < i && j != c ==> EndsAt(children[j], Until(key))
        {
          if i != c {
            children[i] := PlaceBefore(children[i], key);
          }
        }
        direction := Reverse;
      }
      StepBackward(children[c]);
      children[c] := children[c].Prev();
      FindLargest();
      LargestIsLast(children[..], runs, current, Until(key));
    }
  }

  lemma SortedKeysUnique(es: seq<Entry>, k: nat, m: nat)
    requires Sorted(es) && k < |es| && m < |es| && es[k].key == es[m].key
    ensures k == m
  {
  }

  lemma UnionKeysUnique(runs: seq<seq<Entry>>, e: Entry, f: Entry)
    requires Mergeable(runs) && e in Union(runs) && f in Union(runs) && SameKey(e, f)
    ensures e == f
  {
    var i, k := FromWhere(runs, e);
    var j, m := FromWhere(runs, f);
    if i == j {
      SortedKeysUnique(runs[i], k, m);
    } else {
      var symmetric := SameKey(f, e);
    }
  }

  /** Reading forwards from the first entry yields the sorted union: what a compaction reads. */
  method MergeAll(runs: seq<seq<Entry>>) returns (merged: seq<Entry>)
    requires Mergeable(runs)
    ensures Sorted(merged) && Elements(merged) == Union(runs)
  {
    var it := new MergingIterator(runs);
    it.SeekToFirst();
    merged := [];
    ghost var left := Union(runs);
    while it.current.Some?
      invariant it.Valid() && fresh(it) && fresh(it.children) && it.runs == runs
      invariant IsFirst(left, it.At()) && Elements(merged) + left == Union(runs)
      invariant ReadSoFar(merged, left)
      decreases left
    {
      var e := it.At().value;
      it.Next();
      forall f | f in left && SameKey(e, f) ensures e == f {
        UnionKeysUnique(runs, e, f);
      }
      ReadOne(Union(runs), merged, left, e);
      merged := merged + [e];
      left := AllAbove(Union(runs), Beyond(e.key));
    }
  }

  ghost predicate ReadSoFar(merged: seq<Entry>, left: set<Entry>) {
    Sorted(merged) && forall i, f :: 0 <= i < |merged| && f in left ==> Less(merged[i].key, f.key)
  }

  lemma ReadOne(all: set<Entry>, merged: seq<Entry>, left: set<Entry>, e: Entry)
    requires ReadSoFar(merged, left) && Elements(merged) + left == all && IsFirst(left, Some(e))
    requires forall f :: f in left && SameKey(e, f) ==> e == f
    ensures var rest := AllAbove(all, Beyond(e.key));
            rest < left && Elements(merged + [e]) + rest == all && ReadSoFar(merged + [e], rest)
  {
    var rest := AllAbove(all, Beyond(e.key));
    forall f | f in all ensures f in rest <==> f in left && f != e {
      if f in merged {
        var i :| 0 <= i < |merged| && merged[i] == f;
      }
    }
    assert e !in rest;
  }

  // ----- A merging iterator as one cursor over the sorted union

  lemma KeysTotal(a: InternalKey, b: InternalKey)
    ensures a == b || Less(a, b) || Less(b, a)
  {
  }

  /** Entries with distinct keys can be put in order. */
  lemma {:induction false} SortedSet(E: set<Entry>) returns (es: seq<Entry>)
    requires forall e, f {:trigger SameKey(e, f)} :: e in E && f in E && SameKey(e, f) ==> e == f
    ensures Sorted(es) && Elements(es) == E
  {
    es := [];
    if e :| e in E {
      var rest := SortedSet(E - {e});
      var i := Seek(rest, e.key);
      forall j | i <= j < |rest| ensures Less(e.key, rest[j].key) {
        assert rest[j] in Elements(rest);
        KeysTotal(rest[j].key, e.key);
        assert !SameKey(e, rest[j]);
        assert i < j ==> Less(rest[i].key, rest[j].key);
      }
      SortedInsertAt(rest, i, e);
      InsertAtMembers(rest, i, e);
      es := rest[..i] + [e] + rest[i..];
    }
  }

  lemma SortedUnion(runs: seq<seq<Entry>>) returns (es: seq<Entry>)
    requires Mergeable(runs)
    ensures Sorted(es) && Elements(es) == Union(runs)
  {
    forall e, f | e in Union(runs) && f in Union(runs) && SameKey(e, f) ensures e == f {
      UnionKeysUnique(runs, e, f);
    }
    es := SortedSet(Union(runs));
  }

  /** The cursor shows this entry. */
  ghost predicate Shows(c: Cursor, at: Option<Entry>) {
    c.pos <= |c.entries| && at == if c.Valid() then Some(c.entries[c.pos]) else None
  }

  lemma SameElement(es: seq<Entry>, i: nat, e: Entry)
    requires Sorted(es) && i < |es| && e in es && !Less(e.key, es[i].key) && !Less(es[i].key, e.key)
    ensures e == es[i]
  {
    var j: nat :| j < |es| && es[j] == e;
  }

  /** The first entry above a bound is where a cursor that starts at the bound stands. */
  lemma FirstIsStart(es: seq<Entry>, c: Cursor, b: Lower, at: Option<Entry>)
    requires Sorted(es) && c.entries == es && StartsAt(c, b) && IsFirst(AllAbove(Elements(es), b), at)
    ensures Shows(c, at)
  {
    if c.Valid() {
      assert es[c.pos] in AllAbove(Elements(es), b);
      var j: nat :| j < |es| && es[j] == at.value;
      SameElement(es, c.pos, at.value);
    }
  }

  lemma LastIsEnd(es: seq<Entry>, c: Cursor, b: Upper, at: Option<Entry>)
    requires Sorted(es) && c.entries == es && EndsAt(c, b) && IsLast(AllBelow(Elements(es), b), at)
    ensures Shows(c, at)
  {
    if c.Valid() {
      assert es[c.pos] in AllBelow(Elements(es), b);
      var j: nat :| j < |es| && es[j] == at.value;
      SameElement(es, c.pos, at.value);
    }
  }

  /** The iterator under a DBIter: it keeps the merging iterator's place in the sorted union. */
  class MergedCursor {
    const merging: MergingIterator
    ghost const entries: seq<Entry>
    ghost var pos: nat

    ghost predicate Ok()
      reads this, merging, merging.children
    {
      && merging.Valid() && Sorted(entries) && Elements(entries) == Union(merging.runs)
      && Shows(View(), merging.At())
    }

    ghost function View(): Cursor
      reads this
    {
      Cursor(entries, pos)
    }

    constructor (runs: seq<seq<Entry>>)
      requires Mergeable(runs)
      ensures Ok() && View() == Cursor(entries, |entries|) && Elements(entries) == Union(runs)
      ensures fresh(merging) && fresh(merging.children)
    {
      ghost var es := SortedUnion(runs);
      merging := new MergingIterator(runs);
      entries, pos := es, |es|;
    }

    predicate HasEntry()
      requires Ok()
      reads this, merging, merging.children
      ensures HasEntry() <==> View().Valid()
    {
      merging.current.Some?
    }

    function Key(): (k: InternalKey)
      requires Ok() && HasEntry()
      reads this, merging, merging.children
      ensures k == entries[pos].key
    {
      merging.At().value.key
    }

    function Value(): (v: Bytes)
      requires Ok() && HasEntry()
      reads this, merging, merging.children
      ensures v == entries[pos].value
    {
      merging.At().value.value
    }

    method SeekToFirst()
      requires Ok()
      modifies this`pos, merging, merging.children
      ensures Ok() && View() == old(View()).SeekToFirst()
    {
      merging.SeekToFirst();
      pos := 0;
      assert AllAbove(Elements(entries), FromStart) == Elements(entries);
      FirstIsStart(entries, View(), FromStart, merging.At());
    }

    method SeekToLast()
      requires Ok()
      modifies this`pos, merging, merging.children
      ensures Ok() && View() == old(View()).SeekToLast()
    {
      merging.SeekToLast();
      pos := View().SeekToLast().pos;
      assert AllBelow(Elements(entries), ToEnd) == Elements(entries);
      LastIsEnd(entries, View(), ToEnd, merging.At());
    }

    method SeekTo(target: InternalKey)
      requires Ok()
      modifies this`pos, merging, merging.children
      ensures Ok() && View() == old(View()).SeekTo(target)
    {
      merging.SeekTo(target);
      pos := View().SeekTo(target).pos;
      SeekSplits(entries, target);
      FirstIsStart(entries, View(), From(target), merging.At());
    }

    method Next()
      requires Ok() && HasEntry()
      modifies this`pos, merging, merging.children
      ensures Ok() && View() == old(View()).Next()
    {
      StepForward(View());
      merging.Next();
      pos := pos + 1;
      FirstIsStart(entries, View(), Beyond(old(entries[pos].key)), merging.At());
    }

    method Prev()
      requires Ok() && HasEntry()
      modifies this`pos, merging, merging.children
      ensures Ok() && View() == old(View()).Prev()
    {
      StepBackward(View());
      merging.Prev();
      pos := View().Prev().pos;
      LastIsEnd(entries, View(), Until(old(entries[pos].key)), merging.At());
    }
  }
}
