/**
 DBIter: the user's cursor.  It walks the sorted internal entries and shows the map visible at its
 sequence number, in both directions.
 */
module DbIters {
  import opened Basics
  import opened InternalKeys
  import opened Tables
  import opened MergingIterators

  predicate Visible(es: seq<Entry>, s: nat, i: nat)
    requires i < |es|
  {
    es[i].key.sequence <= s
  }

  predicate SameUser(es: seq<Entry>, i: nat, j: nat)
    requires i < |es| && j < |es|
  {
    es[i].key.user == es[j].key.user
  }

  /** Entry i is what a reader at s gets for its user key, and it is a value. */
  ghost predicate Live(es: seq<Entry>, s: nat, i: nat) {
    && i < |es| && Visible(es, s, i) && es[i].key.kind.Put?
    && forall j :: 0 <= j < i && SameUser(es, j, i) ==> !Visible(es, s, j)
  }

  // ----- The map a reader sees

  ghost function VisibleMap(es: seq<Entry>, s: nat): map<UserKey, Bytes> {
    var users := set e | e in es :: e.key.user;
    map u | u in users && View(Elements(es), u, s).Some? :: View(Elements(es), u, s).value
  }

  lemma UserOrder(es: seq<Entry>, i: nat, j: nat)
    requires Sorted(es) && i <= j < |es|
    ensures es[i].key.user <= es[j].key.user
    ensures i < j && SameUser(es, i, j) ==> es[i].key.sequence >= es[j].key.sequence
  {
    assert i < j ==> Less(es[i].key, es[j].key);
  }

  lemma LiveIsShown(es: seq<Entry>, s: nat, i: nat)
    requires Sorted(es) && Distinct(Elements(es)) && Live(es, s, i)
    ensures es[i].key.user in VisibleMap(es, s) && VisibleMap(es, s)[es[i].key.user] == es[i].value
  {
    var u := es[i].key.user;
    forall f | f in es && Sees(f, u, s) ensures f.key.sequence <= es[i].key.sequence {
      var j :| 0 <= j < |es| && es[j] == f;
      assert j < i ==> !SameUser(es, j, i) || !Visible(es, s, j);
      UserOrder(es, if i <= j then i else j, if i <= j then j else i);
    }
    assert Newest(Elements(es), u, s, es[i]);
    ViewOfNewest(Elements(es), u, s, es[i]);
  }

  lemma ShownIsLive(es: seq<Entry>, s: nat, u: UserKey) returns (i: nat)
    requires Sorted(es) && Distinct(Elements(es)) && u in VisibleMap(es, s)
    ensures Live(es, s, i) && es[i].key.user == u
  {
    assert exists e :: Newest(Elements(es), u, s, e) by {
      if forall e :: e in es ==> !Sees(e, u, s) {
        ViewOfNothing(Elements(es), u, s);
      } else {
        var w :| w in es && Sees(w, u, s);
        var e := NewestExists(Elements(es), u, s, w);
      }
    }
    var e :| Newest(Elements(es), u, s, e);
    ViewOfNewest(Elements(es), u, s, e);
    i :| 0 <= i < |es| && es[i] == e;
    forall j | 0 <= j < i && SameUser(es, j, i) ensures !Visible(es, s, j) {
      assert Less(es[j].key, es[i].key) && es[j] in Elements(es);
      assert !SameSlot(es[j], es[i]);
    }
  }

  lemma MapIsView(es: seq<Entry>, s: nat, u: UserKey)
    ensures (if u in VisibleMap(es, s) then Some(VisibleMap(es, s)[u]) else None) == View(Elements(es), u, s)
  {
    if View(Elements(es), u, s).Some? {
      var e :| Newest(Elements(es), u, s, e);
      assert e in es;
    }
  }

  // ----- What the cursor shows, over keys

  datatype Shown = Shown(key: UserKey, value: Bytes)

  ghost predicate FirstOf(m: map<UserKey, Bytes>, keys: set<UserKey>, at: Option<Shown>) {
    && (at.None? ==> m.Keys * keys == {})
    && (at.Some? ==> at.value.key in m && at.value.key in keys && m[at.value.key] == at.value.value
                     && forall k :: k in m && k in keys ==> at.value.key <= k)
  }

  ghost predicate LastOf(m: map<UserKey, Bytes>, keys: set<UserKey>, at: Option<Shown>) {
    && (at.None? ==> m.Keys * keys == {})
    && (at.Some? ==> at.value.key in m && at.value.key in keys && m[at.value.key] == at.value.value
                     && forall k :: k in m && k in keys ==> k <= at.value.key)
  }

  ghost function KeysFrom(m: map<UserKey, Bytes>, u: UserKey): set<UserKey> {
    set k | k in m && u <= k
  }

  ghost function KeysAfter(m: map<UserKey, Bytes>, u: UserKey): set<UserKey> {
    set k | k in m && u < k
  }

  ghost function KeysBefore(m: map<UserKey, Bytes>, u: UserKey): set<UserKey> {
    set k | k in m && k < u
  }

  // ----- The same, over positions

  /** at is the first live position from n on, among user keys after the bound. */
  ghost predicate FirstLive(es: seq<Entry>, s: nat, n: nat, after: Option<UserKey>, at: Option<nat>) {
    && (at.Some? ==> n <= at.value && Live(es, s, at.value) && (after.Some? ==> es[at.value].key.user > after.value))
    && NoneWanted(es, s, n, if at.Some? then at.value else |es|, after)
  }

  /** at is the last live position before n. */
  ghost predicate LastLive(es: seq<Entry>, s: nat, n: nat, at: Option<nat>) {
    && (at.Some? ==> at.value < n && Live(es, s, at.value))
    && forall i :: (if at.Some? then at.value + 1 else 0) <= i < n ==> !Live(es, s, i)
  }

  function ShownAt(es: seq<Entry>, at: Option<nat>): Option<Shown>
    requires at.Some? ==> at.value < |es|
  {
    if at.None? then None else Some(Shown(es[at.value].key.user, es[at.value].value))
  }

  lemma FirstLiveIsFirstOf(es: seq<Entry>, s: nat, n: nat, after: Option<UserKey>, at: Option<nat>, keys: set<UserKey>)
    requires Sorted(es) && Distinct(Elements(es)) && FirstLive(es, s, n, after, at)
    requires forall i: nat :: Live(es, s, i) ==>
               (es[i].key.user in keys <==> i >= n && (after.Some? ==> es[i].key.user > after.value))
    ensures FirstOf(VisibleMap(es, s), keys, ShownAt(es, at))
  {
    var m := VisibleMap(es, s);
    if at.Some? {
      LiveIsShown(es, s, at.value);
    }
    forall k | k in m && k in keys ensures at.Some? && es[at.value].key.user <= k {
      var i := ShownIsLive(es, s, k);
      if at.Some? {
        UserOrder(es, at.value, i);
      }
    }
  }

  lemma LastLiveIsLastOf(es: seq<Entry>, s: nat, n: nat, at: Option<nat>, keys: set<UserKey>)
    requires Sorted(es) && Distinct(Elements(es)) && LastLive(es, s, n, at)
    requires forall i: nat :: Live(es, s, i) ==> (es[i].key.user in keys <==> i < n)
    ensures LastOf(VisibleMap(es, s), keys, ShownAt(es, at))
  {
    var m := VisibleMap(es, s);
    if at.Some? {
      LiveIsShown(es, s, at.value);
    }
    forall k | k in m && k in keys ensures at.Some? && k <= es[at.value].key.user {
      var i := ShownIsLive(es, s, k);
      if at.Some? {
        UserOrder(es, i, at.value);
      }
    }
  }

  // ----- The forward scan

  ghost predicate Scanning(es: seq<Entry>, s: nat, start: nat, pos: nat, skipping: bool, skip: UserKey,
                           after: Option<UserKey>)
  {
    && start <= pos <= |es|
    && ForwardScan(es, s, pos, skipping, skip) && SkipsNothingWanted(es, s, pos, skipping, skip, after)
    && NoneWanted(es, s, start, pos, after)
  }

  /** Of the entries from i to j - 1, all live ones are at or before the bound. */
  ghost predicate NoneWanted(es: seq<Entry>, s: nat, i: nat, j: nat, after: Option<UserKey>) {
    forall k :: i <= k < j && Live(es, s, k) ==> after.Some? && es[k].key.user <= after.value
  }

  /** Entries from pos on that could still be shown are not shadowed by entries before pos, except those
      the scan is skipping; and nothing wanted is being skipped. */
  ghost predicate ForwardScan(es: seq<Entry>, s: nat, pos: nat, skipping: bool, skip: UserKey) {
    && (forall i, j :: 0 <= j < pos <= i < |es| && SameUser(es, j, i) && Visible(es, s, j) ==>
      skipping && es[i].key.user <= skip)
    && (skipping ==> forall i :: pos <= i < |es| && Visible(es, s, i) ==> es[i].key.user >= skip)
  }

  /** No live entry from pos on that the caller wants is hidden by the skip key. */
  ghost predicate SkipsNothingWanted(es: seq<Entry>, s: nat, pos: nat, skipping: bool, skip: UserKey,
                                     after: Option<UserKey>)
  {
    && (after.Some? ==> skipping && after.value <= skip)
    && (skipping ==> forall i :: pos <= i && Live(es, s, i) && es[i].key.user <= skip ==>
          after.Some? && es[i].key.user <= after.value)
  }

  // ----- The backward scan

  /** The cursor stands on the last visible entry of a user key before k, or is invalid if there is none. */
  ghost predicate BeforeKey(es: seq<Entry>, s: nat, pos: nat, k: UserKey) {
    && pos <= |es|
    && (pos < |es| ==> es[pos].key.user < k && Visible(es, s, pos))
    && forall j :: 0 <= j < |es| && (pos < |es| ==> pos < j) && es[j].key.user < k ==> !Visible(es, s, j)
  }

  /** After reading positions [p..n) backwards: if the last visible entry read is a value, it is at q. */
  ghost predicate BackwardScan(es: seq<Entry>, s: nat, p: nat, n: nat, found: bool, q: nat) {
    && p <= n <= |es|
    && (!found ==> forall i :: p <= i < n ==> !Live(es, s, i))
    && (found ==> && p <= q < n && Visible(es, s, q) && es[q].key.kind.Put?
                  && (forall i :: p <= i < q ==> !Visible(es, s, i))
                  && forall i :: q < i < n ==> !Live(es, s, i))
  }

  class DBIter {
    const iter: MergedCursor
    const sequence: SequenceNumber
    var savedKey: UserKey
    var savedValue: Bytes
    var direction: Direction
    var valid: bool

    ghost predicate Good()
      reads this, iter, iter.merging, iter.merging.children
    {
      iter.Ok() && Distinct(Elements(iter.entries))
    }

    ghost predicate Valid()
      reads this, iter, iter.merging, iter.merging.children
    {
      && Good()
      && (valid && direction.Forward? ==> Live(iter.entries, sequence, iter.pos))
      && (valid && direction.Reverse? ==>
            && BeforeKey(iter.entries, sequence, iter.pos, savedKey)
            && exists q: nat :: Live(iter.entries, sequence, q)
                                && iter.entries[q].key.user == savedKey && iter.entries[q].value == savedValue)
    }

    /** The map this iterator runs over. */
    ghost function Map(): map<UserKey, Bytes>
    {
      VisibleMap(iter.entries, sequence)
    }

    /** key() and value(), when Valid(). */
    function At(): Option<Shown>
      requires Valid()
      reads this, iter, iter.merging, iter.merging.children
    {
      if !valid then None
      else if direction.Forward? then Some(Shown(iter.Key().user, iter.Value()))
      else Some(Shown(savedKey, savedValue))
    }

    constructor (runs: seq<seq<Entry>>, s: SequenceNumber)
      requires Mergeable(runs) && Distinct(Union(runs))
      ensures Valid() && At() == None && Elements(iter.entries) == Union(runs) && sequence == s
      ensures fresh(iter) && fresh(iter.merging) && fresh(iter.merging.children)
    {
      iter := new MergedCursor(runs);
      sequence, direction, valid := s, Forward, false;
      savedKey, savedValue := 0.0, [];
    }

    /** Read the entry the cursor is on; found if it is to be shown. */
    method ReadForwards(skipping0: bool, skip0: UserKey, ghost start: nat, ghost after: Option<UserKey>)
      returns (found: bool, skipping: bool, skip: UserKey)
      requires Good() && iter.HasEntry()
      requires Scanning(iter.entries, sequence, start, iter.pos, skipping0, skip0, after)
      ensures found ==> FirstLive(iter.entries, sequence, start, after, Some(iter.pos))
      ensures !found ==> Scanning(iter.entries, sequence, start, iter.pos + 1, skipping, skip, after)
    {
      found, skipping, skip := false, skipping0, skip0;
      var ikey := iter.Key();
      ScanStep(iter.entries, sequence, start, iter.pos, skipping, skip, after);
      if ikey.sequence <= sequence {
        if ikey.kind.Deletion? {
          skip, skipping := ikey.user, true;
        } else if skipping && ikey.user <= skip {
        } else {
          found := true;
        }
      }
    }

    /** Find the next entry to show.  Live entries are wanted if after is None or their key is past it. */
    method FindNextUserEntry(skipping0: bool, skip0: UserKey, ghost after: Option<UserKey>)
      requires Good() && iter.HasEntry() && direction.Forward?
      requires ForwardScan(iter.entries, sequence, iter.pos, skipping0, skip0)
      requires SkipsNothingWanted(iter.entries, sequence, iter.pos, skipping0, skip0, after)
      modifies this`savedKey, this`valid, iter, iter.merging, iter.merging.children
      ensures Valid()
      ensures FirstLive(iter.entries, sequence, old(iter.pos), after, if valid then Some(iter.pos) else None)
    {
      var skipping, skip := skipping0, skip0;
      ghost var start := iter.pos;
      hide FirstLive, Scanning, Live, Distinct;
      ScanStarts(iter.entries, sequence, start, skipping0, skip0, after);
      savedKey, valid := 0.0, false;
      var more := true;
      while more && !valid
        invariant Good() && direction.Forward?
        invariant more && !valid ==>
          iter.HasEntry() && Scanning(iter.entries, sequence, start, iter.pos, skipping, skip, after)
        invariant valid ==> Live(iter.entries, sequence, iter.pos)
        invariant valid || !more ==>
          FirstLive(iter.entries, sequence, start, after, if valid then Some(iter.pos) else None)
        decreases more, !valid, |iter.entries| - iter.pos
      {
        valid, more, skipping, skip := ReadOn(skipping, skip, start, after);
      }
    }

    /** Read the entry the cursor is on, and go on to the next unless it is to be shown. */
    method ReadOn(skipping0: bool, skip0: UserKey, ghost start: nat, ghost after: Option<UserKey>)
      returns (found: bool, more: bool, skipping: bool, skip: UserKey)
      requires Good() && iter.HasEntry()
      requires Scanning(iter.entries, sequence, start, iter.pos, skipping0, skip0, after)
      modifies iter, iter.merging, iter.merging.children
      ensures Good()
      ensures found ==> more && iter.pos == old(iter.pos) && Live(iter.entries, sequence, iter.pos)
      ensures found ==> FirstLive(iter.entries, sequence, start, after, Some(iter.pos))
      ensures more && !found ==> iter.HasEntry() && iter.pos == old(iter.pos) + 1
      ensures more && !found ==> Scanning(iter.entries, sequence, start, iter.pos, skipping, skip, after)
      ensures !more ==> FirstLive(iter.entries, sequence, start, after, None)
    {
      hide FirstLive, Scanning, Live, Distinct;
      found, skipping, skip := ReadForwards(skipping0, skip0, start, after);
      more := true;
      if found {
        FirstIsLive(iter.entries, sequence, start, iter.pos, after);
        return;
      }
      iter.Next();
      more := iter.HasEntry();
      if !more {
        ScanEnds(iter.entries, sequence, start, skipping, skip, after);
      }
    }

    method SeekTo(target: UserKey)
      requires Valid()
      modifies this, iter, iter.merging, iter.merging.children
      ensures Valid()
      ensures FirstOf(Map(), KeysFrom(Map(), target), At())
    {
      hide Live, BeforeKey, FirstLive, FirstOf, ForwardScan, Distinct;
      direction, savedValue, savedKey := Forward, [], 0.0;
      var k := LookupKey(target, sequence);
      SeekSplits(iter.entries, k);
      iter.SeekTo(k);
      SeekReachesKeysFrom(iter.entries, sequence, target, iter.pos);
      ghost var start := iter.pos;
      if iter.HasEntry() {
        FindNextUserEntry(false, savedKey, None);
      } else {
        valid := false;
      }
      FirstLiveIsFirstOf(iter.entries, sequence, start, None, if valid then Some(iter.pos) else None,
                         KeysFrom(Map(), target));
    }

    method SeekToFirst()
      requires Valid()
      modifies this, iter, iter.merging, iter.merging.children
      ensures Valid()
      ensures FirstOf(Map(), Map().Keys, At())
    {
      direction, savedValue := Forward, [];
      iter.SeekToFirst();
      if iter.HasEntry() {
        FindNextUserEntry(false, savedKey, None);
      } else {
        valid := false;
      }
      FirstLiveKeys(iter.entries, sequence);
      FirstLiveIsFirstOf(iter.entries, sequence, 0, None, if valid then Some(iter.pos) else None, Map().Keys);
    }

    method Next()
      requires Valid() && valid
      modifies this`savedKey, this`valid, this`direction, iter, iter.merging, iter.merging.children
      ensures Valid()
      ensures FirstOf(Map(), KeysAfter(Map(), old(At().value.key)), At())
    {
      EnterCurrentKey();
      ghost var start := iter.pos;
      FindNextUserEntry(true, savedKey, Some(savedKey));
      NextLanding(iter.entries, sequence, start, old(At().value.key), if valid then Some(iter.pos) else None);
    }

    /** Switch to moving forwards, with the entries of the current key at or ahead of the cursor. */
    method EnterCurrentKey()
      requires Valid() && valid
      modifies this`savedKey, this`direction, iter, iter.merging, iter.merging.children
      ensures Good() && direction.Forward? && savedKey == old(At().value.key)
      ensures AtCurrentKey(iter.entries, sequence, iter.pos, savedKey)
    {
      if direction == Reverse {
        direction := Forward;
        if !iter.HasEntry() {
          iter.SeekToFirst();
        } else {
          iter.Next();
        }
        EntriesOfKeyAhead(iter.entries, sequence, old(iter.pos), savedKey, iter.pos);
      } else {
        savedKey := iter.Key().user;
        CurrentEntryAhead(iter.entries, sequence, iter.pos);
      }
    }

    ghost predicate Saved(es: seq<Entry>, q: nat)
      reads this
    {
      q < |es| && es[q].key.user == savedKey && es[q].value == savedValue
    }

    /** Read the entry the cursor is on; past if it is a visible one of an earlier user key than that found. */
    method ReadBackwards(found: bool, ghost p: nat, ghost n: nat, ghost q: nat)
      returns (past: bool, found': bool, ghost q': nat)
      requires Good() && iter.HasEntry() && p == iter.pos + 1
      requires BackwardScan(iter.entries, sequence, p, n, found, q) && (found ==> Saved(iter.entries, q))
      modifies this`savedKey, this`savedValue
      ensures found' ==> Saved(iter.entries, q')
      ensures past ==> found' && BackwardScan(iter.entries, sequence, p, n, true, q')
                       && Visible(iter.entries, sequence, p - 1)
                       && iter.entries[p - 1].key.user < iter.entries[q'].key.user
      ensures !past ==> BackwardScan(iter.entries, sequence, p - 1, n, found', q')
    {
      past, found', q' := false, found, q;
      var ikey := iter.Key();
      BackwardStep(iter.entries, sequence, p, n, found, q);
      if ikey.sequence <= sequence {
        if found && ikey.user < savedKey {
          past := true;
          return;
        }
        found' := ikey.kind.Put?;
        if found' {
          savedKey, savedValue := ikey.user, iter.Value();
        } else {
          savedKey, savedValue := 0.0, [];
        }
        q' := iter.pos;
      }
    }

    /** Read backwards until past the user key of the last live entry, or to the start. */
    method ScanBackwards(ghost n: nat) returns (found: bool, ghost p: nat, ghost q: nat)
      requires Good() && n == if iter.HasEntry() then iter.pos + 1 else 0
      modifies this`savedKey, this`savedValue, iter, iter.merging, iter.merging.children
      ensures Good() && BackwardScan(iter.entries, sequence, p, n, found, q) && (found ==> Saved(iter.entries, q))
      ensures if iter.HasEntry() then p == iter.pos + 1 else p == 0
      ensures iter.HasEntry() ==>
        found && Visible(iter.entries, sequence, p - 1) && iter.entries[p - 1].key.user < iter.entries[q].key.user
    {
      found, p, q := false, n, 0;
      BackwardStart(iter.entries, sequence, n);
      hide BackwardScan, Sorted, Distinct;
      while iter.HasEntry()
        invariant Good()
        invariant if iter.HasEntry() then p == iter.pos + 1 else p == 0
        invariant BackwardScan(iter.entries, sequence, p, n, found, q)
        invariant found ==> Saved(iter.entries, q)
        decreases p
      {
        var past;
        past, found, q := ReadBackwards(found, p, n, q);
        if past {
          return;
        }
        p := p - 1;
        iter.Prev();
      }
    }

    /** Scan backwards from the current entry for the last live entry; stop on the entry before its key. */
    method FindPrevUserEntry() returns (ghost at: Option<nat>)
      requires Good() && direction.Reverse?
      modifies this`savedKey, this`savedValue, this`valid, this`direction, iter, iter.merging, iter.merging.children
      ensures Valid()
      ensures LastLive(iter.entries, sequence, if old(iter.HasEntry()) then old(iter.pos) + 1 else 0, at)
      ensures At() == ShownAt(iter.entries, at)
    {
      ghost var n := if iter.HasEntry() then iter.pos + 1 else 0;
      ghost var p, q;
      var found;
      found, p, q := ScanBackwards(n);
      BackwardDone(iter.entries, sequence, p, n, found, q);
      hide BackwardScan, BeforeKey, Sorted, Distinct;
      if !found {
        valid, savedKey, savedValue, direction := false, 0.0, [], Forward;
        at := None;
      } else {
        valid := true;
        at := Some(q);
      }
    }

    method SeekToLast()
      requires Valid()
      modifies this, iter, iter.merging, iter.merging.children
      ensures Valid()
      ensures LastOf(Map(), Map().Keys, At())
    {
      direction, savedValue := Reverse, [];
      iter.SeekToLast();
      ghost var n := |iter.entries|;
      ghost var at := FindPrevUserEntry();
      FirstLiveKeys(iter.entries, sequence);
      LastLiveIsLastOf(iter.entries, sequence, n, at, Map().Keys);
    }

    method Prev()
      requires Valid() && valid
      modifies this, iter, iter.merging, iter.merging.children
      ensures Valid()
      ensures LastOf(Map(), KeysBefore(Map(), old(At().value.key)), At())
    {
      ghost var k, es := At().value.key, iter.entries;
      if direction == Forward {
        var left := LeaveCurrentKey();
        if !left {
          return;
        }
      } else {
        VisibleKeysBefore(es, sequence, iter.pos, k);
      }
      ghost var n := if iter.HasEntry() then iter.pos + 1 else 0;
      ghost var at := FindPrevUserEntry();
      LastLiveIsLastOf(es, sequence, n, at, KeysBefore(Map(), k));
    }

    /** Switch to moving backwards, with the cursor before all entries of the current key; there may be none. */
    method LeaveCurrentKey() returns (left: bool)
      requires Valid() && valid && direction.Forward?
      modifies this, iter, iter.merging, iter.merging.children
      ensures Good()
      ensures !left ==> Valid() && At() == None && KeysBefore(Map(), old(At().value.key)) == {}
      ensures left ==> direction.Reverse? && iter.HasEntry()
      ensures left ==> forall i: nat :: Live(iter.entries, sequence, i) ==>
                (iter.entries[i].key.user in KeysBefore(Map(), old(At().value.key)) <==> i < iter.pos + 1)
    {
      savedKey := iter.Key().user;
      ghost var start := iter.pos;
      left := PrevPastKey();
      if !left {
        NoKeysBefore(iter.entries, sequence, start, savedKey);
        valid, savedKey, savedValue := false, 0.0, [];
        return;
      }
      direction := Reverse;
      KeysBeforeAreBehind(iter.entries, sequence, iter.pos, start, savedKey);
    }

    /** Move the cursor back to the first entry before those of the saved key. */
    method PrevPastKey() returns (left: bool)
      requires Good() && iter.HasEntry() && iter.Key().user == savedKey
      modifies iter, iter.merging, iter.merging.children
      ensures Good() && (left ==> iter.HasEntry() && iter.pos < old(iter.pos) && iter.Key().user < savedKey)
      ensures forall i :: (if left then iter.pos + 1 else 0) <= i <= old(iter.pos) ==>
        iter.entries[i].key.user >= savedKey
    {
      ghost var es, start := iter.entries, iter.pos;
      left := false;
      while !left
        invariant Good() && iter.HasEntry() && iter.pos <= start
        invariant left ==> iter.pos < start && iter.Key().user < savedKey
        invariant forall i :: (if left then iter.pos + 1 else iter.pos) <= i <= start ==> es[i].key.user >= savedKey
        decreases !left, iter.pos
      {
        iter.Prev();
        if !iter.HasEntry() {
          return;
        }
        left := iter.Key().user < savedKey;
      }
    }
  }

  // ----- Where the live entries of a set of keys are

  lemma FirstLiveKeys(es: seq<Entry>, s: nat)
    requires Sorted(es) && Distinct(Elements(es))
    ensures forall i: nat :: Live(es, s, i) ==> i < |es| && es[i].key.user in VisibleMap(es, s)
  {
    forall i: nat | Live(es, s, i) ensures es[i].key.user in VisibleMap(es, s) {
      LiveIsShown(es, s, i);
    }
  }

  lemma SeekReachesKeysFrom(es: seq<Entry>, s: SequenceNumber, target: UserKey, n: nat)
    requires Sorted(es) && Distinct(Elements(es)) && StartsAt(Cursor(es, n), From(LookupKey(target, s)))
    ensures forall i: nat :: Live(es, s, i) ==> (es[i].key.user in KeysFrom(VisibleMap(es, s), target) <==> i >= n)
    ensures ForwardScan(es, s, n, false, 0.0)
  {
    FirstLiveKeys(es, s);
    forall i | 0 <= i < |es|
      ensures i < n <==> es[i].key.user < target || (es[i].key.user == target && !Visible(es, s, i))
    {
      LookupKeySplits(target, s, es[i].key);
    }
  }

  /** The scan for the key after k may start at position start. */
  ghost predicate AtCurrentKey(es: seq<Entry>, s: nat, start: nat, k: UserKey) {
    && start < |es|
    && ForwardScan(es, s, start, true, k) && SkipsNothingWanted(es, s, start, true, k, Some(k))
    && forall i :: 0 <= i < start ==> es[i].key.user <= k
  }

  lemma EntriesOfKeyAhead(es: seq<Entry>, s: nat, pos: nat, k: UserKey, start: nat)
    requires Sorted(es) && BeforeKey(es, s, pos, k) && start == if pos == |es| then 0 else pos + 1
    requires exists q: nat :: Live(es, s, q) && es[q].key.user == k
    ensures AtCurrentKey(es, s, start, k)
  {
    var q: nat :| Live(es, s, q) && es[q].key.user == k;
    forall i | 0 <= i < start ensures es[i].key.user < k {
      UserOrder(es, i, pos);
    }
  }

  lemma CurrentEntryAhead(es: seq<Entry>, s: nat, pos: nat)
    requires Sorted(es) && pos < |es|
    ensures AtCurrentKey(es, s, pos, es[pos].key.user)
  {
    forall i | 0 <= i < |es| ensures i <= pos ==> es[i].key.user <= es[pos].key.user
      ensures pos <= i ==> es[pos].key.user <= es[i].key.user
    {
      UserOrder(es, if i <= pos then i else pos, if i <= pos then pos else i);
    }
  }

  lemma NextLanding(es: seq<Entry>, s: nat, start: nat, k: UserKey, at: Option<nat>)
    requires Sorted(es) && Distinct(Elements(es)) && AtCurrentKey(es, s, start, k)
    requires FirstLive(es, s, start, Some(k), at)
    ensures FirstOf(VisibleMap(es, s), KeysAfter(VisibleMap(es, s), k), ShownAt(es, at))
  {
    FirstLiveKeys(es, s);
    FirstLiveIsFirstOf(es, s, start, Some(k), at, KeysAfter(VisibleMap(es, s), k));
  }

  lemma NoKeysBefore(es: seq<Entry>, s: nat, start: nat, k: UserKey)
    requires Sorted(es) && Distinct(Elements(es)) && start < |es| && forall i :: 0 <= i <= start ==> es[i].key.user >= k
    ensures KeysBefore(VisibleMap(es, s), k) == {}
  {
    forall u | u in VisibleMap(es, s) ensures u >= k {
      var i := ShownIsLive(es, s, u);
      UserOrder(es, if i <= start then i else start, if i <= start then start else i);
    }
  }

  lemma KeysBeforeAreBehind(es: seq<Entry>, s: nat, pos: nat, start: nat, k: UserKey)
    requires Sorted(es) && Distinct(Elements(es)) && pos < start < |es|
    requires es[pos].key.user < k && forall i :: pos < i <= start ==> es[i].key.user >= k
    ensures forall i: nat :: Live(es, s, i) ==> (es[i].key.user in KeysBefore(VisibleMap(es, s), k) <==> i < pos + 1)
  {
    FirstLiveKeys(es, s);
    forall i | 0 <= i < |es| ensures es[i].key.user < k <==> i < pos + 1 {
      UserOrder(es, if i <= pos then i else pos, if i <= pos then pos else i);
      UserOrder(es, if i <= pos + 1 then i else pos + 1, if i <= pos + 1 then pos + 1 else i);
    }
  }

  lemma VisibleKeysBefore(es: seq<Entry>, s: nat, pos: nat, k: UserKey)
    requires Sorted(es) && Distinct(Elements(es)) && BeforeKey(es, s, pos, k)
    ensures var n := if pos < |es| then pos + 1 else 0;
            forall i: nat :: Live(es, s, i) ==> (es[i].key.user in KeysBefore(VisibleMap(es, s), k) <==> i < n)
  {
    FirstLiveKeys(es, s);
    forall i | 0 <= i < |es| && pos < |es| && i <= pos ensures es[i].key.user < k {
      UserOrder(es, i, pos);
    }
  }

  lemma ScanStarts(es: seq<Entry>, s: nat, start: nat, skipping: bool, skip: UserKey, after: Option<UserKey>)
    requires start <= |es| && ForwardScan(es, s, start, skipping, skip)
    requires SkipsNothingWanted(es, s, start, skipping, skip, after)
    ensures Scanning(es, s, start, start, skipping, skip, after)
  {
  }

  lemma FirstIsLive(es: seq<Entry>, s: nat, start: nat, p: nat, after: Option<UserKey>)
    requires FirstLive(es, s, start, after, Some(p))
    ensures Live(es, s, p)
  {
  }

  lemma ScanEnds(es: seq<Entry>, s: nat, start: nat, skipping: bool, skip: UserKey, after: Option<UserKey>)
    requires Scanning(es, s, start, |es|, skipping, skip, after)
    ensures FirstLive(es, s, start, after, None)
  {
  }

  lemma BackwardStart(es: seq<Entry>, s: nat, n: nat)
    requires n <= |es|
    ensures BackwardScan(es, s, n, n, false, 0)
  {
  }

  /** What reading one entry does to the backward scan. */
  lemma BackwardStep(es: seq<Entry>, s: nat, p: nat, n: nat, found: bool, q: nat)
    requires Sorted(es) && 0 < p && BackwardScan(es, s, p, n, found, q)
    ensures var k := es[p - 1].key;
            && (k.sequence > s ==> BackwardScan(es, s, p - 1, n, found, q))
            && (k.sequence <= s && !(found && k.user < es[q].key.user) ==>
              BackwardScan(es, s, p - 1, n, k.kind.Put?, p - 1))
  {
    if found {
      UserOrder(es, p - 1, q);
      var shadowed := SameUser(es, p - 1, q);
    }
  }

  lemma BackwardDone(es: seq<Entry>, s: nat, p: nat, n: nat, found: bool, q: nat)
    requires Sorted(es) && BackwardScan(es, s, p, n, found, q)
    requires p == 0 || (found && Visible(es, s, p - 1) && es[p - 1].key.user < es[q].key.user)
    ensures found ==> LastLive(es, s, n, Some(q)) && BeforeKey(es, s, if p == 0 then |es| else p - 1, es[q].key.user)
    ensures !found ==> LastLive(es, s, n, None)
  {
    if found {
      forall i | 0 <= i < |es| ensures i <= q ==> es[i].key.user <= es[q].key.user
        ensures q <= i ==> es[q].key.user <= es[i].key.user
        ensures i < p ==> es[i].key.user <= es[p - 1].key.user
      {
        UserOrder(es, if i <= q then i else q, if i <= q then q else i);
        if i < p {
          UserOrder(es, i, p - 1);
        }
      }
      assert Live(es, s, q);
    }
  }

  /** Passing one entry keeps the scan going, or ends it on the first live entry wanted. */
  lemma ScanStep(es: seq<Entry>, s: nat, start: nat, pos: nat, skipping: bool, skip: UserKey, after: Option<UserKey>)
    requires Sorted(es) && pos < |es| && Scanning(es, s, start, pos, skipping, skip, after)
    ensures var k := es[pos].key;
            && (k.sequence > s || (k.kind.Put? && skipping && k.user <= skip) ==>
              Scanning(es, s, start, pos + 1, skipping, skip, after))
            && (k.sequence <= s && k.kind.Deletion? ==> Scanning(es, s, start, pos + 1, true, k.user, after))
            && (k.sequence <= s && k.kind.Put? && !(skipping && k.user <= skip) ==>
              FirstLive(es, s, start, after, Some(pos)))
  {
    ForwardStep(es, s, pos, skipping, skip, after);
  }

  /** What passing one entry does to the forward scan. */
  lemma ForwardStep(es: seq<Entry>, s: nat, pos: nat, skipping: bool, skip: UserKey, after: Option<UserKey>)
    requires Sorted(es) && pos < |es|
    requires ForwardScan(es, s, pos, skipping, skip) && SkipsNothingWanted(es, s, pos, skipping, skip, after)
    ensures var k := es[pos].key;
            && (k.sequence > s || (k.kind.Put? && skipping && k.user <= skip) ==>
                  && ForwardScan(es, s, pos + 1, skipping, skip)
                  && SkipsNothingWanted(es, s, pos + 1, skipping, skip, after)
                  && (Live(es, s, pos) ==> after.Some? && k.user <= after.value))
            && (k.sequence <= s && k.kind.Deletion? ==>
                  && ForwardScan(es, s, pos + 1, true, k.user)
                  && SkipsNothingWanted(es, s, pos + 1, true, k.user, after)
                  && !Live(es, s, pos))
            && (k.sequence <= s && k.kind.Put? && !(skipping && k.user <= skip) ==>
                  Live(es, s, pos) && (after.Some? ==> k.user > after.value))
  {
    forall i | pos <= i < |es| ensures es[pos].key.user <= es[i].key.user {
      UserOrder(es, pos, i);
    }
    var k := es[pos].key;
    if k.sequence <= s && k.kind.Deletion? {
      forall i | pos < i < |es| && Live(es, s, i) ensures es[i].key.user > k.user {
        assert !SameUser(es, pos, i);
      }
    }
  }
}
