/**
 Sorted runs of entries (memtables and table files) and point lookups in them.
 */
module Tables {
  import opened Basics
  import opened InternalKeys

  datatype LookupResult = NotFound | Found(value: Bytes) | Deleted

  /** A table file: its number, its size in bytes and its entries. */
  datatype Table = File(number: nat, size: nat, entries: seq<Entry>) {
    ghost predicate Valid() {
      entries != [] && Sorted(entries)
    }

    function Smallest(): InternalKey
      requires entries != []
    {
      entries[0].key
    }

    function Largest(): InternalKey
      requires entries != []
    {
      entries[|entries| - 1].key
    }
  }

  type File = f: Table | f.Valid()
    ghost witness File(0, 0, [Entry(InternalKey(0.0, 0, Put), [])])

  lemma WithinFileRange(f: File, e: Entry)
    requires e in f.entries
    ensures e.key == f.Smallest() || Less(f.Smallest(), e.key)
    ensures e.key == f.Largest() || Less(e.key, f.Largest())
    ensures f.Smallest().user <= e.key.user <= f.Largest().user
  {
  }

  /** The index of the first entry whose key is not before k. */
  function Seek(es: seq<Entry>, k: InternalKey): (i: nat)
    ensures i <= |es|
    ensures forall j :: 0 <= j < i ==> Less(es[j].key, k)
    ensures i < |es| ==> !Less(es[i].key, k)
  {
    if es == [] || !Less(es[0].key, k) then 0 else 1 + Seek(es[1..], k)
  }

  /** Position on the first entry at or after the lookup key and inspect it (MemTable::Get, SaveValue). */
  function TableGet(es: seq<Entry>, u: UserKey, s: SequenceNumber): LookupResult {
    var i := Seek(es, LookupKey(u, s));
    if i == |es| || es[i].key.user != u then NotFound
    else if es[i].key.kind.Put? then Found(es[i].value)
    else Deleted
  }

  /** What a lookup result says about the entries in E. */
  ghost predicate Answers(r: LookupResult, E: set<Entry>, u: UserKey, s: nat) {
    match r
    case NotFound => forall e :: e in E ==> !Sees(e, u, s)
    case Found(v) => exists e :: Newest(E, u, s, e) && Reveals(e) == Some(v)
    case Deleted => exists e :: Newest(E, u, s, e) && Reveals(e) == None
  }

  lemma TableGetAnswers(es: seq<Entry>, u: UserKey, s: SequenceNumber)
    requires Sorted(es)
    ensures Answers(TableGet(es, u, s), Elements(es), u, s)
  {
    var i := Seek(es, LookupKey(u, s));
    if i < |es| && es[i].key.user == u {
      assert Newest(Elements(es), u, s, es[i]);
    }
  }

  function ToOption(r: LookupResult): Option<Bytes> {
    if r.Found? then Some(r.value) else None
  }

  lemma AnswerIsView(r: LookupResult, E: set<Entry>, u: UserKey, s: nat)
    requires Distinct(E) && Answers(r, E, u, s)
    ensures ToOption(r) == View(E, u, s)
  {
    match r
    case NotFound => ViewOfNothing(E, u, s);
    case Found(v) =>
      var e :| Newest(E, u, s, e) && Reveals(e) == Some(v);
      ViewOfNewest(E, u, s, e);
    case Deleted =>
      var e :| Newest(E, u, s, e) && Reveals(e) == None;
      ViewOfNewest(E, u, s, e);
  }

  /** Every entry of a is newer than every entry of b with the same user key. */
  ghost predicate NewerThan(a: set<Entry>, b: set<Entry>) {
    forall e, f {:trigger Above(e, f)} :: e in a && f in b ==> Above(e, f)
  }

  predicate Above(e: Entry, f: Entry) {
    e.key.user == f.key.user ==> e.key.sequence > f.key.sequence
  }

  /** An answer found in the newer source stands for both sources; a miss passes to the older one. */
  lemma SearchNewerFirst(r: LookupResult, q: LookupResult, A: set<Entry>, B: set<Entry>, u: UserKey, s: nat)
    requires NewerThan(A, B)
    requires Answers(r, A, u, s)
    requires r.NotFound? ==> Answers(q, B, u, s)
    ensures Answers(if r.NotFound? then q else r, A + B, u, s)
  {
    match r
    case NotFound =>
      if !q.NotFound? {
        var e :| Newest(B, u, s, e) && Reveals(e) == ToOption(q);
        assert Newest(A + B, u, s, e);
      }
    case _ =>
      var e :| Newest(A, u, s, e) && Reveals(e) == ToOption(r);
      assert forall f :: f in B ==> Above(e, f);
      assert Newest(A + B, u, s, e);
  }

  // ----- Memtable insertion

  /** The skip list keeps keys in order: a new entry goes before the first key not before it. */
  function InsertSorted(es: seq<Entry>, e: Entry): seq<Entry> {
    var i := Seek(es, e.key);
    es[..i] + [e] + es[i..]
  }

  lemma InsertSortedKeepsOrder(es: seq<Entry>, e: Entry)
    requires Sorted(es)
    requires forall f :: f in es ==> f.key.Tag() != e.key.Tag()
    ensures Sorted(InsertSorted(es, e))
    ensures Elements(InsertSorted(es, e)) == Elements(es) + {e}
  {
    var i := Seek(es, e.key);
    forall j | i <= j < |es| ensures Less(e.key, es[j].key) {
      assert es[j] in es;
      assert es[i] in es && (i == j || Less(es[i].key, es[j].key));
    }
    SortedInsertAt(es, i, e);
    InsertAtMembers(es, i, e);
  }

  lemma InsertAtMembers(es: seq<Entry>, i: nat, e: Entry)
    requires i <= |es|
    ensures Elements(es[..i] + [e] + es[i..]) == Elements(es) + {e}
  {
    assert es == es[..i] + es[i..];
  }

  lemma SortedInsertAt(es: seq<Entry>, i: nat, e: Entry)
    requires Sorted(es) && i <= |es|
    requires forall j :: 0 <= j < i ==> Less(es[j].key, e.key)
    requires forall j :: i <= j < |es| ==> Less(e.key, es[j].key)
    ensures Sorted(es[..i] + [e] + es[i..])
  {
    var r := es[..i] + [e] + es[i..];
    assert forall j :: 0 <= j < |r| ==> r[j] == if j < i then es[j] else if j == i then e else es[j - 1];
  }
}
