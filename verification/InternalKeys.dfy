/**
 Internal keys: (user key, sequence number, type) triples, their order, and what a reader at a
 given sequence number sees in a set of entries.
 */
module InternalKeys {
  import opened Basics

  /** The user comparator may be any total order on byte strings.  There are countably many byte
      strings, so every such order embeds in the reals: a user key is its position in that order. */
  type UserKey = real

  const MAX_SEQUENCE: nat := 0xFF_FFFF_FFFF_FFFF

  /** Sequence numbers leave eight bits of a 64-bit word for the type. */
  type SequenceNumber = s: nat | s <= MAX_SEQUENCE

  datatype ValueType = Deletion | Put

  datatype InternalKey = InternalKey(user: UserKey, sequence: SequenceNumber, kind: ValueType) {
    /** The packed (sequence << 8) | type that ends an encoded internal key. */
    function Tag(): nat {
      256 * sequence + if kind.Put? then 1 else 0
    }
  }

  datatype Entry = Entry(key: InternalKey, value: Bytes)

  /** InternalKeyComparator: user keys ascending, then packed tags descending. */
  predicate Less(a: InternalKey, b: InternalKey) {
    a.user < b.user || (a.user == b.user && a.Tag() > b.Tag())
  }

  /** The first internal key of user key u that a reader at sequence s may see. */
  function LookupKey(u: UserKey, s: SequenceNumber): InternalKey {
    InternalKey(u, s, Put)
  }

  /** Entries at or after LookupKey(u, s), within user key u, are exactly those with sequence <= s. */
  lemma LookupKeySplits(u: UserKey, s: SequenceNumber, k: InternalKey)
    ensures Less(k, LookupKey(u, s)) <==> k.user < u || (k.user == u && k.sequence > s)
  {
  }

  ghost predicate Sorted(es: seq<Entry>) {
    forall i, j :: 0 <= i < j < |es| ==> Less(es[i].key, es[j].key)
  }

  /** Sequence numbers are never reused, so a user key and a sequence number identify an entry. */
  ghost predicate Distinct(E: set<Entry>) {
    forall e, f {:trigger SameSlot(e, f)} :: e in E && f in E && SameSlot(e, f) ==> e == f
  }

  predicate SameSlot(e: Entry, f: Entry) {
    e.key.user == f.key.user && e.key.sequence == f.key.sequence
  }

  function Elements(es: seq<Entry>): set<Entry> {
    set e | e in es
  }

  // ----- What a reader sees

  predicate Sees(e: Entry, u: UserKey, s: nat) {
    e.key.user == u && e.key.sequence <= s
  }

  /** e is the newest entry for u with sequence <= s. */
  ghost predicate Newest(E: set<Entry>, u: UserKey, s: nat, e: Entry) {
    && e in E
    && Sees(e, u, s)
    && forall f :: f in E && Sees(f, u, s) ==> f.key.sequence <= e.key.sequence
  }

  function Reveals(e: Entry): Option<Bytes> {
    if e.key.kind.Put? then Some(e.value) else None
  }

  /** The one definition every read path must agree with: the newest entry with sequence <= s. */
  ghost function View(E: set<Entry>, u: UserKey, s: nat): Option<Bytes> {
    if e :| Newest(E, u, s, e) then Reveals(e) else None
  }

  lemma NewestExists(E: set<Entry>, u: UserKey, s: nat, w: Entry) returns (e: Entry)
    requires w in E && Sees(w, u, s)
    ensures Newest(E, u, s, e)
  {
    var rest := E - {w};
    e := w;
    while rest != {}
      invariant rest <= E && e in E && Sees(e, u, s)
      invariant forall f :: f in E - rest && Sees(f, u, s) ==> f.key.sequence <= e.key.sequence
      decreases rest
    {
      var f :| f in rest;
      if Sees(f, u, s) && f.key.sequence > e.key.sequence {
        e := f;
      }
      rest := rest - {f};
    }
  }

  lemma ViewOfNewest(E: set<Entry>, u: UserKey, s: nat, e: Entry)
    requires Distinct(E) && Newest(E, u, s, e)
    ensures View(E, u, s) == Reveals(e)
  {
    forall f | Newest(E, u, s, f) ensures f == e {
      assert SameSlot(e, f);
    }
  }

  lemma ViewOfNothing(E: set<Entry>, u: UserKey, s: nat)
    requires forall e :: e in E ==> !Sees(e, u, s)
    ensures View(E, u, s) == None
  {
  }

  /** Two sets with the same visible entries look the same. */
  lemma ViewDependsOnVisible(E: set<Entry>, F: set<Entry>, u: UserKey, s: nat, t: nat)
    requires Distinct(E) && Distinct(F)
    requires forall e :: e in E && Sees(e, u, s) <==> e in F && Sees(e, u, t)
    ensures View(E, u, s) == View(F, u, t)
  {
    if w :| w in E && Sees(w, u, s) {
      var e := NewestExists(E, u, s, w);
      ViewOfNewest(E, u, s, e);
      assert Newest(F, u, t, e);
      ViewOfNewest(F, u, t, e);
    } else {
      ViewOfNothing(E, u, s);
      ViewOfNothing(F, u, t);
    }
  }
}
