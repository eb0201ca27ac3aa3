/**
 WriteBatch: a group of writes as the bytes that go to the log, and back to the memtable.
 */
module WriteBatches {
  import opened Basics
  import opened Coding

  const BATCH_HEADER := 12
  const TYPE_DELETION: Byte := 0
  const TYPE_VALUE: Byte := 1

  datatype Update = Put(key: Bytes, value: Bytes) | Delete(key: Bytes)

  datatype Status = Ok | TooSmall | BadPut | BadDelete | UnknownTag | WrongCount

  /** Lengths are stored in 32 bits. */
  predicate Fits(u: Update) {
    |u.key| <= MAX_UINT32 && (u.Put? ==> |u.value| <= MAX_UINT32)
  }

  predicate AllFit(us: seq<Update>) {
    forall u :: u in us ==> Fits(u)
  }

  function EncodeUpdate(u: Update): Bytes {
    match u
    case Put(key, value) => [TYPE_VALUE] + (LengthPrefixed(key) + LengthPrefixed(value))
    case Delete(key) => [TYPE_DELETION] + LengthPrefixed(key)
  }

  function EncodeUpdates(us: seq<Update>): Bytes {
    if us == [] then [] else EncodeUpdate(us[0]) + EncodeUpdates(us[1..])
  }

  function EncodeBatch(sequence: nat, us: seq<Update>): Bytes {
    EncodeFixed(sequence, 8) + EncodeFixed(|us|, 4) + EncodeUpdates(us)
  }

  // ----- Iterate

  /** The updates handed to the handler before the end or the first error. */
  datatype Iteration = Iteration(updates: seq<Update>, status: Status)

  function Then(u: Update, it: Iteration): Iteration {
    it.(updates := [u] + it.updates)
  }

  datatype Step = Got(update: Update, rest: Bytes) | Wrong(status: Status)

  function ParsePut(input: Bytes): (s: Step)
    ensures s.Got? ==> |s.rest| < |input|
  {
    match GetLengthPrefixed(input)
    case Failed => Wrong(BadPut)
    case Parsed(key, rest) =>
      match GetLengthPrefixed(rest)
      case Failed => Wrong(BadPut)
      case Parsed(value, rest') => Got(Put(key, value), rest')
  }

  function ParseDelete(input: Bytes): (s: Step)
    ensures s.Got? ==> |s.rest| < |input|
  {
    match GetLengthPrefixed(input)
    case Failed => Wrong(BadDelete)
    case Parsed(key, rest) => Got(Delete(key), rest)
  }

  /** The first update of a non-empty input. */
  function ParseUpdate(input: Bytes): (s: Step)
    requires input != []
    ensures s.Got? ==> |s.rest| < |input|
  {
    if input[0] == TYPE_VALUE then ParsePut(input[1..])
    else if input[0] == TYPE_DELETION then ParseDelete(input[1..])
    else Wrong(UnknownTag)
  }

  function IterateFrom(input: Bytes): Iteration
    decreases |input|
  {
    if input == [] then Iteration([], Ok)
    else
      match ParseUpdate(input)
      case Wrong(status) => Iteration([], status)
      case Got(u, rest) => Then(u, IterateFrom(rest))
  }

  function CountOf(rep: Bytes): nat
    requires BATCH_HEADER <= |rep|
  {
    DecodeFixed(rep[8..12])
  }

  function SequenceOf(rep: Bytes): nat
    requires BATCH_HEADER <= |rep|
  {
    DecodeFixed(rep[..8])
  }

  function IterateBatch(rep: Bytes): Iteration {
    if |rep| < BATCH_HEADER then Iteration([], TooSmall)
    else
      var it := IterateFrom(rep[BATCH_HEADER..]);
      if it.status == Ok && |it.updates| != CountOf(rep) then it.(status := WrongCount) else it
  }

  // ----- Round trip

  lemma PutRoundTrip(key: Bytes, value: Bytes, rest: Bytes)
    requires Fits(Put(key, value))
    ensures ParsePut((LengthPrefixed(key) + LengthPrefixed(value)) + rest) == Got(Put(key, value), rest)
  {
    Glue(LengthPrefixed(key), LengthPrefixed(value), rest);
    LengthPrefixedRoundTrip(key, LengthPrefixed(value) + rest);
    LengthPrefixedRoundTrip(value, rest);
  }

  lemma UpdateRoundTrip(u: Update, rest: Bytes)
    requires Fits(u)
    ensures IterateFrom(EncodeUpdate(u) + rest) == Then(u, IterateFrom(rest))
  {
    match u
    case Put(key, value) =>
      PutRoundTrip(key, value, rest);
      TagFirst(TYPE_VALUE, LengthPrefixed(key) + LengthPrefixed(value), rest);
    case Delete(key) =>
      LengthPrefixedRoundTrip(key, rest);
      TagFirst(TYPE_DELETION, LengthPrefixed(key), rest);
  }

  lemma TagFirst(tag: Byte, body: Bytes, rest: Bytes)
    ensures var b := [tag] + body + rest; b != [] && b[0] == tag && b[1..] == body + rest
  {
  }

  lemma {:induction false} UpdatesRoundTrip(us: seq<Update>)
    requires AllFit(us)
    ensures IterateFrom(EncodeUpdates(us)) == Iteration(us, Ok)
  {
    if us != [] {
      UpdatesRoundTrip(us[1..]);
      UpdateRoundTrip(us[0], EncodeUpdates(us[1..]));
    }
  }

  lemma BatchFields(sequence: nat, us: seq<Update>)
    requires sequence <= MAX_UINT64 && |us| <= MAX_UINT32
    ensures var rep := EncodeBatch(sequence, us);
            && BATCH_HEADER <= |rep| && SequenceOf(rep) == sequence && CountOf(rep) == |us|
            && rep[BATCH_HEADER..] == EncodeUpdates(us)
  {
    var rep := EncodeBatch(sequence, us);
    assert rep[..8] == EncodeFixed(sequence, 8) && rep[8..12] == EncodeFixed(|us|, 4);
    Pow256Values();
    FixedRoundTrip(sequence, 8);
    FixedRoundTrip(|us|, 4);
  }

  /** A batch read back gives its sequence number, its count and its updates, in order. */
  lemma BatchRoundTrip(sequence: nat, us: seq<Update>)
    requires sequence <= MAX_UINT64 && |us| <= MAX_UINT32 && AllFit(us)
    ensures var rep := EncodeBatch(sequence, us);
            && BATCH_HEADER <= |rep| && SequenceOf(rep) == sequence && CountOf(rep) == |us|
            && IterateBatch(rep) == Iteration(us, Ok)
  {
    BatchFields(sequence, us);
    UpdatesRoundTrip(us);
  }

  // ----- Damaged batches

  lemma CutPut(key: Bytes, value: Bytes, n: nat)
    requires Fits(Put(key, value)) && n < |LengthPrefixed(key) + LengthPrefixed(value)|
    ensures ParsePut((LengthPrefixed(key) + LengthPrefixed(value))[..n]) == Wrong(BadPut)
  {
    hide LengthPrefixed, GetLengthPrefixed;
    var k, v := LengthPrefixed(key), LengthPrefixed(value);
    PrefixOfSum(k, v, n);
    if n < |k| {
      CutPrefixed(key, n);
    } else {
      assert (k + v)[..n] == k + v[..n - |k|];
      LengthPrefixedRoundTrip(key, v[..n - |k|]);
      CutPrefixed(value, n - |k|);
    }
  }

  lemma TagOfCut(tag: Byte, body: Bytes, n: nat)
    requires 0 < n <= 1 + |body|
    ensures var b := ([tag] + body)[..n]; b != [] && b[0] == tag && b[1..] == body[..n - 1]
  {
  }

  lemma CutUpdate(u: Update, n: nat)
    requires Fits(u) && 0 < n < |EncodeUpdate(u)|
    ensures ParseUpdate(EncodeUpdate(u)[..n]).Wrong? && ParseUpdate(EncodeUpdate(u)[..n]).status != Ok
  {
    hide LengthPrefixed, GetLengthPrefixed, ParsePut;
    match u
    case Put(key, value) =>
      TagOfCut(TYPE_VALUE, LengthPrefixed(key) + LengthPrefixed(value), n);
      CutPut(key, value, n - 1);
    case Delete(key) =>
      TagOfCut(TYPE_DELETION, LengthPrefixed(key), n);
      CutPrefixed(key, n - 1);
  }

  lemma WrongEnds(input: Bytes)
    requires input != [] && ParseUpdate(input).Wrong?
    ensures IterateFrom(input) == Iteration([], ParseUpdate(input).status)
  {
  }

  lemma ConsUpdates(u: Update, us: seq<Update>)
    ensures EncodeUpdates([u] + us) == EncodeUpdate(u) + EncodeUpdates(us)
  {
    assert ([u] + us)[1..] == us;
  }

  /** Cut off after n bytes, the updates up to j are handed on, and it is an error unless they end there. */
  ghost predicate CutAt(us: seq<Update>, n: nat, j: nat)
    requires n <= |EncodeUpdates(us)|
  {
    && j <= |us| && IterateFrom(EncodeUpdates(us)[..n]).updates == us[..j]
    && (IterateFrom(EncodeUpdates(us)[..n]).status == Ok <==> n == |EncodeUpdates(us[..j])|)
    && (n < |EncodeUpdates(us)| ==> j < |us|)
  }

  lemma CutFirst(u: Update, us: seq<Update>, n: nat)
    requires Fits(u) && n < |EncodeUpdate(u)|
    ensures n <= |EncodeUpdates([u] + us)| && CutAt([u] + us, n, 0)
  {
    ConsUpdates(u, us);
    PrefixOfSum(EncodeUpdate(u), EncodeUpdates(us), n);
    if n > 0 {
      CutUpdate(u, n);
      WrongEnds(EncodeUpdate(u)[..n]);
    }
  }

  lemma CutLater(u: Update, us: seq<Update>, n: nat, j: nat)
    requires Fits(u) && n <= |EncodeUpdates(us)| && CutAt(us, n, j)
    ensures |EncodeUpdate(u)| + n <= |EncodeUpdates([u] + us)|
    ensures CutAt([u] + us, |EncodeUpdate(u)| + n, j + 1)
  {
    hide EncodeUpdate, EncodeUpdates, IterateFrom;
    ConsUpdates(u, us);
    ConsUpdates(u, us[..j]);
    PrefixLater(EncodeUpdate(u), EncodeUpdates(us), n);
    UpdateRoundTrip(u, EncodeUpdates(us)[..n]);
    TakeLater(u, us, j);
  }

  lemma PrefixLater(a: Bytes, b: Bytes, n: nat)
    requires n <= |b|
    ensures (a + b)[..|a| + n] == a + b[..n]
  {
  }

  lemma TakeLater(u: Update, us: seq<Update>, j: nat)
    requires j <= |us|
    ensures ([u] + us)[..j + 1] == [u] + us[..j]
  {
  }

  lemma CutNone()
    ensures EncodeUpdates([]) == [] && CutAt([], 0, 0)
  {
  }

  lemma {:induction false} CutUpdates(us: seq<Update>, n: nat) returns (j: nat)
    requires AllFit(us) && n <= |EncodeUpdates(us)|
    ensures CutAt(us, n, j)
  {
    hide CutAt, EncodeUpdate, EncodeUpdates, IterateFrom;
    if us == [] {
      CutNone();
      j := 0;
    } else {
      var u, more := us[0], us[1..];
      ConsUpdates(u, more);
      assert us == [u] + more;
      var size := |EncodeUpdate(u)|;
      if n < size {
        CutFirst(u, more, n);
        j := 0;
      } else {
        var i := CutUpdates(more, n - size);
        CutLater(u, more, n - size, i);
        j := i + 1;
      }
    }
  }

  lemma ThreePartsCut(a: Bytes, b: Bytes, c: Bytes, n: nat)
    requires |a| == 8 && |b| == 4 && 12 <= n <= |a + b + c|
    ensures (a + b + c)[..n] == a + b + c[..n - 12]
  {
  }

  lemma HeaderedFields(sequence: nat, count: nat, body: Bytes)
    requires sequence <= MAX_UINT64 && count <= MAX_UINT32
    ensures var rep := EncodeFixed(sequence, 8) + EncodeFixed(count, 4) + body;
            && BATCH_HEADER <= |rep| && SequenceOf(rep) == sequence && CountOf(rep) == count
            && rep[BATCH_HEADER..] == body
  {
    var rep := EncodeFixed(sequence, 8) + EncodeFixed(count, 4) + body;
    Fields(EncodeFixed(sequence, 8), EncodeFixed(count, 4), body);
    Pow256Values();
    FixedRoundTrip(sequence, 8);
    FixedRoundTrip(count, 4);
  }

  lemma HeaderedIterates(sequence: nat, count: nat, body: Bytes)
    requires sequence <= MAX_UINT64 && count <= MAX_UINT32
    ensures IterateBatch(EncodeFixed(sequence, 8) + EncodeFixed(count, 4) + body)
         == var it := IterateFrom(body);
            if it.status == Ok && |it.updates| != count then it.(status := WrongCount) else it
  {
    HeaderedFields(sequence, count, body);
    hide EncodeFixed, CountOf, SequenceOf, IterateFrom;
  }

  /** A batch that ends too early is refused, and nothing is handed on that was not in it. */
  lemma CutBatchIsRefused(sequence: nat, us: seq<Update>, n: nat)
    requires sequence <= MAX_UINT64 && |us| <= MAX_UINT32 && AllFit(us) && n < |EncodeBatch(sequence, us)|
    ensures var it := IterateBatch(EncodeBatch(sequence, us)[..n]); it.status != Ok && it.updates <= us
  {
    if BATCH_HEADER <= n {
      hide IterateBatch, EncodeFixed, EncodeUpdates, IterateFrom;
      ThreePartsCut(EncodeFixed(sequence, 8), EncodeFixed(|us|, 4), EncodeUpdates(us), n);
      HeaderedIterates(sequence, |us|, EncodeUpdates(us)[..n - BATCH_HEADER]);
      var j := CutUpdates(us, n - BATCH_HEADER);
    }
  }

  /** All updates are handed on, but a header that counts them wrongly makes it an error. */
  lemma MiscountIsRefused(sequence: nat, count: nat, us: seq<Update>)
    requires sequence <= MAX_UINT64 && count <= MAX_UINT32 && AllFit(us)
    ensures IterateBatch(EncodeFixed(sequence, 8) + EncodeFixed(count, 4) + EncodeUpdates(us))
         == Iteration(us, if count == |us| then Ok else WrongCount)
  {
    HeaderedIterates(sequence, count, EncodeUpdates(us));
    UpdatesRoundTrip(us);
  }

  /** What follows the updates must be another one. */
  lemma {:induction false} JunkIsRefused(us: seq<Update>, tag: Byte, junk: Bytes)
    requires AllFit(us) && tag != TYPE_VALUE && tag != TYPE_DELETION
    ensures IterateFrom(EncodeUpdates(us) + ([tag] + junk)) == Iteration(us, UnknownTag)
  {
    if us == [] {
      assert [] + ([tag] + junk) == [tag] + junk;
    } else {
      Glue(EncodeUpdate(us[0]), EncodeUpdates(us[1..]), [tag] + junk);
      JunkIsRefused(us[1..], tag, junk);
      UpdateRoundTrip(us[0], EncodeUpdates(us[1..]) + ([tag] + junk));
    }
  }

  lemma {:induction false} EncodeConcat(a: seq<Update>, b: seq<Update>)
    ensures EncodeUpdates(a + b) == EncodeUpdates(a) + EncodeUpdates(b)
  {
    if a == [] {
      assert a + b == b;
    } else {
      assert (a + b)[1..] == a[1..] + b;
      EncodeConcat(a[1..], b);
    }
  }

  // ----- Changing a batch in place

  function WithCount(rep: Bytes, n: nat): Bytes
    requires BATCH_HEADER <= |rep|
  {
    rep[..8] + EncodeFixed(n, 4) + rep[12..]
  }

  function WithSequence(rep: Bytes, n: nat): Bytes
    requires BATCH_HEADER <= |rep|
  {
    EncodeFixed(n, 8) + rep[8..]
  }

  lemma CountReplaced(sequence: nat, us: seq<Update>, n: nat)
    ensures BATCH_HEADER <= |EncodeBatch(sequence, us)|
    ensures WithCount(EncodeBatch(sequence, us), n) == EncodeFixed(sequence, 8) + EncodeFixed(n, 4) + EncodeUpdates(us)
  {
    Fields(EncodeFixed(sequence, 8), EncodeFixed(|us|, 4), EncodeUpdates(us));
  }

  lemma SequenceReplaced(sequence: nat, us: seq<Update>, n: nat)
    ensures BATCH_HEADER <= |EncodeBatch(sequence, us)|
    ensures WithSequence(EncodeBatch(sequence, us), n) == EncodeBatch(n, us)
  {
    Fields(EncodeFixed(sequence, 8), EncodeFixed(|us|, 4), EncodeUpdates(us));
    Glue(EncodeFixed(n, 8), EncodeFixed(|us|, 4), EncodeUpdates(us));
  }

  lemma Fields(a: Bytes, b: Bytes, c: Bytes)
    requires |a| == 8 && |b| == 4
    ensures var rep := a + b + c; rep[..8] == a && rep[8..] == b + c && rep[8..12] == b && rep[12..] == c
  {
  }

  /** Bytes of more updates, appended with the count brought up to date. */
  lemma MoreUpdates(sequence: nat, us: seq<Update>, more: seq<Update>, n: nat)
    requires n == |us| + |more|
    ensures BATCH_HEADER <= |EncodeBatch(sequence, us)|
    ensures WithCount(EncodeBatch(sequence, us), n) + EncodeUpdates(more) == EncodeBatch(sequence, us + more)
  {
    CountReplaced(sequence, us, n);
    EncodeConcat(us, more);
    Glue(EncodeFixed(sequence, 8) + EncodeFixed(n, 4), EncodeUpdates(us), EncodeUpdates(more));
    EncodedAs(sequence, us + more, n, EncodeUpdates(us) + EncodeUpdates(more));
  }

  lemma EncodedAs(sequence: nat, us: seq<Update>, n: nat, bytes: Bytes)
    requires n == |us| && bytes == EncodeUpdates(us)
    ensures EncodeBatch(sequence, us) == EncodeFixed(sequence, 8) + EncodeFixed(n, 4) + bytes
  {
  }

  lemma OneUpdate(u: Update)
    ensures EncodeUpdates([u]) == EncodeUpdate(u)
  {
    assert [u][1..] == [] && EncodeUpdates([u]) == EncodeUpdate(u) + EncodeUpdates([u][1..]);
  }

  // ----- The class

  class WriteBatch {
    var rep: Bytes

    /** The sequence number and the updates that rep encodes. */
    ghost var sequence: nat
    ghost var updates: seq<Update>

    ghost predicate Valid()
      reads this
    {
      && sequence <= MAX_UINT64 && |updates| <= MAX_UINT32 && AllFit(updates)
      && rep == EncodeBatch(sequence, updates)
    }

    constructor ()
      ensures Valid() && sequence == 0 && updates == []
    {
      rep, sequence, updates := EncodeFixed(0, 8) + EncodeFixed(0, 4), 0, [];
    }

    /** A batch with bytes read from somewhere (WriteBatchInternal::SetContents). */
    constructor FromContents(contents: Bytes)
      ensures rep == contents
    {
      rep, sequence, updates := contents, 0, [];
    }

    method SetSequence(n: nat)
      requires Valid() && n <= MAX_UINT64
      modifies this
      ensures Valid() && sequence == n && updates == old(updates)
    {
      SequenceReplaced(sequence, updates, n);
      rep, sequence := WithSequence(rep, n), n;
    }

    method Put(key: Bytes, value: Bytes)
      requires Valid() && |updates| < MAX_UINT32 && Fits(Update.Put(key, value))
      modifies this
      ensures Valid() && sequence == old(sequence) && updates == old(updates) + [Update.Put(key, value)]
    {
      ghost var u := Update.Put(key, value);
      BatchFields(sequence, updates);
      OneUpdate(u);
      MoreUpdates(sequence, updates, [u], |updates| + 1);
      rep := WithCount(rep, CountOf(rep) + 1);
      PutPieces(rep, key, value);
      rep := rep + [TYPE_VALUE];
      rep := rep + LengthPrefixed(key);
      rep := rep + LengthPrefixed(value);
      updates := updates + [u];
    }

    method Delete(key: Bytes)
      requires Valid() && |updates| < MAX_UINT32 && Fits(Update.Delete(key))
      modifies this
      ensures Valid() && sequence == old(sequence) && updates == old(updates) + [Update.Delete(key)]
    {
      ghost var u := Update.Delete(key);
      BatchFields(sequence, updates);
      OneUpdate(u);
      MoreUpdates(sequence, updates, [u], |updates| + 1);
      rep := WithCount(rep, CountOf(rep) + 1);
      Glue(rep, [TYPE_DELETION], LengthPrefixed(key));
      rep := rep + [TYPE_DELETION];
      rep := rep + LengthPrefixed(key);
      updates := updates + [u];
    }

    /** Append the updates of another batch, as BuildBatchGroup does. */
    method Append(source: WriteBatch)
      requires Valid() && source.Valid() && |updates| + |source.updates| <= MAX_UINT32 && source != this
      modifies this
      ensures Valid() && sequence == old(sequence) && updates == old(updates) + source.updates
    {
      BatchFields(sequence, updates);
      BatchFields(source.sequence, source.updates);
      var count := CountOf(rep) + CountOf(source.rep);
      var tail := source.rep[BATCH_HEADER..];
      MoreUpdates(sequence, updates, source.updates, count);
      rep := WithCount(rep, count);
      rep := rep + tail;
      updates := updates + source.updates;
    }

    /** WriteBatch::Iterate, for any bytes; the handler collects the updates. */
    method Iterate() returns (found: seq<Update>, status: Status)
      ensures Iteration(found, status) == IterateBatch(rep)
    {
      found := [];
      if |rep| < BATCH_HEADER {
        return [], TooSmall;
      }
      var input := rep[BATCH_HEADER..];
      ghost var whole := IterateFrom(input);
      while input != []
        invariant IteratedTo(whole, found, input)
        decreases |input|
      {
        IterateOn(whole, found, input);
        var step := ParseUpdate(input);
        if step.Wrong? {
          return found, step.status;
        }
        found, input := found + [step.update], step.rest;
      }
      status := if |found| != CountOf(rep) then WrongCount else Ok;
    }
  }

  lemma PutPieces(rep: Bytes, key: Bytes, value: Bytes)
    ensures rep + [TYPE_VALUE] + LengthPrefixed(key) + LengthPrefixed(value) == rep + EncodeUpdate(Put(key, value))
  {
    Glue(rep, [TYPE_VALUE], LengthPrefixed(key) + LengthPrefixed(value));
    Glue(rep + [TYPE_VALUE], LengthPrefixed(key), LengthPrefixed(value));
  }

  /** What was found so far, and what the rest of the input gives, is the whole. */
  ghost predicate IteratedTo(whole: Iteration, found: seq<Update>, input: Bytes) {
    whole == Iteration(found + IterateFrom(input).updates, IterateFrom(input).status)
  }

  lemma IterateOn(whole: Iteration, found: seq<Update>, input: Bytes)
    requires IteratedTo(whole, found, input) && input != []
    ensures match ParseUpdate(input)
            case Wrong(status) => whole == Iteration(found, status) && status != Ok
            case Got(u, rest) => IteratedTo(whole, found + [u], rest)
  {
    match ParseUpdate(input)
    case Wrong(_) =>
    case Got(u, rest) => Glue(found, [u], IterateFrom(rest).updates);
  }
}
