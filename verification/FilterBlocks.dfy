/**
 The filter block of a table: a filter for every 2048 bytes of file offsets, over the keys of the data blocks
 that start there.
 */
module FilterBlocks {
  import opened Basics
  import opened Coding
  import BloomFilters

  const BASE_LG: Byte := 11
  const BASE: nat := 2048

  datatype FilterPolicy = FilterPolicy(create: seq<Bytes> -> Bytes, matches: (Bytes, Bytes) -> bool)

  /** InternalFilterPolicy: the keys of a table block are internal keys; the filter is over their user keys. */
  function UserKeyPolicy(policy: FilterPolicy): FilterPolicy {
    FilterPolicy((keys: seq<Bytes>) => policy.create(UserKeys(keys)),
                 (key, filter) => policy.matches(UserKeyOf(key), filter))
  }

  /** ExtractUserKey: all but the eight bytes of sequence number and type. */
  function UserKeyOf(key: Bytes): Bytes {
    key[..if |key| < 8 then 0 else |key| - 8]
  }

  function UserKeys(keys: seq<Bytes>): (r: seq<Bytes>)
    ensures |r| == |keys| && forall i :: 0 <= i < |keys| ==> r[i] == UserKeyOf(keys[i])
  {
    seq(|keys|, i requires 0 <= i < |keys| => UserKeyOf(keys[i]))
  }

  /** A filter matches every key it was made of. */
  ghost predicate Sound(policy: FilterPolicy) {
    forall keys, key :: key in keys ==> policy.matches(key, policy.create(keys))
  }

  function BloomPolicy(hash: BloomFilters.Hash, bitsPerKey: nat): FilterPolicy {
    FilterPolicy(keys => BloomFilters.Filter(hash, bitsPerKey, keys),
                 (key, filter) => BloomFilters.Matches(hash, key, filter))
  }

  lemma BloomIsSound(hash: BloomFilters.Hash, bitsPerKey: nat)
    ensures Sound(BloomPolicy(hash, bitsPerKey))
  {
    forall keys: seq<Bytes>, key | key in keys
      ensures BloomPolicy(hash, bitsPerKey).matches(key, BloomPolicy(hash, bitsPerKey).create(keys))
    {
      BloomFilters.MembersMatch(hash, bitsPerKey, keys, key);
    }
  }

  lemma UserKeyPolicyIsSound(policy: FilterPolicy)
    requires Sound(policy)
    ensures Sound(UserKeyPolicy(policy))
  {
    forall keys: seq<Bytes>, key | key in keys
      ensures UserKeyPolicy(policy).matches(key, UserKeyPolicy(policy).create(keys))
    {
      assert UserKeyOf(key) in UserKeys(keys);
    }
  }

  lemma UserKeyOfInternal(user: Bytes, tag: nat)
    ensures UserKeyOf(user + EncodeFixed(tag, 8)) == user
  {
  }

  /** If any version of a user key is in a block, a lookup for it at any sequence number passes the filter. */
  lemma AnyVersionMatches(policy: FilterPolicy, keys: seq<Bytes>, user: Bytes, tag: nat, lookup: nat)
    requires Sound(policy) && user + EncodeFixed(tag, 8) in keys
    ensures var p := UserKeyPolicy(policy); p.matches(user + EncodeFixed(lookup, 8), p.create(keys))
  {
    UserKeyOfInternal(user, tag);
    UserKeyOfInternal(user, lookup);
    var i :| 0 <= i < |keys| && keys[i] == user + EncodeFixed(tag, 8);
    assert UserKeys(keys)[i] == user;
  }

  // ----- What a filter block holds

  /** A key, and the offset of the data block it is in. */
  datatype Added = Added(block: nat, key: Bytes)

  /** The keys of the blocks that start in the i-th stretch of offsets. */
  function KeysOf(added: seq<Added>, i: nat): seq<Bytes> {
    if added == [] then []
    else
      var n := |added| - 1;
      KeysOf(added[..n], i) + if added[n].block / BASE == i then [added[n].key] else []
  }

  function FilterFor(policy: FilterPolicy, keys: seq<Bytes>): Bytes {
    if keys == [] then [] else policy.create(keys)
  }

  /** The first n filters. */
  function Filters(policy: FilterPolicy, added: seq<Added>, n: nat): Bytes {
    if n == 0 then [] else Filters(policy, added, n - 1) + FilterFor(policy, KeysOf(added, n - 1))
  }

  function Offset(policy: FilterPolicy, added: seq<Added>, i: nat): nat {
    |Filters(policy, added, i)|
  }

  /** Where each of n filters starts, and where the last one ends. */
  function Offsets(policy: FilterPolicy, added: seq<Added>, n: nat): (r: seq<nat>)
    ensures |r| == n + 1
  {
    seq(n + 1, (i: nat) => Offset(policy, added, i))
  }

  /** The block: the filters, their offsets, the offset of those, and the parameter. */
  function FilterBlock(policy: FilterPolicy, added: seq<Added>, n: nat): Bytes {
    Filters(policy, added, n) + EncodeWords(Offsets(policy, added, n)) + [BASE_LG]
  }

  /** No stretch after the last one with keys has a filter. */
  function FilterCount(added: seq<Added>, block: nat): nat {
    if KeysOf(added, block / BASE) == [] then block / BASE else block / BASE + 1
  }

  ghost predicate AddedBy(added: seq<Added>, block: nat) {
    forall i :: 0 <= i < |added| ==> added[i].block <= block
  }

  lemma {:induction false} NoneBeyond(added: seq<Added>, block: nat, i: nat)
    requires AddedBy(added, block) && i > block / BASE
    ensures KeysOf(added, i) == []
  {
    if added != [] {
      NoneBeyond(added[..|added| - 1], block, i);
    }
  }

  lemma {:induction false} KeyIn(added: seq<Added>, j: nat)
    requires j < |added|
    ensures added[j].key in KeysOf(added, added[j].block / BASE)
  {
    if j < |added| - 1 {
      KeyIn(added[..|added| - 1], j);
    }
  }

  ghost predicate HasKey(added: seq<Added>, i: nat, key: Bytes) {
    exists j :: 0 <= j < |added| && added[j] == Added(added[j].block, key) && added[j].block / 2048 == i
  }

  /** The keys of a stretch are those of the blocks that start there, and no others. */
  lemma {:induction false} KeysAreOfStretch(added: seq<Added>, i: nat, key: Bytes)
    ensures key in KeysOf(added, i) <==> HasKey(added, i, key)
  {
    if added != [] {
      var n := |added| - 1;
      KeysAreOfStretch(added[..n], i, key);
      if HasKey(added[..n], i, key) {
        var j :| 0 <= j < n && added[..n][j] == Added(added[..n][j].block, key) && added[..n][j].block / 2048 == i;
        assert added[j] == added[..n][j];
      }
      if HasKey(added, i, key) && !(added[n].key == key && added[n].block / 2048 == i) {
        var j :| 0 <= j <= n && added[j] == Added(added[j].block, key) && added[j].block / 2048 == i;
        assert added[..n][j] == added[j];
      }
    }
  }

  ghost predicate StretchUsed(added: seq<Added>, i: nat) {
    exists j :: 0 <= j < |added| && added[j].block / 2048 == i
  }

  /** There is a filter for every stretch before the current block's, and one for its own if it has a key. */
  lemma LastFilter(added: seq<Added>, block: nat)
    ensures FilterCount(added, block) == block / 2048 + if StretchUsed(added, block / 2048) then 1 else 0
  {
    var i := block / 2048;
    if KeysOf(added, i) == [] {
      if StretchUsed(added, i) {
        var j :| 0 <= j < |added| && added[j].block / 2048 == i;
        KeyIn(added, j);
      }
    } else {
      KeysAreOfStretch(added, i, KeysOf(added, i)[0]);
    }
  }

  lemma KeyAdded(added: seq<Added>, a: Added, i: nat)
    ensures KeysOf(added + [a], i) == KeysOf(added, i) + if a.block / BASE == i then [a.key] else []
  {
    assert (added + [a])[..|added|] == added;
  }

  lemma NextFilter(policy: FilterPolicy, added: seq<Added>, n: nat)
    ensures Filters(policy, added, n + 1) == Filters(policy, added, n) + FilterFor(policy, KeysOf(added, n))
  {
  }

  lemma KeysStay(added: seq<Added>, a: Added, i: nat)
    requires i != a.block / BASE
    ensures KeysOf(added + [a], i) == KeysOf(added, i)
  {
    KeyAdded(added, a, i);
  }

  /** A key added to a later stretch leaves the filters before it as they are. */
  lemma {:induction false} FiltersStay(policy: FilterPolicy, added: seq<Added>, a: Added, n: nat)
    requires n <= a.block / BASE
    ensures Filters(policy, added + [a], n) == Filters(policy, added, n)
  {
    hide KeysOf, FilterFor;
    if n > 0 {
      FiltersStay(policy, added, a, n - 1);
      KeysStay(added, a, n - 1);
      NextFilter(policy, added, n - 1);
      NextFilter(policy, added + [a], n - 1);
    }
  }

  ghost predicate OffsetsTo(policy: FilterPolicy, added: seq<Added>, offsets: seq<nat>) {
    forall i :: 0 <= i < |offsets| ==> offsets[i] == Offset(policy, added, i)
  }

  lemma OffsetsStay(policy: FilterPolicy, added: seq<Added>, a: Added, offsets: seq<nat>)
    requires OffsetsTo(policy, added, offsets) && |offsets| <= a.block / BASE
    ensures OffsetsTo(policy, added + [a], offsets)
  {
    forall i | 0 <= i < |offsets| ensures offsets[i] == Offset(policy, added + [a], i) {
      FiltersStay(policy, added, a, i);
    }
  }

  lemma WordsAreOffsets(policy: FilterPolicy, added: seq<Added>, offsets: seq<nat>)
    requires OffsetsTo(policy, added, offsets)
    ensures var n, words := |offsets|, Offsets(policy, added, |offsets|);
            words == offsets + [|Filters(policy, added, n)|]
  {
    hide Filters;
  }

  lemma OneMoreOffset(policy: FilterPolicy, added: seq<Added>, offsets: seq<nat>)
    requires OffsetsTo(policy, added, offsets)
    ensures OffsetsTo(policy, added, offsets + [Offset(policy, added, |offsets|)])
  {
  }

  // ----- The builder

  /** Where the i-th key ends in the flattened keys. */
  function KeyEnd(keys: Bytes, start: seq<nat>, i: nat): nat {
    if i + 1 < |start| then start[i + 1] else |keys|
  }

  ghost predicate KeyAt(keys: Bytes, start: seq<nat>, i: nat, key: Bytes) {
    i < |start| && start[i] <= KeyEnd(keys, start, i) <= |keys| && keys[start[i]..KeyEnd(keys, start, i)] == key
  }

  ghost predicate Flattened(keys: Bytes, start: seq<nat>, list: seq<Bytes>) {
    |start| == |list| && forall i :: 0 <= i < |list| ==> KeyAt(keys, start, i, list[i])
  }

  lemma OneMoreKey(keys: Bytes, start: seq<nat>, list: seq<Bytes>, key: Bytes)
    requires Flattened(keys, start, list)
    ensures Flattened(keys + key, start + [|keys|], list + [key])
  {
    var keys', start' := keys + key, start + [|keys|];
    forall i | 0 <= i < |list| + 1 ensures KeyAt(keys', start', i, (list + [key])[i]) {
      if i < |list| {
        assert KeyAt(keys, start, i, list[i]);
        assert keys'[start[i]..KeyEnd(keys, start, i)] == keys[start[i]..KeyEnd(keys, start, i)];
      }
    }
  }

  class FilterBlockBuilder {
    const policy: FilterPolicy
    var keys: Bytes
    var start: seq<nat>
    var result: Bytes
    var filterOffsets: seq<nat>

    /** The keys given so far, and the current block. */
    ghost var added: seq<Added>
    ghost var block: nat

    /** n filters are done, and the keys of the next are waiting. */
    ghost predicate Holds(n: nat)
      reads this
    {
      && |filterOffsets| == n && result == Filters(policy, added, n)
      && OffsetsTo(policy, added, filterOffsets)
      && Flattened(keys, start, KeysOf(added, n))
    }

    ghost predicate Valid()
      reads this
    {
      Holds(block / BASE) && AddedBy(added, block)
    }

    constructor (policy: FilterPolicy)
      ensures Valid() && added == [] && block == 0 && this.policy == policy
    {
      this.policy, keys, start, result, filterOffsets := policy, [], [], [], [];
      added, block := [], 0;
    }

    method GenerateFilter()
      requires Holds(|filterOffsets|) && KeysOf(added, |filterOffsets| + 1) == []
      modifies this`keys, this`start, this`result, this`filterOffsets
      ensures Holds(old(|filterOffsets|) + 1)
    {
      ghost var n := |filterOffsets|;
      NextFilter(policy, added, n);
      OneMoreOffset(policy, added, filterOffsets);
      assert Flattened([], [], []);
      hide Filters, KeysOf, OffsetsTo;
      if start == [] {
        filterOffsets := filterOffsets + [|result|];
        return;
      }
      var tmpKeys := ListKeys(KeysOf(added, n));
      hide Flattened;
      filterOffsets := filterOffsets + [|result|];
      result := result + policy.create(tmpKeys);
      keys, start := [], [];
    }

    /** The list of keys from the flattened ones. */
    method ListKeys(ghost list: seq<Bytes>) returns (tmpKeys: seq<Bytes>)
      requires Flattened(keys, start, list)
      ensures tmpKeys == list
    {
      var ends := start + [|keys|];
      tmpKeys := [];
      for i := 0 to |start|
        invariant tmpKeys == list[..i]
      {
        assert KeyAt(keys, start, i, list[i]);
        tmpKeys := tmpKeys + [keys[ends[i]..ends[i + 1]]];
      }
    }

    method StartBlock(blockOffset: nat)
      requires Valid() && blockOffset >= block
      modifies this
      ensures Valid() && added == old(added) && block == blockOffset
    {
      hide KeysOf, Filters, OffsetsTo, Flattened;
      var filterIndex := blockOffset / BASE;
      while filterIndex > |filterOffsets|
        invariant block / BASE <= |filterOffsets| <= filterIndex
        invariant Holds(|filterOffsets|) && added == old(added) && AddedBy(added, block) && block == old(block)
      {
        NoneBeyond(added, block, |filterOffsets| + 1);
        GenerateFilter();
      }
      block := blockOffset;
    }

    method AddKey(key: Bytes)
      requires Valid()
      modifies this
      ensures Valid() && added == old(added) + [Added(block, key)] && block == old(block)
    {
      ghost var n, a := |filterOffsets|, Added(block, key);
      FiltersStay(policy, added, a, n);
      OffsetsStay(policy, added, a, filterOffsets);
      KeyAdded(added, a, n);
      OneMoreKey(keys, start, KeysOf(added, n), key);
      hide Filters, KeysOf, Flattened, OffsetsTo;
      start, keys, added := start + [|keys|], keys + key, added + [a];
    }

    method Finish() returns (contents: Bytes)
      requires Valid()
      modifies this
      ensures contents == FilterBlock(policy, old(added), FilterCount(old(added), old(block)))
    {
      ghost var n := FilterCount(added, block);
      hide Filters, KeysOf, OffsetsTo;
      if start != [] {
        NoneBeyond(added, block, |filterOffsets| + 1);
        GenerateFilter();
      }
      WordsAreOffsets(policy, added, filterOffsets);
      AppendOffsets(Offsets(policy, added, n));
      result := result + [BASE_LG];
      contents := result;
    }

    /** The offsets of the filters, and then where those are. */
    method AppendOffsets(ghost words: seq<nat>)
      requires words == filterOffsets + [|result|]
      modifies this`result
      ensures result == old(result) + EncodeWords(words)
    {
      var arrayOffset, n := |result|, |filterOffsets|;
      hide EncodeWords, EncodeFixed;
      assert words[..n] == filterOffsets && words[..n + 1] == words;
      AppendWords(words[..n]);
      WordsSnoc(words, n);
      Glue(old(result), EncodeWords(words[..n]), EncodeFixed(arrayOffset, 4));
      result := result + EncodeFixed(arrayOffset, 4);
    }

    method AppendWords(ghost words: seq<nat>)
      requires words == filterOffsets
      modifies this`result
      ensures result == old(result) + EncodeWords(words)
    {
      hide EncodeWords, EncodeFixed;
      ghost var before := result;
      NoWords();
      for i := 0 to |filterOffsets|
        invariant result == before + EncodeWords(words[..i])
      {
        WordsSnoc(words, i);
        result := result + EncodeFixed(filterOffsets[i], 4);
      }
      assert words[..|words|] == words;
    }
  }

  // ----- The reader

  /** blockOffset >> lg. */
  function Stretch(blockOffset: nat, lg: nat): nat
    decreases lg
  {
    if lg == 0 then blockOffset else Stretch(blockOffset / 2, lg - 1)
  }

  lemma FourSteps(a: nat, lg: nat)
    requires lg >= 4
    ensures Stretch(a, lg) == Stretch(a / 16, lg - 4)
  {
    assert Stretch(a / 2, lg - 1) == Stretch(a / 4, lg - 2);
    assert Stretch(a / 4, lg - 2) == Stretch(a / 8, lg - 3);
    assert Stretch(a / 8, lg - 3) == Stretch(a / 16, lg - 4);
  }

  lemma StretchIsQuotient(blockOffset: nat)
    ensures Stretch(blockOffset, BASE_LG) == blockOffset / BASE
  {
    FourSteps(blockOffset, 11);
    FourSteps(blockOffset / 16, 7);
    var a := blockOffset / 256;
    assert Stretch(a / 2, 2) == Stretch(a / 4, 1);
    assert Stretch(a / 4, 1) == Stretch(a / 8, 0);
  }

  class FilterBlockReader {
    const policy: FilterPolicy
    const data: Bytes
    const offset: nat
    const num: nat
    const baseLg: nat

    ghost predicate Valid() {
      num == 0 || offset + 4 * num + 4 <= |data|
    }

    /** It reads the first n filters of the keys. */
    ghost predicate Reads(added: seq<Added>, n: nat) {
      && data == FilterBlock(policy, added, n) && offset == Offset(policy, added, n) <= MAX_UINT32
      && num == n && baseLg == BASE_LG
    }

    /** Contents too short, or with the array out of place, give a reader without filters. */
    constructor (policy: FilterPolicy, contents: Bytes)
      ensures Valid() && this.policy == policy
      ensures forall added, n :: contents == FilterBlock(policy, added, n) && Offset(policy, added, n) <= MAX_UINT32
                ==> Reads(added, n)
    {
      this.policy, data, offset, num, baseLg := policy, [], 0, 0, 0;
      var n := |contents|;
      if n >= 5 {
        baseLg := contents[n - 1];
        var lastWord := DecodeFixed(contents[n - 5..n - 1]);
        if lastWord <= n - 5 {
          data, offset, num := contents, lastWord, (n - 5 - lastWord) / 4;
        }
      }
      new;
      forall added, n | contents == FilterBlock(policy, added, n) && Offset(policy, added, n) <= MAX_UINT32
        ensures Reads(added, n)
      {
        TailOfBlock(policy, added, n);
      }
    }

    /** The index-th number of the offset array; the last one is the offset of the array itself. */
    function Word(index: nat): nat
      requires Valid() && index <= num && num > 0
    {
      var p := offset + 4 * index;
      DecodeFixed(data[p..p + 4])
    }

    /** May the block at an offset have the key?  Errors are treated as potential matches. */
    predicate KeyMayMatch(blockOffset: nat, key: Bytes)
      requires Valid()
    {
      var index := Stretch(blockOffset, baseLg);
      if index < num then
        var start, limit := Word(index), Word(index + 1);
        if start <= limit && limit <= offset then InData(start, limit, key) else start != limit
      else true
    }

    predicate InData(start: nat, limit: nat, key: Bytes)
      requires Valid() && num > 0 && start <= limit <= offset
    {
      policy.matches(key, data[start..limit])
    }

    /** The answer is the filter's of the stretch the block starts in, if there is one. */
    lemma AnswersAsFilter(added: seq<Added>, n: nat, blockOffset: nat, key: Bytes)
      requires Valid() && Reads(added, n)
      ensures KeyMayMatch(blockOffset, key) <==>
        (blockOffset / BASE < n ==> policy.matches(key, FilterFor(policy, KeysOf(added, blockOffset / BASE))))
    {
      hide FilterBlock, Filters, Offsets, KeysOf, FilterFor, DecodeFixed, Stretch;
      StretchIsQuotient(blockOffset);
      var i := blockOffset / BASE;
      if i < n {
        OffsetRead(policy, added, n, i);
        OffsetRead(policy, added, n, i + 1);
        FilterAt(policy, added, n, i);
      }
    }
  }

  lemma WordInBlock(data: Bytes, words: seq<nat>, tail: Bytes, j: nat)
    requires j < |words| && words[j] <= MAX_UINT32
    ensures var b, p := data + EncodeWords(words) + tail, |data| + 4 * j;
            p + 4 <= |b| && DecodeFixed(b[p..p + 4]) == words[j]
  {
    var b, p := data + EncodeWords(words) + tail, |data| + 4 * j;
    hide EncodeWords, DecodeFixed;
    WordAt(words, j);
    assert b[p..p + 4] == EncodeWords(words)[4 * j..4 * j + 4];
  }

  lemma TailOfBlock(policy: FilterPolicy, added: seq<Added>, n: nat)
    requires Offset(policy, added, n) <= MAX_UINT32
    ensures var b, end := FilterBlock(policy, added, n), Offset(policy, added, n);
            && |b| == end + 4 * n + 5 && b[|b| - 1] == BASE_LG && DecodeFixed(b[|b| - 5..|b| - 1]) == end
  {
    hide EncodeWords, Filters;
    WordInBlock(Filters(policy, added, n), Offsets(policy, added, n), [BASE_LG], n);
  }

  lemma {:induction false} FiltersGrow(policy: FilterPolicy, added: seq<Added>, i: nat, n: nat)
    requires i <= n
    ensures Filters(policy, added, i) <= Filters(policy, added, n)
  {
    if i < n {
      FiltersGrow(policy, added, i, n - 1);
    }
  }

  lemma OffsetRead(policy: FilterPolicy, added: seq<Added>, n: nat, i: nat)
    requires i <= n && Offset(policy, added, n) <= MAX_UINT32
    ensures var b, end := FilterBlock(policy, added, n), Offset(policy, added, n);
            && |b| == end + 4 * n + 5 && Offset(policy, added, i) <= end
            && DecodeFixed(b[end + 4 * i..end + 4 * i + 4]) == Offset(policy, added, i)
  {
    hide EncodeWords, Filters;
    FiltersGrow(policy, added, i, n);
    WordInBlock(Filters(policy, added, n), Offsets(policy, added, n), [BASE_LG], i);
  }

  lemma FilterAt(policy: FilterPolicy, added: seq<Added>, n: nat, i: nat)
    requires i < n
    ensures var b, from, to := FilterBlock(policy, added, n), Offset(policy, added, i), Offset(policy, added, i + 1);
            from <= to <= |b| && b[from..to] == FilterFor(policy, KeysOf(added, i))
  {
    NextFilter(policy, added, i);
    hide EncodeWords, Filters, FilterFor;
    FiltersGrow(policy, added, i + 1, n);
    var b, from, to := FilterBlock(policy, added, n), Offset(policy, added, i), Offset(policy, added, i + 1);
    assert b[..to] == Filters(policy, added, i + 1);
    assert b[from..to] == b[..to][from..];
  }

  // ----- No false negatives

  lemma AddedKeyMatches(policy: FilterPolicy, added: seq<Added>, block: nat, j: nat, reader: FilterBlockReader)
    requires Sound(policy) && AddedBy(added, block) && j < |added|
    requires reader.Valid() && reader.policy == policy && reader.Reads(added, FilterCount(added, block))
    ensures reader.KeyMayMatch(added[j].block, added[j].key)
  {
    reader.AnswersAsFilter(added, FilterCount(added, block), added[j].block, added[j].key);
    KeyIn(added, j);
    hide KeysOf, Filters, FilterBlock;
    assert added[j].block / BASE <= block / BASE;
  }

  datatype DataBlock = DataBlock(offset: nat, keys: seq<Bytes>)

  ghost predicate OffsetsRise(blocks: seq<DataBlock>) {
    forall i, j :: 0 <= i < j < |blocks| ==> blocks[i].offset <= blocks[j].offset
  }

  /** The first n keys of a data block, with its offset. */
  function KeysAdded(b: DataBlock, n: nat): (r: seq<Added>)
    requires n <= |b.keys|
  {
    seq(n, i requires 0 <= i < n => Added(b.offset, b.keys[i]))
  }

  /** The keys of the blocks, in order. */
  function AllKeys(blocks: seq<DataBlock>): seq<Added> {
    if blocks == [] then []
    else
      var last := blocks[|blocks| - 1];
      AllKeys(blocks[..|blocks| - 1]) + KeysAdded(last, |last.keys|)
  }

  function LastOffset(blocks: seq<DataBlock>): nat {
    if blocks == [] then 0 else blocks[|blocks| - 1].offset
  }

  lemma {:induction false} KeyIsAdded(blocks: seq<DataBlock>, b: nat, k: nat)
    requires b < |blocks| && k < |blocks[b].keys|
    ensures Added(blocks[b].offset, blocks[b].keys[k]) in AllKeys(blocks)
  {
    var n := |blocks| - 1;
    if b == n {
      assert KeysAdded(blocks[n], |blocks[n].keys|)[k] == Added(blocks[b].offset, blocks[b].keys[k]);
    } else {
      KeyIsAdded(blocks[..n], b, k);
    }
  }

  /** The answer is that of the filter of the block's stretch. */
  ghost predicate AnswersFor(reader: FilterBlockReader, blocks: seq<DataBlock>, blockOffset: nat, key: Bytes)
    requires reader.Valid()
  {
    var added := AllKeys(blocks);
    reader.KeyMayMatch(blockOffset, key) <==>
      (blockOffset / BASE < FilterCount(added, LastOffset(blocks)) ==>
         reader.policy.matches(key, FilterFor(reader.policy, KeysOf(added, blockOffset / BASE))))
  }

  lemma BuiltAnswers(reader: FilterBlockReader, blocks: seq<DataBlock>)
    requires reader.Valid() && reader.Reads(AllKeys(blocks), FilterCount(AllKeys(blocks), LastOffset(blocks)))
    ensures forall blockOffset, key :: AnswersFor(reader, blocks, blockOffset, key)
  {
    hide KeysOf, Filters, FilterBlock, FilterFor, FilterCount, AllKeys;
    forall blockOffset, key ensures AnswersFor(reader, blocks, blockOffset, key) {
      var added := AllKeys(blocks);
      reader.AnswersAsFilter(added, FilterCount(added, LastOffset(blocks)), blockOffset, key);
    }
  }

  /**
   Build a filter block as the table builder does, and read it: the answers are those of the filters, so every key of
   every data block may match.
   */
  method BuildAndRead(policy: FilterPolicy, blocks: seq<DataBlock>) returns (contents: Bytes, reader: FilterBlockReader)
    requires Sound(policy) && OffsetsRise(blocks)
    ensures reader.Valid() && reader.policy == policy
    ensures |contents| <= MAX_UINT32 ==> forall blockOffset, key :: AnswersFor(reader, blocks, blockOffset, key)
    ensures |contents| <= MAX_UINT32 ==> forall b, k :: 0 <= b < |blocks| && 0 <= k < |blocks[b].keys| ==>
      reader.KeyMayMatch(blocks[b].offset, blocks[b].keys[k])
  {
    contents := Build(policy, blocks);
    reader := new FilterBlockReader(policy, contents);
    if |contents| <= MAX_UINT32 {
      ghost var added, block := AllKeys(blocks), LastOffset(blocks);
      ghost var n := FilterCount(added, block);
      hide FilterCount, AllKeys, LastOffset;
      assert Offset(policy, added, n) <= |contents|;
      hide FilterBlock, Offset, AnswersFor;
      BuiltAnswers(reader, blocks);
      forall b, k | 0 <= b < |blocks| && 0 <= k < |blocks[b].keys|
        ensures reader.KeyMayMatch(blocks[b].offset, blocks[b].keys[k])
      {
        KeyIsAdded(blocks, b, k);
        ghost var j :| 0 <= j < |added| && added[j] == Added(blocks[b].offset, blocks[b].keys[k]);
        AddedKeyMatches(policy, added, block, j, reader);
      }
    }
  }

  /** With the Bloom filter over user keys that a database uses, no condition on the policy is left. */
  method BuildAndReadBloom(hash: BloomFilters.Hash, bitsPerKey: nat, blocks: seq<DataBlock>)
    returns (contents: Bytes, reader: FilterBlockReader)
    requires OffsetsRise(blocks)
    ensures reader.Valid() && reader.policy == UserKeyPolicy(BloomPolicy(hash, bitsPerKey))
    ensures |contents| <= MAX_UINT32 ==> forall blockOffset, key :: AnswersFor(reader, blocks, blockOffset, key)
    ensures |contents| <= MAX_UINT32 ==> forall b, k :: 0 <= b < |blocks| && 0 <= k < |blocks[b].keys| ==>
      reader.KeyMayMatch(blocks[b].offset, blocks[b].keys[k])
  {
    hide AnswersFor;
    BloomIsSound(hash, bitsPerKey);
    UserKeyPolicyIsSound(BloomPolicy(hash, bitsPerKey));
    contents, reader := BuildAndRead(UserKeyPolicy(BloomPolicy(hash, bitsPerKey)), blocks);
  }

  method Build(policy: FilterPolicy, blocks: seq<DataBlock>) returns (contents: Bytes)
    requires OffsetsRise(blocks)
    ensures var added, block := AllKeys(blocks), LastOffset(blocks);
            AddedBy(added, block) && contents == FilterBlock(policy, added, FilterCount(added, block))
  {
    hide KeysOf, Filters, OffsetsTo, Flattened, AddedBy, FilterCount;
    var builder := new FilterBlockBuilder(policy);
    for b := 0 to |blocks|
      invariant builder.Valid() && fresh(builder) && builder.policy == policy
      invariant builder.added == AllKeys(blocks[..b]) && builder.block == LastOffset(blocks[..b])
    {
      AddBlock(builder, blocks[b]);
      assert blocks[..b + 1][..b] == blocks[..b];
    }
    assert blocks[..|blocks|] == blocks;
    contents := builder.Finish();
  }

  method AddBlock(builder: FilterBlockBuilder, b: DataBlock)
    requires builder.Valid() && builder.block <= b.offset
    modifies builder
    ensures builder.Valid() && builder.block == b.offset
    ensures builder.added == old(builder.added) + KeysAdded(b, |b.keys|)
  {
    hide KeysOf, Filters, OffsetsTo, Flattened, AddedBy;
    builder.StartBlock(b.offset);
    ghost var before := builder.added;
    for j := 0 to |b.keys|
      invariant builder.Valid() && builder.block == b.offset
      invariant builder.added == before + KeysAdded(b, j)
    {
      builder.AddKey(b.keys[j]);
      assert KeysAdded(b, j + 1) == KeysAdded(b, j) + [Added(b.offset, b.keys[j])];
    }
  }
}
