/**
 The Bloom filter policy: a key sets a few bits, found by double hashing, and matches if all of them are set.
 */
module BloomFilters {
  import opened Basics
  import opened Coding

  const WORD: nat := MAX_UINT32 + 1

  type Hash = h: (Bytes -> nat) | forall b :: h(b) <= MAX_UINT32
    ghost witness (b: Bytes) => 0

  // ----- Bits of a number

  /** Bit r, counted from the lowest. */
  predicate HasBit(b: nat, r: nat)
    decreases r
  {
    if r == 0 then b % 2 == 1 else HasBit(b / 2, r - 1)
  }

  /** b | (1 << r), for a number of more than r bits. */
  function WithBit(b: nat, r: nat, size: nat): (c: nat)
    requires r < size && b < Pow2(size)
    ensures c < Pow2(size)
    decreases r
  {
    if r == 0 then b - b % 2 + 1 else b % 2 + 2 * WithBit(b / 2, r - 1, size - 1)
  }

  function Pow2(n: nat): (p: nat)
    ensures p > 0
  {
    if n == 0 then 1 else 2 * Pow2(n - 1)
  }

  lemma ByteBits()
    ensures Pow2(8) == 256
  {
    assert Pow2(4) == 16;
  }

  lemma {:induction false} BitsAfter(b: nat, r: nat, size: nat, q: nat)
    requires r < size && b < Pow2(size)
    ensures HasBit(WithBit(b, r, size), q) <==> HasBit(b, q) || q == r
    decreases r
  {
    if r > 0 {
      Halves(b % 2, WithBit(b / 2, r - 1, size - 1));
      if q > 0 {
        BitsAfter(b / 2, r - 1, size - 1, q - 1);
      }
    }
  }

  lemma Halves(bit: nat, n: nat)
    requires bit < 2
    ensures (bit + 2 * n) / 2 == n && (bit + 2 * n) % 2 == bit
  {
  }

  lemma {:induction false} NoBits(q: nat)
    ensures !HasBit(0, q)
  {
    if q > 0 {
      NoBits(q - 1);
    }
  }

  // ----- Bits of an array

  predicate BitSet(a: Bytes, pos: nat)
    requires pos < 8 * |a|
  {
    HasBit(a[pos / 8], pos % 8)
  }

  /** array[pos / 8] |= 1 << (pos % 8). */
  function SetBit(a: Bytes, pos: nat): (r: Bytes)
    requires pos < 8 * |a|
    ensures |r| == |a|
  {
    ByteBits();
    a[pos / 8 := WithBit(a[pos / 8], pos % 8, 8)]
  }

  lemma SetBitSets(a: Bytes, pos: nat, p: nat)
    requires pos < 8 * |a| && p < 8 * |a|
    ensures BitSet(SetBit(a, pos), p) <==> BitSet(a, p) || p == pos
  {
    ByteBits();
    if p / 8 == pos / 8 {
      BitsAfter(a[pos / 8], pos % 8, 8, p % 8);
    }
  }

  // ----- Probes

  /** Rotate right 17 bits. */
  function Delta(h: nat): nat {
    h / 0x2_0000 + h % 0x2_0000 * 0x8000
  }

  /** The bits of a number put together from n low ones and the high ones. */
  lemma {:induction false} BitOfSum(low: nat, high: nat, n: nat, r: nat)
    requires low < Pow2(n)
    ensures HasBit(low + high * Pow2(n), r) <==> if r < n then HasBit(low, r) else HasBit(high, r - n)
  {
    if n > 0 {
      var p := Pow2(n - 1);
      assert high * Pow2(n) == 2 * (high * p);
      Halves(low % 2, low / 2 + high * p);
      if r > 0 {
        BitOfSum(low / 2, high, n - 1, r - 1);
      }
    } else {
      assert low == 0;
    }
  }

  lemma RotationPowers()
    ensures Pow2(15) == 0x8000 && Pow2(17) == 0x2_0000
  {
    assert Pow2(10) == 1024;
  }

  /** Bit i is the bit seventeen places to the left of it, going round. */
  lemma DeltaRotates(h: nat, i: nat)
    requires h < WORD && i < 32
    ensures HasBit(Delta(h), i) <==> HasBit(h, (i + 17) % 32)
  {
    var low, high := h % 0x2_0000, h / 0x2_0000;
    RotationPowers();
    BitOfSum(high, low, 15, i);
    BitOfSum(low, high, 17, (i + 17) % 32);
    assert h == low + high * 0x2_0000;
  }

  /** The hash after j steps of double hashing, in 32 bits. */
  function Probe(h: nat, j: nat): nat {
    if j == 0 then h else (Probe(h, j - 1) + Delta(h)) % WORD
  }

  lemma AddToWord(n: nat, d: nat)
    ensures (n % WORD + d) % WORD == (n + d) % WORD
  {
  }

  lemma {:induction false} ProbeIs(h: nat, j: nat)
    requires h < WORD
    ensures Probe(h, j) == (h + j * Delta(h)) % WORD
  {
    hide Delta;
    var d := Delta(h);
    if j > 0 {
      ProbeIs(h, j - 1);
      var n := h + (j - 1) * d;
      AddToWord(n, d);
      assert n + d == h + j * d;
    }
  }

  /** The bits of a filter a key sets: k probes into that many bits. */
  ghost predicate Probes(h: nat, k: nat, bits: nat, pos: nat)
    requires bits > 0
  {
    exists j :: 0 <= j < k && Probe(h, j) % bits == pos
  }

  ghost predicate SomeProbes(hash: Hash, keys: seq<Bytes>, k: nat, bits: nat, pos: nat)
    requires bits > 0
  {
    exists i :: 0 <= i < |keys| && Probes(hash(keys[i]), k, bits, pos)
  }

  lemma MoreProbes(h: nat, k: nat, bits: nat, pos: nat)
    requires bits > 0
    ensures Probes(h, k + 1, bits, pos) <==> Probes(h, k, bits, pos) || pos == Probe(h, k) % bits
  {
  }

  lemma MoreKeys(hash: Hash, keys: seq<Bytes>, n: nat, k: nat, bits: nat, pos: nat)
    requires bits > 0 && n < |keys|
    ensures SomeProbes(hash, keys[..n + 1], k, bits, pos)
      <==> SomeProbes(hash, keys[..n], k, bits, pos) || Probes(hash(keys[n]), k, bits, pos)
  {
    hide Probes;
    if Probes(hash(keys[n]), k, bits, pos) {
      assert keys[..n + 1][n] == keys[n];
    } else if SomeProbes(hash, keys[..n], k, bits, pos) {
      var i :| 0 <= i < n && Probes(hash(keys[..n][i]), k, bits, pos);
      assert keys[..n + 1][i] == keys[..n][i];
    }
  }

  // ----- The policy

  /** Exactly the bits the keys probe are set. */
  ghost predicate SetBy(a: Bytes, hash: Hash, keys: seq<Bytes>, k: nat) {
    forall p :: 0 <= p < 8 * |a| ==> (BitSet(a, p) <==> SomeProbes(hash, keys, k, 8 * |a|, p))
  }

  /** Exactly the bits the keys probe, and those the first j probes of another hash reach. */
  ghost predicate SetByAnd(a: Bytes, hash: Hash, keys: seq<Bytes>, k: nat, h: nat, j: nat) {
    forall p :: 0 <= p < 8 * |a| ==>
      (BitSet(a, p) <==> SomeProbes(hash, keys, k, 8 * |a|, p) || Probes(h, j, 8 * |a|, p))
  }

  lemma OneMoreProbe(a: Bytes, hash: Hash, keys: seq<Bytes>, k: nat, h: nat, j: nat)
    requires |a| > 0 && SetByAnd(a, hash, keys, k, h, j)
    ensures SetByAnd(SetBit(a, Probe(h, j) % (8 * |a|)), hash, keys, k, h, j + 1)
  {
    var bits := 8 * |a|;
    var b := SetBit(a, Probe(h, j) % bits);
    hide SomeProbes, Probes, SetBit, BitSet;
    forall p | 0 <= p < bits
      ensures BitSet(b, p) <==> SomeProbes(hash, keys, k, bits, p) || Probes(h, j + 1, bits, p)
    {
      SetBitSets(a, Probe(h, j) % bits, p);
      MoreProbes(h, j, bits, p);
    }
  }

  lemma OneMoreKey(a: Bytes, hash: Hash, keys: seq<Bytes>, n: nat, k: nat)
    requires n < |keys| && SetByAnd(a, hash, keys[..n], k, hash(keys[n]), k)
    ensures SetBy(a, hash, keys[..n + 1], k)
  {
    hide SomeProbes, Probes, BitSet;
    forall p | 0 <= p < 8 * |a| ensures BitSet(a, p) <==> SomeProbes(hash, keys[..n + 1], k, 8 * |a|, p) {
      MoreKeys(hash, keys, n, k, 8 * |a|, p);
    }
  }

  lemma NoKeys(a: Bytes, hash: Hash, k: nat)
    requires forall i :: 0 <= i < |a| ==> a[i] == 0
    ensures SetBy(a, hash, [], k)
  {
    forall p | 0 <= p < 8 * |a| ensures !BitSet(a, p) {
      NoBits(p % 8);
    }
  }

  /** The number of probes for a number of bits per key. */
  function ProbeCount(bitsPerKey: nat): (k: nat)
    ensures 1 <= k <= 30
    ensures k > 1 ==> 100 * k <= 69 * bitsPerKey
    ensures k < 30 ==> 69 * bitsPerKey < 100 * (k + 1)
  {
    var k := (bitsPerKey as real * 0.69).Floor;
    if k < 1 then 1 else if k > 30 then 30 else k
  }

  function FilterBytes(n: nat, bitsPerKey: nat): (bytes: nat)
    ensures bytes >= 8 && 8 * bytes >= n * bitsPerKey
    ensures bytes > 8 ==> 8 * (bytes - 1) < n * bitsPerKey
  {
    var bits := n * bitsPerKey;
    ((if bits < 64 then 64 else bits) + 7) / 8
  }

  /** Set the first j probes of a hash. */
  function SetProbes(a: Bytes, h: nat, j: nat): (r: Bytes)
    requires |a| > 0
    ensures |r| == |a|
  {
    if j == 0 then a
    else
      var before := SetProbes(a, h, j - 1);
      SetBit(before, Probe(h, j - 1) % (8 * |a|))
  }

  function SetKeys(a: Bytes, hash: Hash, keys: seq<Bytes>, k: nat): (r: Bytes)
    requires |a| > 0
    ensures |r| == |a|
  {
    if keys == [] then a
    else SetProbes(SetKeys(a, hash, keys[..|keys| - 1], k), hash(keys[|keys| - 1]), k)
  }

  function Zeros(n: nat): (a: Bytes)
    ensures |a| == n && forall i :: 0 <= i < n ==> a[i] == 0
  {
    seq(n, i => 0)
  }

  /** The bits of the keys, and then the number of probes. */
  function Filter(hash: Hash, bitsPerKey: nat, keys: seq<Bytes>): Bytes {
    var k := ProbeCount(bitsPerKey);
    SetKeys(Zeros(FilterBytes(|keys|, bitsPerKey)), hash, keys, k) + [k]
  }

  method CreateFilter(hash: Hash, bitsPerKey: nat, keys: seq<Bytes>, dst: Bytes) returns (filter: Bytes)
    ensures filter == dst + Filter(hash, bitsPerKey, keys)
  {
    hide Probe, SetBit, SetProbes, SetKeys, Delta;
    var bytes, k := FilterBytes(|keys|, bitsPerKey), ProbeCount(bitsPerKey);
    var bits := bytes * 8;
    var a := Zeros(bytes);
    ghost var zeros := a;
    KeysStart(zeros, hash, k);
    for i := 0 to |keys|
      invariant |a| == bytes && a == SetKeys(zeros, hash, keys[..i], k)
    {
      var h := hash(keys[i]);
      var delta := Delta(h);
      var probe := h;
      ghost var before := a;
      ProbesStart(before, h);
      for j := 0 to k
        invariant |a| == bytes && probe == Probe(h, j) && a == SetProbes(before, h, j)
      {
        ProbesStep(before, h, j);
        a := SetBit(a, probe % bits);
        probe := (probe + delta) % WORD;
      }
      KeysStep(zeros, hash, keys, i, k);
    }
    assert keys[..|keys|] == keys;
    filter := dst + (a + [k]);
  }

  lemma ProbesStart(a: Bytes, h: nat)
    requires |a| > 0
    ensures SetProbes(a, h, 0) == a && Probe(h, 0) == h
  {
  }

  lemma ProbesStep(a: Bytes, h: nat, j: nat)
    requires |a| > 0
    ensures SetProbes(a, h, j + 1) == SetBit(SetProbes(a, h, j), Probe(h, j) % (8 * |a|))
    ensures Probe(h, j + 1) == (Probe(h, j) + Delta(h)) % WORD
  {
  }

  lemma KeysStart(a: Bytes, hash: Hash, k: nat)
    requires |a| > 0
    ensures SetKeys(a, hash, [], k) == a
  {
  }

  lemma KeysStep(a: Bytes, hash: Hash, keys: seq<Bytes>, i: nat, k: nat)
    requires |a| > 0 && i < |keys|
    ensures SetKeys(a, hash, keys[..i + 1], k) == SetProbes(SetKeys(a, hash, keys[..i], k), hash(keys[i]), k)
  {
    assert keys[..i + 1][..i] == keys[..i];
  }

  // ----- The bits of a filter

  lemma {:induction false} ProbesSet(a: Bytes, hash: Hash, keys: seq<Bytes>, k: nat, h: nat, j: nat)
    requires |a| > 0 && SetBy(a, hash, keys, k)
    ensures SetByAnd(SetProbes(a, h, j), hash, keys, k, h, j)
  {
    hide SetBy, SetByAnd, Probe, SetBit;
    if j == 0 {
      NoProbes(a, hash, keys, k, h);
    } else {
      ProbesSet(a, hash, keys, k, h, j - 1);
      OneMoreProbe(SetProbes(a, h, j - 1), hash, keys, k, h, j - 1);
    }
  }

  /** Exactly the bits that some key probes are set. */
  lemma {:induction false} KeysSet(a: Bytes, hash: Hash, keys: seq<Bytes>, k: nat)
    requires |a| > 0 && forall i :: 0 <= i < |a| ==> a[i] == 0
    ensures SetBy(SetKeys(a, hash, keys, k), hash, keys, k)
  {
    hide SetBy, SetByAnd, SetProbes;
    if keys == [] {
      NoKeys(a, hash, k);
    } else {
      var n := |keys| - 1;
      var before := SetKeys(a, hash, keys[..n], k);
      KeysSet(a, hash, keys[..n], k);
      ProbesSet(before, hash, keys[..n], k, hash(keys[n]), k);
      OneMoreKey(SetProbes(before, hash(keys[n]), k), hash, keys, n, k);
      assert keys[..n + 1] == keys;
    }
  }

  lemma FilterBits(hash: Hash, bitsPerKey: nat, keys: seq<Bytes>)
    ensures var bytes, k := FilterBytes(|keys|, bitsPerKey), ProbeCount(bitsPerKey);
            var filter := Filter(hash, bitsPerKey, keys);
            |filter| == bytes + 1 && filter[bytes] == k && SetBy(filter[..bytes], hash, keys, k)
  {
    hide SetBy, SetKeys;
    var bytes, k := FilterBytes(|keys|, bitsPerKey), ProbeCount(bitsPerKey);
    KeysSet(Zeros(bytes), hash, keys, k);
    assert Filter(hash, bitsPerKey, keys)[..bytes] == SetKeys(Zeros(bytes), hash, keys, k);
  }

  lemma NextProbe(h: nat, j: nat)
    ensures Probe(h, j + 1) == (Probe(h, j) + Delta(h)) % WORD
  {
  }

  lemma NoProbes(a: Bytes, hash: Hash, keys: seq<Bytes>, k: nat, h: nat)
    requires SetBy(a, hash, keys, k)
    ensures SetByAnd(a, hash, keys, k, h, 0)
  {
    hide SomeProbes, BitSet;
  }

  /** Does a filter, whatever its bytes, match the key? */
  predicate Matches(hash: Hash, key: Bytes, filter: Bytes) {
    var n := |filter|;
    n >= 2 && (filter[n - 1] > 30 || AllSet(filter[..n - 1], hash(key), filter[n - 1]))
  }

  predicate AllSet(a: Bytes, h: nat, k: nat)
    requires |a| > 0
  {
    forall j :: 0 <= j < k ==> BitSet(a, Probe(h, j) % (8 * |a|))
  }

  method KeyMayMatch(hash: Hash, key: Bytes, filter: Bytes) returns (r: bool)
    ensures r <==> Matches(hash, key, filter)
    ensures |filter| < 2 ==> !r
    ensures |filter| >= 2 && filter[|filter| - 1] > 30 ==> r
  {
    var n := |filter|;
    if n < 2 {
      return false;
    }
    if filter[n - 1] > 30 {
      return true;
    }
    r := EveryProbeSet(filter[..n - 1], hash(key), filter[n - 1]);
  }

  method EveryProbeSet(a: Bytes, h: nat, k: nat) returns (r: bool)
    requires |a| > 0
    ensures r <==> AllSet(a, h, k)
  {
    hide BitSet, Probe, Delta;
    var bits := 8 * |a|;
    var delta := Delta(h);
    var probe := h;
    FirstProbe(h);
    for j := 0 to k
      invariant probe == Probe(h, j)
      invariant AllSet(a, h, j)
    {
      if !BitSet(a, probe % bits) {
        return false;
      }
      NextProbe(h, j);
      probe := (probe + delta) % WORD;
    }
    return true;
  }

  lemma FirstProbe(h: nat)
    ensures Probe(h, 0) == h
  {
  }

  /** A filter matches a key exactly if each bit the key probes is probed by some key it was made of. */
  lemma MatchesIffProbed(hash: Hash, bitsPerKey: nat, keys: seq<Bytes>, key: Bytes)
    ensures var bits, k := 8 * FilterBytes(|keys|, bitsPerKey), ProbeCount(bitsPerKey);
            Matches(hash, key, Filter(hash, bitsPerKey, keys)) <==>
              forall p :: 0 <= p < bits && Probes(hash(key), k, bits, p) ==> SomeProbes(hash, keys, k, bits, p)
  {
    var bits, k := 8 * FilterBytes(|keys|, bitsPerKey), ProbeCount(bitsPerKey);
    FilterBits(hash, bitsPerKey, keys);
    var filter := Filter(hash, bitsPerKey, keys);
    var a, h := filter[..|filter| - 1], hash(key);
    hide SomeProbes, BitSet, Probe, FilterBytes, ProbeCount, Filter;
    if Matches(hash, key, filter) {
      forall p | 0 <= p < bits && Probes(h, k, bits, p) ensures SomeProbes(hash, keys, k, bits, p) {
        assert BitSet(a, p);
      }
    } else {
      var j :| 0 <= j < k && !BitSet(a, Probe(h, j) % bits);
      assert Probes(h, k, bits, Probe(h, j) % bits);
    }
  }

  /** No false negatives. */
  lemma MembersMatch(hash: Hash, bitsPerKey: nat, keys: seq<Bytes>, key: Bytes)
    requires key in keys
    ensures Matches(hash, key, Filter(hash, bitsPerKey, keys))
  {
    MatchesIffProbed(hash, bitsPerKey, keys, key);
    var bits, k := 8 * FilterBytes(|keys|, bitsPerKey), ProbeCount(bitsPerKey);
    hide Matches, Probes, Filter;
    forall p | 0 <= p < bits && Probes(hash(key), k, bits, p) ensures SomeProbes(hash, keys, k, bits, p) {
      var i :| 0 <= i < |keys| && keys[i] == key;
      assert Probes(hash(keys[i]), k, bits, p);
    }
  }
}
