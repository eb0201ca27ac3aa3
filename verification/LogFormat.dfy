/**
 The log file format: records are cut into fragments that never cross a 32768-byte block, each with
 a header of checksum, length and type.
 */
module LogFormat {
  import opened Basics
  import opened Coding

  const BLOCK := 32768
  const HEADER := 7

  const ZERO: Byte := 0
  const FULL: Byte := 1
  const FIRST: Byte := 2
  const MIDDLE: Byte := 3
  const LAST: Byte := 4

  /** The types of the fragments of a record. */
  predicate IsFragmentKind(kind: Byte) {
    FULL <= kind <= LAST
  }

  /** A CRC of the type byte and the payload. */
  type Checksum = c: (Bytes -> nat) | forall b :: c(b) <= MAX_UINT32
    ghost witness (b: Bytes) => 0

  function Header(crc: Checksum, kind: Byte, payload: Bytes): (h: Bytes)
    requires |payload| <= 0xffff
    ensures |h| == HEADER
  {
    EncodeFixed(Mask(crc([kind] + payload)), 4) + [|payload| % 256, |payload| / 256, kind]
  }

  /** A physical record: header and payload. */
  function Physical(crc: Checksum, kind: Byte, payload: Bytes): (p: Bytes)
    requires |payload| <= 0xffff
    ensures |p| == HEADER + |payload|
  {
    Header(crc, kind, payload) + payload
  }

  /** The offset of position a in its block: a modulo the block size. */
  function Offset(a: nat): (o: nat)
    ensures o < BLOCK && o <= a
  {
    if a < BLOCK then a else Offset(a - BLOCK)
  }

  lemma {:induction false} OffsetIsModulo(a: nat)
    ensures Offset(a) == a % BLOCK
  {
    if a >= BLOCK {
      OffsetIsModulo(a - BLOCK);
    }
  }

  lemma {:induction false} OffsetWithin(a: nat, k: nat)
    requires Offset(a) + k <= BLOCK
    ensures Offset(a + k) == if Offset(a) + k == BLOCK then 0 else Offset(a) + k
  {
    if a >= BLOCK {
      OffsetWithin(a - BLOCK, k);
    }
  }

  /** Where the next fragment starts when the file has a bytes: the last bytes of a block that cannot hold
      a header are left as a trailer. */
  function FragmentStart(a: nat): (q: nat)
    ensures a <= q < a + HEADER && Offset(q) + HEADER <= BLOCK
  {
    if BLOCK - Offset(a) < HEADER then
      OffsetWithin(a, BLOCK - Offset(a));
      a + (BLOCK - Offset(a))
    else a
  }

  /** How much of a record fits into a fragment that starts at q. */
  function Available(q: nat): nat
    requires Offset(q) + HEADER <= BLOCK
  {
    BLOCK - Offset(q) - HEADER
  }

  function KindOf(begin: bool, end: bool): Byte {
    if begin && end then FULL else if begin then FIRST else if end then LAST else MIDDLE
  }

  function Zeros(n: nat): (z: Bytes)
    ensures |z| == n && forall i :: 0 <= i < n ==> z[i] == 0
  {
    seq(n, _ => 0)
  }

  function FragmentLength(a: nat, rec: Bytes): (n: nat)
    ensures n <= |rec| && n <= BLOCK - HEADER && Offset(FragmentStart(a)) + HEADER + n <= BLOCK
  {
    if |rec| < Available(FragmentStart(a)) then |rec| else Available(FragmentStart(a))
  }

  /** The next fragment of a record, with the trailer before it. */
  function FirstFragment(crc: Checksum, a: nat, rec: Bytes, begin: bool): (f: Bytes)
    ensures a + |f| == FragmentStart(a) + HEADER + FragmentLength(a, rec)
  {
    var n := FragmentLength(a, rec);
    Zeros(FragmentStart(a) - a) + Physical(crc, KindOf(begin, n == |rec|), rec[..n])
  }

  /** Fragments of length 0 come at most once in a row. */
  function Turns(a: nat): nat {
    if Available(FragmentStart(a)) == 0 then 1 else 0
  }

  lemma FragmentsEnd(a: nat, rec: Bytes)
    requires FragmentLength(a, rec) < |rec|
    ensures FragmentLength(a, rec) > 0 || Turns(FragmentStart(a) + HEADER + FragmentLength(a, rec)) < Turns(a)
  {
    var q := FragmentStart(a);
    if FragmentLength(a, rec) == 0 {
      OffsetWithin(q, HEADER);
    }
  }

  /** The bytes that writing rec appends to a file of a bytes; begin says that nothing of it was written yet. */
  function Fragments(crc: Checksum, a: nat, rec: Bytes, begin: bool): Bytes
    decreases |rec|, Turns(a), 1
  {
    FirstFragment(crc, a, rec, begin) + LaterFragments(crc, a, rec)
  }

  function LaterFragments(crc: Checksum, a: nat, rec: Bytes): Bytes
    decreases |rec|, Turns(a), 0
  {
    var n := FragmentLength(a, rec);
    if n == |rec| then []
    else
      FragmentsEnd(a, rec);
      Fragments(crc, FragmentStart(a) + HEADER + n, rec[n..], false)
  }

  /** The file after writing the records one after the other. */
  function LogOf(crc: Checksum, records: seq<Bytes>): Bytes {
    if records == [] then []
    else
      var before := LogOf(crc, records[..|records| - 1]);
      before + Fragments(crc, |before|, records[|records| - 1], true)
  }
}
