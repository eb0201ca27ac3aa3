/**
 log::Writer: appends records to a log file.
 */
module LogWriters {
  import opened Basics
  import opened Coding
  import opened LogFormat

  class LogWriter {
    const crc: Checksum
    var dest: Bytes
    var blockOffset: nat

    /** blockOffset is where the file ends in its block; a full block counts as a whole one. */
    ghost predicate Valid()
      reads this
    {
      blockOffset == Offset(|dest|) || (blockOffset == BLOCK && Offset(|dest|) == 0)
    }

    /** A writer for a new file. */
    constructor (crc: Checksum)
      ensures Valid() && this.crc == crc && dest == []
    {
      this.crc, dest, blockOffset := crc, [], 0;
    }

    /** A writer that goes on with an existing file, of which only the length is known to it. */
    constructor Reopen(crc: Checksum, file: Bytes)
      ensures Valid() && this.crc == crc && dest == file
    {
      OffsetIsModulo(|file|);
      this.crc, dest, blockOffset := crc, file, |file| % BLOCK;
    }

    /** Writer::AddRecord. */
    method AddRecord(rec: Bytes)
      requires Valid()
      modifies this
      ensures Valid() && dest == old(dest) + Fragments(crc, |old(dest)|, rec, true)
    {
      var left, begin := rec, true;
      var again := true;
      while again
        invariant Valid()
        invariant Written(old(dest), rec, left, begin, again)
        decreases again, |left|, Turns(|dest|)
      {
        left, again := AddFragment(old(dest), rec, left, begin);
        begin := false;
      }
    }

    /** What is in the file, with the fragments still to come, is the whole record. */
    ghost predicate Written(before: Bytes, rec: Bytes, left: Bytes, begin: bool, again: bool)
      reads this
    {
      before + Fragments(crc, |before|, rec, true) == if again then dest + Fragments(crc, |dest|, left, begin) else dest
    }

    /** One turn of the loop in AddRecord. */
    method AddFragment(ghost before: Bytes, ghost rec: Bytes, left: Bytes, begin: bool)
      returns (left': Bytes, again: bool)
      requires Valid() && Written(before, rec, left, begin, true)
      modifies this
      ensures Valid() && Written(before, rec, left', false, again)
      ensures again ==> |left'| < |left| || (|left'| == |left| && Turns(|dest|) < Turns(|old(dest)|))
    {
      hide Fragments, FirstFragment, LaterFragments, FragmentStart, Turns;
      ghost var a := |dest|;
      var n := EmitFragment(left, begin);
      FragmentsUnfold(crc, old(dest), left, begin, dest);
      left' := left[n..];
      again := left' != [];
      if again {
        LaterUnfold(crc, a, left, |dest|);
        FragmentsEnd(a, left);
      } else {
        NoneLater(crc, a, left, dest);
      }
    }

    /** Write the next fragment, in a new block if need be. */
    method EmitFragment(left: Bytes, begin: bool) returns (fragmentLength: nat)
      requires Valid()
      modifies this
      ensures Valid() && fragmentLength == FragmentLength(|old(dest)|, left)
      ensures dest == old(dest) + FirstFragment(crc, |old(dest)|, left, begin)
    {
      ghost var a := |dest|;
      SwitchBlock();
      ghost var padding := FragmentStart(a) - a;
      var avail := BLOCK - blockOffset - HEADER;
      fragmentLength := if |left| < avail then |left| else avail;
      var end := |left| == fragmentLength;
      EmitPhysicalRecord(KindOf(begin, end), left[..fragmentLength]);
      Glue(old(dest), Zeros(padding), Physical(crc, KindOf(begin, end), left[..fragmentLength]));
    }

    /** Leave the end of a block that is too short for a header as a trailer of zeros. */
    method SwitchBlock()
      requires Valid()
      modifies this
      ensures Valid() && dest == old(dest) + Zeros(FragmentStart(|old(dest)|) - |old(dest)|)
      ensures blockOffset == Offset(FragmentStart(|old(dest)|))
    {
      if Offset(|dest|) > 0 {
        OffsetWithin(|dest|, BLOCK - Offset(|dest|));
      }
      var leftover := BLOCK - blockOffset;
      if leftover < HEADER {
        if leftover > 0 {
          dest := dest + Zeros(leftover);
        }
        blockOffset := 0;
      }
    }

    method EmitPhysicalRecord(kind: Byte, payload: Bytes)
      requires blockOffset == Offset(|dest|) && |payload| <= 0xffff && blockOffset + HEADER + |payload| <= BLOCK
      modifies this
      ensures Valid() && dest == old(dest) + Physical(crc, kind, payload)
    {
      OffsetWithin(|dest|, HEADER + |payload|);
      Glue(dest, Header(crc, kind, payload), payload);
      dest := dest + Header(crc, kind, payload);
      dest := dest + payload;
      blockOffset := blockOffset + HEADER + |payload|;
    }
  }

  /** One turn of the loop: after the first fragment, the rest of the record is still to be written. */
  lemma FragmentsUnfold(crc: Checksum, before: Bytes, left: Bytes, begin: bool, dest: Bytes)
    requires dest == before + FirstFragment(crc, |before|, left, begin)
    ensures before + Fragments(crc, |before|, left, begin) == dest + LaterFragments(crc, |before|, left)
  {
    Glue(before, FirstFragment(crc, |before|, left, begin), LaterFragments(crc, |before|, left));
  }

  lemma LaterUnfold(crc: Checksum, a: nat, left: Bytes, d: nat)
    requires d == FragmentStart(a) + HEADER + FragmentLength(a, left) && FragmentLength(a, left) < |left|
    ensures LaterFragments(crc, a, left) == Fragments(crc, d, left[FragmentLength(a, left)..], false)
  {
  }

  lemma NoneLater(crc: Checksum, a: nat, left: Bytes, dest: Bytes)
    requires FragmentLength(a, left) == |left|
    ensures dest + LaterFragments(crc, a, left) == dest
  {
  }
}
