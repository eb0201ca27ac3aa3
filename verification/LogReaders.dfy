/**
 log::Reader: reads the records of a log file back, block by block, and reports what it drops.
 */
module LogReaders {
  import opened Basics
  import opened Coding
  import opened LogFormat

  /** What the next physical record turns out to be; Bad carries the number of bytes reported as dropped, if any. */
  datatype Piece = Fragment(kind: Byte, payload: Bytes) | Eof | Bad(dropped: Option<nat>)

  datatype PieceAt = PieceAt(piece: Piece, next: nat)

  function BlockEnd(p: nat): (e: nat)
    ensures p < e <= p + BLOCK
  {
    p - Offset(p) + BLOCK
  }

  function Min(a: nat, b: nat): nat {
    if a <= b then a else b
  }

  function LengthOf(b: Bytes): nat
    requires HEADER <= |b|
  {
    var low: nat, high: nat := b[4], b[5];
    low + 256 * high
  }

  predicate ChecksumMatches(crc: Checksum, b: Bytes)
    requires HEADER <= |b| && HEADER + LengthOf(b) <= |b|
  {
    var stored := DecodeFixed(b[..4]);
    stored <= MAX_UINT32 && Unmask(stored) == crc(b[6..HEADER + LengthOf(b)])
  }

  /** kEof and kBadRecord share their numbers with the first two type bytes that no writer uses. */
  const EOF_KIND: Byte := 5
  const BAD_KIND: Byte := 6

  function PieceOf(kind: Byte, payload: Bytes): Piece {
    if kind == EOF_KIND then Eof else if kind == BAD_KIND then Bad(None) else Fragment(kind, payload)
  }

  /** The physical record at the start of the unread rest of a block; atEnd says that the file ends in it. */
  function Parse(crc: Checksum, b: Bytes, atEnd: bool): (r: PieceAt)
    requires HEADER <= |b|
    ensures 0 < r.next <= |b|
  {
    if HEADER + LengthOf(b) > |b| then PieceAt(if atEnd then Eof else Bad(Some(|b|)), |b|)
    else if b[6] == ZERO && LengthOf(b) == 0 then PieceAt(Bad(None), |b|)
    else if !ChecksumMatches(crc, b) then PieceAt(Bad(Some(|b|)), |b|)
    else PieceAt(PieceOf(b[6], b[HEADER..HEADER + LengthOf(b)]), HEADER + LengthOf(b))
  }

  /** ReadPhysicalRecord on the part of the file from position p on: what it finds, and where it goes on. */
  function NextPiece(crc: Checksum, file: Bytes, p: nat): (r: PieceAt)
    ensures r.piece != Eof ==> p < r.next <= |file|
  {
    var q := FragmentStart(p);
    if q + HEADER > |file| then PieceAt(Eof, |file|)
    else
      FullHeaderFits(q);
      var r := Parse(crc, file[q..Min(BlockEnd(q), |file|)], |file| < BlockEnd(q));
      PieceAt(r.piece, q + r.next)
  }

  lemma FullHeaderFits(q: nat)
    requires Offset(q) + HEADER <= BLOCK
    ensures q + HEADER <= BlockEnd(q)
  {
  }

  function Dropped(piece: Piece): seq<nat> {
    if piece.Bad? && piece.dropped.Some? then [piece.dropped.value] else []
  }

  /** What ReadRecord does with a physical record: end, or go on with an unfinished record or without one. */
  datatype Digested =
    | Done(record: Option<Bytes>, reports: seq<nat>)
    | GoOn(scratch: Option<Bytes>, reports: seq<nat>)

  /** The bytes of an unfinished record that a full or first fragment cuts off. */
  function CutOff(scratch: Option<Bytes>): seq<nat> {
    if scratch.Some? && scratch.value != [] then [|scratch.value|] else []
  }

  function Digest(piece: Piece, scratch: Option<Bytes>): (d: Digested)
    ensures piece == Eof ==> d.Done?
  {
    match piece
    case Eof => Done(None, [])
    case Bad(_) => GoOn(None, if scratch.Some? then [|scratch.value|] else [])
    case Fragment(kind, payload) =>
      if kind == FULL then Done(Some(payload), CutOff(scratch))
      else if kind == FIRST then GoOn(Some(payload), CutOff(scratch))
      else if kind == MIDDLE || kind == LAST then
        if scratch.None? then GoOn(None, [|payload|])
        else if kind == MIDDLE then GoOn(Some(scratch.value + payload), [])
        else Done(Some(scratch.value + payload), [])
      else GoOn(None, [|payload| + if scratch.Some? then |scratch.value| else 0])
  }

  /** A record, or the end of the file; where reading goes on; and the sizes of the drops reported on the way. */
  datatype Outcome = Outcome(record: Option<Bytes>, next: nat, reports: seq<nat>)

  function Report(reports: seq<nat>, o: Outcome): Outcome {
    o.(reports := reports + o.reports)
  }

  /** ReadRecord from position p, with the fragments of an unfinished record in scratch. */
  function NextRecord(crc: Checksum, file: Bytes, p: nat, scratch: Option<Bytes>): Outcome
    decreases if p <= |file| then |file| - p + 1 else 0
  {
    var at := NextPiece(crc, file, p);
    match Digest(at.piece, scratch)
    case Done(record, reports) => Outcome(record, at.next, Dropped(at.piece) + reports)
    case GoOn(scratch', reports) => Report(Dropped(at.piece) + reports, NextRecord(crc, file, at.next, scratch'))
  }

  // ----- The reader

  class LogReader {
    const crc: Checksum
    const file: Bytes
    var filePos: nat
    var buffer: Bytes
    var eof: bool
    var reports: seq<nat>

    /** The unread rest of the current block is in buffer; eof after a short read. */
    ghost predicate Valid()
      reads this
    {
      && |buffer| <= filePos <= |file| && buffer == file[filePos - |buffer|..filePos]
      && (eof ==> filePos == |file| && (buffer != [] ==> |file| < BlockEnd(Pos())))
      && (!eof ==> Offset(filePos) == 0 && (buffer != [] ==> filePos == BlockEnd(Pos())))
    }

    ghost function Pos(): nat
      requires |buffer| <= filePos
      reads this
    {
      filePos - |buffer|
    }

    constructor (crc: Checksum, file: Bytes)
      ensures Valid() && Pos() == 0 && reports == [] && this.crc == crc && this.file == file
    {
      this.crc, this.file, filePos, buffer, eof, reports := crc, file, 0, [], false, [];
    }

    /** Read the next block, dropping what is left in the buffer. */
    method ReadBlock()
      requires Valid() && !eof
      modifies this`filePos, this`buffer, this`eof
      ensures Valid() && Pos() == old(filePos) && (eof || |buffer| == BLOCK)
    {
      AlignedBlock(filePos);
      var end := Min(filePos + BLOCK, |file|);
      buffer := file[filePos..end];
      filePos := end;
      eof := |buffer| < BLOCK;
    }

    /** Get a header's worth of bytes into the buffer, skipping the trailer of a block; false at the end of the file. */
    method FillBuffer() returns (more: bool)
      requires Valid()
      modifies this`filePos, this`buffer, this`eof
      ensures Valid()
      ensures if more then Pos() == FragmentStart(old(Pos())) && |buffer| >= HEADER
              else Pos() == |file| && FragmentStart(old(Pos())) + HEADER > |file|
    {
      ghost var start := FragmentStart(Pos());
      while |buffer| < HEADER
        invariant Valid() && FragmentStart(Pos()) == start
        decreases !eof, if |buffer| < HEADER then 1 else 0
      {
        if eof {
          EndOfFile(Pos(), |buffer|, |file|);
          buffer := [];
          return false;
        }
        BlockFollows(Pos(), |buffer|);
        ReadBlock();
      }
      HeaderFits(Pos(), |buffer|);
      return true;
    }

    /** Give up the rest of the buffer. */
    method ClearBuffer()
      requires Valid()
      modifies this`buffer
      ensures Valid() && Pos() == filePos
    {
      buffer := [];
    }

    /** Report the rest of the buffer as dropped. */
    method DropBuffer() returns (piece: Piece)
      requires Valid()
      modifies this`buffer, this`reports
      ensures Valid() && Pos() == filePos && piece == Bad(Some(|old(buffer)|))
      ensures reports == old(reports) + Dropped(piece)
    {
      piece := Bad(Some(|buffer|));
      reports := reports + [|buffer|];
      buffer := [];
    }

    /** Move past a whole physical record. */
    method Consume(n: nat)
      requires Valid() && 0 < n <= |buffer|
      modifies this`buffer
      ensures Valid() && Pos() == old(Pos()) + n
    {
      if n < |buffer| {
        SameBlock(Pos(), n, |buffer|);
      }
      buffer := buffer[n..];
    }

    method ReadPhysicalRecord() returns (piece: Piece)
      requires Valid()
      modifies this`filePos, this`buffer, this`eof, this`reports
      ensures Valid() && PieceAt(piece, Pos()) == NextPiece(crc, file, old(Pos()))
      ensures reports == old(reports) + Dropped(piece)
    {
      ghost var p := Pos();
      var more := FillBuffer();
      if !more {
        return Eof;
      }
      BufferIsPiece(crc, file, p, Pos(), filePos, buffer, eof);
      piece := ParseBuffer();
    }

    /** Parse the physical record at the start of the buffer. */
    method ParseBuffer() returns (piece: Piece)
      requires Valid() && HEADER <= |buffer|
      modifies this`buffer, this`reports
      ensures Valid() && Parse(crc, old(buffer), eof).piece == piece
      ensures Pos() == old(Pos()) + Parse(crc, old(buffer), eof).next
      ensures reports == old(reports) + Dropped(piece)
    {
      hide DecodeFixed, Unmask;
      var low: nat, high: nat := buffer[4], buffer[5];
      var length := low + 256 * high;
      if HEADER + length > |buffer| {
        if !eof {
          piece := DropBuffer();
          return;
        }
        ClearBuffer();
        return Eof;
      }
      if buffer[6] == ZERO && length == 0 {
        ClearBuffer();
        return Bad(None);
      }
      var stored := DecodeFixed(buffer[..4]);
      if stored > MAX_UINT32 || Unmask(stored) != crc(buffer[6..HEADER + length]) {
        piece := DropBuffer();
        return;
      }
      piece := PieceOf(buffer[6], buffer[HEADER..HEADER + length]);
      Consume(HEADER + length);
    }

    /** Reader::ReadRecord: the next whole record, or None at the end of the file. */
    method ReadRecord() returns (record: Option<Bytes>)
      requires Valid()
      modifies this`filePos, this`buffer, this`eof, this`reports
      ensures Valid()
      ensures Outcome(record, Pos(), reports) == Report(old(reports), NextRecord(crc, file, old(Pos()), None))
    {
      var scratch: Option<Bytes> := None;
      ghost var goal := Report(reports, NextRecord(crc, file, Pos(), None));
      var done := false;
      record := None;
      while !done
        invariant Valid()
        invariant if done then goal == Outcome(record, Pos(), reports)
                  else Reading(crc, file, Pos(), scratch, goal, reports)
        decreases !done, if Pos() <= |file| then |file| - Pos() + 1 else 0
      {
        done, record, scratch := ReadPiece(scratch, goal);
      }
    }

    /** One turn of the loop in ReadRecord. */
    method ReadPiece(scratch: Option<Bytes>, ghost goal: Outcome)
      returns (done: bool, record: Option<Bytes>, scratch': Option<Bytes>)
      requires Valid() && Reading(crc, file, Pos(), scratch, goal, reports)
      modifies this`filePos, this`buffer, this`eof, this`reports
      ensures Valid()
      ensures if done then goal == Outcome(record, Pos(), reports)
              else Reading(crc, file, Pos(), scratch', goal, reports) && old(Pos()) < Pos()
    {
      ghost var p, before := Pos(), reports;
      var piece := ReadPhysicalRecord();
      done, record, scratch' := HandlePiece(piece, scratch);
      Glue(before, Dropped(piece), Digest(piece, scratch).reports);
      ReadOn(crc, file, p, scratch, goal, before, piece, Pos(), done, record, scratch', reports);
    }

    /** The switch in ReadRecord. */
    method HandlePiece(piece: Piece, scratch: Option<Bytes>)
      returns (done: bool, record: Option<Bytes>, scratch': Option<Bytes>)
      requires Valid()
      modifies this`reports
      ensures Valid() && reports == old(reports) + Digest(piece, scratch).reports
      ensures Pos() == old(Pos()) && Handled(piece, scratch, done, record, scratch', Digest(piece, scratch).reports)
    {
      done, record, scratch' := false, None, None;
      match piece
      case Eof => done := true;
      case Bad(_) =>
        if scratch.Some? {
          reports := reports + [|scratch.value|];
        }
      case Fragment(kind, payload) =>
        if kind == FULL || kind == FIRST {
          if scratch.Some? && scratch.value != [] {
            reports := reports + [|scratch.value|];
          }
          if kind == FULL {
            done, record := true, Some(payload);
          } else {
            scratch' := Some(payload);
          }
        } else if kind == MIDDLE || kind == LAST {
          if scratch.None? {
            reports := reports + [|payload|];
          } else if kind == MIDDLE {
            scratch' := Some(scratch.value + payload);
          } else {
            done, record := true, Some(scratch.value + payload);
          }
        } else {
          reports := reports + [|payload| + if scratch.Some? then |scratch.value| else 0];
        }
    }
  }

  /** After the drops seen, what is read from p on completes the outcome. */
  ghost predicate Reading(crc: Checksum, file: Bytes, p: nat, scratch: Option<Bytes>, goal: Outcome, seen: seq<nat>) {
    goal == Report(seen, NextRecord(crc, file, p, scratch))
  }

  /** What the switch made of a physical record. */
  ghost predicate Handled(piece: Piece, scratch: Option<Bytes>, done: bool, record: Option<Bytes>,
                          scratch': Option<Bytes>, reports: seq<nat>)
  {
    Digest(piece, scratch) == if done then Done(record, reports) else GoOn(scratch', reports)
  }

  /** One turn of ReadRecord's loop. */
  lemma ReadOn(crc: Checksum, file: Bytes, p: nat, scratch: Option<Bytes>, goal: Outcome, seen: seq<nat>, piece: Piece,
               next: nat, done: bool, record: Option<Bytes>, scratch': Option<Bytes>, seen': seq<nat>)
    requires Reading(crc, file, p, scratch, goal, seen) && NextPiece(crc, file, p) == PieceAt(piece, next)
    requires seen' == seen + (Dropped(piece) + Digest(piece, scratch).reports)
    requires Handled(piece, scratch, done, record, scratch', Digest(piece, scratch).reports)
    ensures if done then goal == Outcome(record, next, seen')
            else Reading(crc, file, next, scratch', goal, seen') && p < next
  {
    if !done {
      Glue(seen, Dropped(piece) + Digest(piece, scratch).reports, NextRecord(crc, file, next, scratch').reports);
    }
  }

  /** A buffer with a whole header holds the rest of its block, or of the file if that ends before. */
  lemma BufferIsPiece(crc: Checksum, file: Bytes, p: nat, q: nat, filePos: nat, b: Bytes, eof: bool)
    requires q == FragmentStart(p) && HEADER <= |b| && q + |b| == filePos <= |file| && b == file[q..filePos]
    requires if eof then filePos == |file| && |file| < BlockEnd(q) else filePos == BlockEnd(q)
    ensures var r := Parse(crc, b, eof); NextPiece(crc, file, p) == PieceAt(r.piece, q + r.next)
  {
    assert Min(BlockEnd(q), |file|) == filePos;
  }

  lemma SameBlock(p: nat, n: nat, left: nat)
    requires n < left && p + left <= BlockEnd(p)
    ensures BlockEnd(p + n) == BlockEnd(p)
  {
    OffsetWithin(p, n);
  }

  lemma AlignedBlock(p: nat)
    requires Offset(p) == 0
    ensures BlockEnd(p) == p + BLOCK && FragmentStart(p) == p && Offset(p + BLOCK) == 0
  {
    OffsetWithin(p, BLOCK);
  }

  lemma EndOfFile(p: nat, left: nat, size: nat)
    requires left < HEADER && p + left == size && (left > 0 ==> size < BlockEnd(p))
    ensures FragmentStart(p) + HEADER > size
  {
  }

  /** Less than a header's worth at the end of a block is a trailer. */
  lemma BlockFollows(p: nat, left: nat)
    requires left < HEADER && Offset(p + left) == 0 && (left > 0 ==> p + left == BlockEnd(p))
    ensures FragmentStart(p) == p + left == FragmentStart(p + left)
  {
  }

  lemma HeaderFits(p: nat, left: nat)
    requires HEADER <= left && p + left <= BlockEnd(p)
    ensures FragmentStart(p) == p
  {
  }
}
