/**
 Reading any file as a log: nothing comes back but what physical records with matching checksums hold.
 */
module LogIntegrity {
  import opened Basics
  import opened Coding
  import opened LogFormat
  import opened LogReaders
  import opened LogRoundTrips

  // ----- One physical record

  lemma LowByte(low: nat, high: nat)
    requires low < 256
    ensures (low + 256 * high) % 256 == low && (low + 256 * high) / 256 == high
  {
  }

  lemma {:induction false} FixedBack(b: Bytes)
    ensures EncodeFixed(DecodeFixed(b), |b|) == b
  {
    if b != [] {
      FixedBack(b[1..]);
      LowByte(b[0], DecodeFixed(b[1..]));
      assert b == [b[0]] + b[1..];
    }
  }

  lemma MaskUndoesUnmask(m: nat)
    requires m <= MAX_UINT32
    ensures Mask(Unmask(m)) == m
  {
    var rot := (m + (MAX_UINT32 + 1) - MASK_DELTA) % (MAX_UINT32 + 1);
    var hi, lo := rot / 0x2_0000, rot % 0x2_0000;
    assert rot == hi * 0x2_0000 + lo;
    assert Unmask(m) == hi + lo * 0x8000;
    assert (hi + lo * 0x8000) / 0x8000 == lo && (hi + lo * 0x8000) % 0x8000 == hi;
  }

  lemma LengthBytes(b: Bytes)
    requires HEADER <= |b|
    ensures LengthOf(b) <= 0xffff && b[4] == LengthOf(b) % 256 && b[5] == LengthOf(b) / 256
  {
  }

  lemma MatchingIsPhysical(crc: Checksum, b: Bytes)
    requires HEADER <= |b| && HEADER + LengthOf(b) <= |b| && ChecksumMatches(crc, b)
    ensures LengthOf(b) <= 0xffff
    ensures b[..HEADER + LengthOf(b)] == Physical(crc, b[6], b[HEADER..HEADER + LengthOf(b)])
  {
    LengthBytes(b);
    var n := HEADER + LengthOf(b);
    var stored := DecodeFixed(b[..4]);
    assert b[6..n] == [b[6]] + b[HEADER..n];
    FixedBack(b[..4]);
    MaskUndoesUnmask(stored);
    hide EncodeFixed, DecodeFixed, Mask, Unmask;
    assert b[..n] == b[..4] + [b[4], b[5], b[6]] + b[HEADER..n];
  }

  /** What is read as a fragment is a physical record with the checksum of its type and payload. */
  lemma ParsedIsPhysical(crc: Checksum, b: Bytes, atEnd: bool)
    requires HEADER <= |b| && Parse(crc, b, atEnd).piece.Fragment?
    ensures var r := Parse(crc, b, atEnd);
            && |r.piece.payload| <= 0xffff && r.next == HEADER + |r.piece.payload|
            && b[..r.next] == Physical(crc, r.piece.kind, r.piece.payload)
  {
    MatchingIsPhysical(crc, b);
  }

  /** In any file, the next fragment stands there as a physical record with a matching checksum. */
  lemma FragmentIsWritten(crc: Checksum, file: Bytes, p: nat)
    requires NextPiece(crc, file, p).piece.Fragment?
    ensures var r := NextPiece(crc, file, p);
            && |r.piece.payload| <= 0xffff && r.next == FragmentStart(p) + HEADER + |r.piece.payload|
            && At(file, FragmentStart(p), Physical(crc, r.piece.kind, r.piece.payload))
  {
    var q := FragmentStart(p);
    FullHeaderFits(q);
    var b := file[q..LogReaders.Min(BlockEnd(q), |file|)];
    hide Parse, Physical;
    ParsedIsPhysical(crc, b, |file| < BlockEnd(q));
    var n := Parse(crc, b, |file| < BlockEnd(q)).next;
    assert file[q..q + n] == b[..n];
  }

  // ----- Whole records

  /** A physical record in the file. */
  datatype Part = Part(at: nat, kind: Byte, payload: Bytes)

  ghost predicate IsPart(crc: Checksum, file: Bytes, part: Part) {
    |part.payload| <= 0xffff && At(file, part.at, Physical(crc, part.kind, part.payload))
  }

  function PartEnd(part: Part): nat {
    part.at + HEADER + |part.payload|
  }

  function Joined(parts: seq<Part>): Bytes {
    if parts == [] then [] else Joined(parts[..|parts| - 1]) + parts[|parts| - 1].payload
  }

  /** A first part and any number of middle ones, where the next one starts being next. */
  ghost predicate Begun(crc: Checksum, file: Bytes, parts: seq<Part>, next: nat) {
    && parts != [] && parts[0].kind == FIRST && (forall i :: 0 < i < |parts| ==> parts[i].kind == MIDDLE)
    && InFile(crc, file, parts) && PartEnd(parts[|parts| - 1]) == next
  }

  /** Physical records of the file, each behind the trailer, if any, of the one before. */
  ghost predicate InFile(crc: Checksum, file: Bytes, parts: seq<Part>) {
    && (forall i {:trigger parts[i]} :: 0 <= i < |parts| ==> IsPart(crc, file, parts[i]))
    && forall i {:trigger parts[i]} :: 0 < i < |parts| ==> parts[i].at == FragmentStart(PartEnd(parts[i - 1]))
  }

  /** One full part, or a first one, middle ones and a last one. */
  ghost predicate Complete(crc: Checksum, file: Bytes, parts: seq<Part>) {
    && parts != [] && InFile(crc, file, parts)
    && if |parts| == 1 then parts[0].kind == FULL
       else
         && parts[0].kind == FIRST && parts[|parts| - 1].kind == LAST
         && forall i :: 0 < i < |parts| - 1 ==> parts[i].kind == MIDDLE
  }

  lemma JoinedSnoc(parts: seq<Part>, part: Part)
    ensures Joined(parts + [part]) == Joined(parts) + part.payload
  {
    assert (parts + [part])[..|parts|] == parts;
  }

  lemma OnePart(crc: Checksum, file: Bytes, part: Part)
    requires IsPart(crc, file, part)
    ensures InFile(crc, file, [part]) && Joined([part]) == part.payload
    ensures part.kind == FULL ==> Complete(crc, file, [part])
    ensures part.kind == FIRST ==> Begun(crc, file, [part], PartEnd(part))
  {
    JoinedSnoc([], part);
    assert [] + [part] == [part];
    hide IsPart;
  }

  lemma InFileSnoc(crc: Checksum, file: Bytes, parts: seq<Part>, part: Part)
    requires parts != [] && InFile(crc, file, parts) && IsPart(crc, file, part)
    requires part.at == FragmentStart(PartEnd(parts[|parts| - 1]))
    ensures InFile(crc, file, parts + [part])
  {
    hide IsPart, FragmentStart, PartEnd;
    var more := parts + [part];
    forall i | 0 <= i < |more| ensures IsPart(crc, file, more[i]) {
      assert i < |parts| ==> more[i] == parts[i];
    }
    forall i | 0 < i < |more| ensures more[i].at == FragmentStart(PartEnd(more[i - 1])) {
      assert more[i - 1] == parts[i - 1];
      assert i < |parts| ==> more[i] == parts[i];
    }
  }

  lemma OneMorePart(crc: Checksum, file: Bytes, parts: seq<Part>, p: nat, part: Part)
    requires Begun(crc, file, parts, p) && IsPart(crc, file, part) && part.at == FragmentStart(p)
    ensures part.kind == MIDDLE ==> Begun(crc, file, parts + [part], PartEnd(part))
    ensures part.kind == LAST ==> Complete(crc, file, parts + [part])
    ensures Joined(parts + [part]) == Joined(parts) + part.payload
  {
    JoinedSnoc(parts, part);
    hide IsPart, FragmentStart, PartEnd, InFile, Joined;
    InFileSnoc(crc, file, parts, part);
    var more := parts + [part];
    assert more[0] == parts[0] && more[|more| - 1] == part;
    forall i | 0 < i < |parts| ensures more[i].kind == MIDDLE {
      assert more[i] == parts[i];
    }
  }

  /**
   Whatever the bytes of the file, a record that is given back is made of physical records of the file, each with the
   checksum of its type and payload, from a first one to a last one with nothing between them left out.
   */
  lemma {:induction false} RecordIsWritten(crc: Checksum, file: Bytes, p: nat, scratch: Option<Bytes>, begun: seq<Part>)
    returns (parts: seq<Part>)
    requires scratch.Some? ==> Begun(crc, file, begun, p) && scratch.value == Joined(begun)
    requires NextRecord(crc, file, p, scratch).record.Some?
    ensures Complete(crc, file, parts) && Joined(parts) == NextRecord(crc, file, p, scratch).record.value
    decreases if p <= |file| then |file| - p + 1 else 0
  {
    var at := NextPiece(crc, file, p);
    var piece := at.piece;
    if piece.Fragment? {
      FragmentIsWritten(crc, file, p);
      var part := Part(FragmentStart(p), piece.kind, piece.payload);
      hide NextPiece, Begun, Complete, Joined, InFile, Physical;
      OnePart(crc, file, part);
      if piece.kind == FULL {
        parts := [part];
      } else if piece.kind == FIRST {
        parts := RecordIsWritten(crc, file, at.next, Some(piece.payload), [part]);
      } else if scratch.Some? && (piece.kind == MIDDLE || piece.kind == LAST) {
        OneMorePart(crc, file, begun, p, part);
        if piece.kind == LAST {
          parts := begun + [part];
        } else {
          parts := RecordIsWritten(crc, file, at.next, Some(scratch.value + piece.payload), begun + [part]);
        }
      } else {
        parts := RecordIsWritten(crc, file, at.next, None, []);
      }
    } else {
      parts := RecordIsWritten(crc, file, at.next, None, []);
    }
  }

  /** A whole physical record with another checksum is dropped, and the rest of its block with it. */
  lemma DamageIsDropped(crc: Checksum, b: Bytes, atEnd: bool)
    requires HEADER <= |b| && HEADER + LengthOf(b) <= |b| && !(b[6] == ZERO && LengthOf(b) == 0)
    requires LengthOf(b) <= 0xffff && b[..HEADER + LengthOf(b)] != Physical(crc, b[6], b[HEADER..HEADER + LengthOf(b)])
    ensures Parse(crc, b, atEnd) == PieceAt(Bad(Some(|b|)), |b|)
  {
    if ChecksumMatches(crc, b) {
      MatchingIsPhysical(crc, b);
    }
  }

  // ----- Reports

  function Sum(sizes: seq<nat>): nat {
    if sizes == [] then 0 else sizes[0] + Sum(sizes[1..])
  }

  lemma {:induction false} SumJoined(a: seq<nat>, b: seq<nat>)
    ensures Sum(a + b) == Sum(a) + Sum(b)
  {
    if a == [] {
      assert a + b == b;
    } else {
      assert (a + b)[1..] == a[1..] + b;
      SumJoined(a[1..], b);
    }
  }

  lemma SumOfOne(n: nat)
    ensures Sum([n]) == n && Sum([]) == 0
  {
    assert [n][1..] == [];
  }

  /** The bytes of user data that a physical record holds, or that go with it. */
  function Amount(piece: Piece): nat {
    match piece
    case Fragment(_, payload) => |payload|
    case Bad(Some(dropped)) => dropped
    case _ => 0
  }

  /** The same, for all physical records from p up to where one ends at end or beyond. */
  function AmountTo(crc: Checksum, file: Bytes, p: nat, end: nat): nat
    decreases if p <= |file| then |file| - p + 1 else 0
  {
    var at := NextPiece(crc, file, p);
    if at.piece == Eof then 0
    else Amount(at.piece) + if at.next < end then AmountTo(crc, file, at.next, end) else 0
  }

  function SizeOf(scratch: Option<Bytes>): nat {
    if scratch.Some? then |scratch.value| else 0
  }

  /** What a physical record brings is in the record given back, in the unfinished one, or reported. */
  lemma DigestConserves(piece: Piece, scratch: Option<Bytes>)
    requires piece != Eof
    ensures var d := Digest(piece, scratch);
            Sum(Dropped(piece) + d.reports) + SizeOf(if d.Done? then d.record else d.scratch)
            == SizeOf(scratch) + Amount(piece)
  {
    var d := Digest(piece, scratch);
    SumJoined(Dropped(piece), d.reports);
    forall n: nat ensures Sum([n]) == n {
      SumOfOne(n);
    }
  }

  lemma NothingAtEof(scratch: Option<Bytes>)
    ensures Digest(Eof, scratch) == Done(None, [])
  {
  }

  /** What is reported as dropped is the rest of a block, from where a physical record should start. */
  lemma DropIsRestOfBlock(crc: Checksum, file: Bytes, p: nat)
    requires NextPiece(crc, file, p).piece.Bad? && NextPiece(crc, file, p).piece.dropped.Some?
    ensures var r, start := NextPiece(crc, file, p), FragmentStart(p);
            && r.piece.dropped.value == r.next - start
            && r.next == LogReaders.Min(BlockEnd(start), |file|)
  {
    FullHeaderFits(FragmentStart(p));
    hide Physical, ChecksumMatches;
  }

  lemma {:induction false} NextIsLater(crc: Checksum, file: Bytes, p: nat, scratch: Option<Bytes>)
    requires NextRecord(crc, file, p, scratch).record.Some?
    ensures NextRecord(crc, file, p, scratch).next > p
    decreases if p <= |file| then |file| - p + 1 else 0
  {
    hide NextPiece;
    var at := NextPiece(crc, file, p);
    var d := Digest(at.piece, scratch);
    if d.GoOn? {
      NextIsLater(crc, file, at.next, d.scratch);
    }
  }

  /**
   Up to the record given back, no byte of user data is lost without a report and none is reported that is given
   back: the sizes reported and the record add up to all that was read.
   */
  lemma {:induction false} ReportsAddUp(crc: Checksum, file: Bytes, p: nat, scratch: Option<Bytes>)
    requires NextRecord(crc, file, p, scratch).record.Some?
    ensures var o := NextRecord(crc, file, p, scratch);
            Sum(o.reports) + |o.record.value| == SizeOf(scratch) + AmountTo(crc, file, p, o.next)
    decreases if p <= |file| then |file| - p + 1 else 0
  {
    hide NextPiece, Digest, Dropped;
    var at := NextPiece(crc, file, p);
    var d := Digest(at.piece, scratch);
    NothingAtEof(scratch);
    DigestConserves(at.piece, scratch);
    if d.GoOn? {
      var o := NextRecord(crc, file, at.next, d.scratch);
      SumJoined(Dropped(at.piece) + d.reports, o.reports);
      NextIsLater(crc, file, at.next, d.scratch);
      ReportsAddUp(crc, file, at.next, d.scratch);
    }
  }
}
