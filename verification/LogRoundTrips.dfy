/**
 Reading a log back: any prefix of what was written yields exactly the records wholly inside it, and
 nothing is reported as corrupt.
 */
module LogRoundTrips {
  import opened Basics
  import opened Coding
  import opened LogFormat
  import opened LogWriters
  import opened LogReaders

  // ----- One physical record

  lemma StoredChecksum(crc: Checksum, data: Bytes)
    ensures DecodeFixed(EncodeFixed(Mask(crc(data)), 4)) == Mask(crc(data))
  {
    Pow256Values();
    FixedRoundTrip(Mask(crc(data)), 4);
  }

  /** The fields of a header stand where the reader looks for them. */
  lemma HeaderFields(crc: Checksum, kind: Byte, payload: Bytes, b: Bytes)
    requires |payload| <= 0xffff && HEADER <= |b| && b[..HEADER] == Header(crc, kind, payload)
    ensures b[6] == kind && LengthOf(b) == |payload|
    ensures b[..4] == EncodeFixed(Mask(crc([kind] + payload)), 4)
  {
    var h := Header(crc, kind, payload);
    assert b[4] == b[..HEADER][4] && b[5] == b[..HEADER][5] && b[6] == b[..HEADER][6];
    assert b[..4] == b[..HEADER][..4];
  }

  lemma ParseWhole(crc: Checksum, kind: Byte, payload: Bytes, b: Bytes, atEnd: bool)
    requires IsFragmentKind(kind) && |payload| <= 0xffff && HEADER + |payload| <= |b|
    requires b[..HEADER + |payload|] == Physical(crc, kind, payload)
    ensures Parse(crc, b, atEnd) == PieceAt(Fragment(kind, payload), HEADER + |payload|)
  {
    var n := HEADER + |payload|;
    assert b[..HEADER] == b[..n][..HEADER] == Header(crc, kind, payload);
    HeaderFields(crc, kind, payload, b);
    assert b[HEADER..n] == b[..n][HEADER..] == payload;
    assert b[6..n] == [kind] + payload;
    StoredChecksum(crc, [kind] + payload);
    UnmaskUndoesMask(crc([kind] + payload));
  }

  /** A physical record cut off by the end of the file ends the log. */
  lemma ParseCut(crc: Checksum, kind: Byte, payload: Bytes, b: Bytes)
    requires |payload| <= 0xffff && HEADER <= |b| < HEADER + |payload|
    requires b == Physical(crc, kind, payload)[..|b|]
    ensures Parse(crc, b, true) == PieceAt(Eof, |b|)
  {
    assert b[..HEADER] == Physical(crc, kind, payload)[..HEADER] == Header(crc, kind, payload);
    HeaderFields(crc, kind, payload, b);
  }

  // ----- A physical record in a file

  ghost predicate At(full: Bytes, q: nat, bytes: Bytes) {
    q + |bytes| <= |full| && full[q..q + |bytes|] == bytes
  }

  lemma SliceOfPrefix(full: Bytes, size: nat, q: nat, e: nat, n: nat)
    requires q + n <= e <= size <= |full|
    ensures full[..size][q..e][..n] == full[q..q + n]
  {
    assert full[..size][q..e] == full[q..e];
    assert full[q..e][..n] == full[q..q + n];
  }

  lemma PrefixOfSlice(full: Bytes, size: nat, q: nat, n: nat)
    requires q <= size <= q + n <= |full|
    ensures full[..size][q..size] == full[q..q + n][..size - q]
  {
  }

  /** Reading a file in which a whole physical record stands after position p. */
  lemma PieceWhole(crc: Checksum, full: Bytes, size: nat, p: nat, kind: Byte, payload: Bytes, n: nat)
    requires IsFragmentKind(kind) && |payload| <= 0xffff && n == HEADER + |payload| && size <= |full|
    requires Offset(FragmentStart(p)) + n <= BLOCK && FragmentStart(p) + n <= size
    requires At(full, FragmentStart(p), Physical(crc, kind, payload))
    ensures NextPiece(crc, full[..size], p) == PieceAt(Fragment(kind, payload), FragmentStart(p) + n)
  {
    var q := FragmentStart(p);
    var e := LogReaders.Min(BlockEnd(q), size);
    SliceOfPrefix(full, size, q, e, n);
    ParseWhole(crc, kind, payload, full[..size][q..e], size < BlockEnd(q));
  }

  /** Reading a file that ends before the end of the physical record after position p. */
  lemma PieceCut(crc: Checksum, full: Bytes, size: nat, p: nat, kind: Byte, payload: Bytes, n: nat)
    requires IsFragmentKind(kind) && |payload| <= 0xffff && n == HEADER + |payload| && size <= |full|
    requires Offset(FragmentStart(p)) + n <= BLOCK && size < FragmentStart(p) + n
    requires At(full, FragmentStart(p), Physical(crc, kind, payload))
    ensures NextPiece(crc, full[..size], p) == PieceAt(Eof, size)
  {
    var q := FragmentStart(p);
    if q + HEADER <= size {
      PrefixOfSlice(full, size, q, n);
      ParseCut(crc, kind, payload, full[..size][q..size]);
      assert size < BlockEnd(q);
      assert LogReaders.Min(BlockEnd(q), size) == size;
    }
  }

  /** Reading a prefix of a file where a physical record stands after position p. */
  lemma PieceOfPrefix(crc: Checksum, full: Bytes, size: nat, p: nat, kind: Byte, payload: Bytes)
    requires IsFragmentKind(kind) && |payload| <= 0xffff && size <= |full|
    requires Offset(FragmentStart(p)) + HEADER + |payload| <= BLOCK
    requires At(full, FragmentStart(p), Physical(crc, kind, payload))
    ensures NextPiece(crc, full[..size], p) == PieceUpTo(kind, payload, FragmentStart(p) + HEADER + |payload|, size)
  {
    if FragmentStart(p) + HEADER + |payload| <= size {
      PieceWhole(crc, full, size, p, kind, payload, HEADER + |payload|);
    } else {
      PieceCut(crc, full, size, p, kind, payload, HEADER + |payload|);
    }
  }

  function PieceUpTo(kind: Byte, payload: Bytes, end: nat, size: nat): PieceAt {
    if end <= size then PieceAt(Fragment(kind, payload), end) else PieceAt(Eof, size)
  }

  // ----- One record

  lemma AtParts(full: Bytes, a: nat, x: Bytes, y: Bytes)
    requires At(full, a, x + y)
    ensures At(full, a, x) && At(full, a + |x|, y)
  {
    assert full[a..a + |x|] == full[a..a + |x + y|][..|x|];
    assert full[a + |x|..a + |x + y|] == full[a..a + |x + y|][|x|..];
  }

  /** Where the first fragment of a record stands, and the later ones. */
  lemma FragmentsStand(crc: Checksum, full: Bytes, a: nat, rec: Bytes, begin: bool)
    requires At(full, a, Fragments(crc, a, rec, begin))
    ensures var n := FragmentLength(a, rec);
            && At(full, FragmentStart(a), Physical(crc, KindOf(begin, n == |rec|), rec[..n]))
            && At(full, FragmentStart(a) + HEADER + n, LaterFragments(crc, a, rec))
            && a + |Fragments(crc, a, rec, begin)| == FragmentStart(a) + HEADER + n + |LaterFragments(crc, a, rec)|
  {
    var n := FragmentLength(a, rec);
    AtParts(full, a, FirstFragment(crc, a, rec, begin), LaterFragments(crc, a, rec));
    AtParts(full, a, Zeros(FragmentStart(a) - a), Physical(crc, KindOf(begin, n == |rec|), rec[..n]));
  }

  function InProgress(begin: bool, scratch: Bytes): Option<Bytes> {
    if begin then None else Some(scratch)
  }

  /** The outcome of reading a record that ends at end from a file of the given size. */
  function RecordUpTo(rec: Bytes, end: nat, size: nat): Outcome {
    if end <= size then Outcome(Some(rec), end, []) else Outcome(None, size, [])
  }

  /** The outcome o of reading on from d, if the file reaches there. */
  function IfReached(d: nat, size: nat, o: Outcome): Outcome {
    if d <= size then o else Outcome(None, size, [])
  }

  lemma ReachedBefore(d: nat, end: nat, size: nat, rec: Bytes)
    requires d <= end
    ensures IfReached(d, size, RecordUpTo(rec, end, size)) == RecordUpTo(rec, end, size)
  {
  }

  lemma SplitRecord(scratch: Bytes, rec: Bytes, n: nat)
    requires n <= |rec|
    ensures (scratch + rec[..n]) + rec[n..] == scratch + rec
  {
  }

  /** Reading a prefix of a file where the rest of a record stands, after the part in scratch. */
  lemma {:induction false} FragmentsRead(crc: Checksum, full: Bytes, size: nat, a: nat, rec: Bytes, begin: bool,
                                         scratch: Bytes, end: nat)
    requires At(full, a, Fragments(crc, a, rec, begin)) && size <= |full| && (begin ==> scratch == [])
    requires end == a + |Fragments(crc, a, rec, begin)|
    ensures NextRecord(crc, full[..size], a, InProgress(begin, scratch)) == RecordUpTo(scratch + rec, end, size)
    decreases |rec|, Turns(a), 1
  {
    var n := FragmentLength(a, rec);
    var d := FragmentStart(a) + HEADER + n;
    FragmentsStand(crc, full, a, rec, begin);
    PieceOfPrefix(crc, full, size, a, KindOf(begin, n == |rec|), rec[..n]);
    if n == |rec| {
      assert rec[..n] == rec;
      ReadLast(crc, full[..size], a, begin, scratch, rec, d, size);
    } else {
      LaterFragmentsRead(crc, full, size, a, rec, begin, scratch, end);
    }
  }

  lemma {:induction false} LaterFragmentsRead(crc: Checksum, full: Bytes, size: nat, a: nat, rec: Bytes, begin: bool,
                                              scratch: Bytes, end: nat)
    requires size <= |full| && (begin ==> scratch == [])
    requires FragmentLength(a, rec) < |rec|
    requires var d := FragmentStart(a) + HEADER + FragmentLength(a, rec);
             && At(full, d, LaterFragments(crc, a, rec)) && end == d + |LaterFragments(crc, a, rec)|
             && NextPiece(crc, full[..size], a)
               == PieceUpTo(KindOf(begin, false), rec[..FragmentLength(a, rec)], d, size)
    ensures NextRecord(crc, full[..size], a, InProgress(begin, scratch)) == RecordUpTo(scratch + rec, end, size)
    decreases |rec|, Turns(a), 0
  {
    var n := FragmentLength(a, rec);
    var d := FragmentStart(a) + HEADER + n;
    FragmentsEnd(a, rec);
    LaterUnfold(crc, a, rec, d);
    FragmentsRead(crc, full, size, d, rec[n..], false, scratch + rec[..n], end);
    SplitRecord(scratch, rec, n);
    ReadOnward(crc, full[..size], a, begin, scratch, rec[..n], d, size);
    ReachedBefore(d, end, size, scratch + rec);
  }

  /** A full or last fragment completes the record. */
  lemma ReadLast(crc: Checksum, file: Bytes, a: nat, begin: bool, scratch: Bytes, payload: Bytes, d: nat, size: nat)
    requires size == |file| && (begin ==> scratch == [])
    requires NextPiece(crc, file, a) == PieceUpTo(KindOf(begin, true), payload, d, size)
    ensures NextRecord(crc, file, a, InProgress(begin, scratch)) == RecordUpTo(scratch + payload, d, size)
  {
    assert begin ==> scratch + payload == payload;
  }

  /** A first or middle fragment is added to the unfinished record. */
  lemma ReadOnward(crc: Checksum, file: Bytes, a: nat, begin: bool, scratch: Bytes, payload: Bytes, d: nat, size: nat)
    requires size == |file| && (begin ==> scratch == [])
    requires NextPiece(crc, file, a) == PieceUpTo(KindOf(begin, false), payload, d, size)
    ensures NextRecord(crc, file, a, InProgress(begin, scratch))
         == IfReached(d, size, NextRecord(crc, file, d, Some(scratch + payload)))
  {
    if d <= size {
      var o := NextRecord(crc, file, d, Some(scratch + payload));
      assert [] + o.reports == o.reports;
      assert begin ==> scratch + payload == payload;
    }
  }

  // ----- A whole log

  function EndOf(crc: Checksum, records: seq<Bytes>, i: nat): nat
    requires i <= |records|
  {
    |LogOf(crc, records[..i])|
  }

  lemma LogSnoc(crc: Checksum, records: seq<Bytes>, rec: Bytes)
    ensures LogOf(crc, records + [rec]) == LogOf(crc, records) + Fragments(crc, |LogOf(crc, records)|, rec, true)
  {
    assert (records + [rec])[..|records|] == records;
  }

  lemma AtOfPrefix(full: Bytes, before: Bytes, own: Bytes)
    requires before + own <= full
    ensures At(full, |before|, own)
  {
    assert full[|before|..|before| + |own|] == full[..|before| + |own|][|before|..];
  }

  lemma RecordsStand(crc: Checksum, records: seq<Bytes>, i: nat)
    requires i < |records|
    ensures At(LogOf(crc, records), EndOf(crc, records, i), Fragments(crc, EndOf(crc, records, i), records[i], true))
    ensures EndOf(crc, records, i + 1)
      == EndOf(crc, records, i) + |Fragments(crc, EndOf(crc, records, i), records[i], true)|
  {
    var before := LogOf(crc, records[..i]);
    assert records[..i + 1] == records[..i] + [records[i]];
    LogSnoc(crc, records[..i], records[i]);
    LogGrows(crc, records, i + 1);
    AtOfPrefix(LogOf(crc, records), before, Fragments(crc, |before|, records[i], true));
  }

  /** The log of the first records is a prefix of the log of all. */
  lemma {:induction false} LogGrows(crc: Checksum, records: seq<Bytes>, i: nat)
    requires i <= |records|
    ensures LogOf(crc, records[..i]) <= LogOf(crc, records)
  {
    if i < |records| {
      var n := |records| - 1;
      LogGrows(crc, records[..n], i);
      assert records[..n][..i] == records[..i];
    } else {
      assert records[..i] == records;
    }
  }

  /** From where record i begins, a prefix of the log gives record i if it is wholly inside, and otherwise
      the end of the log; nothing is reported. */
  lemma PrefixGivesRecord(crc: Checksum, records: seq<Bytes>, size: nat, i: nat)
    requires i < |records| && size <= |LogOf(crc, records)|
    ensures NextRecord(crc, LogOf(crc, records)[..size], EndOf(crc, records, i), None)
         == RecordUpTo(records[i], EndOf(crc, records, i + 1), size)
  {
    RecordsStand(crc, records, i);
    FragmentsRead(crc, LogOf(crc, records), size, EndOf(crc, records, i), records[i], true, [],
                  EndOf(crc, records, i + 1));
    assert [] + records[i] == records[i];
  }

  lemma PastTheEnd(crc: Checksum, file: Bytes, p: nat)
    requires p >= |file|
    ensures NextRecord(crc, file, p, None) == Outcome(None, |file|, [])
  {
  }

  /** count is how many records lie wholly inside the first size bytes of the log. */
  ghost predicate WhollyInside(crc: Checksum, records: seq<Bytes>, size: nat, count: nat) {
    && count <= |records| && EndOf(crc, records, count) <= size
    && (count < |records| ==> size < EndOf(crc, records, count + 1))
  }

  /** The reader has given the first n records and stands at the next one. */
  ghost predicate HasRead(reader: LogReader, crc: Checksum, records: seq<Bytes>, n: nat)
    reads reader
  {
    && reader.Valid() && reader.crc == crc && reader.file <= LogOf(crc, records) && reader.reports == []
    && n <= |records| && EndOf(crc, records, n) <= |reader.file| && reader.Pos() == EndOf(crc, records, n)
  }

  method ReadNext(reader: LogReader, ghost records: seq<Bytes>, ghost n: nat) returns (record: Option<Bytes>)
    requires HasRead(reader, reader.crc, records, n)
    modifies reader
    ensures reader.reports == []
    ensures record.Some? ==> n < |records| && record.value == records[n] && HasRead(reader, reader.crc, records, n + 1)
    ensures record.None? ==> WhollyInside(reader.crc, records, |reader.file|, n)
  {
    ghost var size := |reader.file|;
    assert reader.file == LogOf(reader.crc, records)[..size];
    if n < |records| {
      PrefixGivesRecord(reader.crc, records, size, n);
    } else {
      assert records[..n] == records;
      PastTheEnd(reader.crc, reader.file, EndOf(reader.crc, records, n));
    }
    record := reader.ReadRecord();
  }

  method OpenLog(crc: Checksum, file: Bytes, ghost records: seq<Bytes>) returns (reader: LogReader)
    requires file <= LogOf(crc, records)
    ensures fresh(reader) && reader.crc == crc && reader.file == file && HasRead(reader, crc, records, 0)
  {
    reader := new LogReader(crc, file);
    assert records[..0] == [];
  }

  /** A file cut off at any byte, as by a crash, yields exactly the records wholly inside, in order, with no
      corruption reported.  An uncut file yields all of them, over however many writers it was written. */
  method ReadLog(crc: Checksum, file: Bytes, ghost records: seq<Bytes>) returns (read: seq<Bytes>, reports: seq<nat>)
    requires file <= LogOf(crc, records)
    ensures WhollyInside(crc, records, |file|, |read|) && read == records[..|read|]
    ensures reports == []
    ensures file == LogOf(crc, records) ==> read == records
  {
    hide EndOf, WhollyInside, HasRead, LogOf;
    var reader := OpenLog(crc, file, records);
    read := [];
    var record := ReadNext(reader, records, 0);
    ghost var n := 0;
    while record.Some?
      invariant fresh(reader) && reader.crc == crc && reader.file == file && reader.reports == []
      invariant n <= |records| && read == records[..n]
      invariant record.Some? ==> n < |records| && record.value == records[n] && HasRead(reader, crc, records, n + 1)
      invariant record.None? ==> WhollyInside(crc, records, |file|, n)
      decreases |records| - n
    {
      read := read + [record.value];
      n := n + 1;
      record := ReadNext(reader, records, n);
    }
    reports := reader.reports;
    if file == LogOf(crc, records) {
      AllInside(crc, records, |read|);
    }
  }

  lemma AllInside(crc: Checksum, records: seq<Bytes>, count: nat)
    requires WhollyInside(crc, records, |LogOf(crc, records)|, count)
    ensures count == |records| && records[..count] == records
  {
    if count < |records| {
      LogGrows(crc, records, count + 1);
    }
  }

  function Joined(sessions: seq<seq<Bytes>>): seq<Bytes> {
    if sessions == [] then [] else Joined(sessions[..|sessions| - 1]) + sessions[|sessions| - 1]
  }

  method WriteSession(writer: LogWriter, session: seq<Bytes>, ghost records: seq<Bytes>)
    requires writer.Valid() && writer.dest == LogOf(writer.crc, records)
    modifies writer
    ensures writer.Valid() && writer.dest == LogOf(writer.crc, records + session)
  {
    ghost var written := records;
    for k := 0 to |session|
      invariant writer.Valid() && writer.dest == LogOf(writer.crc, written) && written == records + session[..k]
    {
      LogSnoc(writer.crc, written, session[k]);
      OneMore(records, session, k);
      written := written + [session[k]];
      writer.AddRecord(session[k]);
    }
    assert session[..|session|] == session;
  }

  lemma OneMore(records: seq<Bytes>, session: seq<Bytes>, k: nat)
    requires k < |session|
    ensures (records + session[..k]) + [session[k]] == records + session[..k + 1]
  {
  }

  /** Writers that take turns on one file, each reopening it with its length, write one log. */
  method WriteLog(crc: Checksum, sessions: seq<seq<Bytes>>) returns (file: Bytes)
    ensures file == LogOf(crc, Joined(sessions))
  {
    file := [];
    for i := 0 to |sessions|
      invariant file == LogOf(crc, Joined(sessions[..i]))
    {
      var writer := new LogWriter.Reopen(crc, file);
      WriteSession(writer, sessions[i], Joined(sessions[..i]));
      assert sessions[..i + 1][..i] == sessions[..i];
      file := writer.dest;
    }
    assert sessions[..|sessions|] == sessions;
  }
}
