/**
 VersionEdit: its serialized form, a list of tagged fields, and back.
 */
module VersionEdits {
  import opened Basics
  import opened Coding

  const LEVELS := 7

  const COMPARATOR := 1
  const LOG_NUMBER := 2
  const NEXT_FILE_NUMBER := 3
  const LAST_SEQUENCE := 4
  const COMPACT_POINTER := 5
  const DELETED_FILE := 6
  const NEW_FILE := 7
  const PREV_LOG_NUMBER := 9

  /** A file as the manifest describes it; keys are encoded internal keys. */
  datatype FileMeta = FileMeta(number: nat, size: nat, smallest: Bytes, largest: Bytes)

  datatype Edit = Edit(
    comparator: Option<Bytes>, logNumber: Option<nat>, prevLogNumber: Option<nat>, nextFileNumber: Option<nat>,
    lastSequence: Option<nat>, compactPointers: seq<(nat, Bytes)>, deletedFiles: set<(nat, nat)>,
    newFiles: seq<(nat, FileMeta)>)

  const FRESH := Edit(None, None, None, None, None, [], {}, [])

  /** One tagged field. */
  datatype Field =
    | Comparator(name: Bytes)
    | Number(tag: nat, n: nat)
    | CompactPointer(level: nat, key: Bytes)
    | DeletedFile(level: nat, n: nat)
    | NewFile(level: nat, file: FileMeta)

  predicate IsNumberTag(tag: nat) {
    tag == LOG_NUMBER || tag == PREV_LOG_NUMBER || tag == NEXT_FILE_NUMBER || tag == LAST_SEQUENCE
  }

  predicate Fits(b: Bytes) {
    |b| <= MAX_UINT32
  }

  predicate Encodable(f: Field) {
    match f
    case Comparator(name) => Fits(name)
    case Number(tag, n) => IsNumberTag(tag) && n <= MAX_UINT64
    case CompactPointer(level, key) => level < LEVELS && Fits(key)
    case DeletedFile(level, n) => level < LEVELS && n <= MAX_UINT64
    case NewFile(level, file) =>
      level < LEVELS && file.number <= MAX_UINT64 && file.size <= MAX_UINT64 && Fits(file.smallest)
        && Fits(file.largest)
  }

  function TagOf(f: Field): nat {
    match f
    case Comparator(_) => COMPARATOR
    case Number(tag, _) => tag
    case CompactPointer(_, _) => COMPACT_POINTER
    case DeletedFile(_, _) => DELETED_FILE
    case NewFile(_, _) => NEW_FILE
  }

  function EncodeBody(f: Field): Bytes {
    match f
    case Comparator(name) => LengthPrefixed(name)
    case Number(_, n) => EncodeVarint(n)
    case CompactPointer(level, key) => EncodeVarint(level) + LengthPrefixed(key)
    case DeletedFile(level, n) => EncodeVarint(level) + EncodeVarint(n)
    case NewFile(level, file) =>
      EncodeVarint(level) + (EncodeVarint(file.number)
                             + (EncodeVarint(file.size)
                                + (LengthPrefixed(file.smallest) + LengthPrefixed(file.largest))))
  }

  function EncodeField(f: Field): Bytes {
    EncodeVarint(TagOf(f)) + EncodeBody(f)
  }

  function EncodeFields(fs: seq<Field>): Bytes {
    if fs == [] then [] else EncodeField(fs[0]) + EncodeFields(fs[1..])
  }

  // ----- Decoding

  datatype Error = BadComparator | BadNumber | BadCompactPointer | BadDeletedFile | BadNewFile | UnknownTag | InvalidTag

  datatype FieldParse = Got(field: Field, rest: Bytes) | Wrong(error: Error)

  function GetLevel(b: Bytes): (r: Parsed<nat>)
    ensures r.Parsed? ==> |r.rest| < |b|
  {
    match GetVarint32(b)
    case Failed => Failed
    case Parsed(v, rest) => if v < LEVELS then Parsed(v, rest) else Failed
  }

  function ParseCompactPointer(b: Bytes): (r: FieldParse)
    ensures r.Got? ==> |r.rest| < |b|
  {
    var level := GetLevel(b);
    if level.Failed? then Wrong(BadCompactPointer)
    else
      var key := GetLengthPrefixed(level.rest);
      if key.Failed? then Wrong(BadCompactPointer) else Got(CompactPointer(level.value, key.value), key.rest)
  }

  function ParseDeletedFile(b: Bytes): (r: FieldParse)
    ensures r.Got? ==> |r.rest| < |b|
  {
    var level := GetLevel(b);
    if level.Failed? then Wrong(BadDeletedFile)
    else
      var number := GetVarint64(level.rest);
      if number.Failed? then Wrong(BadDeletedFile) else Got(DeletedFile(level.value, number.value), number.rest)
  }

  function ParseNewFile(b: Bytes): (r: FieldParse)
    ensures r.Got? ==> |r.rest| < |b|
  {
    var level := GetLevel(b);
    if level.Failed? then Wrong(BadNewFile)
    else
      var number := GetVarint64(level.rest);
      if number.Failed? then Wrong(BadNewFile)
      else
        var size := GetVarint64(number.rest);
        if size.Failed? then Wrong(BadNewFile)
        else
          var smallest := GetLengthPrefixed(size.rest);
          if smallest.Failed? then Wrong(BadNewFile)
          else
            var largest := GetLengthPrefixed(smallest.rest);
            if largest.Failed? then Wrong(BadNewFile)
            else Got(NewFile(level.value, FileMeta(number.value, size.value, smallest.value, largest.value)),
                     largest.rest)
  }

  /** The field of a tag. */
  function ParseBody(tag: nat, b: Bytes): (r: FieldParse)
    ensures r.Got? ==> |r.rest| < |b|
  {
    if tag == COMPARATOR then
      var name := GetLengthPrefixed(b);
      if name.Failed? then Wrong(BadComparator) else Got(Comparator(name.value), name.rest)
    else if IsNumberTag(tag) then
      var number := GetVarint64(b);
      if number.Failed? then Wrong(BadNumber) else Got(Number(tag, number.value), number.rest)
    else if tag == COMPACT_POINTER then ParseCompactPointer(b)
    else if tag == DELETED_FILE then ParseDeletedFile(b)
    else if tag == NEW_FILE then ParseNewFile(b)
    else Wrong(UnknownTag)
  }

  datatype Decoded = Decoded(fields: seq<Field>, error: Option<Error>)

  function Then(f: Field, d: Decoded): Decoded {
    d.(fields := [f] + d.fields)
  }

  /** The next field of non-empty input. */
  function ParseField(input: Bytes): (r: FieldParse)
    ensures r.Got? ==> |r.rest| < |input|
  {
    match GetVarint32(input)
    case Failed => Wrong(InvalidTag)
    case Parsed(tag, rest) => ParseBody(tag, rest)
  }

  function DecodeFields(input: Bytes): Decoded
    decreases |input|
  {
    if input == [] then Decoded([], None)
    else
      match ParseField(input)
      case Wrong(error) => Decoded([], Some(error))
      case Got(f, rest) => Then(f, DecodeFields(rest))
  }

  // ----- Fields round trip

  lemma LevelRoundTrip(level: nat, rest: Bytes)
    requires level < LEVELS
    ensures GetLevel(EncodeVarint(level) + rest) == Parsed(level, rest)
  {
    Varint32RoundTrip(level, rest);
  }

  lemma CompactPointerRoundTrip(level: nat, key: Bytes, rest: Bytes)
    requires level < LEVELS && Fits(key)
    ensures ParseCompactPointer((EncodeVarint(level) + LengthPrefixed(key)) + rest)
      == Got(CompactPointer(level, key), rest)
  {
    hide EncodeVarint, LengthPrefixed, GetLevel, GetLengthPrefixed;
    Glue(EncodeVarint(level), LengthPrefixed(key), rest);
    LevelRoundTrip(level, LengthPrefixed(key) + rest);
    LengthPrefixedRoundTrip(key, rest);
  }

  lemma DeletedFileRoundTrip(level: nat, n: nat, rest: Bytes)
    requires level < LEVELS && n <= MAX_UINT64
    ensures ParseDeletedFile((EncodeVarint(level) + EncodeVarint(n)) + rest) == Got(DeletedFile(level, n), rest)
  {
    hide EncodeVarint, GetLevel, GetVarint64;
    Glue(EncodeVarint(level), EncodeVarint(n), rest);
    LevelRoundTrip(level, EncodeVarint(n) + rest);
    Varint64RoundTrip(n, rest);
  }

  lemma NewFileRoundTrip(level: nat, file: FileMeta, rest: Bytes)
    requires Encodable(NewFile(level, file))
    ensures ParseNewFile(EncodeBody(NewFile(level, file)) + rest) == Got(NewFile(level, file), rest)
  {
    hide EncodeVarint, LengthPrefixed, GetLevel, GetVarint64, GetLengthPrefixed;
    var largest := LengthPrefixed(file.largest) + rest;
    var smallest := LengthPrefixed(file.smallest) + largest;
    var size := EncodeVarint(file.size) + smallest;
    var number := EncodeVarint(file.number) + size;
    Glue(LengthPrefixed(file.smallest), LengthPrefixed(file.largest), rest);
    Glue(EncodeVarint(file.size), LengthPrefixed(file.smallest) + LengthPrefixed(file.largest), rest);
    Glue(EncodeVarint(file.number),
         EncodeVarint(file.size) + (LengthPrefixed(file.smallest) + LengthPrefixed(file.largest)), rest);
    Glue(EncodeVarint(level),
         EncodeVarint(file.number)
           + (EncodeVarint(file.size) + (LengthPrefixed(file.smallest) + LengthPrefixed(file.largest))), rest);
    LevelRoundTrip(level, number);
    Varint64RoundTrip(file.number, size);
    Varint64RoundTrip(file.size, smallest);
    LengthPrefixedRoundTrip(file.smallest, largest);
    LengthPrefixedRoundTrip(file.largest, rest);
  }

  lemma BodyRoundTrip(f: Field, rest: Bytes)
    requires Encodable(f)
    ensures ParseBody(TagOf(f), EncodeBody(f) + rest) == Got(f, rest)
  {
    hide EncodeVarint, LengthPrefixed, GetLevel, GetVarint64, GetLengthPrefixed, ParseNewFile, ParseDeletedFile,
      ParseCompactPointer;
    match f
    case Comparator(name) => LengthPrefixedRoundTrip(name, rest);
    case Number(_, n) => Varint64RoundTrip(n, rest);
    case CompactPointer(level, key) => CompactPointerRoundTrip(level, key, rest);
    case DeletedFile(level, n) => DeletedFileRoundTrip(level, n, rest);
    case NewFile(level, file) => NewFileRoundTrip(level, file, rest);
  }

  lemma FieldRoundTrip(f: Field, rest: Bytes)
    requires Encodable(f)
    ensures EncodeField(f) + rest != [] && ParseField(EncodeField(f) + rest) == Got(f, rest)
  {
    hide EncodeVarint, EncodeBody, ParseBody, GetVarint32;
    Glue(EncodeVarint(TagOf(f)), EncodeBody(f), rest);
    Varint32RoundTrip(TagOf(f), EncodeBody(f) + rest);
    BodyRoundTrip(f, rest);
  }

  lemma {:induction false} FieldsRoundTrip(fs: seq<Field>)
    requires AllOf(fs)
    ensures DecodeFields(EncodeFields(fs)) == Decoded(fs, None)
  {
    hide EncodeField, ParseField;
    if fs != [] {
      FieldsRoundTrip(fs[1..]);
      FieldRoundTrip(fs[0], EncodeFields(fs[1..]));
    }
  }

  // ----- Damaged edits

  lemma CutNumber(v: nat, n: nat)
    requires n < |EncodeVarint(v)|
    ensures GetVarint32(EncodeVarint(v)[..n]).Failed? && GetVarint64(EncodeVarint(v)[..n]).Failed?
    ensures GetLevel(EncodeVarint(v)[..n]).Failed?
  {
    CutVarint(v, 5, n);
    CutVarint(v, 10, n);
  }

  /** A number cut off is not read; otherwise what follows it is cut off. */
  lemma CutAfterNumber(v: nat, more: Bytes, n: nat)
    requires v <= MAX_UINT64 && n <= |EncodeVarint(v) + more|
    ensures GetVarint64((EncodeVarint(v) + more)[..n])
      == if n < |EncodeVarint(v)| then Failed else Parsed(v, more[..n - |EncodeVarint(v)|])
  {
    hide EncodeVarint, GetLevel, GetVarint32, GetVarint64;
    PrefixOfSum(EncodeVarint(v), more, n);
    if n < |EncodeVarint(v)| {
      CutNumber(v, n);
    } else {
      assert (EncodeVarint(v) + more)[..n] == EncodeVarint(v) + more[..n - |EncodeVarint(v)|];
      Varint64RoundTrip(v, more[..n - |EncodeVarint(v)|]);
    }
  }

  lemma CutAfterLevel(level: nat, more: Bytes, n: nat)
    requires level < LEVELS && n <= |EncodeVarint(level) + more|
    ensures GetLevel((EncodeVarint(level) + more)[..n])
      == if n < |EncodeVarint(level)| then Failed else Parsed(level, more[..n - |EncodeVarint(level)|])
  {
    hide EncodeVarint, GetLevel, GetVarint32, GetVarint64;
    PrefixOfSum(EncodeVarint(level), more, n);
    if n < |EncodeVarint(level)| {
      CutNumber(level, n);
    } else {
      assert (EncodeVarint(level) + more)[..n] == EncodeVarint(level) + more[..n - |EncodeVarint(level)|];
      LevelRoundTrip(level, more[..n - |EncodeVarint(level)|]);
    }
  }

  lemma CutCompactPointer(level: nat, key: Bytes, n: nat)
    requires level < LEVELS && Fits(key) && n < |EncodeVarint(level) + LengthPrefixed(key)|
    ensures ParseCompactPointer((EncodeVarint(level) + LengthPrefixed(key))[..n]).Wrong?
  {
    hide EncodeVarint, LengthPrefixed, GetLevel, GetLengthPrefixed;
    CutAfterLevel(level, LengthPrefixed(key), n);
    if n >= |EncodeVarint(level)| {
      CutPrefixed(key, n - |EncodeVarint(level)|);
    }
  }

  lemma CutDeletedFile(level: nat, number: nat, n: nat)
    requires level < LEVELS && number <= MAX_UINT64 && n < |EncodeVarint(level) + EncodeVarint(number)|
    ensures ParseDeletedFile((EncodeVarint(level) + EncodeVarint(number))[..n]).Wrong?
  {
    hide EncodeVarint, GetLevel, GetVarint64;
    CutAfterLevel(level, EncodeVarint(number), n);
    if n >= |EncodeVarint(level)| {
      CutNumber(number, n - |EncodeVarint(level)|);
    }
  }

  lemma CutKeys(smallest: Bytes, largest: Bytes, n: nat)
    requires Fits(smallest) && Fits(largest) && n < |LengthPrefixed(smallest) + LengthPrefixed(largest)|
    ensures var first := GetLengthPrefixed((LengthPrefixed(smallest) + LengthPrefixed(largest))[..n]);
            first.Failed? || GetLengthPrefixed(first.rest).Failed?
  {
    hide LengthPrefixed, GetLengthPrefixed;
    var a, b := LengthPrefixed(smallest), LengthPrefixed(largest);
    PrefixOfSum(a, b, n);
    if n < |a| {
      CutPrefixed(smallest, n);
    } else {
      assert (a + b)[..n] == a + b[..n - |a|];
      LengthPrefixedRoundTrip(smallest, b[..n - |a|]);
      CutPrefixed(largest, n - |a|);
    }
  }

  lemma CutNewFile(level: nat, file: FileMeta, n: nat)
    requires Encodable(NewFile(level, file)) && n < |EncodeBody(NewFile(level, file))|
    ensures ParseNewFile(EncodeBody(NewFile(level, file))[..n]).Wrong?
  {
    hide EncodeVarint, LengthPrefixed, GetLevel, GetVarint64, GetLengthPrefixed;
    var keys := LengthPrefixed(file.smallest) + LengthPrefixed(file.largest);
    var size := EncodeVarint(file.size) + keys;
    var number := EncodeVarint(file.number) + size;
    CutAfterLevel(level, number, n);
    var a := n - |EncodeVarint(level)|;
    if a >= 0 {
      CutAfterNumber(file.number, size, a);
      var b := a - |EncodeVarint(file.number)|;
      if b >= 0 {
        CutAfterNumber(file.size, keys, b);
        var c := b - |EncodeVarint(file.size)|;
        if c >= 0 {
          CutKeys(file.smallest, file.largest, c);
        }
      }
    }
  }

  lemma CutBody(f: Field, n: nat)
    requires Encodable(f) && n < |EncodeBody(f)|
    ensures ParseBody(TagOf(f), EncodeBody(f)[..n]).Wrong?
  {
    hide EncodeVarint, LengthPrefixed, GetLevel, GetVarint64, GetLengthPrefixed, ParseNewFile, ParseDeletedFile,
      ParseCompactPointer;
    match f
    case Comparator(name) => CutPrefixed(name, n);
    case Number(_, v) => CutNumber(v, n);
    case CompactPointer(level, key) => CutCompactPointer(level, key, n);
    case DeletedFile(level, number) => CutDeletedFile(level, number, n);
    case NewFile(level, file) => CutNewFile(level, file, n);
  }

  lemma CutField(f: Field, n: nat)
    requires Encodable(f) && n < |EncodeField(f)|
    ensures ParseField(EncodeField(f)[..n]).Wrong?
  {
    hide EncodeVarint, EncodeBody, ParseBody, GetVarint32;
    var tag, body := EncodeVarint(TagOf(f)), EncodeBody(f);
    PrefixOfSum(tag, body, n);
    if n < |tag| {
      CutNumber(TagOf(f), n);
    } else {
      assert EncodeField(f)[..n] == tag + body[..n - |tag|];
      Varint32RoundTrip(TagOf(f), body[..n - |tag|]);
      CutBody(f, n - |tag|);
    }
  }

  /** Cut off after n bytes, the fields up to j are taken, and it is an error unless they end there. */
  ghost predicate CutAt(fs: seq<Field>, n: nat, j: nat)
    requires n <= |EncodeFields(fs)|
  {
    && j <= |fs| && DecodeFields(EncodeFields(fs)[..n]).fields == fs[..j]
    && (DecodeFields(EncodeFields(fs)[..n]).error.None? <==> n == |EncodeFields(fs[..j])|)
  }

  lemma ConsFields(f: Field, fs: seq<Field>)
    ensures EncodeFields([f] + fs) == EncodeField(f) + EncodeFields(fs)
  {
    assert ([f] + fs)[1..] == fs;
  }

  lemma CutFirst(f: Field, fs: seq<Field>, n: nat)
    requires Encodable(f) && n < |EncodeField(f)|
    ensures n <= |EncodeFields([f] + fs)| && CutAt([f] + fs, n, 0)
  {
    ConsFields(f, fs);
    PrefixOfSum(EncodeField(f), EncodeFields(fs), n);
    CutField(f, n);
  }

  lemma CutLater(f: Field, fs: seq<Field>, n: nat, j: nat)
    requires Encodable(f) && n <= |EncodeFields(fs)| && CutAt(fs, n, j)
    ensures |EncodeField(f)| + n <= |EncodeFields([f] + fs)|
    ensures CutAt([f] + fs, |EncodeField(f)| + n, j + 1)
  {
    ConsFields(f, fs);
    ConsFields(f, fs[..j]);
    FieldRoundTrip(f, EncodeFields(fs)[..n]);
    hide EncodeField, EncodeFields, ParseField, Encodable;
    assert (EncodeField(f) + EncodeFields(fs))[..|EncodeField(f)| + n] == EncodeField(f) + EncodeFields(fs)[..n];
    assert ([f] + fs)[..j + 1] == [f] + fs[..j];
  }

  lemma CutNone()
    ensures EncodeFields([]) == [] && CutAt([], 0, 0)
  {
  }

  /** From an edit cut off anywhere, the fields before the cut are taken; it is an error unless the cut is between
      two of them. */
  lemma {:induction false} CutFields(fs: seq<Field>, n: nat) returns (j: nat)
    requires AllOf(fs) && n <= |EncodeFields(fs)|
    ensures CutAt(fs, n, j)
  {
    hide CutAt, EncodeField, EncodeFields, Encodable;
    if fs == [] {
      CutNone();
      j := 0;
    } else {
      var f, more := fs[0], fs[1..];
      ConsFields(f, more);
      assert fs == [f] + more;
      var size := |EncodeField(f)|;
      if n < size {
        CutFirst(f, more, n);
        j := 0;
      } else {
        var i := CutFields(more, n - size);
        CutLater(f, more, n - size, i);
        j := i + 1;
      }
    }
  }

  predicate IsBadTag(tag: nat) {
    tag == COMPACT_POINTER || tag == DELETED_FILE || tag == NEW_FILE || tag == 0 || tag == 8 || tag > 9
  }

  lemma JunkFirst(tag: nat, level: nat, junk: Bytes)
    requires tag <= MAX_UINT32 && LEVELS <= level <= MAX_UINT32 && IsBadTag(tag)
    ensures ParseField(EncodeVarint(tag) + (EncodeVarint(level) + junk)).Wrong?
  {
    hide EncodeVarint, GetVarint32, GetLengthPrefixed, GetVarint64;
    Varint32RoundTrip(tag, EncodeVarint(level) + junk);
    Varint32RoundTrip(level, junk);
  }

  /** After any fields, a tag that is none is an error, and so is a level that does not exist. */
  lemma {:induction false} JunkIsRefused(fs: seq<Field>, tag: nat, level: nat, junk: Bytes)
    requires AllOf(fs) && tag <= MAX_UINT32 && LEVELS <= level <= MAX_UINT32 && IsBadTag(tag)
    ensures var d := DecodeFields(EncodeFields(fs) + (EncodeVarint(tag) + (EncodeVarint(level) + junk)));
            d.fields == fs && d.error.Some?
  {
    hide EncodeVarint, EncodeField, ParseField;
    var rest := EncodeVarint(tag) + (EncodeVarint(level) + junk);
    if fs == [] {
      assert [] + rest == rest;
      JunkFirst(tag, level, junk);
      assert rest != [];
    } else {
      Glue(EncodeField(fs[0]), EncodeFields(fs[1..]), rest);
      FieldRoundTrip(fs[0], EncodeFields(fs[1..]) + rest);
      JunkIsRefused(fs[1..], tag, level, junk);
    }
  }

  // ----- Edits

  /** What decoding a field does to an edit. */
  function SetField(e: Edit, f: Field): Edit {
    match f
    case Comparator(name) => e.(comparator := Some(name))
    case Number(tag, n) =>
      if tag == LOG_NUMBER then e.(logNumber := Some(n))
      else if tag == PREV_LOG_NUMBER then e.(prevLogNumber := Some(n))
      else if tag == NEXT_FILE_NUMBER then e.(nextFileNumber := Some(n))
      else e.(lastSequence := Some(n))
    case CompactPointer(level, key) => e.(compactPointers := e.compactPointers + [(level, key)])
    case DeletedFile(level, n) => e.(deletedFiles := e.deletedFiles + {(level, n)})
    case NewFile(level, file) => e.(newFiles := e.newFiles + [(level, file)])
  }

  function SetFields(e: Edit, fs: seq<Field>): Edit {
    if fs == [] then e else SetField(SetFields(e, fs[..|fs| - 1]), fs[|fs| - 1])
  }

  function NumberField(tag: nat, n: Option<nat>): seq<Field> {
    if n.Some? then [Number(tag, n.value)] else []
  }

  function Pointers(ps: seq<(nat, Bytes)>): seq<Field> {
    seq(|ps|, i requires 0 <= i < |ps| => CompactPointer(ps[i].0, ps[i].1))
  }

  function Deletions(ds: seq<(nat, nat)>): seq<Field> {
    seq(|ds|, i requires 0 <= i < |ds| => DeletedFile(ds[i].0, ds[i].1))
  }

  function Additions(ns: seq<(nat, FileMeta)>): seq<Field> {
    seq(|ns|, i requires 0 <= i < |ns| => NewFile(ns[i].0, ns[i].1))
  }

  function Scalars(e: Edit): seq<Field> {
    (if e.comparator.Some? then [Comparator(e.comparator.value)] else [])
    + NumberField(LOG_NUMBER, e.logNumber) + NumberField(PREV_LOG_NUMBER, e.prevLogNumber)
    + NumberField(NEXT_FILE_NUMBER, e.nextFileNumber) + NumberField(LAST_SEQUENCE, e.lastSequence)
  }

  /** The fields EncodeTo writes; deleted lists the deleted files in the order of the set. */
  function FieldsOf(e: Edit, deleted: seq<(nat, nat)>): seq<Field> {
    Scalars(e) + Pointers(e.compactPointers) + Deletions(deleted) + Additions(e.newFiles)
  }

  ghost predicate Lists(deleted: seq<(nat, nat)>, files: set<(nat, nat)>) {
    forall d :: d in deleted <==> d in files
  }

  ghost predicate EditFits(e: Edit) {
    && (e.comparator.Some? ==> Fits(e.comparator.value))
    && NumberFits(e.logNumber) && NumberFits(e.prevLogNumber) && NumberFits(e.nextFileNumber)
    && NumberFits(e.lastSequence)
    && (forall i :: 0 <= i < |e.compactPointers| ==>
      Encodable(CompactPointer(e.compactPointers[i].0, e.compactPointers[i].1)))
    && (forall d :: d in e.deletedFiles ==> Encodable(DeletedFile(d.0, d.1)))
    && (forall i :: 0 <= i < |e.newFiles| ==> Encodable(NewFile(e.newFiles[i].0, e.newFiles[i].1)))
  }

  ghost predicate NumberFits(n: Option<nat>) {
    n.Some? ==> n.value <= MAX_UINT64
  }

  lemma {:induction false} SetFieldsConcat(e: Edit, a: seq<Field>, b: seq<Field>)
    ensures SetFields(e, a + b) == SetFields(SetFields(e, a), b)
  {
    if b == [] {
      assert a + b == a;
    } else {
      var n := |b| - 1;
      assert (a + b)[..|a| + n] == a + b[..n];
      SetFieldsConcat(e, a, b[..n]);
    }
  }

  lemma {:induction false} SetPointers(e: Edit, ps: seq<(nat, Bytes)>)
    ensures SetFields(e, Pointers(ps)) == e.(compactPointers := e.compactPointers + ps)
  {
    if ps != [] {
      var n := |ps| - 1;
      assert Pointers(ps)[..n] == Pointers(ps[..n]) && ps == ps[..n] + [ps[n]];
      SetPointers(e, ps[..n]);
    }
  }

  lemma SetOfMore(before: set<(nat, nat)>, ds: seq<(nat, nat)>, d: (nat, nat))
    ensures (before + set x | x in ds) + {d} == before + set x | x in ds + [d]
  {
    forall x ensures x in ds + [d] <==> x in ds || x == d {
    }
  }

  lemma DeletionsOfMore(ds: seq<(nat, nat)>, d: (nat, nat))
    ensures Deletions(ds + [d]) == Deletions(ds) + [DeletedFile(d.0, d.1)]
  {
  }

  lemma SetFieldsOfMore(e: Edit, fs: seq<Field>, f: Field)
    ensures SetFields(e, fs + [f]) == SetField(SetFields(e, fs), f)
  {
    assert (fs + [f])[..|fs|] == fs;
  }

  lemma {:induction false} SetDeletions(e: Edit, ds: seq<(nat, nat)>)
    ensures SetFields(e, Deletions(ds)) == e.(deletedFiles := e.deletedFiles + set d | d in ds)
  {
    if ds != [] {
      var front, d := ds[..|ds| - 1], ds[|ds| - 1];
      hide SetFields, Deletions;
      assert ds == front + [d];
      DeletionsOfMore(front, d);
      SetFieldsOfMore(e, Deletions(front), DeletedFile(d.0, d.1));
      SetDeletions(e, front);
      SetOfMore(e.deletedFiles, front, d);
    }
  }

  lemma {:induction false} SetAdditions(e: Edit, ns: seq<(nat, FileMeta)>)
    ensures SetFields(e, Additions(ns)) == e.(newFiles := e.newFiles + ns)
  {
    if ns != [] {
      var n := |ns| - 1;
      assert Additions(ns)[..n] == Additions(ns[..n]) && ns == ns[..n] + [ns[n]];
      SetAdditions(e, ns[..n]);
    }
  }

  lemma SetNumber(e: Edit, tag: nat, n: Option<nat>)
    ensures SetFields(e, NumberField(tag, n)) == if n.Some? then SetField(e, Number(tag, n.value)) else e
  {
    if n.Some? {
      assert [Number(tag, n.value)][..0] == [];
    }
  }

  lemma SetScalars(e0: Edit, e: Edit)
    requires e0.comparator.None? && e0.logNumber.None? && e0.prevLogNumber.None? && e0.nextFileNumber.None?
    requires e0.lastSequence.None?
    ensures SetFields(e0, Scalars(e)) ==
              e.(compactPointers := e0.compactPointers, deletedFiles := e0.deletedFiles, newFiles := e0.newFiles)
  {
    hide SetFields;
    var name := if e.comparator.Some? then [Comparator(e.comparator.value)] else [];
    var log, prev := NumberField(LOG_NUMBER, e.logNumber), NumberField(PREV_LOG_NUMBER, e.prevLogNumber);
    var next, last := NumberField(NEXT_FILE_NUMBER, e.nextFileNumber), NumberField(LAST_SEQUENCE, e.lastSequence);
    SetName(e0, e.comparator);
    SetFieldsConcat(e0, name + log + prev + next, last);
    SetFieldsConcat(e0, name + log + prev, next);
    SetFieldsConcat(e0, name + log, prev);
    SetFieldsConcat(e0, name, log);
    var e1 := SetFields(e0, name);
    SetNumber(e1, LOG_NUMBER, e.logNumber);
    var e2 := SetFields(e1, log);
    SetNumber(e2, PREV_LOG_NUMBER, e.prevLogNumber);
    var e3 := SetFields(e2, prev);
    SetNumber(e3, NEXT_FILE_NUMBER, e.nextFileNumber);
    SetNumber(SetFields(e3, next), LAST_SEQUENCE, e.lastSequence);
  }

  lemma SetName(e: Edit, name: Option<Bytes>)
    ensures SetFields(e, if name.Some? then [Comparator(name.value)] else [])
         == if name.Some? then e.(comparator := name) else e
  {
    if name.Some? {
      assert [Comparator(name.value)][..0] == [];
    }
  }

  /** VersionEdit::Clear: everything but the compaction pointers. */
  function Reset(e: Edit): Edit {
    FRESH.(compactPointers := e.compactPointers)
  }

  /** VersionEdit::DecodeFrom into an edit that may have been used before. */
  function DecodeInto(e0: Edit, src: Bytes): (Edit, Option<Error>) {
    (SetFields(Reset(e0), DecodeFields(src).fields), DecodeFields(src).error)
  }

  ghost predicate AllOf(fs: seq<Field>) {
    forall f :: f in fs ==> Encodable(f)
  }

  lemma ScalarsEncodable(e: Edit)
    requires EditFits(e)
    ensures AllOf(Scalars(e))
  {
    NumberEncodable(LOG_NUMBER, e.logNumber);
    NumberEncodable(PREV_LOG_NUMBER, e.prevLogNumber);
    NumberEncodable(NEXT_FILE_NUMBER, e.nextFileNumber);
    NumberEncodable(LAST_SEQUENCE, e.lastSequence);
    hide NumberField;
  }

  lemma NumberEncodable(tag: nat, n: Option<nat>)
    requires IsNumberTag(tag) && NumberFits(n)
    ensures AllOf(NumberField(tag, n))
  {
  }

  lemma DeletionsEncodable(e: Edit, deleted: seq<(nat, nat)>)
    requires EditFits(e) && Lists(deleted, e.deletedFiles)
    ensures AllOf(Deletions(deleted))
  {
    forall i | 0 <= i < |deleted| ensures Encodable(DeletedFile(deleted[i].0, deleted[i].1)) {
      assert deleted[i] in deleted;
    }
  }

  lemma AllEncodable(e: Edit, deleted: seq<(nat, nat)>)
    requires EditFits(e) && Lists(deleted, e.deletedFiles)
    ensures AllOf(FieldsOf(e, deleted))
  {
    ScalarsEncodable(e);
    DeletionsEncodable(e, deleted);
    assert AllOf(Pointers(e.compactPointers)) && AllOf(Additions(e.newFiles));
    hide Encodable, Scalars, Deletions, Pointers, Additions, EditFits;
  }

  lemma SetFieldsOf(e0: Edit, e: Edit, deleted: seq<(nat, nat)>)
    requires Lists(deleted, e.deletedFiles)
    ensures SetFields(Reset(e0), FieldsOf(e, deleted)) == e.(compactPointers := e0.compactPointers + e.compactPointers)
  {
    hide SetFields, Scalars, Pointers, Deletions, Additions;
    var r := Reset(e0);
    SetFieldsConcat(r, Scalars(e) + Pointers(e.compactPointers) + Deletions(deleted), Additions(e.newFiles));
    SetFieldsConcat(r, Scalars(e) + Pointers(e.compactPointers), Deletions(deleted));
    SetFieldsConcat(r, Scalars(e), Pointers(e.compactPointers));
    SetScalars(r, e);
    var e1 := SetFields(r, Scalars(e));
    SetPointers(e1, e.compactPointers);
    var e2 := SetFields(e1, Pointers(e.compactPointers));
    SetDeletions(e2, deleted);
    SetAdditions(SetFields(e2, Deletions(deleted)), e.newFiles);
    assert e1.deletedFiles + (set d | d in deleted) == e.deletedFiles;
    assert [] + e.newFiles == e.newFiles;
  }

  /** An encoded edit, decoded, is the edit; but compaction pointers already in the edit decoded into stay. */
  lemma DecodedIntoUsed(e0: Edit, e: Edit, deleted: seq<(nat, nat)>)
    requires EditFits(e) && Lists(deleted, e.deletedFiles)
    ensures DecodeInto(e0, EncodeFields(FieldsOf(e, deleted)))
      == (e.(compactPointers := e0.compactPointers + e.compactPointers), None)
  {
    hide EncodeFields, DecodeFields, FieldsOf, SetFields;
    AllEncodable(e, deleted);
    FieldsRoundTrip(FieldsOf(e, deleted));
    SetFieldsOf(e0, e, deleted);
  }

  /** Decoding gives back the edit exactly when the edit decoded into holds no compaction pointers. */
  lemma EditRoundTrip(e0: Edit, e: Edit, deleted: seq<(nat, nat)>)
    requires EditFits(e) && Lists(deleted, e.deletedFiles)
    ensures DecodeInto(e0, EncodeFields(FieldsOf(e, deleted))) == (e, None) <==> e0.compactPointers == []
  {
    hide EncodeFields, DecodeInto, FieldsOf;
    DecodedIntoUsed(e0, e, deleted);
    if e0.compactPointers == [] {
      assert e0.compactPointers + e.compactPointers == e.compactPointers;
    } else {
      assert |e0.compactPointers + e.compactPointers| > |e.compactPointers|;
    }
  }

  // ----- The class

  class VersionEdit {
    var value: Edit

    constructor ()
      ensures value == FRESH
    {
      value := FRESH;
    }

    method EncodeTo(deleted: seq<(nat, nat)>) returns (dst: Bytes)
      requires Lists(deleted, value.deletedFiles)
      ensures dst == EncodeFields(FieldsOf(value, deleted))
    {
      var fields := FieldsOf(value, deleted);
      dst := [];
      hide EncodeField, FieldsOf;
      for i := 0 to |fields|
        invariant EncodeFields(fields) == dst + EncodeFields(fields[i..])
      {
        EncodeOn(fields, i, dst);
        dst := dst + EncodeField(fields[i]);
      }
    }

    method DecodeFrom(src: Bytes) returns (error: Option<Error>)
      modifies this
      ensures (value, error) == DecodeInto(old(value), src)
    {
      ghost var start, seen := Reset(value), [];
      value := Reset(value);
      error := None;
      var input := src;
      hide ParseField, SetField, Reset;
      while input != [] && error.None?
        invariant value == SetFields(start, seen)
        invariant if error.None? then DecodedTo(src, seen, input) else DecodeFields(src) == Decoded(seen, error)
        decreases error.None?, |input|
      {
        DecodeOn(src, seen, input);
        var r := ParseField(input);
        if r.Wrong? {
          error := Some(r.error);
        } else {
          SetFieldsSnoc(start, seen, r.field);
          value, seen, input := SetField(value, r.field), seen + [r.field], r.rest;
        }
      }
      assert seen + [] == seen;
    }
  }

  lemma EncodeOn(fields: seq<Field>, i: nat, dst: Bytes)
    requires i < |fields| && EncodeFields(fields) == dst + EncodeFields(fields[i..])
    ensures EncodeFields(fields) == (dst + EncodeField(fields[i])) + EncodeFields(fields[i + 1..])
  {
    hide EncodeField;
    assert fields[i..][1..] == fields[i + 1..];
    Glue(dst, EncodeField(fields[i]), EncodeFields(fields[i + 1..]));
  }

  lemma SetFieldsSnoc(e: Edit, fs: seq<Field>, f: Field)
    ensures SetFields(e, fs + [f]) == SetField(SetFields(e, fs), f)
  {
    assert (fs + [f])[..|fs|] == fs;
  }

  /** The fields seen, and those in the rest of the input, are all of src. */
  ghost predicate DecodedTo(src: Bytes, seen: seq<Field>, input: Bytes) {
    DecodeFields(src) == Decoded(seen + DecodeFields(input).fields, DecodeFields(input).error)
  }

  lemma DecodeOn(src: Bytes, seen: seq<Field>, input: Bytes)
    requires DecodedTo(src, seen, input) && input != []
    ensures var r := ParseField(input);
            if r.Wrong? then DecodeFields(src) == Decoded(seen, Some(r.error))
            else DecodedTo(src, seen + [r.field], r.rest)
  {
    var r := ParseField(input);
    if r.Got? {
      Glue(seen, [r.field], DecodeFields(r.rest).fields);
    }
  }
}
