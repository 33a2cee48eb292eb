/**
 The records of the manifest: a version edit, the tagged fields it is written as, and
 the decoder that reads them back.
 */
module VersionEdits {
  import opened Wrappers
  import opened Comparator
  import opened Codings
  import opened Versions

  /** What an edit says of a new file; its keys are encoded internal keys. */
  datatype FileMetaData = FileMetaData(number: uint64, fileSize: uint64, smallest: Bytes, largest: Bytes)

  /** The fields of an edit; an absent one has no value. */
  datatype Contents = Contents(
    comparator: Option<Bytes>,
    logNumber: Option<uint64>,
    prevLogNumber: Option<uint64>,
    nextFileNumber: Option<uint64>,
    lastSequence: Option<uint64>,
    compactPointers: seq<(uint32, Bytes)>,
    deletedFiles: set<(uint32, uint64)>,
    newFiles: seq<(uint32, FileMetaData)>)

  datatype Field =
    | ComparatorName(name: Bytes)
    | LogNumber(number: uint64)
    | PrevLogNumber(number: uint64)
    | NextFileNumber(number: uint64)
    | LastSequence(number: uint64)
    | CompactPointer(level: uint32, key: Bytes)
    | DeletedFile(level: uint32, number: uint64)
    | NewFile(level: uint32, file: FileMetaData)

  datatype Status =
    | Ok | BadComparator | BadLogNumber | BadPrevLogNumber | BadNextFileNumber | BadLastSequence
    | BadCompactPointer | BadDeletedFile | BadNewFile | UnknownTag | InvalidTag

  const COMPARATOR_TAG: uint32 := 1
  const LOG_NUMBER_TAG: uint32 := 2
  const NEXT_FILE_NUMBER_TAG: uint32 := 3
  const LAST_SEQUENCE_TAG: uint32 := 4
  const COMPACT_POINTER_TAG: uint32 := 5
  const DELETED_FILE_TAG: uint32 := 6
  const NEW_FILE_TAG: uint32 := 7
  const PREV_LOG_NUMBER_TAG: uint32 := 9

  // ----- One field -----

  function Tag(f: Field): uint32 {
    match f
    case ComparatorName(_) => COMPARATOR_TAG
    case LogNumber(_) => LOG_NUMBER_TAG
    case PrevLogNumber(_) => PREV_LOG_NUMBER_TAG
    case NextFileNumber(_) => NEXT_FILE_NUMBER_TAG
    case LastSequence(_) => LAST_SEQUENCE_TAG
    case CompactPointer(_, _) => COMPACT_POINTER_TAG
    case DeletedFile(_, _) => DELETED_FILE_TAG
    case NewFile(_, _) => NEW_FILE_TAG
  }

  /** The fields' parts in the order they are written after the tag. */
  function Payload(f: Field): Bytes {
    match f
    case ComparatorName(name) => LengthPrefixed(name)
    case CompactPointer(level, key) => Varint(level) + LengthPrefixed(key)
    case DeletedFile(level, number) => Varint(level) + Varint(number)
    case NewFile(level, file) => Varint(level) + FileBytes(file)
    case _ => Varint(f.number)
  }

  function FileBytes(file: FileMetaData): Bytes {
    Varint(file.number) + (Varint(file.fileSize) + (LengthPrefixed(file.smallest) + LengthPrefixed(file.largest)))
  }

  function FieldBytes(f: Field): (b: Bytes)
    ensures b != []
  {
    Varint(Tag(f)) + Payload(f)
  }

  /** Every string has a length that fits its 32-bit prefix. */
  predicate Encodable(f: Field) {
    match f
    case ComparatorName(name) => |name| < TWO_TO_32
    case CompactPointer(_, key) => |key| < TWO_TO_32
    case NewFile(_, file) => |file.smallest| < TWO_TO_32 && |file.largest| < TWO_TO_32
    case _ => true
  }

  /** A level the decoder accepts. */
  predicate LevelOk(f: Field) {
    f.CompactPointer? || f.DeletedFile? || f.NewFile? ==> f.level < NUM_LEVELS
  }

  predicate AllInRange(fields: seq<Field>) {
    forall i | 0 <= i < |fields| :: LevelOk(fields[i])
  }

  function GetLevel(input: Bytes): Option<(uint32, Bytes)> {
    match GetVarint32(input)
    case None => None
    case Some((level, rest)) => if level < NUM_LEVELS then Some((level, rest)) else None
  }

  function GetNumber(input: Bytes): Option<(uint64, Bytes)> {
    match GetVarint64(input)
    case None => None
    case Some((number, rest)) => Some((number, rest))
  }

  function GetFile(input: Bytes): Option<(FileMetaData, Bytes)> {
    match GetNumber(input)
    case None => None
    case Some((number, rest1)) =>
      match GetNumber(rest1)
      case None => None
      case Some((size, rest2)) =>
        match GetLengthPrefixedSlice(rest2)
        case None => None
        case Some((smallest, rest3)) =>
          match GetLengthPrefixedSlice(rest3)
          case None => None
          case Some((largest, rest4)) => Some((FileMetaData(number, size, smallest, largest), rest4))
  }

  function ParseAddition(input: Bytes): (r: (Status, Option<(Field, Bytes)>))
    ensures r.0 == Ok <==> r.1.Some?
    ensures r.1.Some? ==> |r.1.value.1| <= |input|
  {
    match GetLevel(input)
    case None => (BadNewFile, None)
    case Some((level, rest1)) =>
      match GetFile(rest1)
      case None => (BadNewFile, None)
      case Some((file, rest)) => (Ok, Some((NewFile(level, file), rest)))
  }

  /** The field after a tag and the input that follows it, or what was wrong with it. */
  function ParseField(tag: nat, input: Bytes): (r: (Status, Option<(Field, Bytes)>))
    ensures r.0 == Ok <==> r.1.Some?
    ensures r.1.Some? ==> |r.1.value.1| <= |input|
  {
    if tag == COMPARATOR_TAG then
      match GetLengthPrefixedSlice(input)
      case None => (BadComparator, None)
      case Some((name, rest)) => (Ok, Some((ComparatorName(name), rest)))
    else if tag == LOG_NUMBER_TAG then
      match GetNumber(input)
      case None => (BadLogNumber, None)
      case Some((number, rest)) => (Ok, Some((LogNumber(number), rest)))
    else if tag == PREV_LOG_NUMBER_TAG then
      match GetNumber(input)
      case None => (BadPrevLogNumber, None)
      case Some((number, rest)) => (Ok, Some((PrevLogNumber(number), rest)))
    else if tag == NEXT_FILE_NUMBER_TAG then
      match GetNumber(input)
      case None => (BadNextFileNumber, None)
      case Some((number, rest)) => (Ok, Some((NextFileNumber(number), rest)))
    else if tag == LAST_SEQUENCE_TAG then
      match GetNumber(input)
      case None => (BadLastSequence, None)
      case Some((number, rest)) => (Ok, Some((LastSequence(number), rest)))
    else if tag == COMPACT_POINTER_TAG then
      match GetLevel(input)
      case None => (BadCompactPointer, None)
      case Some((level, rest1)) =>
        match GetLengthPrefixedSlice(rest1)
        case None => (BadCompactPointer, None)
        case Some((key, rest)) => (Ok, Some((CompactPointer(level, key), rest)))
    else if tag == DELETED_FILE_TAG then
      match GetLevel(input)
      case None => (BadDeletedFile, None)
      case Some((level, rest1)) =>
        match GetNumber(rest1)
        case None => (BadDeletedFile, None)
        case Some((number, rest)) => (Ok, Some((DeletedFile(level, number), rest)))
    else if tag == NEW_FILE_TAG then ParseAddition(input)
    else (UnknownTag, None)
  }

  lemma FileRoundTrip(file: FileMetaData, rest: Bytes)
    requires |file.smallest| < TWO_TO_32 && |file.largest| < TWO_TO_32
    ensures GetFile(FileBytes(file) + rest) == Some((file, rest))
  {
    var a, b := Varint(file.number), Varint(file.fileSize);
    var c, d := LengthPrefixed(file.smallest), LengthPrefixed(file.largest);
    Regroup(a, b + (c + d), rest);
    Regroup(b, c + d, rest);
    Regroup(c, d, rest);
    Varint64RoundTrip(file.number, b + (c + (d + rest)));
    Varint64RoundTrip(file.fileSize, c + (d + rest));
    SliceRoundTrip(file.smallest, d + rest);
    SliceRoundTrip(file.largest, rest);
  }

  /** A field is read back, unless its level is none of the store's. */
  lemma FieldRoundTrip(f: Field, rest: Bytes)
    requires Encodable(f)
    ensures LevelOk(f) ==> ParseField(Tag(f), Payload(f) + rest) == (Ok, Some((f, rest)))
    ensures !LevelOk(f) ==> ParseField(Tag(f), Payload(f) + rest).0 != Ok
  {
    match f
    case ComparatorName(name) => SliceRoundTrip(name, rest);
    case CompactPointer(level, key) => PointerRoundTrip(level, key, rest);
    case DeletedFile(level, number) => DeletionRoundTrip(level, number, rest);
    case NewFile(level, file) => AdditionRoundTrip(level, file, rest);
    case _ => Varint64RoundTrip(f.number, rest);
  }

  lemma LevelRoundTrip(level: uint32, rest: Bytes)
    ensures GetLevel(Varint(level) + rest) == if level < NUM_LEVELS then Some((level, rest)) else None
  {
    Varint32RoundTrip(level, rest);
  }

  lemma PointerRoundTrip(level: uint32, key: Bytes, rest: Bytes)
    requires |key| < TWO_TO_32
    ensures ParseField(COMPACT_POINTER_TAG, Varint(level) + LengthPrefixed(key) + rest) ==
            if level < NUM_LEVELS then (Ok, Some((CompactPointer(level, key), rest))) else (BadCompactPointer, None)
  {
    Regroup(Varint(level), LengthPrefixed(key), rest);
    LevelRoundTrip(level, LengthPrefixed(key) + rest);
    SliceRoundTrip(key, rest);
  }

  lemma DeletionRoundTrip(level: uint32, number: uint64, rest: Bytes)
    ensures ParseField(DELETED_FILE_TAG, Varint(level) + Varint(number) + rest) ==
            if level < NUM_LEVELS then (Ok, Some((DeletedFile(level, number), rest))) else (BadDeletedFile, None)
  {
    Regroup(Varint(level), Varint(number), rest);
    LevelRoundTrip(level, Varint(number) + rest);
    Varint64RoundTrip(number, rest);
  }

  lemma AdditionRoundTrip(level: uint32, file: FileMetaData, rest: Bytes)
    requires |file.smallest| < TWO_TO_32 && |file.largest| < TWO_TO_32
    ensures ParseField(NEW_FILE_TAG, Varint(level) + FileBytes(file) + rest) ==
            if level < NUM_LEVELS then (Ok, Some((NewFile(level, file), rest))) else (BadNewFile, None)
  {
    FileRoundTrip(file, rest);
    AdditionAround(level, FileBytes(file), file, rest);
  }

  lemma AdditionAround(level: uint32, b: Bytes, file: FileMetaData, rest: Bytes)
    requires GetFile(b + rest) == Some((file, rest))
    ensures ParseField(NEW_FILE_TAG, Varint(level) + b + rest) ==
            if level < NUM_LEVELS then (Ok, Some((NewFile(level, file), rest))) else (BadNewFile, None)
  {
    Regroup(Varint(level), b, rest);
    LevelRoundTrip(level, b + rest);
    ParseIsAddition(Varint(level) + (b + rest));
    if level < NUM_LEVELS {
      AdditionParsed(Varint(level) + (b + rest), level, b + rest, file, rest);
    }
  }

  lemma ParseIsAddition(input: Bytes)
    ensures ParseField(NEW_FILE_TAG, input) == ParseAddition(input)
  {
  }

  lemma AdditionParsed(input: Bytes, level: uint32, rest1: Bytes, file: FileMetaData, rest: Bytes)
    requires GetLevel(input) == Some((level, rest1)) && GetFile(rest1) == Some((file, rest))
    ensures ParseAddition(input) == (Ok, Some((NewFile(level, file), rest)))
  {
  }

  // ----- A list of fields -----

  function Parts(fields: seq<Field>): (list: seq<Bytes>)
    ensures |list| == |fields| && forall i | 0 <= i < |fields| :: list[i] == FieldBytes(fields[i])
  {
    seq(|fields|, i requires 0 <= i < |fields| => FieldBytes(fields[i]))
  }

  function Encoding(fields: seq<Field>): Bytes {
    Joined(Parts(fields))
  }

  lemma EncodingAppend(a: seq<Field>, b: seq<Field>)
    ensures Encoding(a + b) == Encoding(a) + Encoding(b)
  {
    assert Parts(a + b) == Parts(a) + Parts(b);
    JoinedAppend(Parts(a), Parts(b));
  }

  lemma FirstField(fields: seq<Field>)
    requires fields != []
    ensures Encoding(fields) == FieldBytes(fields[0]) + Encoding(fields[1..])
  {
    assert Parts(fields)[1..] == Parts(fields[1..]);
  }

  lemma OneMore(fields: seq<Field>, f: Field)
    ensures Encoding(fields + [f]) == Encoding(fields) + FieldBytes(f)
  {
    EncodingAppend(fields, [f]);
    FirstField([f]);
    assert [f][1..] == [] && Encoding([]) == [];
  }

  /** What reading a field does to the edit. */
  function Apply(c: Contents, f: Field): Contents {
    match f
    case ComparatorName(name) => c.(comparator := Some(name))
    case LogNumber(number) => c.(logNumber := Some(number))
    case PrevLogNumber(number) => c.(prevLogNumber := Some(number))
    case NextFileNumber(number) => c.(nextFileNumber := Some(number))
    case LastSequence(number) => c.(lastSequence := Some(number))
    case CompactPointer(level, key) => c.(compactPointers := c.compactPointers + [(level, key)])
    case DeletedFile(level, number) => c.(deletedFiles := c.deletedFiles + {(level, number)})
    case NewFile(level, file) => c.(newFiles := c.newFiles + [(level, file)])
  }

  function ApplyAll(c: Contents, fields: seq<Field>): Contents
    decreases fields
  {
    if fields == [] then c else ApplyAll(Apply(c, fields[0]), fields[1..])
  }

  lemma {:induction false} ApplyAppend(c: Contents, a: seq<Field>, b: seq<Field>)
    ensures ApplyAll(c, a + b) == ApplyAll(ApplyAll(c, a), b)
    decreases a
  {
    if a == [] {
      assert a + b == b;
    } else {
      assert (a + b)[1..] == a[1..] + b;
      ApplyAppend(Apply(c, a[0]), a[1..], b);
    }
  }

  /** Fields are read until the input or a field's syntax ends it. */
  function DecodeFields(c: Contents, input: Bytes): (Status, Contents)
    decreases |input|
  {
    match GetVarint32(input)
    case None => (if input == [] then Ok else InvalidTag, c)
    case Some((tag, rest)) =>
      var (status, r) := ParseField(tag, rest);
      if r.None? then (status, c) else DecodeFields(Apply(c, r.value.0), r.value.1)
  }

  /** Encoded fields are read back in order, and reading stops without success at a level out of range. */
  lemma {:induction false} FieldsRoundTrip(c: Contents, fields: seq<Field>)
    requires forall i | 0 <= i < |fields| :: Encodable(fields[i])
    ensures AllInRange(fields) ==> DecodeFields(c, Encoding(fields)) == (Ok, ApplyAll(c, fields))
    ensures !AllInRange(fields) ==> DecodeFields(c, Encoding(fields)).0 != Ok
    decreases fields
  {
    if fields == [] {
      assert Encoding(fields) == [];
    } else {
      var f, more := fields[0], Encoding(fields[1..]);
      FirstField(fields);
      Regroup(Varint(Tag(f)), Payload(f), more);
      Varint32RoundTrip(Tag(f), Payload(f) + more);
      FieldRoundTrip(f, more);
      FieldsRoundTrip(Apply(c, f), fields[1..]);
      assert forall i | 0 < i < |fields| :: fields[i] == fields[1..][i-1];
    }
  }

  // ----- The fields of an edit -----

  /** The order of a std::set of pairs. */
  predicate PairBefore(p: (uint32, uint64), q: (uint32, uint64)) {
    p.0 < q.0 || (p.0 == q.0 && p.1 < q.1)
  }

  /** The members of s, least first. */
  ghost predicate IsListing(list: seq<(uint32, uint64)>, s: set<(uint32, uint64)>) {
    && (forall i, j | 0 <= i < j < |list| :: PairBefore(list[i], list[j]))
    && forall p :: p in list <==> p in s
  }

  /** A set has one listing, so equal edits have equal encodings. */
  lemma {:induction false} OneListing(a: seq<(uint32, uint64)>, b: seq<(uint32, uint64)>, s: set<(uint32, uint64)>)
    requires IsListing(a, s) && IsListing(b, s)
    ensures a == b
  {
    EmptyListing(a, s);
    EmptyListing(b, s);
    if a != [] {
      assert a[0] in b && b[0] in a;
      assert a[0] == b[0];
      ListingTail(a, s);
      ListingTail(b, s);
      OneListing(a[1..], b[1..], s - {a[0]});
      assert a == [a[0]] + a[1..] && b == [b[0]] + b[1..];
    }
  }

  lemma EmptyListing(a: seq<(uint32, uint64)>, s: set<(uint32, uint64)>)
    requires IsListing(a, s)
    ensures a == [] <==> s == {}
  {
    if a != [] {
      assert a[0] in s;
    }
  }

  lemma ListingTail(a: seq<(uint32, uint64)>, s: set<(uint32, uint64)>)
    requires IsListing(a, s) && a != []
    ensures IsListing(a[1..], s - {a[0]})
  {
    forall p
      ensures p in a[1..] <==> p in s - {a[0]}
    {
      if p in s - {a[0]} {
        var i :| 0 <= i < |a| && a[i] == p;
        assert a[1..][i-1] == p;
      }
    }
  }

  function Scalars(c: Contents): seq<Field> {
    (if c.comparator.Some? then [ComparatorName(c.comparator.value)] else []) +
    (if c.logNumber.Some? then [LogNumber(c.logNumber.value)] else []) +
    (if c.prevLogNumber.Some? then [PrevLogNumber(c.prevLogNumber.value)] else []) +
    (if c.nextFileNumber.Some? then [NextFileNumber(c.nextFileNumber.value)] else []) +
    (if c.lastSequence.Some? then [LastSequence(c.lastSequence.value)] else [])
  }

  function Pointers(list: seq<(uint32, Bytes)>): (fields: seq<Field>)
    ensures |fields| == |list| && forall i | 0 <= i < |list| :: fields[i] == CompactPointer(list[i].0, list[i].1)
  {
    seq(|list|, i requires 0 <= i < |list| => CompactPointer(list[i].0, list[i].1))
  }

  function Deletions(list: seq<(uint32, uint64)>): (fields: seq<Field>)
    ensures |fields| == |list| && forall i | 0 <= i < |list| :: fields[i] == DeletedFile(list[i].0, list[i].1)
  {
    seq(|list|, i requires 0 <= i < |list| => DeletedFile(list[i].0, list[i].1))
  }

  function Additions(list: seq<(uint32, FileMetaData)>): (fields: seq<Field>)
    ensures |fields| == |list| && forall i | 0 <= i < |list| :: fields[i] == NewFile(list[i].0, list[i].1)
  {
    seq(|list|, i requires 0 <= i < |list| => NewFile(list[i].0, list[i].1))
  }

  function Fields(c: Contents, deleted: seq<(uint32, uint64)>): seq<Field> {
    Scalars(c) + Pointers(c.compactPointers) + Deletions(deleted) + Additions(c.newFiles)
  }

  /** b is how the edit is written. */
  ghost predicate IsEncoding(c: Contents, b: Bytes) {
    exists deleted :: IsListing(deleted, c.deletedFiles) && b == Encoding(Fields(c, deleted))
  }

  lemma OneEncoding(c: Contents, b: Bytes, b': Bytes)
    requires IsEncoding(c, b) && IsEncoding(c, b')
    ensures b == b'
  {
    var d :| IsListing(d, c.deletedFiles) && b == Encoding(Fields(c, d));
    var d' :| IsListing(d', c.deletedFiles) && b' == Encoding(Fields(c, d'));
    OneListing(d, d', c.deletedFiles);
  }

  /** What Clear leaves: everything but the compaction pointers is forgotten. */
  function Cleared(c: Contents): Contents {
    Contents(None, None, None, None, None, c.compactPointers, {}, [])
  }

  lemma ApplyScalars(c: Contents, e: Contents)
    ensures ApplyAll(Cleared(c), Scalars(e)) ==
            e.(compactPointers := c.compactPointers, deletedFiles := {}, newFiles := [])
  {
    var c0 := Cleared(c);
    var f1 := if e.comparator.Some? then [ComparatorName(e.comparator.value)] else [];
    var f2 := if e.logNumber.Some? then [LogNumber(e.logNumber.value)] else [];
    var f3 := if e.prevLogNumber.Some? then [PrevLogNumber(e.prevLogNumber.value)] else [];
    var f4 := if e.nextFileNumber.Some? then [NextFileNumber(e.nextFileNumber.value)] else [];
    var f5 := if e.lastSequence.Some? then [LastSequence(e.lastSequence.value)] else [];
    ApplyAppend(c0, f1 + f2 + f3 + f4, f5);
    ApplyAppend(c0, f1 + f2 + f3, f4);
    ApplyAppend(c0, f1 + f2, f3);
    ApplyAppend(c0, f1, f2);
    var c1 := c0.(comparator := e.comparator);
    var c2 := c1.(logNumber := e.logNumber);
    var c3 := c2.(prevLogNumber := e.prevLogNumber);
    var c4 := c3.(nextFileNumber := e.nextFileNumber);
    var c5 := c4.(lastSequence := e.lastSequence);
    ApplyAtMostOne(c0, f1, c1);
    ApplyAtMostOne(c1, f2, c2);
    ApplyAtMostOne(c2, f3, c3);
    ApplyAtMostOne(c3, f4, c4);
    ApplyAtMostOne(c4, f5, c5);
  }

  lemma ApplyAtMostOne(c: Contents, fields: seq<Field>, c': Contents)
    requires |fields| <= 1
    requires c' == if fields == [] then c else Apply(c, fields[0])
    ensures ApplyAll(c, fields) == c'
  {
    if fields != [] {
      assert fields[1..] == [];
    }
  }

  lemma {:induction false} ApplyPointers(c: Contents, list: seq<(uint32, Bytes)>)
    ensures ApplyAll(c, Pointers(list)) == c.(compactPointers := c.compactPointers + list)
    decreases list
  {
    if list == [] {
      assert c.compactPointers + list == c.compactPointers;
    } else {
      assert Pointers(list)[1..] == Pointers(list[1..]);
      ApplyPointers(Apply(c, Pointers(list)[0]), list[1..]);
      assert c.compactPointers + [list[0]] + list[1..] == c.compactPointers + list;
    }
  }

  lemma {:induction false} ApplyDeletions(c: Contents, list: seq<(uint32, uint64)>, s: set<(uint32, uint64)>)
    requires forall p :: p in list <==> p in s
    ensures ApplyAll(c, Deletions(list)) == c.(deletedFiles := c.deletedFiles + s)
    decreases list
  {
    if list == [] {
      assert c.deletedFiles + s == c.deletedFiles;
    } else {
      assert Deletions(list)[1..] == Deletions(list[1..]);
      var s' := set p | p in list[1..];
      ApplyDeletions(Apply(c, Deletions(list)[0]), list[1..], s');
      assert c.deletedFiles + {list[0]} + s' == c.deletedFiles + s by {
        assert list == [list[0]] + list[1..];
      }
    }
  }

  lemma {:induction false} ApplyAdditions(c: Contents, list: seq<(uint32, FileMetaData)>)
    ensures ApplyAll(c, Additions(list)) == c.(newFiles := c.newFiles + list)
    decreases list
  {
    if list == [] {
      assert c.newFiles + list == c.newFiles;
    } else {
      assert Additions(list)[1..] == Additions(list[1..]);
      ApplyAdditions(Apply(c, Additions(list)[0]), list[1..]);
      assert c.newFiles + [list[0]] + list[1..] == c.newFiles + list;
    }
  }

  /** Applied to an edit, the fields of e give e, after the compaction pointers that were there. */
  lemma ApplyFields(c: Contents, e: Contents, deleted: seq<(uint32, uint64)>)
    requires IsListing(deleted, e.deletedFiles)
    ensures ApplyAll(Cleared(c), Fields(e, deleted)) == e.(compactPointers := c.compactPointers + e.compactPointers)
  {
    var a, b, d, n := Scalars(e), Pointers(e.compactPointers), Deletions(deleted), Additions(e.newFiles);
    ApplyAppend(Cleared(c), a + b + d, n);
    ApplyAppend(Cleared(c), a + b, d);
    ApplyAppend(Cleared(c), a, b);
    ApplyScalars(c, e);
    var c1 := ApplyAll(Cleared(c), a);
    ApplyPointers(c1, e.compactPointers);
    var c2 := ApplyAll(c1, b);
    ApplyDeletions(c2, deleted, e.deletedFiles);
    assert {} + e.deletedFiles == e.deletedFiles;
    ApplyAdditions(ApplyAll(c2, d), e.newFiles);
    assert [] + e.newFiles == e.newFiles;
  }

  /** Every string of the edit has a length that fits its prefix. */
  predicate Writable(c: Contents) {
    && (c.comparator.Some? ==> |c.comparator.value| < TWO_TO_32)
    && (forall p <- c.compactPointers :: |p.1| < TWO_TO_32)
    && forall p <- c.newFiles :: |p.1.smallest| < TWO_TO_32 && |p.1.largest| < TWO_TO_32
  }

  /** The levels of the edit are levels of the store. */
  predicate LevelsOk(c: Contents) {
    && (forall p <- c.compactPointers :: p.0 < NUM_LEVELS)
    && (forall p <- c.deletedFiles :: p.0 < NUM_LEVELS)
    && forall p <- c.newFiles :: p.0 < NUM_LEVELS
  }

  lemma FieldsInRange(c: Contents, deleted: seq<(uint32, uint64)>)
    requires IsListing(deleted, c.deletedFiles)
    ensures AllInRange(Fields(c, deleted)) <==> LevelsOk(c)
  {
    var a, b, d, n := Scalars(c), Pointers(c.compactPointers), Deletions(deleted), Additions(c.newFiles);
    BothInRange(a + b + d, n);
    BothInRange(a + b, d);
    BothInRange(a, b);
    PointersInRange(c.compactPointers);
    DeletionsInRange(deleted, c.deletedFiles);
    AdditionsInRange(c.newFiles);
  }

  lemma BothInRange(a: seq<Field>, b: seq<Field>)
    ensures AllInRange(a + b) <==> AllInRange(a) && AllInRange(b)
  {
    assert forall i | 0 <= i < |a| :: (a + b)[i] == a[i];
    assert forall i | 0 <= i < |b| :: (a + b)[|a| + i] == b[i];
  }

  lemma PointersInRange(list: seq<(uint32, Bytes)>)
    ensures AllInRange(Pointers(list)) <==> forall p <- list :: p.0 < NUM_LEVELS
  {
    assert forall i | 0 <= i < |list| :: LevelOk(Pointers(list)[i]) <==> list[i].0 < NUM_LEVELS;
  }

  lemma DeletionsInRange(list: seq<(uint32, uint64)>, s: set<(uint32, uint64)>)
    requires forall p :: p in list <==> p in s
    ensures AllInRange(Deletions(list)) <==> forall p <- s :: p.0 < NUM_LEVELS
  {
    assert forall i | 0 <= i < |list| :: LevelOk(Deletions(list)[i]) <==> list[i].0 < NUM_LEVELS;
    assert forall p <- s :: p in list;
  }

  lemma AdditionsInRange(list: seq<(uint32, FileMetaData)>)
    ensures AllInRange(Additions(list)) <==> forall p <- list :: p.0 < NUM_LEVELS
  {
    assert forall i | 0 <= i < |list| :: LevelOk(Additions(list)[i]) <==> list[i].0 < NUM_LEVELS;
  }

  lemma FieldsEncodable(c: Contents, deleted: seq<(uint32, uint64)>)
    requires Writable(c)
    ensures forall i | 0 <= i < |Fields(c, deleted)| :: Encodable(Fields(c, deleted)[i])
  {
    var a, b, d, n := Scalars(c), Pointers(c.compactPointers), Deletions(deleted), Additions(c.newFiles);
    assert forall i | 0 <= i < |b| :: Encodable(b[i]);
    assert forall i | 0 <= i < |n| :: Encodable(n[i]);
  }

  /**
   An edit decoded from what another was written as: it succeeds exactly when the levels
   are in range, and then gives that edit, after the compaction pointers the decoding
   edit already had.
   */
  lemma DecodeEncoded(c: Contents, e: Contents, b: Bytes)
    requires Writable(e) && IsEncoding(e, b)
    ensures DecodeFields(Cleared(c), b).0 == Ok <==> LevelsOk(e)
    ensures LevelsOk(e) ==>
            DecodeFields(Cleared(c), b).1 == e.(compactPointers := c.compactPointers + e.compactPointers)
  {
    var deleted :| IsListing(deleted, e.deletedFiles) && b == Encoding(Fields(e, deleted));
    FieldsEncodable(e, deleted);
    FieldsInRange(e, deleted);
    FieldsRoundTrip(Cleared(c), Fields(e, deleted));
    ApplyFields(c, e, deleted);
  }

  /** The edit comes back the same exactly when the decoding edit had no compaction pointers. */
  lemma RoundTripIff(c: Contents, e: Contents, b: Bytes)
    requires Writable(e) && LevelsOk(e) && IsEncoding(e, b)
    ensures DecodeFields(Cleared(c), b) == (Ok, e) <==> c.compactPointers == []
  {
    DecodeEncoded(c, e, b);
    assert |c.compactPointers + e.compactPointers| == |c.compactPointers| + |e.compactPointers|;
    assert c.compactPointers == [] ==> c.compactPointers + e.compactPointers == e.compactPointers;
  }

  // ----- The class -----

  class VersionEdit {
    var comparator: Option<Bytes>
    var logNumber: Option<uint64>
    var prevLogNumber: Option<uint64>
    var nextFileNumber: Option<uint64>
    var lastSequence: Option<uint64>
    var compactPointers: seq<(uint32, Bytes)>
    var deletedFiles: set<(uint32, uint64)>
    var newFiles: seq<(uint32, FileMetaData)>

    function Value(): Contents
      reads this
    {
      Contents(comparator, logNumber, prevLogNumber, nextFileNumber, lastSequence, compactPointers, deletedFiles,
          newFiles)
    }

    constructor ()
      ensures Value() == Contents(None, None, None, None, None, [], {}, [])
    {
      comparator, logNumber, prevLogNumber, nextFileNumber, lastSequence := None, None, None, None, None;
      compactPointers, deletedFiles, newFiles := [], {}, [];
    }

    method Clear()
      modifies this
      ensures Value() == Cleared(old(Value()))
    {
      comparator, logNumber, prevLogNumber, nextFileNumber, lastSequence := None, None, None, None, None;
      deletedFiles, newFiles := {}, [];
    }

    method EncodeTo(dst: Bytes) returns (b: Bytes)
      ensures |b| >= |dst| && b[..|dst|] == dst && IsEncoding(Value(), b[|dst|..])
    {
      var scalars := EncodeScalars();
      ghost var fields := Scalars(Value());
      b := EncodePointers(dst, dst + scalars, fields);
      ghost var before := fields + Pointers(compactPointers);
      ghost var deleted;
      b, deleted := EncodeDeletions(dst, b, before);
      ghost var most := before + Deletions(deleted);
      b := EncodeAdditions(dst, b, most);
      assert most + Additions(newFiles) == Fields(Value(), deleted);
      assert b[|dst|..] == Encoding(Fields(Value(), deleted));
    }

    method EncodePointers(dst: Bytes, b0: Bytes, ghost before: seq<Field>) returns (b: Bytes)
      requires b0 == dst + Encoding(before)
      ensures b == dst + Encoding(before + Pointers(compactPointers))
    {
      b := b0;
      assert before + Pointers(compactPointers[..0]) == before;
      var i := 0;
      while i < |compactPointers|
        invariant i <= |compactPointers|
        invariant b == dst + Encoding(before + Pointers(compactPointers[..i]))
      {
        var (level, key) := compactPointers[i];
        assert Pointers(compactPointers[..i+1]) == Pointers(compactPointers[..i]) + [CompactPointer(level, key)];
        NextWritten(dst, before, Pointers(compactPointers[..i]), CompactPointer(level, key));
        b := b + (Varint(COMPACT_POINTER_TAG) + (Varint(level) + LengthPrefixed(key)));
        i := i + 1;
      }
      assert compactPointers[..i] == compactPointers;
    }

    method EncodeAdditions(dst: Bytes, b0: Bytes, ghost before: seq<Field>) returns (b: Bytes)
      requires b0 == dst + Encoding(before)
      ensures b == dst + Encoding(before + Additions(newFiles))
    {
      b := b0;
      assert before + Additions(newFiles[..0]) == before;
      var i := 0;
      while i < |newFiles|
        invariant i <= |newFiles|
        invariant b == dst + Encoding(before + Additions(newFiles[..i]))
      {
        var (level, file) := newFiles[i];
        assert Additions(newFiles[..i+1]) == Additions(newFiles[..i]) + [NewFile(level, file)];
        NextWritten(dst, before, Additions(newFiles[..i]), NewFile(level, file));
        b := b + (Varint(NEW_FILE_TAG) + (Varint(level) + FileBytes(file)));
        i := i + 1;
      }
      assert newFiles[..i] == newFiles;
    }

    method EncodeScalars() returns (b: Bytes)
      ensures b == Encoding(Scalars(Value()))
    {
      b := [];
      ghost var fields: seq<Field> := [];
      assert Encoding(fields) == [];
      if comparator.Some? {
        OneMore(fields, ComparatorName(comparator.value));
        assert fields + [ComparatorName(comparator.value)] == [ComparatorName(comparator.value)];
        fields := [ComparatorName(comparator.value)];
        b := Varint(COMPARATOR_TAG) + LengthPrefixed(comparator.value);
      }
      b, fields := PutNumber(b, LOG_NUMBER_TAG, logNumber, fields,
          if logNumber.Some? then [LogNumber(logNumber.value)] else []);
      b, fields := PutNumber(b, PREV_LOG_NUMBER_TAG, prevLogNumber, fields,
          if prevLogNumber.Some? then [PrevLogNumber(prevLogNumber.value)] else []);
      b, fields := PutNumber(b, NEXT_FILE_NUMBER_TAG, nextFileNumber, fields,
          if nextFileNumber.Some? then [NextFileNumber(nextFileNumber.value)] else []);
      b, fields := PutNumber(b, LAST_SEQUENCE_TAG, lastSequence, fields,
          if lastSequence.Some? then [LastSequence(lastSequence.value)] else []);
    }

    /** Writes a number and its tag if there is one. */
    static method PutNumber(b0: Bytes, tag: uint32, number: Option<uint64>, ghost fields0: seq<Field>,
                            ghost more: seq<Field>)
      returns (b: Bytes, ghost fields: seq<Field>)
      requires b0 == Encoding(fields0)
      requires number.None? ==> more == []
      requires number.Some? ==> |more| == 1 && FieldBytes(more[0]) == Varint(tag) + Varint(number.value)
      ensures fields == fields0 + more && b == Encoding(fields)
    {
      b, fields := b0, fields0 + more;
      assert more == [] ==> fields == fields0;
      if number.Some? {
        OneMore(fields0, more[0]);
        assert more == [more[0]];
        b := b + (Varint(tag) + Varint(number.value));
      }
    }

    /** The deleted files, least level and number first. */
    method EncodeDeletions(dst: Bytes, b0: Bytes, ghost before: seq<Field>)
      returns (b: Bytes, ghost deleted: seq<(uint32, uint64)>)
      requires b0 == dst + Encoding(before)
      ensures IsListing(deleted, deletedFiles) && b == dst + Encoding(before + Deletions(deleted))
    {
      b := b0;
      deleted := [];
      var left := deletedFiles;
      assert before + Deletions([]) == before;
      while left != {}
        invariant left <= deletedFiles && IsListing(deleted, deletedFiles - left)
        invariant forall p, q | p in deleted && q in left :: PairBefore(p, q)
        invariant b == dst + Encoding(before + Deletions(deleted))
      {
        LeastExists(left);
        var p :| p in left && forall q <- left :: q == p || PairBefore(p, q);
        assert Deletions(deleted + [p]) == Deletions(deleted) + [DeletedFile(p.0, p.1)];
        NextWritten(dst, before, Deletions(deleted), DeletedFile(p.0, p.1));
        NextListed(deleted, deletedFiles, left, p);
        b := b + (Varint(DELETED_FILE_TAG) + (Varint(p.0) + Varint(p.1)));
        deleted := deleted + [p];
        left := left - {p};
      }
    }

    method DecodeFrom(src: Bytes) returns (status: Status)
      modifies this
      ensures (status, Value()) == DecodeFields(Cleared(old(Value())), src)
    {
      Clear();
      var input := src;
      status := Ok;
      var tag := GetVarint32(input);
      while status == Ok && tag.Some?
        invariant tag == GetVarint32(input)
        invariant status == Ok ==> DecodeFields(Value(), input) == DecodeFields(Cleared(old(Value())), src)
        invariant status != Ok ==> (status, Value()) == DecodeFields(Cleared(old(Value())), src)
        decreases status == Ok, |input|
      {
        var (st, r) := ParseField(tag.value.0, tag.value.1);
        if r.None? {
          status := st;
        } else {
          Store(r.value.0);
          input := r.value.1;
          tag := GetVarint32(input);
        }
      }
      if status == Ok && input != [] {
        status := InvalidTag;
      }
    }

    method Store(f: Field)
      modifies this
      ensures Value() == Apply(old(Value()), f)
    {
      match f
      case ComparatorName(name) => comparator := Some(name);
      case LogNumber(number) => logNumber := Some(number);
      case PrevLogNumber(number) => prevLogNumber := Some(number);
      case NextFileNumber(number) => nextFileNumber := Some(number);
      case LastSequence(number) => lastSequence := Some(number);
      case CompactPointer(level, key) => compactPointers := compactPointers + [(level, key)];
      case DeletedFile(level, number) => deletedFiles := deletedFiles + {(level, number)};
      case NewFile(level, file) => newFiles := newFiles + [(level, file)];
    }
  }

  lemma NextWritten(dst: Bytes, before: seq<Field>, some: seq<Field>, f: Field)
    ensures dst + Encoding(before + some) + FieldBytes(f) == dst + Encoding(before + (some + [f]))
  {
    assert before + (some + [f]) == before + some + [f];
    OneMore(before + some, f);
    Regroup(dst, Encoding(before + some), FieldBytes(f));
  }

  lemma NextListed(list: seq<(uint32, uint64)>, all: set<(uint32, uint64)>, left: set<(uint32, uint64)>,
                   p: (uint32, uint64))
    requires left <= all && IsListing(list, all - left) && p in left
    requires forall a, b | a in list && b in left :: PairBefore(a, b)
    ensures IsListing(list + [p], all - (left - {p}))
  {
    forall q
      ensures q in list + [p] <==> q in all - (left - {p})
    {
    }
  }

  lemma {:induction false} LeastExists(s: set<(uint32, uint64)>)
    requires s != {}
    ensures exists p :: p in s && forall q <- s :: q == p || PairBefore(p, q)
  {
    var x :| x in s;
    var least := x;
    if s - {x} != {} {
      LeastExists(s - {x});
      var p :| p in s - {x} && forall q <- s - {x} :: q == p || PairBefore(p, q);
      least := if PairBefore(x, p) then x else p;
    }
    forall q | q in s
      ensures q == least || PairBefore(least, q)
    {
      if q != x {
        assert q in s - {x};
      }
    }
  }

  /**
   A written edit, read into another: the original comes back if and only if the reader had no
   compaction pointers.
   */
  method WriteAndRead(e: VersionEdit, into: VersionEdit) returns (status: Status)
    requires e != into && Writable(e.Value()) && LevelsOk(e.Value())
    modifies into
    ensures status == Ok
    ensures into.Value() == e.Value() <==> old(into.compactPointers) == []
  {
    var b := e.EncodeTo([]);
    assert b[0..] == b;
    DecodeEncoded(into.Value(), e.Value(), b);
    RoundTripIff(into.Value(), e.Value(), b);
    status := into.DecodeFrom(b);
  }
}
