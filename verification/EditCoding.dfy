/** VersionEdit::EncodeTo and DecodeFrom: a manifest record as bytes. */
module EditCoding {
  import opened Coding

  const NUM_LEVELS: nat := 7

  const COMPARATOR: nat := 1
  const LOG_NUMBER: nat := 2
  const NEXT_FILE_NUMBER: nat := 3
  const LAST_SEQUENCE: nat := 4
  const COMPACT_POINTER: nat := 5
  const DELETED_FILE: nat := 6
  const NEW_FILE: nat := 7
  const PREV_LOG_NUMBER: nat := 9

  datatype TableFile = TableFile(number: nat, size: nat, smallest: seq<byte>, largest: seq<byte>)

  /** One tagged field of a record. */
  datatype Field =
    | Comparator(name: seq<byte>)
    | LogNumber(n: nat)
    | PrevLogNumber(n: nat)
    | NextFileNumber(n: nat)
    | LastSequence(n: nat)
    | CompactPointer(level: nat, key: seq<byte>)
    | DeletedFile(level: nat, n: nat)
    | NewFile(level: nat, file: TableFile)

  /** What an edit holds.  `deleted` is an ordered set. */
  datatype Edit = Edit(comparator: Maybe<seq<byte>>, logNumber: Maybe<nat>, prevLogNumber: Maybe<nat>,
      nextFileNumber: Maybe<nat>,
                       lastSequence: Maybe<nat>, compactPointers: seq<(nat, seq<byte>)>, deleted: seq<(nat, nat)>,
                       newFiles: seq<(nat, TableFile)>)

  const BLANK := Edit(Nothing, Nothing, Nothing, Nothing, Nothing, [], [], [])

  // ---- fields ----

  function EncodeField(f: Field): (r: seq<byte>)
    ensures r != []
  {
    match f
    case Comparator(name) => EncodeVarint(COMPARATOR) + LengthPrefixed(name)
    case LogNumber(n) => EncodeVarint(LOG_NUMBER) + EncodeVarint(n)
    case PrevLogNumber(n) => EncodeVarint(PREV_LOG_NUMBER) + EncodeVarint(n)
    case NextFileNumber(n) => EncodeVarint(NEXT_FILE_NUMBER) + EncodeVarint(n)
    case LastSequence(n) => EncodeVarint(LAST_SEQUENCE) + EncodeVarint(n)
    case CompactPointer(level, key) => EncodeVarint(COMPACT_POINTER) + EncodeVarint(level) + LengthPrefixed(key)
    case DeletedFile(level, n) => EncodeVarint(DELETED_FILE) + EncodeVarint(level) + EncodeVarint(n)
    case NewFile(level, file) =>
      EncodeVarint(NEW_FILE) + EncodeVarint(level) + EncodeVarint(file.number) + EncodeVarint(file.size)
      + LengthPrefixed(file.smallest) + LengthPrefixed(file.largest)
  }

  function EncodeFields(fields: seq<Field>): seq<byte> {
    if fields == [] then [] else EncodeFields(fields[..|fields| - 1]) + EncodeField(fields[|fields| - 1])
  }

  /** Numbers fit 64 bits, lengths 32, and levels exist. */
  predicate Fits(f: Field) {
    match f
    case Comparator(name) => |name| < TWO_32
    case LogNumber(n) => n < TWO_64
    case PrevLogNumber(n) => n < TWO_64
    case NextFileNumber(n) => n < TWO_64
    case LastSequence(n) => n < TWO_64
    case CompactPointer(level, key) => level < NUM_LEVELS && |key| < TWO_32
    case DeletedFile(level, n) => level < NUM_LEVELS && n < TWO_64
    case NewFile(level, file) =>
      level < NUM_LEVELS && file.number < TWO_64 && file.size < TWO_64 && |file.smallest| < TWO_32
          && |file.largest| < TWO_32
  }

  predicate AllFit(fields: seq<Field>) {
    forall i :: 0 <= i < |fields| ==> Fits(fields[i])
  }

  function GetLevel(input: seq<byte>): (r: Parsed<nat>)
    ensures r.Value? ==> r.v < NUM_LEVELS && |r.rest| < |input|
  {
    match ParseVarint32(input)
    case Malformed => Malformed
    case Value(v, rest) => if v < NUM_LEVELS then Value(v, rest) else Malformed
  }

  /** The body of the field with this tag; Malformed where DecodeFrom sets msg. */
  function ParseBody(tag: nat, input: seq<byte>): (r: Parsed<Field>)
    ensures r.Value? ==> |r.rest| < |input| && Fits(r.v)
  {
    if tag == COMPARATOR then
      match ParseSlice(input)
      case Malformed => Malformed
      case Value(s, rest) => ShortName(input); Value(Comparator(s), rest)
    else if tag == LOG_NUMBER then
      match ParseVarint64(input)
      case Malformed => Malformed
      case Value(n, rest) => Value(LogNumber(n), rest)
    else if tag == PREV_LOG_NUMBER then
      match ParseVarint64(input)
      case Malformed => Malformed
      case Value(n, rest) => Value(PrevLogNumber(n), rest)
    else if tag == NEXT_FILE_NUMBER then
      match ParseVarint64(input)
      case Malformed => Malformed
      case Value(n, rest) => Value(NextFileNumber(n), rest)
    else if tag == LAST_SEQUENCE then
      match ParseVarint64(input)
      case Malformed => Malformed
      case Value(n, rest) => Value(LastSequence(n), rest)
    else if tag == COMPACT_POINTER then
      match GetLevel(input)
      case Malformed => Malformed
      case Value(level, afterLevel) =>
        match ParseSlice(afterLevel)
        case Malformed => Malformed
        case Value(key, rest) => ShortName(afterLevel); Value(CompactPointer(level, key), rest)
    else if tag == DELETED_FILE then
      match GetLevel(input)
      case Malformed => Malformed
      case Value(level, afterLevel) =>
        match ParseVarint64(afterLevel)
        case Malformed => Malformed
        case Value(n, rest) => Value(DeletedFile(level, n), rest)
    else if tag == NEW_FILE then
      match GetLevel(input)
      case Malformed => Malformed
      case Value(level, afterLevel) =>
        match ParseFile(afterLevel)
        case Malformed => Malformed
        case Value(file, rest) => Value(NewFile(level, file), rest)
    else Malformed
  }

  lemma ShortName(input: seq<byte>)
    ensures var r := ParseSlice(input); r.Value? ==> |r.v| < TWO_32
  {
  }

  function ParseFile(input: seq<byte>): (r: Parsed<TableFile>)
    ensures r.Value? ==> |r.rest| < |input| && Fits(NewFile(0, r.v))
  {
    match ParseVarint64(input)
    case Malformed => Malformed
    case Value(number, afterNumber) =>
      match ParseVarint64(afterNumber)
      case Malformed => Malformed
      case Value(size, afterSize) =>
        match ParseSlice(afterSize)
        case Malformed => Malformed
        case Value(smallest, afterSmallest) =>
          match ParseSlice(afterSmallest)
          case Malformed => Malformed
          case Value(largest, rest) =>
            ShortName(afterSize);
            ShortName(afterSmallest);
            Value(TableFile(number, size, smallest, largest), rest)
  }

  // ---- edits ----

  predicate PairBefore(a: (nat, nat), b: (nat, nat)) {
    a.0 < b.0 || (a.0 == b.0 && a.1 < b.1)
  }

  ghost predicate PairsSorted(s: seq<(nat, nat)>) {
    forall i, j :: 0 <= i < j < |s| ==> PairBefore(s[i], s[j])
  }

  /** std::set::insert. */
  function InsertPair(s: seq<(nat, nat)>, p: (nat, nat)): seq<(nat, nat)> {
    if s == [] || PairBefore(p, s[0]) then [p] + s
    else if s[0] == p then s
    else [s[0]] + InsertPair(s[1..], p)
  }

  /** The edit after one more field has been read. */
  function Add(e: Edit, f: Field): Edit {
    match f
    case Comparator(name) => e.(comparator := Just(name))
    case LogNumber(n) => e.(logNumber := Just(n))
    case PrevLogNumber(n) => e.(prevLogNumber := Just(n))
    case NextFileNumber(n) => e.(nextFileNumber := Just(n))
    case LastSequence(n) => e.(lastSequence := Just(n))
    case CompactPointer(level, key) => e.(compactPointers := e.compactPointers + [(level, key)])
    case DeletedFile(level, n) => e.(deleted := InsertPair(e.deleted, (level, n)))
    case NewFile(level, file) => e.(newFiles := e.newFiles + [(level, file)])
  }

  function AddAll(e: Edit, fields: seq<Field>): Edit {
    if fields == [] then e else Add(AddAll(e, fields[..|fields| - 1]), fields[|fields| - 1])
  }

  /** The fields of an edit in the order in which EncodeTo writes them. */
  function FieldsOf(e: Edit): seq<Field> {
    Scalars(e) + Pointers(e.compactPointers) + Deletions(e.deleted) + Additions(e.newFiles)
  }

  function Scalars(e: Edit): seq<Field> {
    (if e.comparator.Just? then [Comparator(e.comparator.value)] else [])
    + (if e.logNumber.Just? then [LogNumber(e.logNumber.value)] else [])
    + (if e.prevLogNumber.Just? then [PrevLogNumber(e.prevLogNumber.value)] else [])
    + (if e.nextFileNumber.Just? then [NextFileNumber(e.nextFileNumber.value)] else [])
    + (if e.lastSequence.Just? then [LastSequence(e.lastSequence.value)] else [])
  }

  function Pointers(s: seq<(nat, seq<byte>)>): (r: seq<Field>)
    ensures |r| == |s| && forall i :: 0 <= i < |s| ==> r[i] == CompactPointer(s[i].0, s[i].1)
  {
    if s == [] then [] else Pointers(s[..|s| - 1]) + [CompactPointer(s[|s| - 1].0, s[|s| - 1].1)]
  }

  function Deletions(s: seq<(nat, nat)>): (r: seq<Field>)
    ensures |r| == |s| && forall i :: 0 <= i < |s| ==> r[i] == DeletedFile(s[i].0, s[i].1)
  {
    if s == [] then [] else Deletions(s[..|s| - 1]) + [DeletedFile(s[|s| - 1].0, s[|s| - 1].1)]
  }

  function Additions(s: seq<(nat, TableFile)>): (r: seq<Field>)
    ensures |r| == |s| && forall i :: 0 <= i < |s| ==> r[i] == NewFile(s[i].0, s[i].1)
  {
    if s == [] then [] else Additions(s[..|s| - 1]) + [NewFile(s[|s| - 1].0, s[|s| - 1].1)]
  }

  ghost predicate EditFits(e: Edit) {
    AllFit(FieldsOf(e)) && PairsSorted(e.deleted)
  }

  /** How DecodeFrom ends, and what it has put into the edit by then. */
  datatype Decoded = Decoded(edit: Edit, ok: bool)

  function DecodeFields(e: Edit, input: seq<byte>): Decoded
    decreases |input|
  {
    match ParseVarint32(input)
    case Malformed => Decoded(e, input == [])
    case Value(tag, rest) =>
      match ParseBody(tag, rest)
      case Malformed => Decoded(e, false)
      case Value(f, after) => DecodeFields(Add(e, f), after)
  }

  // ---- one field, then all of them ----

  lemma LevelRoundTrip(level: nat, rest: seq<byte>)
    requires level < NUM_LEVELS
    ensures GetLevel(EncodeVarint(level) + rest) == Value(level, rest)
  {
    hide EncodeVarint, ParseVarint32;
    Varint32RoundTrip(level, rest);
  }

  lemma FileRoundTrip(f: TableFile, rest: seq<byte>)
    requires Fits(NewFile(0, f))
    ensures ParseFile(EncodeVarint(f.number) + EncodeVarint(f.size) + LengthPrefixed(f.smallest)
        + LengthPrefixed(f.largest) + rest)
      == Value(f, rest)
  {
    hide EncodeVarint, ParseVarint64, LengthPrefixed, ParseSlice;
    var a, b, c, d := EncodeVarint(f.number), EncodeVarint(f.size), LengthPrefixed(f.smallest),
        LengthPrefixed(f.largest);
    assert a + b + c + d + rest == a + (b + (c + (d + rest)));
    Varint64RoundTrip(f.number, b + (c + (d + rest)));
    Varint64RoundTrip(f.size, c + (d + rest));
    SliceRoundTrip(f.smallest, d + rest);
    SliceRoundTrip(f.largest, rest);
  }

  function TagOf(f: Field): nat {
    match f
    case Comparator(_) => COMPARATOR
    case LogNumber(_) => LOG_NUMBER
    case PrevLogNumber(_) => PREV_LOG_NUMBER
    case NextFileNumber(_) => NEXT_FILE_NUMBER
    case LastSequence(_) => LAST_SEQUENCE
    case CompactPointer(_, _) => COMPACT_POINTER
    case DeletedFile(_, _) => DELETED_FILE
    case NewFile(_, _) => NEW_FILE
  }

  function BodyOf(f: Field): seq<byte> {
    match f
    case Comparator(name) => LengthPrefixed(name)
    case LogNumber(n) => EncodeVarint(n)
    case PrevLogNumber(n) => EncodeVarint(n)
    case NextFileNumber(n) => EncodeVarint(n)
    case LastSequence(n) => EncodeVarint(n)
    case CompactPointer(level, key) => EncodeVarint(level) + LengthPrefixed(key)
    case DeletedFile(level, n) => EncodeVarint(level) + EncodeVarint(n)
    case NewFile(level, file) =>
      EncodeVarint(level) + (EncodeVarint(file.number) + EncodeVarint(file.size) + LengthPrefixed(file.smallest)
          + LengthPrefixed(file.largest))
  }

  lemma TagAndBody(f: Field)
    ensures EncodeField(f) == EncodeVarint(TagOf(f)) + BodyOf(f)
  {
    hide EncodeVarint, LengthPrefixed;
    match f
    case CompactPointer(level, key) =>
      Regroup3(EncodeVarint(COMPACT_POINTER), EncodeVarint(level), LengthPrefixed(key));
    case DeletedFile(level, n) =>
      Regroup3(EncodeVarint(DELETED_FILE), EncodeVarint(level), EncodeVarint(n));
    case NewFile(level, file) =>
      var t, l, n, s, lo, hi := EncodeVarint(NEW_FILE), EncodeVarint(level), EncodeVarint(file.number),
          EncodeVarint(file.size),
        LengthPrefixed(file.smallest), LengthPrefixed(file.largest);
      assert t + l + n + s + lo + hi == t + (l + (n + s + lo + hi));
    case _ =>
  }

  lemma Regroup3(a: seq<byte>, b: seq<byte>, c: seq<byte>)
    ensures a + b + c == a + (b + c)
  {
  }

  lemma BodyRoundTrip(f: Field, rest: seq<byte>)
    requires Fits(f)
    ensures ParseBody(TagOf(f), BodyOf(f) + rest) == Value(f, rest)
  {
    hide EncodeVarint, ParseVarint32, ParseVarint64, LengthPrefixed, ParseSlice, GetLevel, ParseFile;
    match f
    case Comparator(name) => SliceRoundTrip(name, rest);
    case LogNumber(n) => Varint64RoundTrip(n, rest);
    case PrevLogNumber(n) => Varint64RoundTrip(n, rest);
    case NextFileNumber(n) => Varint64RoundTrip(n, rest);
    case LastSequence(n) => Varint64RoundTrip(n, rest);
    case CompactPointer(level, key) =>
      Regroup3(EncodeVarint(level), LengthPrefixed(key), rest);
      LevelRoundTrip(level, LengthPrefixed(key) + rest);
      SliceRoundTrip(key, rest);
    case DeletedFile(level, n) =>
      Regroup3(EncodeVarint(level), EncodeVarint(n), rest);
      LevelRoundTrip(level, EncodeVarint(n) + rest);
      Varint64RoundTrip(n, rest);
    case NewFile(level, file) =>
      var body := EncodeVarint(file.number) + EncodeVarint(file.size) + LengthPrefixed(file.smallest)
          + LengthPrefixed(file.largest);
      Regroup3(EncodeVarint(level), body, rest);
      LevelRoundTrip(level, body + rest);
      FileRoundTrip(file, rest);
  }

  /** A written field is read back, whatever follows it. */
  lemma FieldRoundTrip(e: Edit, f: Field, rest: seq<byte>)
    requires Fits(f)
    ensures DecodeFields(e, EncodeField(f) + rest) == DecodeFields(Add(e, f), rest)
  {
    hide EncodeVarint, ParseVarint32, ParseBody, BodyOf, EncodeField, Add;
    TagAndBody(f);
    var tag := TagOf(f);
    Regroup3(EncodeVarint(tag), BodyOf(f), rest);
    Varint32RoundTrip(tag, BodyOf(f) + rest);
    BodyRoundTrip(f, rest);
    assert EncodeField(f) + rest != [];
  }

  lemma {:induction false} FieldsRoundTrip(e: Edit, fields: seq<Field>, rest: seq<byte>)
    requires AllFit(fields)
    ensures DecodeFields(e, EncodeFields(fields) + rest) == DecodeFields(AddAll(e, fields), rest)
    decreases |fields|
  {
    hide DecodeFields, EncodeField, Add, Fits;
    if fields == [] {
      assert EncodeFields(fields) + rest == rest;
    } else {
      var n := |fields| - 1;
      Regroup3(EncodeFields(fields[..n]), EncodeField(fields[n]), rest);
      FieldsRoundTrip(e, fields[..n], EncodeField(fields[n]) + rest);
      FieldRoundTrip(AddAll(e, fields[..n]), fields[n], rest);
    }
  }

  // ---- the fields of an edit put back together ----

  lemma {:induction false} AddAllJoin(e: Edit, a: seq<Field>, b: seq<Field>)
    ensures AddAll(e, a + b) == AddAll(AddAll(e, a), b)
    decreases |b|
  {
    hide Add;
    if b == [] {
      assert a + b == a;
    } else {
      var n := |b| - 1;
      assert (a + b)[..|a + b| - 1] == a + b[..n];
      AddAllJoin(e, a, b[..n]);
    }
  }

  lemma {:induction false} AddPointers(e: Edit, s: seq<(nat, seq<byte>)>)
    ensures AddAll(e, Pointers(s)) == e.(compactPointers := e.compactPointers + s)
    decreases |s|
  {
    if s == [] {
      assert e.compactPointers + s == e.compactPointers;
    } else {
      var n := |s| - 1;
      AddPointers(e, s[..n]);
      assert Pointers(s)[..n] == Pointers(s[..n]);
      assert e.compactPointers + s[..n] + [s[n]] == e.compactPointers + s;
    }
  }

  lemma {:induction false} AddAdditions(e: Edit, s: seq<(nat, TableFile)>)
    ensures AddAll(e, Additions(s)) == e.(newFiles := e.newFiles + s)
    decreases |s|
  {
    if s == [] {
      assert e.newFiles + s == e.newFiles;
    } else {
      var n := |s| - 1;
      AddAdditions(e, s[..n]);
      assert Additions(s)[..n] == Additions(s[..n]);
      assert e.newFiles + s[..n] + [s[n]] == e.newFiles + s;
    }
  }

  /** A pair above all others goes to the end. */
  lemma {:induction false} InsertLast(s: seq<(nat, nat)>, p: (nat, nat))
    requires forall i :: 0 <= i < |s| ==> PairBefore(s[i], p)
    ensures InsertPair(s, p) == s + [p]
  {
    if s != [] {
      InsertLast(s[1..], p);
      assert [s[0]] + (s[1..] + [p]) == s + [p];
    }
  }

  lemma {:induction false} AddDeletions(e: Edit, s: seq<(nat, nat)>)
    requires PairsSorted(s) && e.deleted == []
    ensures AddAll(e, Deletions(s)) == e.(deleted := s)
    decreases |s|
  {
    if s != [] {
      var n := |s| - 1;
      InsertLast(s[..n], s[n]);
      hide InsertPair, PairsSorted;
      AddDeletions(e, s[..n]);
      assert Deletions(s)[..n] == Deletions(s[..n]);
      assert s[..n] + [s[n]] == s;
    }
  }

  lemma AddOne(e: Edit, f: Field)
    ensures AddAll(e, [f]) == Add(e, f)
  {
    assert [f][..0] == [];
  }

  /** The counters and the comparator name, over whatever was there. */
  lemma AddScalars(base: Edit, e: Edit)
    requires base == BLANK.(compactPointers := base.compactPointers)
    ensures AddAll(base, Scalars(e)) == e.(compactPointers := base.compactPointers, deleted := [], newFiles := [])
  {
    hide AddAll;
    var none: seq<Field> := [];
    assert AddAll(base, none) == base by { NothingAdded(base); }
    var c := if e.comparator.Just? then [Comparator(e.comparator.value)] else [];
    var l := if e.logNumber.Just? then [LogNumber(e.logNumber.value)] else [];
    var p := if e.prevLogNumber.Just? then [PrevLogNumber(e.prevLogNumber.value)] else [];
    var n := if e.nextFileNumber.Just? then [NextFileNumber(e.nextFileNumber.value)] else [];
    var s := if e.lastSequence.Just? then [LastSequence(e.lastSequence.value)] else [];
    AddAllJoin(base, c + l + p + n, s);
    AddAllJoin(base, c + l + p, n);
    AddAllJoin(base, c + l, p);
    AddAllJoin(base, c, l);
    var e1 := base.(comparator := e.comparator);
    assert AddAll(base, c) == e1 by { NothingAdded(base); if c != [] { AddOne(base, c[0]); } }
    var e2 := e1.(logNumber := e.logNumber);
    assert AddAll(e1, l) == e2 by { NothingAdded(e1); if l != [] { AddOne(e1, l[0]); } }
    var e3 := e2.(prevLogNumber := e.prevLogNumber);
    assert AddAll(e2, p) == e3 by { NothingAdded(e2); if p != [] { AddOne(e2, p[0]); } }
    var e4 := e3.(nextFileNumber := e.nextFileNumber);
    assert AddAll(e3, n) == e4 by { NothingAdded(e3); if n != [] { AddOne(e3, n[0]); } }
    assert AddAll(e4, s) == e4.(lastSequence := e.lastSequence)
        by { NothingAdded(e4); if s != [] { AddOne(e4, s[0]); } }
  }

  lemma NothingAdded(e: Edit)
    ensures AddAll(e, []) == e
  {
  }

  /** Clear resets everything but the compaction pointers. */
  function Cleared(e: Edit): Edit {
    BLANK.(compactPointers := e.compactPointers)
  }

  lemma FieldsPutTogether(base: Edit, e: Edit)
    requires PairsSorted(e.deleted)
    ensures AddAll(Cleared(base), FieldsOf(e)) == e.(compactPointers := base.compactPointers + e.compactPointers)
  {
    hide AddAll, Scalars, Pointers, Deletions, Additions;
    var a, b, c, d := Scalars(e), Pointers(e.compactPointers), Deletions(e.deleted), Additions(e.newFiles);
    AddAllJoin(Cleared(base), a + b + c, d);
    AddAllJoin(Cleared(base), a + b, c);
    AddAllJoin(Cleared(base), a, b);
    AddScalars(Cleared(base), e);
    var e1 := e.(compactPointers := base.compactPointers, deleted := [], newFiles := []);
    AddPointers(e1, e.compactPointers);
    var e2 := e1.(compactPointers := base.compactPointers + e.compactPointers);
    AddDeletions(e2, e.deleted);
    var e3 := e2.(deleted := e.deleted);
    AddAdditions(e3, e.newFiles);
    assert [] + e.newFiles == e.newFiles;
  }

  function Encoded(e: Edit): seq<byte> {
    EncodeFields(FieldsOf(e))
  }

  /** Decoding what was encoded succeeds and gives the edit back, behind the
      compaction pointers that were already in the receiving edit. */
  lemma EditRoundTrip(base: Edit, e: Edit)
    requires EditFits(e)
    ensures DecodeFields(Cleared(base), Encoded(e))
        == Decoded(e.(compactPointers := base.compactPointers + e.compactPointers), true)
  {
    hide DecodeFields, EncodeFields, FieldsOf, AddAll, PairsSorted;
    var none: seq<byte> := [];
    assert Encoded(e) + none == Encoded(e);
    FieldsRoundTrip(Cleared(base), FieldsOf(e), none);
    FieldsPutTogether(base, e);
    AtEnd(AddAll(Cleared(base), FieldsOf(e)));
  }

  lemma AtEnd(e: Edit)
    ensures DecodeFields(e, []) == Decoded(e, true)
  {
  }

  /** So an edit comes back as it was exactly if the receiver had no pointers. */
  lemma EditComesBackExactly(base: Edit, e: Edit)
    requires EditFits(e)
    ensures DecodeFields(Cleared(base), Encoded(e)) == Decoded(e, true) <==> base.compactPointers == []
  {
    hide DecodeFields, Encoded;
    EditRoundTrip(base, e);
    assert |base.compactPointers + e.compactPointers| == |base.compactPointers| + |e.compactPointers|;
    assert [] + e.compactPointers == e.compactPointers;
  }

  /** An edit without any field, read into one that has a pointer for level 1. */
  lemma StalePointerStays(key: seq<byte>)
    ensures Encoded(BLANK) == []
    ensures DecodeFields(Cleared(BLANK.(compactPointers := [(1, key)])), [])
        == Decoded(BLANK.(compactPointers := [(1, key)]), true)
  {
    assert FieldsOf(BLANK) == [];
    NoFields();
  }

  // ---- the class ----

  class VersionEdit {
    var comparator: Maybe<seq<byte>>
    var logNumber: Maybe<nat>
    var prevLogNumber: Maybe<nat>
    var nextFileNumber: Maybe<nat>
    var lastSequence: Maybe<nat>
    var compactPointers: seq<(nat, seq<byte>)>
    var deletedFiles: seq<(nat, nat)>
    var newFiles: seq<(nat, TableFile)>

    ghost function State(): Edit
      reads this
    {
      Edit(comparator, logNumber, prevLogNumber, nextFileNumber, lastSequence, compactPointers, deletedFiles, newFiles)
    }

    constructor ()
      ensures State() == BLANK
    {
      comparator, logNumber, prevLogNumber := Nothing, Nothing, Nothing;
      nextFileNumber, lastSequence := Nothing, Nothing;
      compactPointers, deletedFiles, newFiles := [], [], [];
    }

    method Clear()
      modifies this
      ensures State() == Cleared(old(State()))
    {
      comparator, logNumber, prevLogNumber := Nothing, Nothing, Nothing;
      nextFileNumber, lastSequence := Nothing, Nothing;
      deletedFiles, newFiles := [], [];
    }

    method EncodeTo() returns (dst: seq<byte>)
      ensures dst == Encoded(State())
    {
      hide EncodeField, EncodeFields, Scalars, Pointers, Deletions, Additions;
      dst := EncodeScalars();
      dst := EncodePointers(dst, Scalars(State()));
      dst := EncodeDeletions(dst, Scalars(State()) + Pointers(compactPointers));
      dst := EncodeAdditions(dst, Scalars(State()) + Pointers(compactPointers) + Deletions(deletedFiles));
    }

    method EncodePointers(before: seq<byte>, ghost written: seq<Field>) returns (dst: seq<byte>)
      requires before == EncodeFields(written)
      ensures dst == EncodeFields(written + Pointers(compactPointers))
    {
      hide EncodeField;
      dst := before;
      assert written + Pointers(compactPointers[..0]) == written;
      for i := 0 to |compactPointers|
        invariant dst == EncodeFields(written + Pointers(compactPointers[..i]))
      {
        assert compactPointers[..i + 1][..i] == compactPointers[..i];
        FieldsSnoc(written, Pointers(compactPointers[..i]), CompactPointer(compactPointers[i].0, compactPointers[i].1));
        dst := dst + EncodeField(CompactPointer(compactPointers[i].0, compactPointers[i].1));
      }
      assert compactPointers[..|compactPointers|] == compactPointers;
    }

    method EncodeDeletions(before: seq<byte>, ghost written: seq<Field>) returns (dst: seq<byte>)
      requires before == EncodeFields(written)
      ensures dst == EncodeFields(written + Deletions(deletedFiles))
    {
      hide EncodeField;
      dst := before;
      assert written + Deletions(deletedFiles[..0]) == written;
      for i := 0 to |deletedFiles|
        invariant dst == EncodeFields(written + Deletions(deletedFiles[..i]))
      {
        assert deletedFiles[..i + 1][..i] == deletedFiles[..i];
        FieldsSnoc(written, Deletions(deletedFiles[..i]), DeletedFile(deletedFiles[i].0, deletedFiles[i].1));
        dst := dst + EncodeField(DeletedFile(deletedFiles[i].0, deletedFiles[i].1));
      }
      assert deletedFiles[..|deletedFiles|] == deletedFiles;
    }

    method EncodeAdditions(before: seq<byte>, ghost written: seq<Field>) returns (dst: seq<byte>)
      requires before == EncodeFields(written)
      ensures dst == EncodeFields(written + Additions(newFiles))
    {
      hide EncodeField;
      dst := before;
      assert written + Additions(newFiles[..0]) == written;
      for i := 0 to |newFiles|
        invariant dst == EncodeFields(written + Additions(newFiles[..i]))
      {
        assert newFiles[..i + 1][..i] == newFiles[..i];
        FieldsSnoc(written, Additions(newFiles[..i]), NewFile(newFiles[i].0, newFiles[i].1));
        dst := dst + EncodeField(NewFile(newFiles[i].0, newFiles[i].1));
      }
      assert newFiles[..|newFiles|] == newFiles;
    }

    method EncodeScalars() returns (dst: seq<byte>)
      ensures dst == EncodeFields(Scalars(State()))
    {
      hide EncodeField, EncodeFields;
      ghost var c := if comparator.Just? then [Comparator(comparator.value)] else [];
      ghost var l := if logNumber.Just? then [LogNumber(logNumber.value)] else [];
      ghost var p := if prevLogNumber.Just? then [PrevLogNumber(prevLogNumber.value)] else [];
      ghost var n := if nextFileNumber.Just? then [NextFileNumber(nextFileNumber.value)] else [];
      ghost var s := if lastSequence.Just? then [LastSequence(lastSequence.value)] else [];
      NoFields();
      dst := [];
      if comparator.Just? {
        dst := dst + EncodeField(Comparator(comparator.value));
      }
      FieldsOptional([], c);
      assert dst == EncodeFields(c);
      if logNumber.Just? {
        dst := dst + EncodeField(LogNumber(logNumber.value));
      }
      FieldsOptional(c, l);
      assert dst == EncodeFields(c + l);
      if prevLogNumber.Just? {
        dst := dst + EncodeField(PrevLogNumber(prevLogNumber.value));
      }
      FieldsOptional(c + l, p);
      assert dst == EncodeFields(c + l + p);
      if nextFileNumber.Just? {
        dst := dst + EncodeField(NextFileNumber(nextFileNumber.value));
      }
      FieldsOptional(c + l + p, n);
      assert dst == EncodeFields(c + l + p + n);
      if lastSequence.Just? {
        dst := dst + EncodeField(LastSequence(lastSequence.value));
      }
      FieldsOptional(c + l + p + n, s);
    }

    method DecodeFrom(src: seq<byte>) returns (ok: bool)
      modifies this
      ensures Decoded(State(), ok) == DecodeFields(Cleared(old(State())), src)
    {
      hide ParseVarint32, ParseBody, Add;
      Clear();
      var input := src;
      var more := true;
      ok := true;
      while more
        invariant more ==> ok && DecodeFields(State(), input) == DecodeFields(Cleared(old(State())), src)
        invariant !more ==> Decoded(State(), ok) == DecodeFields(Cleared(old(State())), src)
        decreases more, |input|
      {
        var tag := ParseVarint32(input);
        if tag.Malformed? {
          ok, more := input == [], false;
        } else {
          var body := ParseBody(tag.v, tag.rest);
          if body.Malformed? {
            ok, more := false, false;
          } else {
            Take(body.v);
            input := body.rest;
          }
        }
      }
    }

    /** The assignments of the switch in DecodeFrom. */
    method Take(f: Field)
      modifies this
      ensures State() == Add(old(State()), f)
    {
      match f
      case Comparator(name) => comparator := Just(name);
      case LogNumber(n) => logNumber := Just(n);
      case PrevLogNumber(n) => prevLogNumber := Just(n);
      case NextFileNumber(n) => nextFileNumber := Just(n);
      case LastSequence(n) => lastSequence := Just(n);
      case CompactPointer(level, key) => compactPointers := compactPointers + [(level, key)];
      case DeletedFile(level, n) => deletedFiles := InsertPair(deletedFiles, (level, n));
      case NewFile(level, file) => newFiles := newFiles + [(level, file)];
    }
  }

  lemma NoFields()
    ensures EncodeFields([]) == []
  {
  }

  lemma FieldsOptional(written: seq<Field>, more: seq<Field>)
    requires |more| <= 1
    ensures EncodeFields(written + more) == if more == [] then EncodeFields(written)
        else EncodeFields(written) + EncodeField(more[0])
    ensures written == [] ==> EncodeFields(more) == if more == [] then [] else EncodeField(more[0])
  {
    hide EncodeField;
    if more == [] {
      assert written + more == written;
    } else {
      assert (written + more)[..|written|] == written && (written + more)[|written|] == more[0];
      assert written == [] ==> written + more == more && [] + EncodeField(more[0]) == EncodeField(more[0]);
    }
  }

  lemma FieldsSnoc(written: seq<Field>, some: seq<Field>, f: Field)
    ensures EncodeFields(written + (some + [f])) == EncodeFields(written + some) + EncodeField(f)
    ensures written == [] ==> EncodeFields(some + [f]) == EncodeFields(some) + EncodeField(f)
  {
    hide EncodeField;
    var all := written + (some + [f]);
    assert all[..|all| - 1] == written + some;
    assert written == [] ==> written + some == some && all == some + [f];
  }
}
