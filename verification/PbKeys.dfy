/** Keys: each field that is written delimits itself, so that a reader with
    another descriptor can pass it. */
module PbKeys {
  import opened Coding
  import opened PbFormat
  import opened PbWire
  import opened PbDecoding
  import opened PbRoundTrip

  // ---- fields delimit themselves ----

  /** What may follow a key, by its three lowest bits: one varint, 8 bytes, a
      length and that many bytes, or 4 bytes. */
  ghost predicate IsPayload(wireType: nat, b: seq<byte>) {
    || (wireType == 0 && exists v: nat :: v < 0x1_0000_0000_0000_0000 && b == EncodeVarint(v))
    || (wireType == 1 && |b| == 8)
    || (wireType == 2 && exists data: seq<byte> :: |data| < 0x1_0000_0000 && b == EncodeVarint(|data|) + data)
    || (wireType == 5 && |b| == 4)
  }

  /** A key for the tag and what belongs to it. */
  ghost predicate IsItem(tag: nat, key: nat, payload: seq<byte>) {
    key / 8 == tag && 0 < tag < 0x2000_0000 && IsPayload(key % 8, payload)
  }

  /** A field's items, one after the other. */
  ghost predicate Delimited(tag: nat, b: seq<byte>)
    decreases |b|
  {
    b == [] || exists key: nat, payload: seq<byte>, rest: seq<byte> ::
      |rest| < |b| && b == EncodeVarint(key) + payload + rest && IsItem(tag, key, payload) && Delimited(tag, rest)
  }

  lemma OneItem(tag: nat, key: nat, payload: seq<byte>, rest: seq<byte>)
    requires IsItem(tag, key, payload) && Delimited(tag, rest)
    ensures Delimited(tag, EncodeVarint(key) + payload + rest)
  {
    hide IsItem, EncodeVarint;
    assert |rest| < |EncodeVarint(key) + payload + rest|;
  }

  lemma NumberIsPayload(l: LType, v: int)
    requires Packable(l)
    ensures IsPayload(WireType(l), NumberBytes(l, v))
  {
    hide EncodeVarint, EncodeFixed32, EncodeFixed64, ZigZag;
  }

  lemma ValueIsPayload(l: LType, dataSize: nat, v: Value)
    requires |ValueBytes(l, dataSize, v)| < TWO_32
    ensures IsPayload(WireType(l), ValueBytes(l, dataSize, v)) && WireType(l) < 8
  {
    hide EncodeVarint, BytesUpTo, NumberBytes, CString;
    if Packable(l) {
      NumberIsPayload(l, v.NumberOf());
    } else {
      var data := match l
        case BYTES => v.DataOf()
        case STRING => CString(v.DataOf(), dataSize)
        case FIXED_LENGTH_BYTES => v.DataOf()
        case SUBMESSAGE(sub) => BytesUpTo(sub, v.StructOf(), |sub|)
        case _ => [];
      assert ValueBytes(l, dataSize, v) == EncodeVarint(|data|) + data;
    }
  }

  lemma {:induction false} ElementsDelimited(f: Field, s: seq<Value>)
    requires 0 < f.tag < MAX_TAG && forall k :: 0 <= k < |s| ==> |ValueBytes(f.ltype, f.dataSize, s[k])| < TWO_32
    ensures Delimited(f.tag, Elements(f, s))
    decreases |s|
  {
    hide EncodeVarint, ValueBytes, IsPayload, WireType, Elements, Delimited;
    if s == [] {
      NoElements(f);
      NothingDelimited(f.tag);
    } else {
      var key := f.tag * 8 + WireType(f.ltype);
      assert s == [s[0]] + s[1..];
      ElementsFront(f, s[0], s[1..]);
      ElementsDelimited(f, s[1..]);
      ValueIsPayload(f.ltype, f.dataSize, s[0]);
      KeyParts(f.tag, WireType(f.ltype));
      OneItem(f.tag, key, ValueBytes(f.ltype, f.dataSize, s[0]), Elements(f, s[1..]));
    }
  }

  lemma JustOneItem(tag: nat, wireType: nat, payload: seq<byte>)
    requires 0 < tag < MAX_TAG && wireType < 8 && IsPayload(wireType, payload)
    ensures Delimited(tag, EncodeVarint(tag * 8 + wireType) + payload)
  {
    hide EncodeVarint, IsPayload;
    var b := EncodeVarint(tag * 8 + wireType) + payload;
    KeyParts(tag, wireType);
    assert Delimited(tag, []);
    OneItem(tag, tag * 8 + wireType, payload, []);
    assert b + [] == b;
  }

  lemma PackedIsPayload(data: seq<byte>)
    requires |data| < TWO_32
    ensures IsPayload(2, EncodeVarint(|data|) + data)
  {
    hide EncodeVarint;
  }

  /** All that is written for a field delimits itself, whatever its type. */
  lemma FieldIsDelimited(f: Field, m: Message, i: nat)
    requires 0 < f.tag < MAX_TAG && |FieldBytes(f, m, i)| < TWO_32
    ensures Delimited(f.tag, FieldBytes(f, m, i))
  {
    hide EncodeVarint, Elements, ValueBytes, Numbers, WireType, IsPayload, Sent, Delimited;
    var s := m.ArrayAt(i);
    NothingDelimited(f.tag);
    SentMeans(f, m, i);
    if f.htype.Repeated? && s != [] {
      if Packable(f.ltype) {
        var data := Numbers(f.ltype, s);
        PackedBytes(f, m, i, []);
        PackedIsPayload(data);
        JustOneItem(f.tag, 2, LengthPrefixed(data));
        assert LengthPrefixed(data) + [] == LengthPrefixed(data) && FieldBytes(f, m, i) + [] == FieldBytes(f, m, i);
      } else {
        forall k | 0 <= k < |s|
          ensures |ValueBytes(f.ltype, f.dataSize, s[k])| < TWO_32
        {
          ElementsFit(f, s, k);
        }
        ElementsDelimited(f, s);
      }
    } else if Sent(f, m, i) {
      ValueIsPayload(f.ltype, f.dataSize, m.ValueAt(i));
      JustOneItem(f.tag, WireType(f.ltype), ValueBytes(f.ltype, f.dataSize, m.ValueAt(i)));
    }
  }

  lemma NothingDelimited(tag: nat)
    ensures Delimited(tag, [])
  {
  }

  // ---- fields that a reader does not know ----

  ghost predicate Unknown(fields: Fields, tag: nat) {
    forall i :: 0 <= i < |fields| ==> fields[i].tag != tag
  }

  lemma {:induction false} VarintIsSkipped(v: nat, rest: seq<byte>)
    ensures SkipVarint(EncodeVarint(v) + rest) == Value((), rest)
  {
    VarintParts(v, rest);
    if v >= 128 {
      VarintIsSkipped(v / 128, rest);
    }
  }

  lemma BytesAreSkipped(b: seq<byte>, rest: seq<byte>)
    ensures SkipBytes(b + rest, |b|) == Value((), rest)
  {
    assert (b + rest)[|b|..] == rest;
  }

  lemma PayloadIsSkipped(wireType: nat, payload: seq<byte>, rest: seq<byte>)
    requires IsPayload(wireType, payload)
    ensures SkipField(wireType, payload + rest) == Value((), rest)
  {
    hide EncodeVarint, SkipVarint, SkipBytes, Varint32;
    if wireType == 0 {
      var v: nat :| v < 0x1_0000_0000_0000_0000 && payload == EncodeVarint(v);
      VarintIsSkipped(v, rest);
    } else if wireType == 2 {
      var data: seq<byte> :| |data| < 0x1_0000_0000 && payload == EncodeVarint(|data|) + data;
      assert payload + rest == EncodeVarint(|data|) + (data + rest);
      Varint32IsRead(|data|, data + rest);
      BytesAreSkipped(data, rest);
    } else {
      BytesAreSkipped(payload, rest);
    }
  }

  lemma ItemIsSkipped(fields: Fields, tag: nat, key: nat, payload: seq<byte>, rest: seq<byte>, p: Progress)
    requires IsItem(tag, key, payload) && Unknown(fields, tag)
    ensures OneStep(fields, EncodeVarint(key) + payload + rest, p) == Continue(p, rest)
  {
    hide EncodeVarint, Varint32, SkipField, FindTag, IsPayload, ReadField;
    assert EncodeVarint(key) + payload + rest == EncodeVarint(key) + (payload + rest);
    Varint32IsRead(key, payload + rest);
    PayloadIsSkipped(key % 8, payload, rest);
    assert FindTag(fields, tag) == Nothing;
  }

  lemma OneItemOn(fields: Fields, tag: nat, key: nat, payload: seq<byte>, more: seq<byte>, rest: seq<byte>, p: Progress)
    requires IsItem(tag, key, payload) && Unknown(fields, tag)
    ensures ReadFields(fields, EncodeVarint(key) + payload + more + rest, p) == ReadFields(fields, more + rest, p)
  {
    hide EncodeVarint, IsItem, OneStep, ReadFields, Unknown;
    var b := EncodeVarint(key) + payload + more + rest;
    assert b == EncodeVarint(key) + payload + (more + rest);
    ItemIsSkipped(fields, tag, key, payload, more + rest, p);
    ReadOn(fields, b, p, more + rest, p);
  }

  /** Whatever an unknown field is, decoding goes on right behind it. */
  lemma {:induction false} UnknownIsSkipped(fields: Fields, tag: nat, b: seq<byte>, rest: seq<byte>, p: Progress)
    requires Delimited(tag, b) && Unknown(fields, tag)
    ensures ReadFields(fields, b + rest, p) == ReadFields(fields, rest, p)
    decreases |b|
  {
    hide EncodeVarint, IsItem, OneStep, ReadFields, Unknown;
    if b == [] {
      assert b + rest == rest;
    } else {
      var key: nat, payload: seq<byte>, more: seq<byte> :|
        |more| < |b| && b == EncodeVarint(key) + payload + more && IsItem(tag, key, payload) && Delimited(tag, more);
      hide Delimited;
      OneItemOn(fields, tag, key, payload, more, rest, p);
      UnknownIsSkipped(fields, tag, more, rest, p);
    }
  }

  /** Groups and the wire types that nobody uses are refused. */
  lemma OtherWireTypesAreRefused(fields: Fields, key: nat, rest: seq<byte>, p: Progress)
    requires 0 < key < TWO_32 && Unknown(fields, key / 8) && key % 8 in {3, 4, 6, 7}
    ensures ReadFields(fields, EncodeVarint(key) + rest, p) == Nothing
  {
    hide EncodeVarint, Varint32, FindTag, ReadField;
    Varint32IsRead(key, rest);
    assert FindTag(fields, key / 8) == Nothing;
  }

  // ---- a reader with fewer fields ----

  /** sub has the fields of `all` at these places. */
  ghost predicate IsPart(sub: Fields, all: Fields, places: seq<nat>) {
    && |places| == |sub|
    && (forall k :: 0 <= k < |sub| ==> places[k] < |all| && sub[k] == all[places[k]])
    && forall j, k :: 0 <= j < k < |sub| ==> places[j] < places[k]
  }

  /** What a message holds in those fields. */
  function Part(sub: Fields, places: seq<nat>, m: Message): (r: Message)
    requires |places| == |sub|
    ensures Shaped(sub, r)
  {
    Message(seq(|sub|, k requires 0 <= k < |sub| => m.ValueAt(places[k])),
            seq(|sub|, k requires 0 <= k < |sub| => m.HasAt(places[k])),
            seq(|sub|, k requires 0 <= k < |sub| => m.ArrayAt(places[k])),
            seq(WhichCount(sub), g requires 0 <= g => m.WhichAt(g)))
  }

  /** Two structs that hold the same for a field. */
  ghost predicate Agree(f: Field, m: Message, i: nat, d: Message, j: nat) {
    && m.ValueAt(i) == d.ValueAt(j) && m.HasAt(i) == d.HasAt(j) && m.ArrayAt(i) == d.ArrayAt(j)
    && (f.htype.Oneof? ==> m.WhichAt(f.htype.which) == d.WhichAt(f.htype.which))
  }

  lemma AgreeingIsSame(f: Field, m: Message, i: nat, d: Message, j: nat)
    requires Agree(f, m, i, d, j)
    ensures FieldBytes(f, m, i) == FieldBytes(f, d, j) && (SendableField(f, m, i) <==> SendableField(f, d, j))
  {
    hide IsZero, ValueBytes, ArrayBytes, TagBytes, ValueFits, ValueOk, FieldWellFormed;
    assert Sent(f, m, i) == Sent(f, d, j);
  }

  lemma PartAgrees(sub: Fields, all: Fields, places: seq<nat>, m: Message, k: nat)
    requires IsPart(sub, all, places) && k < |sub|
    ensures Agree(sub[k], m, places[k], Part(sub, places, m), k)
  {
  }

  lemma PartIsUnique(sub: Fields, all: Fields, places: seq<nat>)
    requires IsPart(sub, all, places) && UniqueTags(all)
    ensures UniqueTags(sub)
  {
  }

  /** The next place to come is j. */
  ghost predicate NextPlace(places: seq<nat>, n: nat, j: nat) {
    && j <= |places| && (forall k :: 0 <= k < j ==> places[k] < n)
    && forall k :: j <= k < |places| ==> places[k] >= n
  }

  lemma LeftOutIsUnknown(sub: Fields, all: Fields, places: seq<nat>, n: nat)
    requires IsPart(sub, all, places) && UniqueTags(all) && n < |all| && n !in places
    ensures Unknown(sub, all[n].tag)
  {
    forall k | 0 <= k < |sub|
      ensures sub[k].tag != all[n].tag
    {
      assert places[k] in places;
    }
  }

  lemma {:induction false} PartIsRead(sub: Fields, all: Fields, places: seq<nat>, m: Message, n: nat, j: nat,
      seen: set<nat>) returns (later: set<nat>)
    requires Sendable(all, m) && IsPart(sub, all, places) && n <= |all| && NextPlace(places, n, j)
    requires SeenUpTo(sub, seen, j)
    ensures SeenUpTo(sub, later, |sub|)
    ensures ReadFields(sub, BytesFrom(all, m, n), Progress(ArrivedUpTo(sub, Part(sub, places, m), j), seen))
         == Just(Progress(Arrived(sub, Part(sub, places, m)), later))
    decreases |all| - n
  {
    hide Sendable, FieldBytes, SeenUpTo, OneStep, ArrivedUpTo, SendableField, ReadFields, Part;
    var d := Part(sub, places, m);
    var p := Progress(ArrivedUpTo(sub, d, j), seen);
    if n == |all| {
      assert j == |sub|;
      later := seen;
      NothingToRead(sub, p);
    } else {
      PartSendable(all, m, n);
      PartIsUnique(sub, all, places);
      var rest := BytesFrom(all, m, n + 1);
      if j < |sub| && places[j] == n {
        PartAgrees(sub, all, places, m, j);
        AgreeingIsSame(sub[j], m, n, d, j);
        var next := FieldIsRead(sub, sub[j], d, j, seen, rest);
        later := PartIsRead(sub, all, places, m, n + 1, j + 1, next);
      } else {
        assert n !in places;
        LeftOutIsUnknown(sub, all, places, n);
        LeftOutIsSkipped(sub, all, m, n, rest, p);
        later := PartIsRead(sub, all, places, m, n + 1, j, seen);
      }
    }
  }

  lemma LeftOutIsSkipped(sub: Fields, all: Fields, m: Message, n: nat, rest: seq<byte>, p: Progress)
    requires n < |all| && SendableField(all[n], m, n) && Unknown(sub, all[n].tag)
    ensures ReadFields(sub, FieldBytes(all[n], m, n) + rest, p) == ReadFields(sub, rest, p)
  {
    hide FieldBytes, Delimited, Unknown, ReadFields;
    TagFits(all[n], m, n);
    FieldIsDelimited(all[n], m, n);
    UnknownIsSkipped(sub, all[n].tag, FieldBytes(all[n], m, n), rest, p);
  }

  /** A reader with fewer fields gets what was sent in those, and passes
      everything else. */
  lemma FewerFieldsAreRead(sub: Fields, all: Fields, places: seq<nat>, m: Message)
    requires Sendable(all, m) && IsPart(sub, all, places)
    ensures Decoded(sub, MessageBytes(all, m)) == Just(Arrived(sub, Part(sub, places, m)))
  {
    hide Sendable, FieldBytes, ReadFields, ArrivedUpTo, Defaults, Part;
    DefaultsArrived(sub, Part(sub, places, m));
    var seen := PartIsRead(sub, all, places, m, 0, 0, {});
    BytesSplit(all, m, 0);
    assert BytesUpTo(all, m, 0) + BytesFrom(all, m, 0) == BytesFrom(all, m, 0);
  }

  // ---- numbers that are not packed ----

  /** Another encoder may send an array of numbers element by element; it is
      appended to what there is. */
  lemma {:induction false} UnpackedIsRead(fields: Fields, f: Field, n: nat, s: seq<Value>, d: Message, seen: set<nat>,
      rest: seq<byte>)
    requires n < |fields| && fields[n] == f && UniqueTags(fields) && 0 < f.tag < MAX_TAG && n < |d.arrays|
    requires f.htype.Repeated? && Packable(f.ltype) && SizeFits(f.ltype, f.dataSize)
    requires |d.arrays[n]| + |s| <= f.htype.arraySize
    requires forall k :: 0 <= k < |s| ==> s[k].Number? && NumberFits(f.ltype, f.dataSize, s[k].n)
    ensures ReadFields(fields, Elements(f, s) + rest, Progress(d, seen))
         == ReadFields(fields, rest, Progress(WithArray(d, n, d.arrays[n] + s), seen))
    decreases |s|
  {
    hide EncodeVarint, NumberBytes, ReadFields, OneStep, ReadNumber, NumberFits, Elements, Marked;
    if s == [] {
      NoElements(f);
      assert [] + rest == rest && d.arrays[n] + s == d.arrays[n];
      assert d.arrays[n := d.arrays[n]] == d.arrays;
    } else {
      var later := Elements(f, s[1..]) + rest;
      var tail := NumberBytes(f.ltype, s[0].n) + later;
      assert s == [s[0]] + s[1..];
      ElementsFront(f, s[0], s[1..]);
      var b := Elements(f, s) + rest;
      assert b == EncodeVarint(f.tag * 8 + WireType(f.ltype)) + tail;
      NumberIsRead(f.ltype, f.dataSize, s[0].n, later);
      KeyLeadsToField(fields, n, WireType(f.ltype), tail, Progress(d, seen));
      MarkedNothing(fields, seen, n);
      var next := WithArray(d, n, d.arrays[n] + [s[0]]);
      assert ReadField(f, n, WireType(f.ltype), tail, d) == Value(next, later);
      ReadOn(fields, b, Progress(d, seen), later, Progress(next, seen));
      UnpackedIsRead(fields, f, n, s[1..], next, seen, rest);
      assert next.arrays[n] + s[1..] == d.arrays[n] + s;
      assert WithArray(next, n, d.arrays[n] + s) == WithArray(d, n, d.arrays[n] + s);
    }
  }

  // ---- known bytes ----

  /** The keys of field 1, by type. */
  lemma KnownKeys(f: Field)
    requires f.tag == 1
    ensures TagBytes(f) ==
      match f.ltype
      case FIXED64 => [0x09]
      case FIXED32 => [0x0d]
      case BYTES => [0x0a]
      case STRING => [0x0a]
      case FIXED_LENGTH_BYTES => [0x0a]
      case SUBMESSAGE(_) => [0x0a]
      case _ => [0x08]
  {
  }

  lemma TwoGroups(v: nat)
    requires 128 <= v < 16384
    ensures EncodeVarint(v) == [v % 128 + 128, v / 128]
  {
    assert EncodeVarint(v / 128) == [v / 128];
  }

  /** Numbers in each of their encodings. */
  lemma KnownNumbers()
    ensures NumberBytes(UVARINT, 150) == NumberBytes(VARINT, 150) == [0x96, 0x01]
    ensures NumberBytes(SVARINT, 0) == [0] && NumberBytes(SVARINT, -1) == [1] && NumberBytes(SVARINT, 1) == [2]
    ensures NumberBytes(SVARINT, -75) == [0x95, 0x01] && NumberBytes(SVARINT, 75) == [0x96, 0x01]
    ensures NumberBytes(BOOL, 1) == [1] && NumberBytes(BOOL, 0) == [0]
    ensures NumberBytes(FIXED32, 0x0102_0304) == [4, 3, 2, 1]
    ensures NumberBytes(FIXED64, 0x0102_0304_0506_0708) == [8, 7, 6, 5, 4, 3, 2, 1]
  {
    TwoGroups(150);
    TwoGroups(149);
  }

  /** A negative number takes ten bytes, however small its variable is. */
  lemma NegativeNumbers()
    ensures NumberBytes(VARINT, -1) == [255, 255, 255, 255, 255, 255, 255, 255, 255, 1]
  {
    hide EncodeVarint;
    VarintUnfold(0xffff_ffff_ffff_ffff);
    VarintUnfold(0x1ff_ffff_ffff_ffff);
    VarintUnfold(0x3_ffff_ffff_ffff);
    VarintUnfold(0x7ff_ffff_ffff);
    VarintUnfold(0xf_ffff_ffff);
    VarintUnfold(0x1fff_ffff);
    VarintUnfold(0x3f_ffff);
    VarintUnfold(0x7fff);
    VarintUnfold(0xff);
    VarintUnfold(0x1);
  }
}
