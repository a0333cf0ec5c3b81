/** What pb_decode makes of what pb_encode wrote. */
module PbRoundTrip {
  import opened Coding
  import opened PbFormat
  import opened PbWire
  import opened PbDecoding

  // ---- the message that arrives ----

  /** A value, after it was sent. */
  function ArrivedValue(l: LType, dataSize: nat, v: Value): Value
    decreases l
  {
    match l
    case STRING => Data(CString(v.DataOf(), dataSize))
    case SUBMESSAGE(sub) => Struct(ArrivedUpTo(sub, v.StructOf(), |sub|))
    case _ => v
  }

  function ArrivedAt(f: Field, m: Message, i: nat): Value
    decreases f
  {
    if Sent(f, m, i) then ArrivedValue(f.ltype, f.dataSize, m.ValueAt(i)) else InitialOf(f)
  }

  function ArrivedElements(f: Field, s: seq<Value>): seq<Value>
    decreases f, 0
  {
    seq(|s|, k requires 0 <= k < |s| => ArrivedValue(f.ltype, f.dataSize, s[k]))
  }

  function ArrivedArray(f: Field, m: Message, i: nat): seq<Value>
    decreases f, 1
  {
    if f.htype.Repeated? then ArrivedElements(f, m.ArrayAt(i)) else []
  }

  /** The tag of the member of oneof g that is set, if it is before n. */
  function WhichUpTo(fields: Fields, m: Message, g: nat, n: nat): nat
    requires n <= |fields|
  {
    if n == 0 then 0
    else if fields[n - 1].htype == Oneof(g) && fields[n - 1].tag == m.WhichAt(g) then m.WhichAt(g)
    else WhichUpTo(fields, m, g, n - 1)
  }

  /** The first n fields have arrived, the others are as they were initialized. */
  function ArrivedUpTo(fields: Fields, m: Message, n: nat): (r: Message)
    requires n <= |fields|
    ensures Shaped(fields, r)
    decreases fields
  {
    Message(
      seq(|fields|, i requires 0 <= i < |fields| => if i < n then ArrivedAt(fields[i], m, i) else InitialOf(fields[i])),
      seq(|fields|, i requires 0 <= i < |fields| => i < n && fields[i].htype == Optional(true) && m.HasAt(i)),
      seq(|fields|, i requires 0 <= i < |fields| => if i < n then ArrivedArray(fields[i], m, i) else []),
      seq(WhichCount(fields), g requires 0 <= g => WhichUpTo(fields, m, g, n)))
  }

  function Arrived(fields: Fields, m: Message): (r: Message)
    ensures Shaped(fields, r)
  {
    ArrivedUpTo(fields, m, |fields|)
  }

  // ---- finding the field of a tag ----

  lemma {:induction false} TagIsFound(fields: Fields, i: nat)
    requires UniqueTags(fields) && i < |fields|
    ensures FindTag(fields, fields[i].tag) == Just(i)
  {
    if i != |fields| - 1 { TagIsFound(fields[..|fields| - 1], i); }
  }

  lemma KeyParts(tag: nat, wireType: nat)
    requires wireType < 8 && 0 < tag < MAX_TAG
    ensures (tag * 8 + wireType) / 8 == tag && (tag * 8 + wireType) % 8 == wireType && 0 < tag * 8 + wireType < TWO_32
  {
  }

  /** What follows a field's key goes to that field. */
  lemma KeyLeadsToField(fields: Fields, i: nat, wireType: nat, rest: seq<byte>, p: Progress)
    requires UniqueTags(fields) && i < |fields| && 0 < fields[i].tag < MAX_TAG && wireType < 8
    ensures OneStep(fields, EncodeVarint(fields[i].tag * 8 + wireType) + rest, p) ==
      match ReadField(fields[i], i, wireType, rest, p.m)
      case Malformed => Error
      case Value(m, after) => Continue(Progress(m, Marked(fields, i, p.seen)), after)
  {
    hide EncodeVarint, Varint32, ReadField, FindTag, Marked;
    KeyParts(fields[i].tag, wireType);
    Varint32IsRead(fields[i].tag * 8 + wireType, rest);
    TagIsFound(fields, i);
  }

  lemma PrefixIsRead(data: seq<byte>, rest: seq<byte>)
    requires |data| < TWO_32
    ensures ReadPrefixed(LengthPrefixed(data) + rest) == Value(data, rest)
  {
    hide EncodeVarint, Varint32;
    assert LengthPrefixed(data) + rest == EncodeVarint(|data|) + (data + rest);
    Varint32IsRead(|data|, data + rest);
    assert (data + rest)[..|data|] == data && (data + rest)[|data|..] == rest;
  }

  // ---- packed arrays ----

  lemma {:induction false} NumbersFront(l: LType, v: Value, s: seq<Value>)
    ensures Numbers(l, [v] + s) == NumberBytes(l, v.NumberOf()) + Numbers(l, s)
  {
    hide NumberBytes;
    if s == [] {
      assert [v] + s == [v] && [v][..0] == [];
    } else {
      var n, all := |s| - 1, [v] + s;
      NumbersFront(l, v, s[..n]);
      assert all[..n + 1] == [v] + s[..n] && all[n + 1] == s[n];
      var a, b, c := NumberBytes(l, v.NumberOf()), Numbers(l, s[..n]), NumberBytes(l, s[n].NumberOf());
      assert (a + b) + c == a + (b + c);
    }
  }

  lemma {:induction false} PackedIsRead(l: LType, dataSize: nat, s: seq<Value>, t: seq<Value>, arraySize: nat)
    requires Packable(l) && SizeFits(l, dataSize) && |s| + |t| <= arraySize
    requires forall k :: 0 <= k < |t| ==> t[k].Number? && NumberFits(l, dataSize, t[k].n)
    ensures ReadPacked(l, dataSize, Numbers(l, t), s, arraySize) == Just(s + t)
    decreases |t|
  {
    hide NumberBytes, ReadNumber, NumberFits;
    if t == [] {
      assert s + t == s;
    } else {
      NumbersFront(l, t[0], t[1..]);
      assert [t[0]] + t[1..] == t;
      NumberIsRead(l, dataSize, t[0].n, Numbers(l, t[1..]));
      PackedIsRead(l, dataSize, s + [t[0]], t[1..], arraySize);
      assert s + [t[0]] + t[1..] == s + t;
    }
  }

  // ---- parts of a message ----

  lemma {:induction false} PartsFit(fields: Fields, m: Message, i: nat, n: nat)
    requires i < n <= |fields|
    ensures |FieldBytes(fields[i], m, i)| <= |BytesUpTo(fields, m, n)|
    decreases n
  {
    hide FieldBytes;
    if i < n - 1 { PartsFit(fields, m, i, n - 1); }
  }

  lemma {:induction false} ElementsFit(f: Field, s: seq<Value>, k: nat)
    requires k < |s|
    ensures |ValueBytes(f.ltype, f.dataSize, s[k])| <= |Elements(f, s)|
  {
    hide ValueBytes, TagBytes;
    if k < |s| - 1 { ElementsFit(f, s[..|s| - 1], k); }
  }

  // ---- one field after the other ----

  lemma SentMeans(f: Field, m: Message, i: nat)
    ensures Sent(f, m, i) ==> !f.htype.Repeated?
    ensures f.htype == Optional(true) ==> (Sent(f, m, i) <==> m.HasAt(i))
    ensures f.htype.Oneof? ==> (Sent(f, m, i) <==> m.WhichAt(f.htype.which) == f.tag)
  {
    hide IsZero;
  }

  /** Two structs that agree field by field. */
  lemma Alike(a: Message, b: Message)
    requires |a.values| == |b.values| == |a.has| == |b.has| == |a.arrays| == |b.arrays| && |a.which| == |b.which|
    requires forall i :: 0 <= i < |a.values| ==>
        a.values[i] == b.values[i] && a.has[i] == b.has[i] && a.arrays[i] == b.arrays[i]
    requires forall g :: 0 <= g < |a.which| ==> a.which[g] == b.which[g]
    ensures a == b
  {
  }

  lemma WhichStep(fields: Fields, m: Message, n: nat)
    requires n < |fields|
    ensures forall g :: 0 <= g ==>
        WhichUpTo(fields, m, g, n + 1)
          == if fields[n].htype == Oneof(g) && fields[n].tag == m.WhichAt(g) then m.WhichAt(g)
             else WhichUpTo(fields, m, g, n)
  {
  }

  lemma ArrivedParts(fields: Fields, m: Message, n: nat)
    requires n <= |fields|
    ensures var d := ArrivedUpTo(fields, m, n);
      && (forall i :: 0 <= i < |fields| ==>
            d.values[i] == (if i < n then ArrivedAt(fields[i], m, i) else InitialOf(fields[i])))
      && (forall i :: 0 <= i < |fields| ==> d.has[i] == (i < n && fields[i].htype == Optional(true) && m.HasAt(i)))
      && (forall i :: 0 <= i < |fields| ==> d.arrays[i] == if i < n then ArrivedArray(fields[i], m, i) else [])
      && (forall g :: 0 <= g < |d.which| ==> d.which[g] == WhichUpTo(fields, m, g, n))
  {
    hide ArrivedAt, InitialOf, ArrivedArray, WhichUpTo;
  }

  /** The struct as the singular field n arrives. */
  lemma AssignedArrives(fields: Fields, m: Message, n: nat)
    requires n < |fields| && Sent(fields[n], m, n)
    ensures Assigned(fields[n], ArrivedUpTo(fields, m, n), n, ArrivedAt(fields[n], m, n))
        == ArrivedUpTo(fields, m, n + 1)
  {
    hide Sent, ArrivedAt, InitialOf, ArrivedElements, ArrivedUpTo, WhichUpTo;
    SentMeans(fields[n], m, n);
    WhichStep(fields, m, n);
    ArrivedParts(fields, m, n);
    ArrivedParts(fields, m, n + 1);
    Alike(Assigned(fields[n], ArrivedUpTo(fields, m, n), n, ArrivedAt(fields[n], m, n)), ArrivedUpTo(fields, m, n + 1));
  }

  /** A field that is not sent. */
  lemma NothingArrives(fields: Fields, m: Message, n: nat)
    requires n < |fields| && !Sent(fields[n], m, n) && ArrivedArray(fields[n], m, n) == []
    ensures ArrivedUpTo(fields, m, n) == ArrivedUpTo(fields, m, n + 1)
  {
    hide InitialOf, ArrivedArray, Sent, ArrivedUpTo, WhichUpTo;
    SentMeans(fields[n], m, n);
    WhichStep(fields, m, n);
    ArrivedParts(fields, m, n);
    ArrivedParts(fields, m, n + 1);
    assert ArrivedAt(fields[n], m, n) == InitialOf(fields[n]);
    Alike(ArrivedUpTo(fields, m, n), ArrivedUpTo(fields, m, n + 1));
  }

  /** An array. */
  lemma ArrayArrives(fields: Fields, m: Message, n: nat)
    requires n < |fields| && fields[n].htype.Repeated?
    ensures WithArray(ArrivedUpTo(fields, m, n), n, ArrivedArray(fields[n], m, n)) == ArrivedUpTo(fields, m, n + 1)
  {
    hide InitialOf, ArrivedArray, Sent, ArrivedUpTo, WhichUpTo;
    SentMeans(fields[n], m, n);
    WhichStep(fields, m, n);
    ArrivedParts(fields, m, n);
    ArrivedParts(fields, m, n + 1);
    assert ArrivedAt(fields[n], m, n) == InitialOf(fields[n]);
    Alike(WithArray(ArrivedUpTo(fields, m, n), n, ArrivedArray(fields[n], m, n)), ArrivedUpTo(fields, m, n + 1));
  }

  /** Before its turn a field is as it was initialized. */
  lemma FreshDest(fields: Fields, m: Message, n: nat)
    requires n < |fields| && UniqueTags(fields) && fields[n].tag != 0
    ensures DestOf(fields[n], ArrivedUpTo(fields, m, n), n) == InitialOf(fields[n])
    ensures ArrivedUpTo(fields, m, n).ArrayAt(n) == []
  {
    hide InitialOf, ArrivedArray, ArrivedAt;
    if fields[n].htype.Oneof? { NotYet(fields, m, fields[n].htype.which, n, n); }
  }

  lemma {:induction false} NotYet(fields: Fields, m: Message, g: nat, n: nat, k: nat)
    requires k <= n < |fields| && UniqueTags(fields) && fields[n].tag != 0
    ensures WhichUpTo(fields, m, g, k) != fields[n].tag
  {
    if k > 0 { NotYet(fields, m, g, n, k - 1); }
  }

  // ---- required fields ----

  /** The bits of the required fields before n. */
  ghost predicate SeenUpTo(fields: Fields, seen: set<nat>, n: nat)
    requires n <= |fields|
  {
    forall k :: 0 <= k < RequiredBefore(fields, n) && k < MAX_REQUIRED_FIELDS ==> k in seen
  }

  lemma MarkedSees(fields: Fields, seen: set<nat>, n: nat)
    requires n < |fields| && SeenUpTo(fields, seen, n)
    ensures SeenUpTo(fields, Marked(fields, n, seen), n + 1)
  {
  }

  lemma MarkedNothing(fields: Fields, seen: set<nat>, n: nat)
    requires n < |fields| && !fields[n].htype.Required?
    ensures Marked(fields, n, seen) == seen && (SeenUpTo(fields, seen, n) ==> SeenUpTo(fields, seen, n + 1))
  {
  }

  // ---- messages that can be sent ----

  ghost predicate SendableValue(l: LType, dataSize: nat, v: Value) {
    && SizeFits(l, dataSize) && (l.SUBMESSAGE? ==> WellFormed(l.ptr))
    && ValueFits(l, dataSize, v) && ValueOk(l, dataSize, v) && |ValueBytes(l, dataSize, v)| < TWO_32
  }

  ghost predicate SendableField(f: Field, m: Message, i: nat) {
    && FieldWellFormed(f) && FieldFits(f, m, i) && FieldOk(f, m, i) && |FieldBytes(f, m, i)| < TWO_32
  }

  /** A well-typed struct whose encoding is shorter than 4 GiB, the limit of its
      length fields. */
  ghost predicate Sendable(fields: Fields, m: Message) {
    WellFormed(fields) && Typed(fields, m) && Encodable(fields, m) && |MessageBytes(fields, m)| < TWO_32
  }

  lemma PartSendable(fields: Fields, m: Message, i: nat)
    requires Sendable(fields, m) && i < |fields|
    ensures SendableField(fields[i], m, i) && UniqueTags(fields)
  {
    hide FieldBytes, FieldFits, FieldOk, FieldWellFormed;
    PartsFit(fields, m, i, |fields|);
  }

  lemma ElementSendable(f: Field, m: Message, i: nat, k: nat)
    requires SendableField(f, m, i) && f.htype.Repeated? && !Packable(f.ltype) && k < |m.ArrayAt(i)|
    ensures SendableValue(f.ltype, f.dataSize, m.ArrayAt(i)[k])
  {
    hide ValueBytes, ValueFits, ValueOk, Elements;
    var s := m.ArrayAt(i);
    ElementsFit(f, s, k);
    assert FieldBytes(f, m, i) == Elements(f, s);
    assert ValueFits(f.ltype, f.dataSize, s[k]) && ValueOk(f.ltype, f.dataSize, s[k]);
  }

  lemma SingularSendable(f: Field, m: Message, i: nat)
    requires SendableField(f, m, i) && Sent(f, m, i)
    ensures SendableValue(f.ltype, f.dataSize, m.ValueAt(i))
  {
    hide ValueBytes, ValueFits, ValueOk, TagBytes;
    SentMeans(f, m, i);
  }

  lemma SubmessageSendable(sub: Fields, dataSize: nat, v: Value)
    requires SendableValue(SUBMESSAGE(sub), dataSize, v)
    ensures v.Struct? && Sendable(sub, v.m)
        && ValueBytes(SUBMESSAGE(sub), dataSize, v) == LengthPrefixed(MessageBytes(sub, v.m))
  {
    hide BytesUpTo, Typed, EncodeVarint;
  }

  // ---- reading ----

  lemma ElementsFront(f: Field, v: Value, s: seq<Value>)
    ensures Elements(f, [v] + s) == TagBytes(f) + ValueBytes(f.ltype, f.dataSize, v) + Elements(f, s)
    decreases |s|
  {
    hide ValueBytes, TagBytes;
    if s == [] {
      assert [v] + s == [v] && [v][..0] == [];
    } else {
      var n, all := |s| - 1, [v] + s;
      ElementsFront(f, v, s[..n]);
      assert all[..n + 1] == [v] + s[..n] && all[n + 1] == s[n];
      var a, b, c := TagBytes(f) + ValueBytes(f.ltype, f.dataSize, v), Elements(f, s[..n]),
        ValueBytes(f.ltype, f.dataSize, s[n]);
      assert a + b + TagBytes(f) + c == a + (b + TagBytes(f) + c);
    }
  }

  lemma ReadOn(fields: Fields, b: seq<byte>, p: Progress, rest: seq<byte>, q: Progress)
    requires OneStep(fields, b, p) == Continue(q, rest)
    ensures ReadFields(fields, b, p) == ReadFields(fields, rest, q)
  {
    hide OneStep;
  }

  lemma CStringAgain(data: seq<byte>, dataSize: nat)
    ensures CString(CString(data, dataSize), dataSize) == CString(data, dataSize)
  {
    if data != [] && dataSize != 0 && data[0] != 0 {
      CStringAgain(data[1..], dataSize - 1);
      assert CString(data, dataSize)[1..] == CString(data[1..], dataSize - 1);
    }
  }

  /** A value is read back. */
  lemma {:induction false} ValueIsRead(l: LType, dataSize: nat, v: Value, rest: seq<byte>, dest: Value)
    requires SendableValue(l, dataSize, v) && (l.SUBMESSAGE? ==> dest == Struct(Defaults(l.ptr)))
    ensures ReadValue(l, dataSize, ValueBytes(l, dataSize, v) + rest, dest) == Value(ArrivedValue(l, dataSize, v), rest)
    decreases l
  {
    hide ReadNumber, NumberBytes, ReadPrefixed, EncodeVarint, ReadInto, BytesUpTo, ArrivedUpTo, Typed, NumberFits,
        Defaults;
    if Packable(l) {
      NumberIsRead(l, dataSize, v.n, rest);
    } else if l.SUBMESSAGE? {
      SubmessageSendable(l.ptr, dataSize, v);
      PrefixIsRead(MessageBytes(l.ptr, v.m), rest);
      MessageIsRead(l.ptr, v.m);
    } else {
      PrefixIsRead(if l.STRING? then CString(v.data, dataSize) else v.data, rest);
    }
  }

  /** The singular field n. */
  lemma {:induction false} SingularIsRead(fields: Fields, f: Field, m: Message, n: nat, seen: set<nat>, rest: seq<byte>)
    requires n < |fields| && fields[n] == f && UniqueTags(fields) && SendableField(f, m, n) && Sent(f, m, n)
    ensures ReadFields(fields, FieldBytes(f, m, n) + rest, Progress(ArrivedUpTo(fields, m, n), seen))
      == ReadFields(fields, rest, Progress(ArrivedUpTo(fields, m, n + 1), Marked(fields, n, seen)))
    decreases f, 0
  {
    hide EncodeVarint, ValueBytes, ReadFields, OneStep, ReadValue, ArrivedUpTo, SendableField, ArrivedValue, Marked,
        Sent,
      InitialOf, DestOf, Assigned;
    SentMeans(f, m, n);
    assert 0 < f.tag < MAX_TAG by { TagFits(f, m, n); }
    var p := Progress(ArrivedUpTo(fields, m, n), seen);
    var v := m.ValueAt(n);
    var tail := ValueBytes(f.ltype, f.dataSize, v) + rest;
    assert FieldBytes(f, m, n) + rest == EncodeVarint(f.tag * 8 + WireType(f.ltype)) + tail;
    FreshDest(fields, m, n);
    SubmessageInitial(f);
    SingularSendable(f, m, n);
    ValueIsRead(f.ltype, f.dataSize, v, rest, InitialOf(f));
    KeyLeadsToField(fields, n, WireType(f.ltype), tail, p);
    AssignedArrives(fields, m, n);
    ReadOn(fields, FieldBytes(f, m, n) + rest, p, rest,
        Progress(ArrivedUpTo(fields, m, n + 1), Marked(fields, n, seen)));
  }

  lemma TagFits(f: Field, m: Message, i: nat)
    requires SendableField(f, m, i)
    ensures 0 < f.tag < MAX_TAG
  {
  }

  lemma SubmessageInitial(f: Field)
    ensures f.ltype.SUBMESSAGE? ==> InitialOf(f) == Struct(Defaults(f.ltype.ptr))
  {
  }

  lemma ArrivedElementsMore(f: Field, s: seq<Value>, k: nat)
    requires k < |s|
    ensures ArrivedElements(f, s[..k + 1]) == ArrivedElements(f, s[..k]) + [ArrivedValue(f.ltype, f.dataSize, s[k])]
  {
    hide ArrivedValue;
  }

  /** The elements of an array that is not packed, from the kth on. */
  lemma {:induction false} ElementsAreRead(fields: Fields, f: Field, m: Message, n: nat, k: nat, d: Message,
      seen: set<nat>,
      rest: seq<byte>)
    requires n < |fields| && fields[n] == f && UniqueTags(fields) && SendableField(f, m, n) && n < |d.arrays|
    requires f.htype.Repeated? && !Packable(f.ltype) && k <= |m.ArrayAt(n)|
    ensures ReadFields(fields, Elements(f, m.ArrayAt(n)[k..]) + rest,
                       Progress(WithArray(d, n, ArrivedElements(f, m.ArrayAt(n)[..k])), seen))
      == ReadFields(fields, rest, Progress(WithArray(d, n, ArrivedElements(f, m.ArrayAt(n))), seen))
    decreases f, |m.ArrayAt(n)| - k
  {
    hide EncodeVarint, ValueBytes, ReadFields, OneStep, ReadValue, SendableField, ArrivedValue, Marked, ArrivedElements,
      InitialOf, Elements;
    var s := m.ArrayAt(n);
    if k == |s| {
      assert s[..k] == s && s[k..] == [];
      NoElements(f);
      assert [] + rest == rest;
    } else {
      var before, after := WithArray(d, n, ArrivedElements(f, s[..k])), WithArray(d, n, ArrivedElements(f, s[..k + 1]));
      var later := Elements(f, s[k + 1..]) + rest;
      var tail := ValueBytes(f.ltype, f.dataSize, s[k]) + later;
      assert s[k..] == [s[k]] + s[k + 1..];
      ElementsFront(f, s[k], s[k + 1..]);
      var b := Elements(f, s[k..]) + rest;
      assert b == EncodeVarint(f.tag * 8 + WireType(f.ltype)) + tail;
      TagFits(f, m, n);
      CountFits(f, m, n);
      ElementSendable(f, m, n, k);
      SubmessageInitial(f);
      ValueIsRead(f.ltype, f.dataSize, s[k], later, InitialOf(f));
      ArrivedElementsMore(f, s, k);
      ArrivedElementsLength(f, s[..k]);
      KeyLeadsToField(fields, n, WireType(f.ltype), tail, Progress(before, seen));
      MarkedNothing(fields, seen, n);
      ReadOn(fields, b, Progress(before, seen), later, Progress(after, seen));
      ElementsAreRead(fields, f, m, n, k + 1, d, seen, rest);
    }
  }

  lemma NoElements(f: Field)
    ensures Elements(f, []) == [] && ArrivedElements(f, []) == []
  {
  }

  lemma CountFits(f: Field, m: Message, i: nat)
    requires SendableField(f, m, i) && f.htype.Repeated?
    ensures |m.ArrayAt(i)| <= f.htype.arraySize
  {
    hide ValueOk;
  }

  lemma ArrivedElementsLength(f: Field, s: seq<Value>)
    ensures |ArrivedElements(f, s)| == |s|
  {
  }

  /** The bytes of a packed array: a key, a length and the numbers. */
  lemma PackedBytes(f: Field, m: Message, n: nat, rest: seq<byte>)
    requires f.htype.Repeated? && Packable(f.ltype) && m.ArrayAt(n) != []
    ensures FieldBytes(f, m, n) + rest
      == EncodeVarint(f.tag * 8 + WT_STRING) + (LengthPrefixed(Numbers(f.ltype, m.ArrayAt(n))) + rest)
  {
    hide EncodeVarint, Numbers;
    var s := m.ArrayAt(n);
    PackedSizeIs(f.ltype, s);
    var a, data := EncodeVarint(f.tag * 8 + WT_STRING), Numbers(f.ltype, s);
    var size := EncodeVarint(|data|);
    assert FieldBytes(f, m, n) == a + size + data;
    assert a + size + data + rest == a + (size + data + rest);
  }

  /** A packed array. */
  lemma PackedFieldIsRead(fields: Fields, f: Field, m: Message, n: nat, d: Message, seen: set<nat>, rest: seq<byte>)
    requires n < |fields| && fields[n] == f && UniqueTags(fields) && SendableField(f, m, n)
    requires f.htype.Repeated? && Packable(f.ltype) && m.ArrayAt(n) != [] && d.ArrayAt(n) == []
    ensures ReadFields(fields, FieldBytes(f, m, n) + rest, Progress(d, seen))
      == ReadFields(fields, rest, Progress(WithArray(d, n, ArrivedElements(f, m.ArrayAt(n))), seen))
  {
    hide EncodeVarint, Numbers, ReadFields, OneStep, ReadPacked, SendableField, Marked, ArrivedElements, ReadPrefixed,
      FieldBytes, LengthPrefixed, UniqueTags, NumberFits;
    var s := m.ArrayAt(n);
    var data := Numbers(f.ltype, s);
    var tail := LengthPrefixed(data) + rest;
    PackedBytes(f, m, n, rest);
    TagFits(f, m, n);
    CountFits(f, m, n);
    PackedFits(f, m, n);
    PrefixIsRead(data, rest);
    PackedIsRead(f.ltype, f.dataSize, [], s, f.htype.arraySize);
    assert [] + s == s;
    NumbersArrive(f, s);
    KeyLeadsToField(fields, n, WT_STRING, tail, Progress(d, seen));
    MarkedNothing(fields, seen, n);
    ReadOn(fields, FieldBytes(f, m, n) + rest, Progress(d, seen), rest, Progress(WithArray(d, n, s), seen));
  }

  lemma PackedFits(f: Field, m: Message, i: nat)
    requires SendableField(f, m, i) && f.htype.Repeated? && Packable(f.ltype) && m.ArrayAt(i) != []
    ensures |Numbers(f.ltype, m.ArrayAt(i))| < TWO_32 && SizeFits(f.ltype, f.dataSize)
    ensures forall k :: 0 <= k < |m.ArrayAt(i)| ==>
        m.ArrayAt(i)[k].Number? && NumberFits(f.ltype, f.dataSize, m.ArrayAt(i)[k].n)
  {
    hide Numbers, EncodeVarint, NumberFits;
    var s := m.ArrayAt(i);
    assert FieldBytes(f, m, i) == ArrayBytes(f, s);
    forall k | 0 <= k < |s| ensures s[k].Number? && NumberFits(f.ltype, f.dataSize, s[k].n) {
      assert ValueFits(f.ltype, f.dataSize, s[k]);
    }
  }

  lemma NumbersArrive(f: Field, s: seq<Value>)
    requires Packable(f.ltype)
    ensures ArrivedElements(f, s) == s
  {
  }

  /** Field n, whatever it is. */
  lemma {:induction false} FieldIsRead(fields: Fields, f: Field, m: Message, n: nat, seen: set<nat>, rest: seq<byte>)
      returns (later: set<nat>)
    requires n < |fields| && fields[n] == f && UniqueTags(fields) && SendableField(f, m, n) && SeenUpTo(fields, seen, n)
    ensures SeenUpTo(fields, later, n + 1)
    ensures ReadFields(fields, FieldBytes(f, m, n) + rest, Progress(ArrivedUpTo(fields, m, n), seen))
      == ReadFields(fields, rest, Progress(ArrivedUpTo(fields, m, n + 1), later))
    decreases f, |m.ArrayAt(n)| + 1
  {
    hide FieldBytes, ReadFields, SendableField, ArrivedElements, Sent, ArrivedUpTo, SeenUpTo, ArrivedElements, Marked,
        InitialOf;
    var d := ArrivedUpTo(fields, m, n);
    later := seen;
    SentMeans(f, m, n);
    TagFits(f, m, n);
    if Sent(f, m, n) {
      later := Marked(fields, n, seen);
      MarkedSees(fields, seen, n);
      SingularIsRead(fields, f, m, n, seen, rest);
    } else if f.htype.Repeated? && m.ArrayAt(n) != [] {
      MarkedNothing(fields, seen, n);
      FreshDest(fields, m, n);
      ArrayArrives(fields, m, n);
      if Packable(f.ltype) {
        PackedFieldIsRead(fields, f, m, n, d, seen, rest);
      } else {
        UnpackedIs(f, m, n, d);
        ElementsAreRead(fields, f, m, n, 0, d, seen, rest);
      }
    } else {
      NotSentIs(f, m, n);
      SeenWithout(fields, seen, n);
      NothingArrives(fields, m, n);
      assert FieldBytes(f, m, n) + rest == rest;
    }
  }

  lemma UnpackedIs(f: Field, m: Message, n: nat, d: Message)
    requires f.htype.Repeated? && !Packable(f.ltype) && n < |d.arrays| && d.arrays[n] == []
    ensures FieldBytes(f, m, n) == Elements(f, m.ArrayAt(n)[0..])
    ensures WithArray(d, n, ArrivedElements(f, m.ArrayAt(n)[..0])) == d
  {
    hide Elements;
    assert m.ArrayAt(n)[0..] == m.ArrayAt(n) && m.ArrayAt(n)[..0] == [];
    NoElements(f);
  }

  lemma NotSentIs(f: Field, m: Message, n: nat)
    requires !Sent(f, m, n) && (f.htype.Repeated? ==> m.ArrayAt(n) == [])
    ensures FieldBytes(f, m, n) == [] && ArrivedArray(f, m, n) == [] && !f.htype.Required?
  {
    NoElements(f);
  }

  lemma SeenWithout(fields: Fields, seen: set<nat>, n: nat)
    requires n < |fields| && !fields[n].htype.Required? && SeenUpTo(fields, seen, n)
    ensures SeenUpTo(fields, seen, n + 1)
  {
  }

  // ---- the whole message ----

  function BytesFrom(fields: Fields, m: Message, n: nat): seq<byte>
    requires n <= |fields|
    decreases |fields| - n
  {
    if n == |fields| then [] else FieldBytes(fields[n], m, n) + BytesFrom(fields, m, n + 1)
  }

  lemma {:induction false} BytesSplit(fields: Fields, m: Message, n: nat)
    requires n <= |fields|
    ensures BytesUpTo(fields, m, n) + BytesFrom(fields, m, n) == MessageBytes(fields, m)
    decreases |fields| - n
  {
    hide FieldBytes;
    if n < |fields| {
      BytesSplit(fields, m, n + 1);
      var a, b, c := BytesUpTo(fields, m, n), FieldBytes(fields[n], m, n), BytesFrom(fields, m, n + 1);
      assert (a + b) + c == a + (b + c);
    }
  }

  lemma {:induction false} RestIsRead(fields: Fields, m: Message, n: nat, seen: set<nat>) returns (later: set<nat>)
    requires Sendable(fields, m) && n <= |fields| && SeenUpTo(fields, seen, n)
    ensures SeenUpTo(fields, later, |fields|)
    ensures ReadFields(fields, BytesFrom(fields, m, n), Progress(ArrivedUpTo(fields, m, n), seen))
      == Just(Progress(Arrived(fields, m), later))
    decreases fields, |fields| - n
  {
    hide Sendable, FieldBytes, SeenUpTo, OneStep, ArrivedUpTo, SendableField, ReadFields;
    if n == |fields| {
      later := seen;
      NothingToRead(fields, Progress(ArrivedUpTo(fields, m, n), seen));
    } else {
      PartSendable(fields, m, n);
      var next := FieldIsRead(fields, fields[n], m, n, seen, BytesFrom(fields, m, n + 1));
      later := RestIsRead(fields, m, n + 1, next);
    }
  }

  lemma NothingToRead(fields: Fields, p: Progress)
    ensures ReadFields(fields, [], p) == Just(p)
  {
  }

  lemma DefaultsArrived(fields: Fields, m: Message)
    ensures ArrivedUpTo(fields, m, 0) == Defaults(fields)
  {
    hide InitialOf, ArrivedAt, ArrivedArray;
    ArrivedParts(fields, m, 0);
    Alike(ArrivedUpTo(fields, m, 0), Defaults(fields));
  }

  /** pb_decode reads what pb_encode wrote, and gets the message that is to
      arrive. */
  lemma {:induction false} MessageIsRead(fields: Fields, m: Message)
    requires Sendable(fields, m)
    ensures Decoded(fields, MessageBytes(fields, m)) == Just(Arrived(fields, m))
    decreases fields, |fields| + 1
  {
    hide Sendable, FieldBytes, ReadFields, ArrivedUpTo, Defaults;
    DefaultsArrived(fields, m);
    var seen := RestIsRead(fields, m, 0, {});
    BytesSplit(fields, m, 0);
    assert BytesUpTo(fields, m, 0) + BytesFrom(fields, m, 0) == BytesFrom(fields, m, 0);
  }
}
