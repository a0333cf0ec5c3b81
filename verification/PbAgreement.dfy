/** Which messages come back from pb_encode and pb_decode as they were. */
module PbAgreement {
  import opened Coding
  import opened PbFormat
  import opened PbDecoding
  import opened PbRoundTrip

  // ---- messages that mean the same ----

  /** The contents of what is not set do not matter. */
  ghost predicate SameValue(l: LType, dataSize: nat, a: Value, b: Value)
    decreases l
  {
    match l
    case STRING => CString(a.DataOf(), dataSize) == CString(b.DataOf(), dataSize)
    case SUBMESSAGE(sub) => Same(sub, a.StructOf(), b.StructOf())
    case _ => a == b
  }

  ghost predicate SameField(f: Field, a: Message, b: Message, i: nat)
    decreases f
  {
    match f.htype
    case Required => SameValue(f.ltype, f.dataSize, a.ValueAt(i), b.ValueAt(i))
    case Optional(hasFlag) =>
      if hasFlag then
        a.HasAt(i) == b.HasAt(i) && (a.HasAt(i) ==> SameValue(f.ltype, f.dataSize, a.ValueAt(i), b.ValueAt(i)))
      else SameValue(f.ltype, f.dataSize, a.ValueAt(i), b.ValueAt(i))
    case Repeated(_) =>
      && |a.ArrayAt(i)| == |b.ArrayAt(i)|
      && forall k :: 0 <= k < |a.ArrayAt(i)| ==> SameValue(f.ltype, f.dataSize, a.ArrayAt(i)[k], b.ArrayAt(i)[k])
    case Oneof(g) =>
      && a.WhichAt(g) == b.WhichAt(g)
      && (a.WhichAt(g) == f.tag ==> SameValue(f.ltype, f.dataSize, a.ValueAt(i), b.ValueAt(i)))
  }

  ghost predicate Same(fields: Fields, a: Message, b: Message)
    decreases fields
  {
    forall i :: 0 <= i < |fields| ==> SameField(fields[i], a, b, i)
  }

  /** pb_decode after pb_encode gives the message back. */
  ghost predicate RoundTrips(fields: Fields, m: Message) {
    var d := Decoded(fields, MessageBytes(fields, m));
    d.Just? && Same(fields, m, d.value)
  }

  // ---- the condition ----

  /** A field that goes by its value is zero by default, and so is all of a
      submessage. */
  ghost predicate ZeroInitial(f: Field)
    decreases f
  {
    match f.ltype
    case BYTES => f.initial == Data([])
    case STRING => CString(f.initial.DataOf(), f.dataSize) == []
    case FIXED_LENGTH_BYTES => f.initial == Data([])
    case SUBMESSAGE(sub) => forall j :: 0 <= j < |sub| && sub[j].htype == Optional(false) ==> ZeroInitial(sub[j])
    case _ => f.initial == Number(0)
  }

  /** No zero is left out of what is sent, to any depth, where the default is not
      zero. */
  ghost predicate ValueAgrees(l: LType, v: Value)
    decreases l
  {
    l.SUBMESSAGE? ==> Agrees(l.ptr, v.StructOf())
  }

  ghost predicate FieldAgrees(f: Field, m: Message, i: nat)
    decreases f
  {
    if f.htype.Repeated? then forall k :: 0 <= k < |m.ArrayAt(i)| ==> ValueAgrees(f.ltype, m.ArrayAt(i)[k])
    else if Sent(f, m, i) then ValueAgrees(f.ltype, m.ValueAt(i))
    else f.htype == Optional(false) ==> ZeroInitial(f)
  }

  ghost predicate Agrees(fields: Fields, m: Message)
    decreases fields
  {
    forall i :: 0 <= i < |fields| ==> FieldAgrees(fields[i], m, i)
  }

  // ---- what is left out ----

  /** A zero means the same as the default if that is zero. */
  lemma {:induction false} ZeroOrDefault(f: Field, v: Value)
    requires IsZero(f.ltype, f.dataSize, v) && ValueFits(f.ltype, f.dataSize, v) && FieldWellFormed(f)
    ensures SameValue(f.ltype, f.dataSize, v, InitialOf(f)) <==> ZeroInitial(f)
    decreases f, 0
  {
    hide NumberFits, Defaults;
    match f.ltype {
      case SUBMESSAGE(sub) =>
        forall j | 0 <= j < |sub|
          ensures SameField(sub[j], v.m, Defaults(sub), j) <==>
                  (sub[j].htype == Optional(false) ==> ZeroInitial(sub[j]))
        {
          ZeroFieldOrDefault(sub, sub[j], v.m, j);
        }
      case FIXED_LENGTH_BYTES =>
        assert v == Data([]);
      case _ =>
    }
  }

  lemma {:induction false} ZeroFieldOrDefault(sub: Fields, f: Field, m: Message, j: nat)
    requires j < |sub| && sub[j] == f && FieldIsZero(f, m, j) && FieldFits(f, m, j) && FieldWellFormed(f)
    ensures SameField(f, m, Defaults(sub), j) <==> (f.htype == Optional(false) ==> ZeroInitial(f))
    decreases f, 1
  {
    hide ValueFits, ZeroInitial, IsZero, SameValue, InitialOf;
    DefaultParts(sub, j);
    if f.htype == Optional(false) {
      ZeroOrDefault(f, m.ValueAt(j));
    }
  }

  lemma DefaultParts(sub: Fields, j: nat)
    requires j < |sub|
    ensures Defaults(sub).ValueAt(j) == InitialOf(sub[j]) && !Defaults(sub).HasAt(j) && Defaults(sub).ArrayAt(j) == []
    ensures forall g: nat :: Defaults(sub).WhichAt(g) == 0
  {
    hide InitialOf;
  }

  // ---- what is not sent ----

  /** A submessage is all zero exactly if nothing would be written for it. */
  lemma ZeroIsEmpty(sub: Fields, m: Message)
    requires Typed(sub, m) && WellFormed(sub)
    ensures (forall i :: 0 <= i < |sub| ==> FieldIsZero(sub[i], m, i)) <==> MessageBytes(sub, m) == []
  {
    hide FieldFits, FieldWellFormed, FieldIsZero, FieldBytes;
    if MessageBytes(sub, m) == [] {
      forall i | 0 <= i < |sub|
        ensures FieldBytes(sub[i], m, i) == []
      {
        PartsFit(sub, m, i, |sub|);
      }
      forall i | 0 <= i < |sub|
        ensures FieldIsZero(sub[i], m, i)
      {
        NoBytesIsZero(sub, m, i);
      }
    } else if forall i :: 0 <= i < |sub| ==> FieldIsZero(sub[i], m, i) {
      forall i | 0 <= i < |sub|
        ensures FieldBytes(sub[i], m, i) == []
      {
        ZeroHasNoBytes(sub[i], m, i);
      }
      NothingWritten(sub, m, |sub|);
    }
  }

  lemma ZeroHasNoBytes(f: Field, m: Message, i: nat)
    requires FieldWellFormed(f) && FieldIsZero(f, m, i)
    ensures FieldBytes(f, m, i) == []
  {
    hide IsZero, ValueBytes;
  }

  lemma NoBytesIsZero(sub: Fields, m: Message, i: nat)
    requires Typed(sub, m) && i < |sub|
    requires forall k :: 0 <= k < |sub| ==> FieldBytes(sub[k], m, k) == []
    ensures FieldIsZero(sub[i], m, i)
  {
    hide Sent, IsZero, FieldFits, FieldBytes;
    var f := sub[i];
    NothingSent(f, m, i);
    if f.htype.Oneof? && m.WhichAt(f.htype.which) != 0 {
      assert WhichFits(sub, m, f.htype.which);
      var k :| 0 <= k < |sub| && sub[k].htype == Oneof(f.htype.which) && sub[k].tag == m.WhichAt(f.htype.which);
      NothingSent(sub[k], m, k);
    }
  }

  lemma NothingSent(f: Field, m: Message, i: nat)
    requires FieldBytes(f, m, i) == []
    ensures !f.htype.Required?
    ensures match f.htype
      case Required => false
      case Repeated(_) => m.ArrayAt(i) == []
      case Oneof(g) => m.WhichAt(g) != f.tag
      case Optional(hasFlag) => if hasFlag then !m.HasAt(i) else IsZero(f.ltype, f.dataSize, m.ValueAt(i))
  {
    hide IsZero, ValueBytes, EncodeVarint, Numbers;
    SomeElements(f, m.ArrayAt(i));
  }

  lemma SomeElements(f: Field, s: seq<Value>)
    ensures s != [] ==> Elements(f, s) != []
  {
    hide ValueBytes, EncodeVarint;
    if s != [] {
      assert |Elements(f, s)| >= |TagBytes(f)|;
    }
  }

  lemma {:induction false} NothingWritten(sub: Fields, m: Message, n: nat)
    requires n <= |sub| && forall i :: 0 <= i < |sub| ==> FieldBytes(sub[i], m, i) == []
    ensures BytesUpTo(sub, m, n) == []
  {
    hide FieldBytes;
    if n > 0 { NothingWritten(sub, m, n - 1); }
  }

  /** A field that goes by its value is left out exactly if that is zero, empty,
      or a submessage with nothing to write. */
  lemma LeftOutExactly(f: Field, m: Message, i: nat)
    requires f.htype == Optional(false) && FieldWellFormed(f) && FieldFits(f, m, i)
    ensures FieldBytes(f, m, i) == [] <==>
      var v := m.ValueAt(i);
      match f.ltype
      case BYTES => v.DataOf() == []
      case STRING => v.DataOf() == [] || f.dataSize == 0 || v.DataOf()[0] == 0
      case FIXED_LENGTH_BYTES => v.DataOf() == []
      case SUBMESSAGE(sub) => MessageBytes(sub, v.StructOf()) == []
      case _ => v.NumberOf() == 0
  {
    hide ValueBytes, EncodeVarint, BytesUpTo, Typed, WellFormed, FieldIsZero;
    if f.ltype.SUBMESSAGE? { ZeroIsEmpty(f.ltype.ptr, m.ValueAt(i).StructOf()); }
  }

  // ---- what arrives ----

  lemma {:induction false} WhichArrived(fields: Fields, m: Message, g: nat, n: nat, i: nat)
    requires i < n <= |fields| && fields[i].htype == Oneof(g) && fields[i].tag == m.WhichAt(g)
    ensures WhichUpTo(fields, m, g, n) == m.WhichAt(g)
  {
    if i < n - 1 { WhichArrived(fields, m, g, n - 1, i); }
  }

  lemma {:induction false} WhichZero(fields: Fields, m: Message, g: nat, n: nat)
    requires n <= |fields| && m.WhichAt(g) == 0
    ensures WhichUpTo(fields, m, g, n) == 0
  {
    if n > 0 { WhichZero(fields, m, g, n - 1); }
  }

  /** The which_ members arrive. */
  lemma WhichSame(fields: Fields, m: Message, g: nat)
    requires Typed(fields, m) && g < WhichCount(fields)
    ensures Arrived(fields, m).WhichAt(g) == m.WhichAt(g)
  {
    hide FieldFits, WhichUpTo;
    ArrivedParts(fields, m, |fields|);
    assert WhichFits(fields, m, g);
    if m.WhichAt(g) == 0 {
      WhichZero(fields, m, g, |fields|);
    } else {
      var i :| 0 <= i < |fields| && fields[i].htype == Oneof(g) && fields[i].tag == m.WhichAt(g);
      WhichArrived(fields, m, g, |fields|, i);
    }
  }

  lemma {:induction false} ValueArrives(l: LType, dataSize: nat, v: Value)
    requires ValueFits(l, dataSize, v) && (l.SUBMESSAGE? ==> WellFormed(l.ptr))
    ensures SameValue(l, dataSize, v, ArrivedValue(l, dataSize, v)) <==> ValueAgrees(l, v)
    decreases l
  {
    hide NumberFits, Same, Agrees, Typed, ArrivedUpTo;
    if l.SUBMESSAGE? {
      MessageArrives(l.ptr, v.m);
    } else if l.STRING? {
      CStringAgain(v.DataOf(), dataSize);
    }
  }

  lemma ArrivedField(fields: Fields, m: Message, i: nat)
    requires i < |fields|
    ensures var d := Arrived(fields, m);
      && d.ValueAt(i) == ArrivedAt(fields[i], m, i) && d.ArrayAt(i) == ArrivedArray(fields[i], m, i)
      && (d.HasAt(i) <==> fields[i].htype == Optional(true) && m.HasAt(i))
  {
    hide ArrivedAt, ArrivedArray, WhichUpTo;
    ArrivedParts(fields, m, |fields|);
  }

  lemma {:induction false} ElementsArrive(f: Field, s: seq<Value>)
    requires FieldWellFormed(f) && forall k :: 0 <= k < |s| ==> ValueFits(f.ltype, f.dataSize, s[k])
    ensures |ArrivedElements(f, s)| == |s|
    ensures (forall k :: 0 <= k < |s| ==> SameValue(f.ltype, f.dataSize, s[k], ArrivedElements(f, s)[k])) <==>
            (forall k :: 0 <= k < |s| ==> ValueAgrees(f.ltype, s[k]))
    decreases f, 0
  {
    hide ValueFits, SameValue, ValueAgrees, ArrivedValue;
    forall k | 0 <= k < |s|
      ensures SameValue(f.ltype, f.dataSize, s[k], ArrivedElements(f, s)[k]) <==> ValueAgrees(f.ltype, s[k])
    {
      assert ArrivedElements(f, s)[k] == ArrivedValue(f.ltype, f.dataSize, s[k]);
      ValueArrives(f.ltype, f.dataSize, s[k]);
    }
  }

  /** A field that goes by its value. */
  lemma {:induction false} ImplicitArrives(f: Field, m: Message, i: nat)
    requires f.htype == Optional(false) && FieldFits(f, m, i) && FieldWellFormed(f)
    ensures SameValue(f.ltype, f.dataSize, m.ValueAt(i), ArrivedAt(f, m, i)) <==> FieldAgrees(f, m, i)
    decreases f, 0
  {
    hide ValueFits, SameValue, ValueAgrees, ArrivedValue, ZeroInitial, IsZero, InitialOf;
    if Sent(f, m, i) {
      ValueArrives(f.ltype, f.dataSize, m.ValueAt(i));
    } else {
      ZeroOrDefault(f, m.ValueAt(i));
    }
  }

  lemma {:induction false} FieldArrives(fields: Fields, f: Field, m: Message, i: nat)
    requires Typed(fields, m) && i < |fields| && fields[i] == f && FieldFits(f, m, i) && FieldWellFormed(f)
    ensures SameField(f, m, Arrived(fields, m), i) <==> FieldAgrees(f, m, i)
    decreases f, 1
  {
    hide ValueFits, SameValue, ValueAgrees, ArrivedValue, ZeroInitial, Sent, InitialOf, ArrivedUpTo, Typed,
        FieldWellFormed,
      ArrivedElements;
    SentMeans(f, m, i);
    ArrivedField(fields, m, i);
    if f.htype.Repeated? {
      ElementsArrive(f, m.ArrayAt(i));
    } else if f.htype == Optional(false) {
      ImplicitArrives(f, m, i);
    } else {
      if f.htype.Oneof? { WhichSame(fields, m, f.htype.which); }
      if Sent(f, m, i) {
        SubmessageWellFormed(f);
        ValueArrives(f.ltype, f.dataSize, m.ValueAt(i));
      }
      RequiredIsSent(f, m, i);
    }
  }

  lemma SubmessageWellFormed(f: Field)
    requires FieldWellFormed(f)
    ensures f.ltype.SUBMESSAGE? ==> WellFormed(f.ltype.ptr)
  {
  }

  lemma RequiredIsSent(f: Field, m: Message, i: nat)
    ensures f.htype.Required? ==> Sent(f, m, i)
  {
    hide IsZero;
  }

  /** What arrives means the same as what was sent exactly if the message agrees
      with the defaults. */
  lemma {:induction false} MessageArrives(fields: Fields, m: Message)
    requires Typed(fields, m) && WellFormed(fields)
    ensures Same(fields, m, Arrived(fields, m)) <==> Agrees(fields, m)
    decreases fields
  {
    hide FieldFits, SameField, FieldAgrees, ArrivedUpTo, FieldWellFormed, WhichFits;
    forall i | 0 <= i < |fields|
      ensures SameField(fields[i], m, Arrived(fields, m), i) <==> FieldAgrees(fields[i], m, i)
    {
      FieldArrives(fields, fields[i], m, i);
    }
  }

  /** A message comes back exactly if no zero was left out where the default is
      not zero. */
  lemma RoundTripsExactly(fields: Fields, m: Message)
    requires Sendable(fields, m)
    ensures RoundTrips(fields, m) <==> Agrees(fields, m)
  {
    hide Same, Agrees, Typed, WellFormed, Encodable, BytesUpTo, ArrivedUpTo;
    MessageIsRead(fields, m);
    MessageArrives(fields, m);
  }

  // ---- descriptors ----

  /** All fields that go by their value are zero by default, to any depth. */
  ghost predicate ZeroDefaults(fields: Fields)
    decreases fields
  {
    forall i :: 0 <= i < |fields| ==> FieldDefaultsZero(fields[i])
  }

  ghost predicate FieldDefaultsZero(f: Field)
    decreases f
  {
    (f.htype == Optional(false) ==> ZeroInitial(f)) && (f.ltype.SUBMESSAGE? ==> ZeroDefaults(f.ltype.ptr))
  }

  lemma {:induction false} ZeroDefaultsAgree(fields: Fields, m: Message)
    requires ZeroDefaults(fields)
    ensures Agrees(fields, m)
    decreases fields
  {
    hide ZeroInitial, Sent;
    forall i | 0 <= i < |fields| ensures FieldAgrees(fields[i], m, i) {
      ZeroFieldAgrees(fields[i], m, i);
    }
  }

  lemma {:induction false} ZeroFieldAgrees(f: Field, m: Message, i: nat)
    requires FieldDefaultsZero(f)
    ensures FieldAgrees(f, m, i)
    decreases f
  {
    hide ZeroInitial, Sent, ZeroDefaults, Agrees;
    if f.ltype.SUBMESSAGE? {
      ZeroDefaultsAgree(f.ltype.ptr, m.ValueAt(i).StructOf());
      forall k | 0 <= k < |m.ArrayAt(i)| ensures ValueAgrees(f.ltype, m.ArrayAt(i)[k]) {
        ZeroDefaultsAgree(f.ltype.ptr, m.ArrayAt(i)[k].StructOf());
      }
    }
  }

  /** Every message of a descriptor with zero defaults comes back. */
  lemma AllRoundTrip(fields: Fields, m: Message)
    requires Sendable(fields, m) && ZeroDefaults(fields)
    ensures RoundTrips(fields, m)
  {
    hide Sendable, RoundTrips, ZeroDefaults, Agrees;
    ZeroDefaultsAgree(fields, m);
    RoundTripsExactly(fields, m);
  }

  // ---- a message that does not ----

  /** One 32-bit field that goes by its value, with 5 as its default. */
  const FIVE_BY_DEFAULT: Fields := [Field(1, VARINT, Optional(false), 4, Number(5))]

  function Holding(n: int): Message {
    Message([Number(n)], [false], [[]], [])
  }

  /** A zero in such a field is left out, and comes back as 5. */
  lemma ZeroComesBackAsDefault()
    ensures Sendable(FIVE_BY_DEFAULT, Holding(0)) && MessageBytes(FIVE_BY_DEFAULT, Holding(0)) == []
    ensures Decoded(FIVE_BY_DEFAULT, []) == Just(Holding(5)) && !RoundTrips(FIVE_BY_DEFAULT, Holding(0))
  {
    var fields, m := FIVE_BY_DEFAULT, Holding(0);
    var f := fields[0];
    assert !Sent(f, m, 0) && FieldBytes(f, m, 0) == [];
    assert BytesUpTo(fields, m, 0) == [];
    assert MessageBytes(fields, m) == BytesUpTo(fields, m, 0) + [];
    assert WhichCount(fields[..0]) == 0 && WhichCount(fields) == 0;
    assert Defaults(fields) == Holding(5);
    assert OneStep(fields, [], Progress(Holding(5), {})) == End;
    assert ReadFields(fields, [], Progress(Holding(5), {})) == Just(Progress(Holding(5), {}));
    assert SameField(f, m, Holding(5), 0) <==> Number(0) == Number(5);
  }
}
