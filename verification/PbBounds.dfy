/** What pb_decode can leave in a struct, for any input at all: nothing that the
    struct has no room for. */
module PbBounds {
  import opened Coding
  import opened PbFormat
  import opened PbWire
  import opened PbDecoding

  // ---- structs within their bounds ----

  ghost predicate InBounds(l: LType, dataSize: nat, v: Value)
    decreases l
  {
    match l
    case BYTES => v.Data? && |v.data| + 4 <= dataSize
    case STRING => v.Data? && |v.data| < dataSize
    case FIXED_LENGTH_BYTES => v.Data? && |v.data| == dataSize
    case SUBMESSAGE(sub) => v.Struct? && AllInBounds(sub, v.m)
    case _ => v.Number? && NumberFits(l, dataSize, v.n)
  }

  ghost predicate FieldInBounds(f: Field, m: Message, i: nat)
    decreases f, 1
  {
    && InBounds(f.ltype, f.dataSize, m.ValueAt(i))
    && (f.htype.Repeated? ==> ElementsInBounds(f, m.ArrayAt(i)))
  }

  ghost predicate ElementsInBounds(f: Field, s: seq<Value>)
    requires f.htype.Repeated?
    decreases f, 0
  {
    |s| <= f.htype.arraySize && forall k :: 0 <= k < |s| ==> InBounds(f.ltype, f.dataSize, s[k])
  }

  /** Every value in the struct, set or not, at any depth. */
  ghost predicate AllInBounds(fields: Fields, m: Message)
    decreases fields
  {
    && Shaped(fields, m)
    && (forall i :: 0 <= i < |fields| ==> FieldInBounds(fields[i], m, i))
    && forall g :: 0 <= g < |m.which| ==> WhichFits(fields, m, g)
  }

  /** A descriptor whose initial values have room in its structs. */
  ghost predicate GoodInitials(fields: Fields)
    decreases fields
  {
    forall i :: 0 <= i < |fields| ==> GoodInitial(fields[i])
  }

  ghost predicate GoodInitial(f: Field)
    decreases f
  {
    && SizeFits(f.ltype, f.dataSize)
    && if f.ltype.SUBMESSAGE? then GoodInitials(f.ltype.ptr) else InBounds(f.ltype, f.dataSize, f.initial)
  }

  lemma {:induction false} InitialInBounds(f: Field)
    requires GoodInitial(f)
    ensures InBounds(f.ltype, f.dataSize, InitialOf(f))
    decreases f
  {
    hide Defaults;
    if f.ltype.SUBMESSAGE? { DefaultsInBounds(f.ltype.ptr); }
  }

  lemma {:induction false} DefaultsInBounds(fields: Fields)
    requires GoodInitials(fields)
    ensures AllInBounds(fields, Defaults(fields))
    decreases fields
  {
    hide InBounds, InitialOf, GoodInitial;
    var d := Defaults(fields);
    forall i | 0 <= i < |fields|
      ensures FieldInBounds(fields[i], d, i)
    {
      InitialInBounds(fields[i]);
    }
  }

  // ---- one value ----

  lemma ClampedFits(l: LType, dataSize: nat, svalue: int)
    requires SizeFits(l, dataSize) && Packable(l) && !l.BOOL?
    ensures Clamped(l, dataSize, svalue).Just? ==> NumberFits(l, dataSize, Clamped(l, dataSize, svalue).value)
  {
  }

  lemma NumberReadFits(l: LType, dataSize: nat, b: seq<byte>)
    requires SizeFits(l, dataSize) && Packable(l)
    ensures ReadNumber(l, dataSize, b).Value? ==> NumberFits(l, dataSize, ReadNumber(l, dataSize, b).v)
  {
    hide Varint32, ParseVarint64, DecodeFixed32, DecodeFixed64, Clamped, Widened;
    if !l.BOOL? && !l.FIXED32? && !l.FIXED64? && ParseVarint64(b).Value? {
      ClampedFits(l, dataSize, Widened(l, dataSize, ParseVarint64(b).v));
    }
  }

  lemma {:induction false} ValueReadInBounds(l: LType, dataSize: nat, b: seq<byte>, dest: Value)
    requires SizeFits(l, dataSize)
    requires l.SUBMESSAGE? ==> GoodInitials(l.ptr) && dest.Struct? && AllInBounds(l.ptr, dest.m)
    ensures var r := ReadValue(l, dataSize, b, dest);
      r.Value? ==> InBounds(l, dataSize, r.v)
    decreases |b|, 0
  {
    hide ReadNumber, ReadPrefixed, ReadInto, AllInBounds, GoodInitials, NumberFits;
    if Packable(l) {
      NumberReadFits(l, dataSize, b);
    } else if l.SUBMESSAGE? && ReadPrefixed(b).Value? {
      IntoInBounds(l.ptr, ReadPrefixed(b).v, dest.m);
    }
  }

  lemma {:induction false} PackedInBounds(f: Field, b: seq<byte>, s: seq<Value>)
    requires f.htype.Repeated? && Packable(f.ltype) && SizeFits(f.ltype, f.dataSize)
    requires ElementsInBounds(f, s)
    ensures var r := ReadPacked(f.ltype, f.dataSize, b, s, f.htype.arraySize);
      r.Just? ==> ElementsInBounds(f, r.value)
    decreases |b|
  {
    hide ReadNumber, NumberFits;
    if b != [] && |s| < f.htype.arraySize && ReadNumber(f.ltype, f.dataSize, b).Value? {
      var r := ReadNumber(f.ltype, f.dataSize, b);
      NumberReadFits(f.ltype, f.dataSize, b);
      PackedInBounds(f, r.rest, s + [Number(r.v)]);
    }
  }

  // ---- one field ----

  lemma ValueAssigned(fields: Fields, i: nat, m: Message, v: Value)
    requires AllInBounds(fields, m) && i < |fields| && InBounds(fields[i].ltype, fields[i].dataSize, v)
    ensures AllInBounds(fields, WithValue(m, i, v)) && AllInBounds(fields, WithHas(m, i, true))
  {
    hide InBounds;
    var d, h := WithValue(m, i, v), WithHas(m, i, true);
    forall j | 0 <= j < |fields|
      ensures FieldInBounds(fields[j], d, j) && FieldInBounds(fields[j], h, j)
    {
      assert FieldInBounds(fields[j], m, j);
    }
    forall g | 0 <= g < |m.which|
      ensures WhichFits(fields, d, g) && WhichFits(fields, h, g)
    {
      assert WhichFits(fields, m, g);
    }
  }

  lemma ArrayAssigned(fields: Fields, i: nat, m: Message, s: seq<Value>)
    requires AllInBounds(fields, m) && i < |fields| && fields[i].htype.Repeated? && ElementsInBounds(fields[i], s)
    ensures AllInBounds(fields, WithArray(m, i, s))
  {
    hide InBounds, ElementsInBounds;
    var d := WithArray(m, i, s);
    forall j | 0 <= j < |fields|
      ensures FieldInBounds(fields[j], d, j)
    {
      assert FieldInBounds(fields[j], m, j);
    }
    forall g | 0 <= g < |m.which|
      ensures WhichFits(fields, d, g)
    {
      assert WhichFits(fields, m, g);
    }
  }

  lemma WhichAssigned(fields: Fields, i: nat, m: Message)
    requires AllInBounds(fields, m) && i < |fields| && fields[i].htype.Oneof?
    ensures AllInBounds(fields, WithWhich(m, fields[i].htype.which, fields[i].tag))
  {
    hide InBounds, ElementsInBounds;
    var f, g0 := fields[i], fields[i].htype.which;
    assert f.htype == Oneof(g0);
    var d := WithWhich(m, g0, f.tag);
    forall j | 0 <= j < |fields|
      ensures FieldInBounds(fields[j], d, j)
    {
      assert FieldInBounds(fields[j], m, j);
    }
    forall g | 0 <= g < |m.which|
      ensures WhichFits(fields, d, g)
    {
      assert WhichFits(fields, m, g);
    }
  }

  lemma FieldAssigned(fields: Fields, f: Field, i: nat, m: Message, v: Value)
    requires AllInBounds(fields, m) && i < |fields| && fields[i] == f && InBounds(f.ltype, f.dataSize, v)
    ensures AllInBounds(fields, Assigned(f, m, i, v))
  {
    hide AllInBounds, InBounds, WithValue, WithHas, WithWhich;
    match f.htype
    case Required => ValueAssigned(fields, i, m, v);
    case Optional(hasFlag) =>
      ValueAssigned(fields, i, m, v);
      ValueAssigned(fields, i, if hasFlag then WithHas(m, i, true) else m, v);
    case Repeated(_) =>
    case Oneof(g) =>
      WhichAssigned(fields, i, m);
      ValueAssigned(fields, i, WithWhich(m, g, f.tag), v);
  }

  lemma DestInBounds(fields: Fields, f: Field, i: nat, m: Message)
    requires AllInBounds(fields, m) && i < |fields| && fields[i] == f && GoodInitial(f)
    ensures InBounds(f.ltype, f.dataSize, DestOf(f, m, i))
  {
    hide InBounds, InitialOf, GoodInitial;
    InitialInBounds(f);
    assert FieldInBounds(f, m, i);
  }

  lemma {:induction false} FieldReadInBounds(fields: Fields, f: Field, i: nat, wireType: nat, b: seq<byte>, m: Message)
    requires AllInBounds(fields, m) && i < |fields| && fields[i] == f && GoodInitial(f)
    ensures var r := ReadField(f, i, wireType, b, m);
      r.Value? ==> AllInBounds(fields, r.v)
    decreases |b|, 1
  {
    hide AllInBounds, InBounds, ReadValue, ReadPrefixed, ReadPacked, WithArray, Assigned, DestOf, GoodInitials;
    var before := m.ArrayAt(i);
    if f.htype.Repeated? { ArrayInBounds(fields, i, m); }
    if f.htype.Repeated? && wireType == WT_STRING && Packable(f.ltype) {
      if ReadPrefixed(b).Value? {
        var data := ReadPrefixed(b).v;
        PackedInBounds(f, data, before);
        var s := ReadPacked(f.ltype, f.dataSize, data, before, f.htype.arraySize);
        if s.Just? { ArrayAssigned(fields, i, m, s.value); }
      }
    } else if !(f.htype.Repeated? && |before| >= f.htype.arraySize) {
      DestInBounds(fields, f, i, m);
      SubmessageInBounds(f.ltype, f.dataSize, DestOf(f, m, i));
      var r := ReadValue(f.ltype, f.dataSize, b, DestOf(f, m, i));
      ValueReadInBounds(f.ltype, f.dataSize, b, DestOf(f, m, i));
      if r.Value? {
        if f.htype.Repeated? {
          ArrayAssigned(fields, i, m, before + [r.v]);
        } else {
          FieldAssigned(fields, f, i, m, r.v);
        }
      }
    }
  }

  lemma ArrayInBounds(fields: Fields, i: nat, m: Message)
    requires AllInBounds(fields, m) && i < |fields| && fields[i].htype.Repeated?
    ensures ElementsInBounds(fields[i], m.ArrayAt(i))
  {
    assert FieldInBounds(fields[i], m, i);
  }

  lemma SubmessageInBounds(l: LType, dataSize: nat, v: Value)
    requires InBounds(l, dataSize, v)
    ensures l.SUBMESSAGE? ==> v.Struct? && AllInBounds(l.ptr, v.m)
  {
  }

  // ---- messages ----

  lemma {:induction false} StepInBounds(fields: Fields, b: seq<byte>, p: Progress)
    requires AllInBounds(fields, p.m) && GoodInitials(fields)
    ensures OneStep(fields, b, p).Continue? ==> AllInBounds(fields, OneStep(fields, b, p).p.m)
    decreases |b|, 2
  {
    hide AllInBounds, ReadField, Varint32, FindTag, SkipField, Marked, GoodInitial;
    if b != [] && Varint32(b).Value? {
      var key, rest := Varint32(b).v, Varint32(b).rest;
      var found := FindTag(fields, key / 8);
      if key != 0 && found.Just? {
        FieldReadInBounds(fields, fields[found.value], found.value, key % 8, rest, p.m);
      }
    }
  }

  lemma {:induction false} FieldsInBounds(fields: Fields, b: seq<byte>, p: Progress)
    requires AllInBounds(fields, p.m) && GoodInitials(fields)
    ensures var r := ReadFields(fields, b, p);
      r.Just? ==> AllInBounds(fields, r.value.m)
    decreases |b|, 3
  {
    hide AllInBounds, GoodInitials, OneStep;
    StepInBounds(fields, b, p);
    var step := OneStep(fields, b, p);
    if step.Continue? { FieldsInBounds(fields, step.rest, step.p); }
  }

  lemma {:induction false} IntoInBounds(fields: Fields, b: seq<byte>, m: Message)
    requires AllInBounds(fields, m) && GoodInitials(fields)
    ensures var r := ReadInto(fields, b, m);
      r.Just? ==> AllInBounds(fields, r.value)
    decreases |b|, 4
  {
    hide AllInBounds, GoodInitials, ReadFields;
    FieldsInBounds(fields, b, Progress(m, {}));
  }

  /** Whatever the input, a struct that pb_decode accepts is within its bounds. */
  lemma DecodedInBounds(fields: Fields, b: seq<byte>)
    requires GoodInitials(fields)
    ensures Decoded(fields, b).Just? ==> AllInBounds(fields, Decoded(fields, b).value)
  {
    hide AllInBounds, GoodInitials, ReadInto, Defaults;
    DefaultsInBounds(fields);
    IntoInBounds(fields, b, Defaults(fields));
  }

  // ---- sending it on ----

  lemma {:induction false} InBoundsIsOk(l: LType, dataSize: nat, v: Value)
    requires InBounds(l, dataSize, v)
    ensures ValueFits(l, dataSize, v) && ValueOk(l, dataSize, v)
    decreases l
  {
    hide NumberFits, FieldOk, FieldFits;
    if l.SUBMESSAGE? { AllInBoundsIsOk(l.ptr, v.m); }
  }

  lemma {:induction false} FieldInBoundsIsOk(f: Field, m: Message, i: nat)
    requires FieldInBounds(f, m, i)
    ensures FieldFits(f, m, i) && FieldOk(f, m, i)
    decreases f
  {
    hide ValueFits, ValueOk, InBounds, IsZero;
    InBoundsIsOk(f.ltype, f.dataSize, m.ValueAt(i));
    forall k | f.htype.Repeated? && 0 <= k < |m.ArrayAt(i)|
      ensures ValueFits(f.ltype, f.dataSize, m.ArrayAt(i)[k]) && ValueOk(f.ltype, f.dataSize, m.ArrayAt(i)[k])
    {
      InBoundsIsOk(f.ltype, f.dataSize, m.ArrayAt(i)[k]);
    }
  }

  /** Such a struct can be encoded. */
  lemma {:induction false} AllInBoundsIsOk(fields: Fields, m: Message)
    requires AllInBounds(fields, m)
    ensures Typed(fields, m) && Encodable(fields, m)
    decreases fields
  {
    hide FieldFits, FieldOk, FieldInBounds, WhichFits;
    forall i | 0 <= i < |fields|
      ensures FieldFits(fields[i], m, i) && FieldOk(fields[i], m, i)
    {
      FieldInBoundsIsOk(fields[i], m, i);
    }
  }
}
