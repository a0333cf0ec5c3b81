/** Messages that are cut off: what ends inside a field is refused, known or
    not. */
module PbCutOff {
  import opened Coding
  import opened PbFormat
  import opened PbWire
  import opened PbDecoding
  import opened PbRoundTrip
  import opened PbKeys
  import CutOff

  // ---- varints ----

  predicate NoneEnds(b: seq<byte>) {
    forall j :: 0 <= j < |b| ==> b[j] >= 128
  }

  lemma {:induction false} Unended32(b: seq<byte>, bitpos: nat, result: uint32)
    requires NoneEnds(b)
    ensures Varint32From(b, bitpos, result) == Malformed
    decreases |b|
  {
    hide Or, ShiftLeft;
    if b != [] {
      var low := b[0] % 128;
      var next := if bitpos >= 32 then result else Or(result, ShiftLeft(low, bitpos) % TWO_32) % TWO_32;
      Unended32(b[1..], (bitpos + 7) % 256, next);
    }
  }

  lemma {:induction false} UnendedSkipped(b: seq<byte>)
    requires NoneEnds(b)
    ensures SkipVarint(b) == Malformed
  {
    if b != [] { UnendedSkipped(b[1..]); }
  }

  lemma {:induction false} CutHasNoEnd(v: nat, n: nat)
    requires n < |EncodeVarint(v)|
    ensures NoneEnds(EncodeVarint(v)[..n])
  {
    if v >= 128 && n > 0 {
      CutHasNoEnd(v / 128, n - 1);
      assert EncodeVarint(v)[..n] == [v % 128 + 128] + EncodeVarint(v / 128)[..n - 1];
    }
  }

  lemma CutVarint(v: nat, n: nat)
    requires n < |EncodeVarint(v)|
    ensures var b := EncodeVarint(v)[..n];
      Varint32(b) == Malformed && SkipVarint(b) == Malformed && ParseVarint64(b) == Malformed
  {
    hide EncodeVarint, Varint32From, ParseVarint64, SkipVarint;
    var b := EncodeVarint(v)[..n];
    CutHasNoEnd(v, n);
    UnendedSkipped(b);
    if b != [] { Unended32(b[1..], 7, b[0] % 128); }
    CutOff.CutVarint(v, n);
  }

  // ---- values ----

  lemma CutNumber(l: LType, dataSize: nat, v: int, n: nat)
    requires Packable(l) && n < |NumberBytes(l, v)|
    ensures ReadNumber(l, dataSize, NumberBytes(l, v)[..n]) == Malformed
  {
    hide EncodeVarint, Varint32, ParseVarint64, EncodeFixed32, EncodeFixed64, ZigZag, ToUnsigned64, Clamped, Widened,
      DecodeFixed32, DecodeFixed64;
    match l
    case BOOL => CutVarint(if v != 0 then 1 else 0, n);
    case SVARINT => CutVarint(ZigZag(v), n);
    case VARINT => CutVarint(ToUnsigned64(v), n);
    case UVARINT => CutVarint(ToUnsigned64(v), n);
    case _ =>
  }

  lemma CutPrefixed(data: seq<byte>, n: nat)
    requires |data| < TWO_32 && n < |LengthPrefixed(data)|
    ensures ReadPrefixed(LengthPrefixed(data)[..n]) == Malformed
  {
    hide EncodeVarint, Varint32;
    var length := EncodeVarint(|data|);
    CutOff.CutJoin(length, data, n);
    if n < |length| {
      CutVarint(|data|, n);
    } else {
      assert n == |length| ==> length[..n] == length + data[..0];
      Varint32IsRead(|data|, data[..n - |length|]);
    }
  }

  lemma CutValue(l: LType, dataSize: nat, v: Value, n: nat, dest: Value)
    requires |ValueBytes(l, dataSize, v)| < TWO_32 && n < |ValueBytes(l, dataSize, v)|
    ensures ReadValue(l, dataSize, ValueBytes(l, dataSize, v)[..n], dest) == Malformed
  {
    hide ReadNumber, NumberBytes, ReadPrefixed, EncodeVarint, ReadInto, BytesUpTo, CString, LengthPrefixed;
    match l
    case BYTES => CutString(v.DataOf(), n);
    case STRING => CutString(CString(v.DataOf(), dataSize), n);
    case FIXED_LENGTH_BYTES => CutString(v.DataOf(), n);
    case SUBMESSAGE(sub) => CutString(BytesUpTo(sub, v.StructOf(), |sub|), n);
    case _ => CutNumber(l, dataSize, v.NumberOf(), n);
  }

  lemma CutString(data: seq<byte>, n: nat)
    requires |LengthPrefixed(data)| < TWO_32 && n < |LengthPrefixed(data)|
    ensures ReadPrefixed(LengthPrefixed(data)[..n]) == Malformed
  {
    hide EncodeVarint, ReadPrefixed;
    CutPrefixed(data, n);
  }

  // ---- unknown fields ----

  lemma CutPayload(wireType: nat, payload: seq<byte>, n: nat)
    requires IsPayload(wireType, payload) && n < |payload|
    ensures SkipField(wireType, payload[..n]) == Malformed
  {
    hide EncodeVarint, SkipVarint, Varint32;
    if wireType == 0 {
      var v: nat :| v < 0x1_0000_0000_0000_0000 && payload == EncodeVarint(v);
      CutVarint(v, n);
    } else if wireType == 2 {
      var data: seq<byte> :| |data| < 0x1_0000_0000 && payload == EncodeVarint(|data|) + data;
      var length := EncodeVarint(|data|);
      CutOff.CutJoin(length, data, n);
      if n < |length| {
        CutVarint(|data|, n);
      } else {
        assert n == |length| ==> length[..n] == length + data[..0];
        Varint32IsRead(|data|, data[..n - |length|]);
      }
    }
  }

  lemma CutKey(fields: Fields, key: nat, payload: seq<byte>, n: nat, p: Progress)
    requires 0 < n < |EncodeVarint(key)|
    ensures OneStep(fields, (EncodeVarint(key) + payload)[..n], p) == Error
  {
    hide EncodeVarint, Varint32, FindTag, ReadField, SkipField;
    CutVarint(key, n);
    CutOff.CutJoin(EncodeVarint(key), payload, n);
  }

  /** An unknown field that is cut off anywhere. */
  lemma CutUnknown(fields: Fields, tag: nat, key: nat, payload: seq<byte>, n: nat, p: Progress)
    requires IsItem(tag, key, payload) && Unknown(fields, tag) && 0 < n < |EncodeVarint(key) + payload|
    ensures OneStep(fields, (EncodeVarint(key) + payload)[..n], p) == Error
  {
    hide EncodeVarint, Varint32, SkipField, FindTag, IsPayload, ReadField;
    var b := EncodeVarint(key);
    if n < |b| {
      CutKey(fields, key, payload, n, p);
    } else {
      CutOff.CutJoin(b, payload, n);
      assert n == |b| ==> b[..n] == b + payload[..0];
      Varint32IsRead(key, payload[..n - |b|]);
      CutPayload(key % 8, payload, n - |b|);
      assert FindTag(fields, tag) == Nothing;
    }
  }

  // ---- whole messages ----

  /** What was written for the first n fields is read, whatever follows. */
  lemma {:induction false} FirstFieldsAreRead(fields: Fields, m: Message, n: nat, rest: seq<byte>)
      returns (seen: set<nat>)
    requires Sendable(fields, m) && n <= |fields|
    ensures SeenUpTo(fields, seen, n)
    ensures ReadFields(fields, BytesUpTo(fields, m, n) + rest, Progress(Defaults(fields), {}))
         == ReadFields(fields, rest, Progress(ArrivedUpTo(fields, m, n), seen))
    decreases n
  {
    hide Sendable, FieldBytes, OneStep, ArrivedUpTo, SendableField, ReadFields, Defaults;
    if n == 0 {
      seen := {};
      DefaultsArrived(fields, m);
      assert BytesUpTo(fields, m, 0) + rest == rest;
    } else {
      PartSendable(fields, m, n - 1);
      var a, b := BytesUpTo(fields, m, n - 1), FieldBytes(fields[n - 1], m, n - 1);
      assert BytesUpTo(fields, m, n) + rest == a + (b + rest);
      hide BytesUpTo;
      var before := FirstFieldsAreRead(fields, m, n - 1, b + rest);
      seen := FieldIsRead(fields, fields[n - 1], m, n - 1, before, rest);
    }
  }

  /** A message that ends inside a singular field is refused. */
  lemma CutMessage(fields: Fields, m: Message, i: nat, n: nat)
    requires Sendable(fields, m) && i < |fields| && Sent(fields[i], m, i) && 0 < n < |FieldBytes(fields[i], m, i)|
    ensures Decoded(fields, BytesUpTo(fields, m, i) + FieldBytes(fields[i], m, i)[..n]) == Nothing
  {
    hide Sendable, FieldBytes, OneStep, ArrivedUpTo, SendableField, Defaults, BytesUpTo;
    var cut := FieldBytes(fields[i], m, i)[..n];
    var seen := FirstFieldsAreRead(fields, m, i, cut);
    PartSendable(fields, m, i);
    CutField(fields, m, i, n, Progress(ArrivedUpTo(fields, m, i), seen));
  }

  lemma CutField(fields: Fields, m: Message, i: nat, n: nat, p: Progress)
    requires i < |fields| && UniqueTags(fields) && SendableField(fields[i], m, i) && Sent(fields[i], m, i)
    requires 0 < n < |FieldBytes(fields[i], m, i)|
    ensures OneStep(fields, FieldBytes(fields[i], m, i)[..n], p) == Error
  {
    hide EncodeVarint, ValueBytes, OneStep, ReadValue, Sent, ValueFits, ValueOk;
    var f := fields[i];
    SentMeans(f, m, i);
    var key, bytes := EncodeVarint(f.tag * 8 + WireType(f.ltype)), ValueBytes(f.ltype, f.dataSize, m.ValueAt(i));
    if n < |key| {
      CutKey(fields, f.tag * 8 + WireType(f.ltype), bytes, n, p);
    } else {
      CutOff.CutJoin(key, bytes, n);
      assert n == |key| ==> key[..n] == key + bytes[..0];
      KeyLeadsToField(fields, i, WireType(f.ltype), bytes[..n - |key|], p);
      CutValue(f.ltype, f.dataSize, m.ValueAt(i), n - |key|, DestOf(f, p.m, i));
    }
  }
}
