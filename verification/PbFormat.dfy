/** nanopb messages: descriptors, structs, and the bytes pb_encode writes. */
module PbFormat {
  import opened Coding

  // ---- descriptors ----

  /** The PB_LTYPEs in their order, without extensions; a submessage has its own
      descriptor. */
  datatype LType = BOOL | VARINT | UVARINT | SVARINT | FIXED32 | FIXED64 | BYTES | STRING
    | SUBMESSAGE(ptr: seq<Field>) | FIXED_LENGTH_BYTES

  /** The PB_HTYPEs: an optional field has a has_ flag in the struct or goes by
      its value, a repeated one has a _count, and the fields of a oneof share a
      which_ member. */
  datatype HType = Required | Optional(hasFlag: bool) | Repeated(arraySize: nat) | Oneof(which: nat)

  datatype Field = Field(tag: nat, ltype: LType, htype: HType, dataSize: nat, initial: Value)

  type Fields = seq<Field>

  /** A field's memory: a number or bool, the bytes of a bytes field or char
      array, or the struct of a submessage. */
  datatype Value = Number(n: int) | Data(data: seq<byte>) | Struct(m: Message) {
    function NumberOf(): int {
      if Number? then n else 0
    }

    function DataOf(): seq<byte> {
      if Data? then data else []
    }

    function StructOf(): Message {
      if Struct? then m else Message([], [], [], [])
    }
  }

  /** A struct: for each field its value, its has_ flag and its array, and the
      which_ members. */
  datatype Message = Message(values: seq<Value>, has: seq<bool>, arrays: seq<seq<Value>>, which: seq<nat>) {
    function ValueAt(i: nat): (v: Value)
    {
      if i < |values| then values[i] else Number(0)
    }

    function HasAt(i: nat): bool {
      i < |has| && has[i]
    }

    function ArrayAt(i: nat): seq<Value> {
      if i < |arrays| then arrays[i] else []
    }

    function WhichAt(g: nat): nat {
      if g < |which| then which[g] else 0
    }
  }

  predicate Packable(l: LType) {
    l.BOOL? || l.VARINT? || l.UVARINT? || l.SVARINT? || l.FIXED32? || l.FIXED64?
  }

  function Range(dataSize: nat): nat {
    if dataSize == 1 then 0x100 else if dataSize == 2 then 0x1_0000 else if dataSize == 4 then TWO_32 else TWO_64
  }

  predicate Signed(l: LType) {
    l.VARINT? || l.SVARINT?
  }

  /** What a C variable of a packable type can hold. */
  predicate NumberFits(l: LType, dataSize: nat, v: int) {
    if l.BOOL? then v == 0 || v == 1
    else if Signed(l) then -(Range(dataSize) / 2 as int) <= v < Range(dataSize) / 2
    else 0 <= v < Range(dataSize)
  }

  predicate SizeFits(l: LType, dataSize: nat) {
    match l
    case BOOL => dataSize == 1
    case FIXED32 => dataSize == 4
    case FIXED64 => dataSize == 8
    case VARINT => dataSize == 1 || dataSize == 2 || dataSize == 4 || dataSize == 8
    case UVARINT => dataSize == 1 || dataSize == 2 || dataSize == 4 || dataSize == 8
    case SVARINT => dataSize == 1 || dataSize == 2 || dataSize == 4 || dataSize == 8
    case _ => true
  }

  const MAX_TAG: nat := 0x2000_0000

  ghost predicate UniqueTags(fields: Fields) {
    forall i, j :: 0 <= i < j < |fields| ==> fields[i].tag != fields[j].tag
  }

  /** A descriptor as the generator makes it, to any depth. */
  ghost predicate WellFormed(fields: Fields)
    decreases fields
  {
    && UniqueTags(fields)
    && forall i :: 0 <= i < |fields| ==> FieldWellFormed(fields[i])
  }

  ghost predicate FieldWellFormed(f: Field)
    decreases f
  {
    0 < f.tag < MAX_TAG && SizeFits(f.ltype, f.dataSize) && (f.ltype.SUBMESSAGE? ==> WellFormed(f.ltype.ptr))
  }

  function WhichCount(fields: Fields): (r: nat)
    ensures forall i :: 0 <= i < |fields| && fields[i].htype.Oneof? ==> fields[i].htype.which < r
  {
    if fields == [] then 0
    else
      var n, last := WhichCount(fields[..|fields| - 1]), fields[|fields| - 1].htype;
      if last.Oneof? && last.which >= n then last.which + 1 else n
  }

  // ---- structs ----

  /** Room for the size of a bytes field before its bytes. */
  const BYTES_HEADER: nat := 4

  /** The characters before the terminator, and no more than there is room for. */
  function CString(data: seq<byte>, dataSize: nat): (r: seq<byte>)
    ensures |r| <= |data| && |r| <= dataSize
  {
    if data == [] || dataSize == 0 || data[0] == 0 then [] else [data[0]] + CString(data[1..], dataSize - 1)
  }

  predicate Shaped(fields: Fields, m: Message) {
    |m.values| == |m.has| == |m.arrays| == |fields| && |m.which| == WhichCount(fields)
  }

  /** The which_ member g names one of its fields, or none. */
  ghost predicate WhichFits(fields: Fields, m: Message, g: nat) {
    m.WhichAt(g) == 0 || exists i :: 0 <= i < |fields| && fields[i].htype == Oneof(g) && fields[i].tag == m.WhichAt(g)
  }

  /** A value that the C type allows; a string is terminated. */
  ghost predicate ValueFits(l: LType, dataSize: nat, v: Value)
    decreases l
  {
    match l
    case BYTES => v.Data?
    case STRING => v.Data? && |CString(v.data, dataSize)| < dataSize
    case FIXED_LENGTH_BYTES => v.Data? && |v.data| == dataSize
    case SUBMESSAGE(sub) => v.Struct? && Typed(sub, v.m)
    case _ => v.Number? && NumberFits(l, dataSize, v.n)
  }

  /** A struct that the C types allow, whose oneofs say what they hold. */
  ghost predicate Typed(fields: Fields, m: Message)
    decreases fields
  {
    && Shaped(fields, m)
    && (forall i :: 0 <= i < |fields| ==> FieldFits(fields[i], m, i))
    && forall g :: 0 <= g < |m.which| ==> WhichFits(fields, m, g)
  }

  /** Its elements, or its value if that is set or looked at. */
  ghost predicate FieldFits(f: Field, m: Message, i: nat)
    decreases f
  {
    if f.htype.Repeated? then
      forall k :: 0 <= k < |m.ArrayAt(i)| ==> ValueFits(f.ltype, f.dataSize, m.ArrayAt(i)[k])
    else f.htype == Optional(false) || Sent(f, m, i) ==> ValueFits(f.ltype, f.dataSize, m.ValueAt(i))
  }

  // ---- which fields are sent ----

  /** pb_check_proto3_default_value, for a value. */
  predicate IsZero(l: LType, dataSize: nat, v: Value)
    decreases l
  {
    match l
    case BYTES => v.DataOf() == []
    case STRING => CString(v.DataOf(), dataSize) == []
    case FIXED_LENGTH_BYTES => dataSize == 0
    case SUBMESSAGE(sub) => forall i :: 0 <= i < |sub| ==> FieldIsZero(sub[i], v.StructOf(), i)
    case _ => v.NumberOf() == 0
  }

  /** The same for a field of a submessage. */
  predicate FieldIsZero(f: Field, m: Message, i: nat)
    decreases f
  {
    match f.htype
    case Required => false
    case Repeated(_) => m.ArrayAt(i) == []
    case Oneof(g) => m.WhichAt(g) == 0
    case Optional(hasFlag) => if hasFlag then !m.HasAt(i) else IsZero(f.ltype, f.dataSize, m.ValueAt(i))
  }

  /** Whether a singular field is written. */
  predicate Sent(f: Field, m: Message, i: nat)
    decreases f, 1
  {
    match f.htype
    case Required => true
    case Optional(hasFlag) => if hasFlag then m.HasAt(i) else !IsZero(f.ltype, f.dataSize, m.ValueAt(i))
    case Repeated(_) => false
    case Oneof(g) => m.WhichAt(g) == f.tag
  }

  // ---- the encoders ----

  function ToUnsigned64(v: int): uint64 {
    v % TWO_64
  }

  /** Zigzag: the complement of twice a negative value. */
  function ZigZag(v: int): uint64 {
    if v < 0 then TWO_64 - 1 - ToUnsigned64(2 * v) else ToUnsigned64(2 * v)
  }

  function NumberBytes(l: LType, v: int): seq<byte> {
    match l
    case BOOL => EncodeVarint(if v != 0 then 1 else 0)
    case SVARINT => EncodeVarint(ZigZag(v))
    case FIXED32 => EncodeFixed32(v % TWO_32)
    case FIXED64 => EncodeFixed64(v % TWO_64)
    case _ => EncodeVarint(ToUnsigned64(v))
  }

  /** What the encoder of the type writes. */
  function ValueBytes(l: LType, dataSize: nat, v: Value): seq<byte>
    decreases l, 0
  {
    match l
    case BYTES => LengthPrefixed(v.DataOf())
    case STRING => LengthPrefixed(CString(v.DataOf(), dataSize))
    case FIXED_LENGTH_BYTES => LengthPrefixed(v.DataOf())
    case SUBMESSAGE(sub) => LengthPrefixed(BytesUpTo(sub, v.StructOf(), |sub|))
    case _ => NumberBytes(l, v.NumberOf())
  }

  const WT_STRING: nat := 2

  function WireType(l: LType): nat {
    match l
    case FIXED32 => 5
    case FIXED64 => 1
    case BOOL => 0
    case VARINT => 0
    case UVARINT => 0
    case SVARINT => 0
    case _ => WT_STRING
  }

  function TagBytes(f: Field): seq<byte> {
    EncodeVarint(f.tag * 8 + WireType(f.ltype))
  }

  /** Numbers one after the other. */
  function Numbers(l: LType, s: seq<Value>): seq<byte> {
    if s == [] then [] else Numbers(l, s[..|s| - 1]) + NumberBytes(l, s[|s| - 1].NumberOf())
  }

  /** Elements with a tag each. */
  function Elements(f: Field, s: seq<Value>): seq<byte>
    decreases f, 1, |s|
  {
    if s == [] then []
    else Elements(f, s[..|s| - 1]) + TagBytes(f) + ValueBytes(f.ltype, f.dataSize, s[|s| - 1])
  }

  /** The length encode_array writes before a packed array. */
  function PackedSize(l: LType, s: seq<Value>): nat {
    if l.FIXED32? then 4 * |s| else if l.FIXED64? then 8 * |s| else |Numbers(l, s)|
  }

  function ArrayBytes(f: Field, s: seq<Value>): seq<byte>
    decreases f, 2
  {
    if s == [] then []
    else if Packable(f.ltype) then
      EncodeVarint(f.tag * 8 + WT_STRING) + EncodeVarint(PackedSize(f.ltype, s)) + Numbers(f.ltype, s)
    else Elements(f, s)
  }

  function FieldBytes(f: Field, m: Message, i: nat): seq<byte>
    decreases f, 3
  {
    if f.htype.Repeated? then ArrayBytes(f, m.ArrayAt(i))
    else if Sent(f, m, i) then TagBytes(f) + ValueBytes(f.ltype, f.dataSize, m.ValueAt(i))
    else []
  }

  /** The first n fields. */
  function BytesUpTo(fields: Fields, m: Message, n: nat): seq<byte>
    requires n <= |fields|
    decreases fields, n
  {
    if n == 0 then [] else BytesUpTo(fields, m, n - 1) + FieldBytes(fields[n - 1], m, n - 1)
  }

  function MessageBytes(fields: Fields, m: Message): seq<byte> {
    BytesUpTo(fields, m, |fields|)
  }

  /** Fixed sizes are what is written. */
  lemma {:induction false} PackedSizeIs(l: LType, s: seq<Value>)
    ensures PackedSize(l, s) == |Numbers(l, s)|
  {
    hide EncodeFixed32, EncodeVarint;
    if s != [] { PackedSizeIs(l, s[..|s| - 1]); }
  }

  // ---- what the encoder refuses ----

  /** Counts and sizes within the room there is, to any depth. */
  predicate ValueOk(l: LType, dataSize: nat, v: Value)
    decreases l
  {
    match l
    case BYTES => |v.DataOf()| + BYTES_HEADER <= dataSize
    case SUBMESSAGE(sub) => forall i :: 0 <= i < |sub| ==> FieldOk(sub[i], v.StructOf(), i)
    case _ => true
  }

  predicate FieldOk(f: Field, m: Message, i: nat)
    decreases f
  {
    if f.htype.Repeated? then
      |m.ArrayAt(i)| <= f.htype.arraySize
      && forall k :: 0 <= k < |m.ArrayAt(i)| ==> ValueOk(f.ltype, f.dataSize, m.ArrayAt(i)[k])
    else Sent(f, m, i) ==> ValueOk(f.ltype, f.dataSize, m.ValueAt(i))
  }

  predicate Encodable(fields: Fields, m: Message) {
    forall i :: 0 <= i < |fields| ==> FieldOk(fields[i], m, i)
  }
}
