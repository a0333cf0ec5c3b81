/** pb_decode as a function of its input. */
module PbDecoding {
  import opened Coding
  import opened PbFormat
  import opened PbWire

  const MAX_REQUIRED_FIELDS: nat := 64

  // ---- the struct ----

  function WithValue(m: Message, i: nat, v: Value): Message {
    if i < |m.values| then m.(values := m.values[i := v]) else m
  }

  function WithHas(m: Message, i: nat, h: bool): Message {
    if i < |m.has| then m.(has := m.has[i := h]) else m
  }

  function WithArray(m: Message, i: nat, s: seq<Value>): Message {
    if i < |m.arrays| then m.(arrays := m.arrays[i := s]) else m
  }

  function WithWhich(m: Message, g: nat, tag: nat): Message {
    if g < |m.which| then m.(which := m.which[g := tag]) else m
  }

  /** pb_message_set_to_defaults.  What is not set has no defined contents; here
      it is what a field that is set starts from. */
  function Defaults(fields: Fields): (r: Message)
    ensures Shaped(fields, r)
    decreases fields
  {
    Message(seq(|fields|, i requires 0 <= i < |fields| => InitialOf(fields[i])), seq(|fields|, _ => false),
            seq(|fields|, _ => []), seq(WhichCount(fields), _ => 0))
  }

  function InitialOf(f: Field): Value
    decreases f
  {
    if f.ltype.SUBMESSAGE? then Struct(Defaults(f.ltype.ptr)) else f.initial
  }

  /** What the decoder of a value finds in its place: new array entries and newly
      chosen oneof members are initialized first. */
  function DestOf(f: Field, m: Message, i: nat): Value {
    match f.htype
    case Required => m.ValueAt(i)
    case Optional(_) => m.ValueAt(i)
    case Repeated(_) => InitialOf(f)
    case Oneof(g) => if m.WhichAt(g) == f.tag then m.ValueAt(i) else InitialOf(f)
  }

  /** The value, and the flag or which_ member that says that it is there. */
  function Assigned(f: Field, m: Message, i: nat, v: Value): Message {
    match f.htype
    case Required => WithValue(m, i, v)
    case Optional(hasFlag) => WithValue(if hasFlag then WithHas(m, i, true) else m, i, v)
    case Repeated(_) => m
    case Oneof(g) => WithValue(WithWhich(m, g, f.tag), i, v)
  }

  // ---- fields that are not known ----

  function SkipVarint(b: seq<byte>): (r: Parsed<()>)
    ensures r.Value? ==> |r.rest| < |b|
  {
    if b == [] then Malformed else if b[0] >= 128 then SkipVarint(b[1..]) else Value((), b[1..])
  }

  function SkipBytes(b: seq<byte>, n: nat): (r: Parsed<()>)
    ensures r.Value? ==> |r.rest| <= |b|
  {
    if |b| < n then Malformed else Value((), b[n..])
  }

  /** pb_skip_field. */
  function SkipField(wireType: nat, b: seq<byte>): (r: Parsed<()>)
    ensures r.Value? ==> |r.rest| <= |b|
  {
    if wireType == 0 then SkipVarint(b)
    else if wireType == 1 then SkipBytes(b, 8)
    else if wireType == WT_STRING then (
      match Varint32(b)
      case Malformed => Malformed
      case Value(size, rest) => SkipBytes(rest, size))
    else if wireType == 5 then SkipBytes(b, 4)
    else Malformed
  }

  // ---- descriptors ----

  function FindTag(fields: Fields, tag: nat): (r: Maybe<nat>)
    ensures r.Just? ==> r.value < |fields| && fields[r.value].tag == tag
    ensures r.Nothing? ==> forall i :: 0 <= i < |fields| ==> fields[i].tag != tag
  {
    if fields == [] then Nothing
    else if fields[|fields| - 1].tag == tag then Just(|fields| - 1)
    else FindTag(fields[..|fields| - 1], tag)
  }

  /** required_field_index. */
  function RequiredBefore(fields: Fields, i: nat): nat
    requires i <= |fields|
  {
    if i == 0 then 0 else RequiredBefore(fields, i - 1) + if fields[i - 1].htype.Required? then 1 else 0
  }

  /** The bit of a required field, if it has one. */
  function Marked(fields: Fields, i: nat, seen: set<nat>): set<nat>
    requires i < |fields|
  {
    if fields[i].htype.Required? && RequiredBefore(fields, i) < MAX_REQUIRED_FIELDS then
      seen + {RequiredBefore(fields, i)}
    else seen
  }

  /** The number of required fields that have a bit. */
  function RequiredBits(fields: Fields): nat {
    var n := RequiredBefore(fields, |fields|);
    if n > MAX_REQUIRED_FIELDS then MAX_REQUIRED_FIELDS else n
  }

  predicate AllSeen(seen: set<nat>, n: nat) {
    forall k :: 0 <= k < n ==> k in seen
  }

  // ---- values, fields, messages ----

  function Zeros(n: nat): (r: seq<byte>)
    ensures |r| == n
  {
    seq(n, _ => 0)
  }

  /** What is behind a length, if that much is there. */
  function ReadPrefixed(b: seq<byte>): (r: Parsed<seq<byte>>)
    ensures r.Value? ==> |r.rest| < |b| && |r.v| < |b|
  {
    match Varint32(b)
    case Malformed => Malformed
    case Value(size, rest) => if |rest| < size then Malformed else Value(rest[..size], rest[size..])
  }

  /** The decoder of the type; `dest` is what it finds in the field. */
  function ReadValue(l: LType, dataSize: nat, b: seq<byte>, dest: Value): (r: Parsed<Value>)
    ensures r.Value? ==> |r.rest| < |b|
    decreases |b|, 0
  {
    if Packable(l) then
      match ReadNumber(l, dataSize, b)
      case Malformed => Malformed
      case Value(n, rest) => Value(Number(n), rest)
    else
      match ReadPrefixed(b)
      case Malformed => Malformed
      case Value(data, rest) =>
        if l.BYTES? then if |data| + BYTES_HEADER > dataSize then Malformed else Value(Data(data), rest)
        else if l.STRING? then if |data| + 1 > dataSize then Malformed else Value(Data(data), rest)
        else if l.FIXED_LENGTH_BYTES? then
          if data == [] then Value(Data(Zeros(dataSize)), rest)
          else if |data| != dataSize then Malformed else Value(Data(data), rest)
        else
          match ReadInto(l.ptr, data, dest.StructOf())
          case Nothing => Malformed
          case Just(m) => Value(Struct(m), rest)
  }

  /** The loop over a packed array.  It must use up the whole of it. */
  function ReadPacked(l: LType, dataSize: nat, b: seq<byte>, s: seq<Value>, arraySize: nat): Maybe<seq<Value>>
    decreases |b|
  {
    if b == [] then Just(s)
    else if |s| >= arraySize then Nothing
    else
      match ReadNumber(l, dataSize, b)
      case Malformed => Nothing
      case Value(n, rest) => ReadPacked(l, dataSize, rest, s + [Number(n)], arraySize)
  }

  /** decode_static_field. */
  function ReadField(f: Field, i: nat, wireType: nat, b: seq<byte>, m: Message): (r: Parsed<Message>)
    ensures r.Value? ==> |r.rest| < |b|
    decreases |b|, 1
  {
    if f.htype.Repeated? && wireType == WT_STRING && Packable(f.ltype) then
      match ReadPrefixed(b)
      case Malformed => Malformed
      case Value(data, rest) =>
        match ReadPacked(f.ltype, f.dataSize, data, m.ArrayAt(i), f.htype.arraySize)
        case Nothing => Malformed
        case Just(s) => Value(WithArray(m, i, s), rest)
    else if f.htype.Repeated? && |m.ArrayAt(i)| >= f.htype.arraySize then Malformed
    else
      match ReadValue(f.ltype, f.dataSize, b, DestOf(f, m, i))
      case Malformed => Malformed
      case Value(v, rest) =>
        Value(if f.htype.Repeated? then WithArray(m, i, m.ArrayAt(i) + [v]) else Assigned(f, m, i, v), rest)
  }

  datatype Progress = Progress(m: Message, seen: set<nat>)

  /** A tag and what belongs to it; the end; or an error. */
  datatype Step = Continue(p: Progress, rest: seq<byte>) | End | Error

  function OneStep(fields: Fields, b: seq<byte>, p: Progress): (r: Step)
    ensures r.Continue? ==> |r.rest| < |b|
    decreases |b|, 2
  {
    if b == [] then End
    else
      match Varint32(b)
      case Malformed => Error
      case Value(key, rest) =>
        if key == 0 then End
        else
          match FindTag(fields, key / 8)
          case Nothing => (
            match SkipField(key % 8, rest)
            case Malformed => Error
            case Value(_, after) => Continue(p, after))
          case Just(i) =>
            match ReadField(fields[i], i, key % 8, rest, p.m)
            case Malformed => Error
            case Value(m, after) => Continue(Progress(m, Marked(fields, i, p.seen)), after)
  }

  function ReadFields(fields: Fields, b: seq<byte>, p: Progress): Maybe<Progress>
    decreases |b|, 3
  {
    match OneStep(fields, b, p)
    case Error => Nothing
    case End => Just(p)
    case Continue(q, rest) => ReadFields(fields, rest, q)
  }

  /** pb_decode_noinit. */
  function ReadInto(fields: Fields, b: seq<byte>, m: Message): Maybe<Message>
    decreases |b|, 4
  {
    match ReadFields(fields, b, Progress(m, {}))
    case Nothing => Nothing
    case Just(p) => if AllSeen(p.seen, RequiredBits(fields)) then Just(p.m) else Nothing
  }

  /** pb_decode. */
  function Decoded(fields: Fields, b: seq<byte>): Maybe<Message> {
    ReadInto(fields, b, Defaults(fields))
  }
}
