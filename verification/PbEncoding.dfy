/** pb_ostream_t and pb_encode. */
module PbEncoding {
  import opened Coding
  import opened PbFormat
  import opened PbIterators

  /** What the bytes so far and the value left make of the varint. */
  ghost predicate Grouped(buffer: seq<byte>, v: nat, value: nat) {
    if v != 0 then buffer + EncodeVarint(v) == EncodeVarint(value)
    else
      && buffer != [] && buffer[|buffer| - 1] >= 128
      && buffer[..|buffer| - 1] + [buffer[|buffer| - 1] - 128] == EncodeVarint(value)
  }

  lemma GroupsStart(value: nat)
    requires value > 0
    ensures Grouped([], value, value)
  {
  }

  lemma GroupWritten(buffer: seq<byte>, v: nat, value: nat)
    requires v != 0 && Grouped(buffer, v, value)
    ensures Grouped(buffer + [v % 128 + 128], v / 128, value)
  {
    VarintUnfold(v);
    hide EncodeVarint;
    var last := v % 128 + 128;
    assert (buffer + [last])[..|buffer|] == buffer;
    assert v >= 128 ==> buffer + ([last] + EncodeVarint(v / 128)) == buffer + [last] + EncodeVarint(v / 128);
  }

  lemma GroupsEnd(buffer: seq<byte>, value: nat)
    requires Grouped(buffer, 0, value)
    ensures buffer != [] && buffer[|buffer| - 1] >= 128
    ensures buffer[..|buffer| - 1] + [buffer[|buffer| - 1] - 128] == EncodeVarint(value)
  {
  }

  /** The errmsg of a stream; the first error stays. */
  datatype Error = None | StreamFull | BytesExceeded | ArrayExceeded | SizeChanged

  /** A stream that writes into a buffer of max_size bytes, or one without a
      callback, which only counts. */
  class OStream {
    const sizing: bool
    const maxSize: nat
    var bytesWritten: nat
    var written: seq<byte>
    var errmsg: Error

    /** It never happens that a submessage changes its size between the passes. */
    ghost predicate Valid()
      reads this
    {
      (!sizing ==> |written| == bytesWritten <= maxSize) && errmsg != SizeChanged
    }

    constructor FromBuffer(bufsize: nat)
      ensures Valid() && !sizing && maxSize == bufsize && bytesWritten == 0 && written == []
    {
      sizing, maxSize, bytesWritten, written, errmsg := false, bufsize, 0, [], None;
    }

    /** PB_OSTREAM_SIZING. */
    constructor Sizing()
      ensures Valid() && sizing && bytesWritten == 0
    {
      sizing, maxSize, bytesWritten, written, errmsg := true, 0, 0, [], None;
    }

    /** What it means that bytes went to the stream: it fails exactly if they do
        not fit the buffer. */
    twostate predicate Took(ok: bool, bytes: seq<byte>)
      reads this
    {
      if sizing then ok && bytesWritten == old(bytesWritten) + |bytes|
      else
        && (ok <==> old(bytesWritten) + |bytes| <= maxSize)
        && (ok ==> written == old(written) + bytes && bytesWritten == old(bytesWritten) + |bytes|)
    }

    /** PB_RETURN_ERROR. */
    method Fail(e: Error)
      requires Valid() && e != SizeChanged
      modifies this`errmsg
      ensures Valid()
    {
      errmsg := if errmsg.None? then e else errmsg;
    }

    /** pb_write. */
    method Write(buf: seq<byte>) returns (ok: bool)
      requires Valid()
      modifies this
      ensures Valid() && Took(ok, buf)
    {
      if |buf| > 0 && !sizing {
        if bytesWritten + |buf| > maxSize {
          Fail(StreamFull);
          return false;
        }
        written := written + buf;
      }
      bytesWritten := bytesWritten + |buf|;
      return true;
    }

    /** pb_write without a buffer, for a stream that only counts. */
    method Count(size: nat)
      requires Valid() && sizing
      modifies this
      ensures Valid() && bytesWritten == old(bytesWritten) + size
    {
      bytesWritten := bytesWritten + size;
    }

    /** The loop of pb_encode_varint, and the top bit taken off the last byte. */
    static method Groups(value: nat) returns (buffer: seq<byte>)
      requires value > 0x7F
      ensures buffer == EncodeVarint(value)
    {
      hide EncodeVarint, Grouped;
      buffer := [];
      var v: nat := value;
      GroupsStart(value);
      while v != 0
        invariant Grouped(buffer, v, value)
        decreases v
      {
        GroupWritten(buffer, v, value);
        buffer := buffer + [v % 128 + 128];
        v := v / 128;
      }
      GroupsEnd(buffer, value);
      var last := |buffer| - 1;
      buffer := buffer[..last] + [buffer[last] - 128];
    }

    /** pb_encode_varint. */
    method PutVarint(value: nat) returns (ok: bool)
      requires Valid()
      modifies this
      ensures Valid() && Took(ok, EncodeVarint(value))
    {
      if value <= 0x7F {
        ok := Write([value]);
        return;
      }
      var buffer := Groups(value);
      ok := Write(buffer);
    }

    /** pb_encode_string. */
    method PutString(buffer: seq<byte>) returns (ok: bool)
      requires Valid()
      modifies this
      ensures Valid() && Took(ok, LengthPrefixed(buffer))
    {
      hide EncodeVarint;
      ok := PutVarint(|buffer|);
      if !ok {
        return;
      }
      ok := Write(buffer);
    }

    /** pb_enc_bool and the other encoders of packable types. */
    method PutNumber(l: LType, v: int) returns (ok: bool)
      requires Valid()
      modifies this
      ensures Valid() && Took(ok, NumberBytes(l, v))
    {
      match l
      case BOOL => ok := PutVarint(if v != 0 then 1 else 0);
      case SVARINT => ok := PutVarint(ZigZag(v));
      case FIXED32 => ok := Write(EncodeFixed32(v % TWO_32));
      case FIXED64 => ok := Write(EncodeFixed64(v % TWO_64));
      case _ => ok := PutVarint(ToUnsigned64(v));
    }

    /** What the substream wrote is in this stream's buffer. */
    method Join(substream: OStream)
      requires Valid() && substream.Valid() && !sizing && !substream.sizing && substream != this
      requires bytesWritten + substream.maxSize <= maxSize
      modifies this
      ensures Valid() && written == old(written) + substream.written
      ensures bytesWritten == old(bytesWritten) + substream.bytesWritten
    {
      bytesWritten := bytesWritten + substream.bytesWritten;
      written := written + substream.written;
      errmsg := substream.errmsg;
    }
  }

  // ---- packed arrays ----

  lemma NumbersSnoc(l: LType, s: seq<Value>, i: nat)
    requires i < |s|
    ensures Numbers(l, s[..i + 1]) == Numbers(l, s[..i]) + NumberBytes(l, s[i].NumberOf())
  {
    hide NumberBytes;
    assert s[..i + 1][..i] == s[..i];
  }

  lemma {:induction false} NumbersGrow(l: LType, s: seq<Value>, i: nat)
    requires i <= |s|
    ensures |Numbers(l, s[..i])| <= |Numbers(l, s)|
    decreases |s| - i
  {
    hide Numbers, NumberBytes;
    if i < |s| {
      NumbersSnoc(l, s, i);
      NumbersGrow(l, s, i + 1);
    } else {
      assert s[..i] == s;
    }
  }

  lemma NoNumbers(l: LType)
    ensures Numbers(l, []) == []
  {
  }

  /** All numbers in turn; on a stream that counts, their sizes. */
  method EncodeNumbers(stream: OStream, l: LType, s: seq<Value>) returns (ok: bool)
    requires stream.Valid()
    modifies stream
    ensures stream.Valid() && stream.Took(ok, Numbers(l, s))
  {
    hide NumberBytes, Numbers;
    assert s[..0] == [] && s[..|s|] == s;
    NoNumbers(l);
    for i := 0 to |s|
      invariant stream.Valid() && stream.Took(true, Numbers(l, s[..i]))
    {
      NumbersSnoc(l, s, i);
      NumbersGrow(l, s, i + 1);
      ok := stream.PutNumber(l, s[i].NumberOf());
      if !ok {
        return;
      }
    }
    return true;
  }

  /** The size of a packed array. */
  method MeasureArray(l: LType, s: seq<Value>) returns (size: nat)
    ensures size == PackedSize(l, s)
  {
    hide Numbers;
    if l.FIXED32? {
      size := 4 * |s|;
    } else if l.FIXED64? {
      size := 8 * |s|;
    } else {
      var sizestream := new OStream.Sizing();
      var ok := EncodeNumbers(sizestream, l, s);
      size := sizestream.bytesWritten;
    }
  }

  /** encode_array, for a packable type. */
  method EncodePacked(stream: OStream, f: Field, s: seq<Value>) returns (ok: bool)
    requires stream.Valid() && Packable(f.ltype) && s != []
    modifies stream
    ensures stream.Valid() && stream.Took(ok, ArrayBytes(f, s))
  {
    hide EncodeVarint, Numbers;
    ok := stream.PutVarint(f.tag * 8 + WT_STRING);
    if !ok {
      return;
    }
    var size := MeasureArray(f.ltype, s);
    PackedSizeIs(f.ltype, s);
    ok := stream.PutVarint(size);
    if !ok {
      return;
    }
    if stream.sizing {
      stream.Count(size);
      return true;
    }
    ok := EncodeNumbers(stream, f.ltype, s);
  }

  // ---- values ----

  /** The loop of pb_enc_string. */
  method StringLength(data: seq<byte>, dataSize: nat) returns (size: nat)
    ensures size <= |data| && data[..size] == CString(data, dataSize)
  {
    size := 0;
    assert data[0..] == data;
    while size < dataSize && size < |data| && data[size] != 0
      invariant size <= |data| && size <= dataSize
      invariant CString(data, dataSize) == data[..size] + CString(data[size..], dataSize - size)
    {
      assert data[size..][1..] == data[size + 1..];
      assert data[..size] + [data[size]] == data[..size + 1];
      size := size + 1;
    }
  }

  /** The encoder of the type. */
  method EncodeValue(stream: OStream, l: LType, dataSize: nat, v: Value) returns (ok: bool)
    requires stream.Valid()
    modifies stream
    ensures stream.Valid()
    ensures if ValueOk(l, dataSize, v) then stream.Took(ok, ValueBytes(l, dataSize, v)) else !ok
    decreases l
  {
    hide EncodeVarint, NumberBytes, CString, BytesUpTo, FieldOk, LengthPrefixed;
    match l
    case BYTES =>
      var data := v.DataOf();
      if |data| + BYTES_HEADER > dataSize {
        stream.Fail(BytesExceeded);
        return false;
      }
      ok := stream.PutString(data);
    case STRING =>
      var data := v.DataOf();
      var size := StringLength(data, dataSize);
      ok := stream.PutString(data[..size]);
    case FIXED_LENGTH_BYTES =>
      ok := stream.PutString(v.DataOf());
    case SUBMESSAGE(sub) =>
      ok := EncodeSubmessage(stream, sub, v.StructOf());
    case _ =>
      ok := stream.PutNumber(l, v.NumberOf());
  }

  /** A tag and a value. */
  method EncodeSingular(stream: OStream, f: Field, v: Value) returns (ok: bool)
    requires stream.Valid()
    modifies stream
    ensures stream.Valid()
    ensures if ValueOk(f.ltype, f.dataSize, v) then stream.Took(ok, TagBytes(f) + ValueBytes(f.ltype, f.dataSize, v))
      else !ok
    decreases f, 0
  {
    hide EncodeVarint, ValueBytes, ValueOk;
    ok := stream.PutVarint(f.tag * 8 + WireType(f.ltype));
    if !ok {
      return;
    }
    ok := EncodeValue(stream, f.ltype, f.dataSize, v);
  }

  // ---- arrays and fields ----

  lemma ElementsSnoc(f: Field, s: seq<Value>, i: nat)
    requires i < |s|
    ensures Elements(f, s[..i + 1]) == Elements(f, s[..i]) + (TagBytes(f) + ValueBytes(f.ltype, f.dataSize, s[i]))
  {
    hide ValueBytes, TagBytes;
    assert s[..i + 1][..i] == s[..i];
    var a, b, c := Elements(f, s[..i]), TagBytes(f), ValueBytes(f.ltype, f.dataSize, s[i]);
    assert a + b + c == a + (b + c);
  }

  lemma {:induction false} ElementsGrow(f: Field, s: seq<Value>, i: nat)
    requires i <= |s|
    ensures |Elements(f, s[..i])| <= |Elements(f, s)|
    decreases |s| - i
  {
    hide Elements, ValueBytes, TagBytes;
    if i < |s| {
      ElementsSnoc(f, s, i);
      ElementsGrow(f, s, i + 1);
    } else {
      assert s[..i] == s;
    }
  }

  /** encode_array, for a type that is not packable. */
  method EncodeElements(stream: OStream, f: Field, s: seq<Value>) returns (ok: bool)
    requires stream.Valid()
    modifies stream
    ensures stream.Valid()
    ensures if forall k :: 0 <= k < |s| ==> ValueOk(f.ltype, f.dataSize, s[k]) then stream.Took(ok, Elements(f, s))
      else !ok
    decreases f, 1
  {
    hide ValueBytes, TagBytes, ValueOk, Elements;
    assert s[..0] == [] && s[..|s|] == s;
    assert Elements(f, []) == [] by { NothingInArray(f); }
    for i := 0 to |s|
      invariant stream.Valid() && stream.Took(true, Elements(f, s[..i]))
      invariant forall k :: 0 <= k < i ==> ValueOk(f.ltype, f.dataSize, s[k])
    {
      ElementsSnoc(f, s, i);
      ElementsGrow(f, s, i + 1);
      ok := EncodeSingular(stream, f, s[i]);
      if !ok {
        return;
      }
    }
    return true;
  }

  lemma NothingInArray(f: Field)
    ensures Elements(f, []) == []
  {
  }

  /** encode_array. */
  method EncodeArray(stream: OStream, f: Field, s: seq<Value>, arraySize: nat) returns (ok: bool)
    requires stream.Valid()
    modifies stream
    ensures stream.Valid()
    ensures if |s| <= arraySize && (forall k :: 0 <= k < |s| ==> ValueOk(f.ltype, f.dataSize, s[k])) then
        stream.Took(ok, ArrayBytes(f, s))
      else !ok
    decreases f, 2
  {
    hide Elements, EncodeVarint, Numbers, ValueOk;
    if |s| == 0 {
      return true;
    }
    if |s| > arraySize {
      stream.Fail(ArrayExceeded);
      return false;
    }
    if Packable(f.ltype) {
      PackablesOk(f, s);
      ok := EncodePacked(stream, f, s);
    } else {
      ok := EncodeElements(stream, f, s);
    }
  }

  lemma PackablesOk(f: Field, s: seq<Value>)
    requires Packable(f.ltype)
    ensures forall k :: 0 <= k < |s| ==> ValueOk(f.ltype, f.dataSize, s[k])
  {
  }

  /** encode_basic_field. */
  method EncodeField(stream: OStream, f: Field, m: Message, i: nat) returns (ok: bool)
    requires stream.Valid()
    modifies stream
    ensures stream.Valid()
    ensures if FieldOk(f, m, i) then stream.Took(ok, FieldBytes(f, m, i)) else !ok
    decreases f, 3
  {
    hide ArrayBytes, ValueBytes, TagBytes, ValueOk, IsZero;
    match f.htype
    case Required =>
      ok := EncodeSingular(stream, f, m.ValueAt(i));
    case Optional(hasFlag) =>
      // The has_ flag, or pb_check_proto3_default_value.
      var has := if hasFlag then m.HasAt(i) else !IsZero(f.ltype, f.dataSize, m.ValueAt(i));
      ok := true;
      if has {
        ok := EncodeSingular(stream, f, m.ValueAt(i));
      }
    case Repeated(arraySize) =>
      ok := EncodeArray(stream, f, m.ArrayAt(i), arraySize);
    case Oneof(g) =>
      ok := true;
      if m.WhichAt(g) == f.tag {
        ok := EncodeSingular(stream, f, m.ValueAt(i));
      }
  }

  // ---- messages ----

  lemma {:induction false} BytesGrow(fields: Fields, m: Message, n: nat, k: nat)
    requires n <= k <= |fields|
    ensures |BytesUpTo(fields, m, n)| <= |BytesUpTo(fields, m, k)|
    decreases k
  {
    hide FieldBytes;
    if n < k { BytesGrow(fields, m, n, k - 1); }
  }

  /** pb_encode. */
  method Encode(stream: OStream, fields: Fields, m: Message) returns (ok: bool)
    requires stream.Valid()
    modifies stream
    ensures stream.Valid()
    ensures if Encodable(fields, m) then stream.Took(ok, MessageBytes(fields, m)) else !ok
    decreases fields, 0
  {
    hide FieldBytes, FieldOk;
    if |fields| == 0 {
      return true;
    }
    var iter := new FieldIter(fields);
    ghost var n := 0;
    while true
      invariant stream.Valid() && iter.Valid() && iter.start == fields && n == iter.pos < |fields|
      invariant stream.Took(true, BytesUpTo(fields, m, n))
      invariant forall i :: 0 <= i < n ==> FieldOk(fields[i], m, i)
      decreases |fields| - n
    {
      BytesGrow(fields, m, n + 1, |fields|);
      ok := EncodeField(stream, fields[iter.pos], m, iter.pos);
      if !ok {
        return;
      }
      n := n + 1;
      var more := iter.Next();
      if !more {
        return true;
      }
    }
  }

  /** pb_encode_submessage: the size, found by a pass that does not write, then
      the message in a substream of that size. */
  method EncodeSubmessage(stream: OStream, fields: Fields, m: Message) returns (ok: bool)
    requires stream.Valid()
    modifies stream
    ensures stream.Valid()
    ensures if Encodable(fields, m) then stream.Took(ok, LengthPrefixed(MessageBytes(fields, m))) else !ok
    decreases fields, 1
  {
    hide MessageBytes, EncodeVarint, Encodable;
    var sizing := new OStream.Sizing();
    ok := Encode(sizing, fields, m);
    if !ok {
      stream.Fail(sizing.errmsg);
      return;
    }
    var size := sizing.bytesWritten;
    ok := stream.PutVarint(size);
    if !ok {
      return;
    }
    if stream.sizing {
      stream.Count(size);
      return true;
    }
    if stream.bytesWritten + size > stream.maxSize {
      stream.Fail(StreamFull);
      return false;
    }
    var substream := new OStream.FromBuffer(size);
    var status := Encode(substream, fields, m);
    stream.Join(substream);
    var changed := substream.bytesWritten != size;
    stream.errmsg := if changed then SizeChanged else stream.errmsg;
    ok := !changed && status;
  }

  /** pb_get_encoded_size. */
  method GetEncodedSize(fields: Fields, m: Message) returns (ok: bool, size: nat)
    ensures (ok <==> Encodable(fields, m)) && (ok ==> size == |MessageBytes(fields, m)|)
  {
    hide MessageBytes, Encodable;
    var stream := new OStream.Sizing();
    ok := Encode(stream, fields, m);
    size := stream.bytesWritten;
  }

  /** Encoding into a buffer succeeds exactly if the buffer is as large as the
      size that was found, and then uses just that much of it. */
  method EncodeToBuffer(fields: Fields, m: Message, bufsize: nat) returns (ok: bool, buffer: seq<byte>)
    ensures ok <==> Encodable(fields, m) && |MessageBytes(fields, m)| <= bufsize
    ensures ok ==> buffer == MessageBytes(fields, m)
  {
    hide MessageBytes, Encodable;
    var stream := new OStream.FromBuffer(bufsize);
    ok := Encode(stream, fields, m);
    buffer := stream.written;
  }
}
