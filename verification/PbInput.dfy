/** pb_istream_t over a buffer, and what is read from it. */
module PbInput {
  import opened Coding
  import opened PbFormat
  import opened PbWire
  import opened PbDecoding

  /** What a reader found, as far as it succeeded. */
  ghost predicate Found<T>(p: Parsed<T>, ok: bool, v: T, rest: seq<byte>) {
    if p.Value? then ok && v == p.v && rest == p.rest else !ok
  }

  class IStream {
    /** The bytes_left bytes from state on. */
    var rest: seq<byte>

    constructor FromBuffer(buf: seq<byte>)
      ensures rest == buf
    {
      rest := buf;
    }

    /** pb_read. */
    method Read(count: nat) returns (ok: bool, buf: seq<byte>)
      modifies this
      ensures if |old(rest)| < count then !ok && rest == old(rest)
        else ok && buf == old(rest)[..count] && rest == old(rest)[count..]
    {
      if |rest| < count {
        return false, [];
      }
      ok, buf := true, rest[..count];
      rest := rest[count..];
    }

    /** pb_readbyte. */
    method ReadByte() returns (ok: bool, b: byte)
      modifies this
      ensures if old(rest) == [] then !ok && rest == []
        else ok && b == old(rest)[0] && rest == old(rest)[1..]
    {
      if |rest| == 0 {
        return false, 0;
      }
      ok, b := true, rest[0];
      rest := rest[1..];
    }

    /** pb_decode_varint32_eof. */
    method DecodeVarint32() returns (ok: bool, dest: nat, eof: bool)
      modifies this
      ensures Found(Varint32(old(rest)), ok, dest, rest) && (eof <==> old(rest) == [])
    {
      hide Varint32From;
      var b;
      dest := 0;
      ok, b := ReadByte();
      eof := !ok;
      if !ok {
        return;
      }
      if b < 128 {
        dest := b;
        return;
      }
      ok, dest := MoreVarint32(b % 128);
    }

    /** Its loop over further bytes. */
    method MoreVarint32(first: uint32) returns (ok: bool, result: nat)
      modifies this
      ensures Found(Varint32From(old(rest), 7, first), ok, result, rest)
    {
      hide Or, ShiftLeft;
      var bitpos: nat := 7;
      result := first;
      while true
        invariant result < TWO_32
        invariant Varint32From(rest, bitpos, result) == Varint32From(old(rest), 7, first)
        decreases |rest|
      {
        var b;
        ok, b := ReadByte();
        if !ok {
          return;
        }
        if bitpos >= 32 {
          var signExtension := if bitpos < 63 then 0xFF else 0x01;
          if b % 128 != 0 && (result < 0x8000_0000 || b != signExtension) {
            return false, 0;
          }
        } else {
          result := Or(result, ShiftLeft(b % 128, bitpos) % TWO_32) % TWO_32;
        }
        bitpos := (bitpos + 7) % 256;
        if b < 128 {
          if bitpos == 35 && b % 128 / 16 != 0 {
            return false, 0;
          }
          return true, result;
        }
      }
    }

    /** pb_decode_varint.  Bits shifted out are dropped at the end. */
    method DecodeVarint() returns (ok: bool, dest: nat)
      modifies this
      ensures Found(ParseVarint64(old(rest)), ok, dest, rest)
    {
      hide ReadVarint, Continues, WithGroup;
      ghost var whole := ReadVarint(rest, 10);
      var bitpos := 0;
      var result: nat, m: nat := 0, 1;
      ghost var i, input := 0, rest;
      assert input[0..] == input;
      StartContinues(input, 10);
      while true
        invariant bitpos == 7 * i && i <= 10 && i <= |input| && rest == input[i..]
        invariant Continues(whole, ReadVarint(rest, 10 - i), result, m, i)
        decreases 10 - i
      {
        if bitpos >= 64 {
          NoGroups(rest, 0);
          NothingContinues(whole, result, m, i);
          return false, 0;
        }
        ghost var before := rest;
        var b;
        ok, b := ReadByte();
        if !ok {
          NoGroups(before, 10 - i);
          NothingContinues(whole, result, m, i);
          return false, 0;
        }
        GroupContinues(whole, before, 10 - i, result, m, i);
        var low: nat := if b >= 128 then b - 128 else b;
        result := WithGroup(result, m, low);
        m := m * 128;
        bitpos := bitpos + 7;
        i := i + 1;
        if b < 128 {
          dest := result % TWO_64;
          return;
        }
      }
    }

    /** pb_decode_tag. */
    method DecodeTag() returns (ok: bool, eof: bool, wireType: nat, tag: nat)
      modifies this
      ensures var p := Varint32(old(rest));
        && (ok <==> p.Value? && p.v != 0)
        && (ok ==> tag == p.v / 8 && wireType == p.v % 8 && rest == p.rest && !eof)
        && (!ok ==> (eof <==> old(rest) == [] || (p.Value? && p.v == 0)))
    {
      hide Varint32From;
      var temp;
      wireType, tag := 0, 0;
      ok, temp, eof := DecodeVarint32();
      if !ok {
        return;
      }
      if temp == 0 {
        return false, true, 0, 0;
      }
      tag, wireType := temp / 8, temp % 8;
    }

    /** pb_skip_varint. */
    method PassVarint() returns (ok: bool)
      modifies this
      ensures Found(SkipVarint(old(rest)), ok, (), rest)
    {
      while true
        invariant SkipVarint(rest) == SkipVarint(old(rest))
        decreases |rest|
      {
        var b;
        ok, b := ReadByte();
        if !ok || b < 128 {
          return;
        }
      }
    }

    /** pb_skip_field. */
    method PassField(wireType: nat) returns (ok: bool)
      modifies this
      ensures Found(SkipField(wireType, old(rest)), ok, (), rest)
    {
      hide Varint32, SkipVarint;
      var buf;
      if wireType == 0 {
        ok := PassVarint();
      } else if wireType == 1 {
        ok, buf := Read(8);
      } else if wireType == WT_STRING {
        var length, eof;
        ok, length, eof := DecodeVarint32();
        if ok {
          ok, buf := Read(length);
        }
      } else if wireType == 5 {
        ok, buf := Read(4);
      } else {
        ok := false;
      }
    }

    /** pb_make_string_substream. */
    method MakeSubstream() returns (ok: bool, substream: IStream)
      modifies this
      ensures fresh(substream)
      ensures Found(ReadPrefixed(old(rest)), ok, substream.rest, rest)
    {
      hide Varint32;
      substream := new IStream.FromBuffer([]);
      var size, eof;
      ok, size, eof := DecodeVarint32();
      if !ok {
        return;
      }
      if |rest| < size {
        return false, substream;
      }
      substream.rest := rest[..size];
      rest := rest[size..];
    }

    /** pb_dec_bool, pb_dec_varint and so on. */
    method DecodeNumber(l: LType, dataSize: nat) returns (ok: bool, v: int)
      modifies this
      ensures Found(ReadNumber(l, dataSize, old(rest)), ok, v, rest)
    {
      hide Varint32, ParseVarint64, Clamped, DecodeFixed32, DecodeFixed64, Widened;
      v := 0;
      if l.BOOL? {
        var value, eof;
        ok, value, eof := DecodeVarint32();
        v := if value != 0 then 1 else 0;
      } else if l.FIXED32? {
        var bytes;
        ok, bytes := Read(4);
        v := if ok then DecodeFixed32(bytes) else 0;
      } else if l.FIXED64? {
        var bytes;
        ok, bytes := Read(8);
        v := if ok then DecodeFixed64(bytes) else 0;
      } else {
        var value;
        ok, value := DecodeVarint();
        if ok {
          ok, v := Clamp(l, dataSize, Widened(l, dataSize, value));
        }
      }
    }
  }

  /** The cast to the field's size, with the check for overflow. */
  method Clamp(l: LType, dataSize: nat, svalue: int) returns (ok: bool, v: int)
    ensures if Clamped(l, dataSize, svalue).Just? then ok && v == Clamped(l, dataSize, svalue).value else !ok
  {
    var n := Range(dataSize);
    v := if Signed(l) then ToSigned(svalue % n, n) else svalue % n;
    ok := v == svalue;
  }
}
