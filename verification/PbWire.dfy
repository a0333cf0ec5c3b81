/** The readers of nanopb's decoder: varints of two widths, zigzag, and the
    scalars of each type. */
module PbWire {
  import opened Coding
  import opened PbFormat

  // ---- 32-bit varints ----

  /** Bitwise or. */
  function Or(a: nat, b: nat): nat {
    if a == 0 then b else if b == 0 then a
    else (if a % 2 == 1 || b % 2 == 1 then 1 else 0) + 2 * Or(a / 2, b / 2)
  }

  function Pow2(n: nat): nat {
    if n == 0 then 1 else 2 * Pow2(n - 1)
  }

  function ShiftLeft(x: nat, n: nat): nat {
    x * Pow2(n)
  }

  lemma ShiftTwice(x: nat, n: nat)
    requires n > 0
    ensures ShiftLeft(x, n) == 2 * ShiftLeft(x, n - 1)
  {
  }

  /** Bits in different places are added. */
  lemma {:induction false} OrApart(a: nat, x: nat, n: nat)
    requires a < Pow2(n)
    ensures Or(a, ShiftLeft(x, n)) == a + ShiftLeft(x, n)
  {
    hide ShiftLeft;
    if n > 0 && a != 0 && x != 0 {
      ShiftTwice(x, n);
      OrApart(a / 2, x, n - 1);
    } else if x == 0 {
      ShiftNothing(n);
    }
  }

  lemma ShiftNothing(n: nat)
    ensures ShiftLeft(0, n) == 0
  {
  }

  lemma ShiftBy(x: nat)
    ensures ShiftLeft(x, 7) == 128 * x && ShiftLeft(x, 14) == 16384 * x
    ensures ShiftLeft(x, 21) == 2097152 * x && ShiftLeft(x, 28) == 268435456 * x
  {
    PowersOfTwo();
    hide Pow2;
  }

  /** pb_decode_varint32_eof from the second byte on.  Bits beyond the 32nd must
      be zero or extend the sign; the bit position is 8 bits wide. */
  function Varint32From(b: seq<byte>, bitpos: nat, result: uint32): (r: Parsed<nat>)
    ensures r.Value? ==> r.v < TWO_32 && |r.rest| < |b|
    decreases |b|
  {
    if b == [] then Malformed
    else
      var low := b[0] % 128;
      var signExtension := if bitpos < 63 then 0xFF else 0x01;
      if bitpos >= 32 && low != 0 && (result < 0x8000_0000 || b[0] != signExtension) then Malformed
      else
        var next := if bitpos >= 32 then result else Or(result, ShiftLeft(low, bitpos) % TWO_32) % TWO_32;
        if b[0] >= 128 then Varint32From(b[1..], (bitpos + 7) % 256, next)
        else if (bitpos + 7) % 256 == 35 && low / 16 != 0 then Malformed
        else Value(next, b[1..])
  }

  function Varint32(b: seq<byte>): (r: Parsed<nat>)
    ensures r.Value? ==> r.v < TWO_32 && |r.rest| < |b|
  {
    if b == [] then Malformed
    else if b[0] < 128 then Value(b[0], b[1..])
    else Varint32From(b[1..], 7, b[0] % 128)
  }

  lemma PowersOfTwo()
    ensures Pow2(7) == 128 && Pow2(14) == 16384 && Pow2(21) == 2097152 && Pow2(28) == 268435456
  {
    assert Pow2(3) == 8;
    assert Pow2(10) == 8 * Pow2(7);
    assert Pow2(17) == 8 * Pow2(14);
    assert Pow2(24) == 8 * Pow2(21);
  }

  lemma VarintParts(u: nat, rest: seq<byte>)
    ensures var b := EncodeVarint(u) + rest;
      if u < 128 then b[0] == u && b[1..] == rest
      else b[0] == u % 128 + 128 && b[1..] == EncodeVarint(u / 128) + rest
  {
    hide EncodeVarint;
    VarintUnfold(u);
    if u >= 128 {
      WithoutFirst(u % 128 + 128, EncodeVarint(u / 128), rest);
    } else {
      WithoutFirst(u, [], rest);
    }
  }

  lemma WithoutFirst(first: byte, a: seq<byte>, b: seq<byte>)
    ensures [first] + a + b == [first] + (a + b) && ([first] + a + b)[1..] == a + b
    ensures [first] + [] == [first] && [] + b == b
  {
  }

  /** One group of a canonical varint, shifted into place. */
  lemma OneGroup(u: nat, rest: seq<byte>, bitpos: nat, result: uint32)
    requires bitpos == 7 || bitpos == 14 || bitpos == 21 || bitpos == 28
    requires result < Pow2(bitpos) && result + ShiftLeft(u % 128, bitpos) < TWO_32 && (bitpos == 28 ==> u < 16)
    ensures Varint32From(EncodeVarint(u) + rest, bitpos, result) ==
      if u < 128 then Value(result + ShiftLeft(u % 128, bitpos), rest)
      else Varint32From(EncodeVarint(u / 128) + rest, bitpos + 7, result + ShiftLeft(u % 128, bitpos))
  {
    hide Or, Pow2, EncodeVarint, ShiftLeft;
    OrApart(result, u % 128, bitpos);
    VarintParts(u, rest);
  }

  lemma Varint32IsRead(v: uint32, rest: seq<byte>)
    ensures Varint32(EncodeVarint(v) + rest) == Value(v, rest)
  {
    hide Varint32From, Pow2, EncodeVarint;
    VarintParts(v, rest);
    if v >= 128 { SecondGroup(v / 128, rest, v % 128); }
  }

  lemma SecondGroup(u: nat, rest: seq<byte>, result: uint32)
    requires result < 128 && result + 128 * u < TWO_32
    ensures Varint32From(EncodeVarint(u) + rest, 7, result) == Value(result + 128 * u, rest)
  {
    hide Varint32From, EncodeVarint, ShiftLeft, Pow2;
    PowersOfTwo();
    ShiftBy(u % 128);
    OneGroup(u, rest, 7, result);
    if u >= 128 { ThirdGroup(u / 128, rest, result + u % 128 * 128); }
  }

  lemma ThirdGroup(u: nat, rest: seq<byte>, result: uint32)
    requires result < 16384 && result + 16384 * u < TWO_32
    ensures Varint32From(EncodeVarint(u) + rest, 14, result) == Value(result + 16384 * u, rest)
  {
    hide Varint32From, EncodeVarint, ShiftLeft, Pow2;
    PowersOfTwo();
    ShiftBy(u % 128);
    OneGroup(u, rest, 14, result);
    if u >= 128 { FourthGroup(u / 128, rest, result + u % 128 * 16384); }
  }

  lemma FourthGroup(u: nat, rest: seq<byte>, result: uint32)
    requires result < 2097152 && result + 2097152 * u < TWO_32
    ensures Varint32From(EncodeVarint(u) + rest, 21, result) == Value(result + 2097152 * u, rest)
  {
    hide Varint32From, EncodeVarint, ShiftLeft, Pow2;
    PowersOfTwo();
    ShiftBy(u % 128);
    OneGroup(u, rest, 21, result);
    if u >= 128 {
      ShiftBy(u / 128);
      OneGroup(u / 128, rest, 28, result + u % 128 * 2097152);
    }
  }

  // ---- negative numbers in ten bytes ----

  lemma SignGroup(result: uint32, bitpos: nat, rest: seq<byte>)
    requires result >= 0x8000_0000
    requires bitpos == 35 || bitpos == 42 || bitpos == 49 || bitpos == 56
    ensures Varint32From([255] + rest, bitpos, result) == Varint32From(rest, bitpos + 7, result)
  {
    hide Or, ShiftLeft;
    assert ([255] + rest)[1..] == rest;
  }

  lemma SignGroups(result: uint32, rest: seq<byte>)
    requires result >= 0x8000_0000
    ensures Varint32From(EncodeVarint(0x1fff_ffff) + rest, 35, result) == Value(result, rest)
  {
    hide EncodeVarint, Or, ShiftLeft, Varint32From;
    VarintUnfold(0x1fff_ffff);
    VarintUnfold(0x3f_ffff);
    VarintUnfold(0x7fff);
    VarintUnfold(0xff);
    VarintUnfold(0x1);
    var t1 := [1] + rest;
    var t2, t3 := [255] + t1, [255] + ([255] + t1);
    assert EncodeVarint(0x1fff_ffff) + rest == [255] + ([255] + t3);
    SignGroup(result, 35, [255] + t3);
    SignGroup(result, 42, t3);
    SignGroup(result, 49, t2);
    SignGroup(result, 56, t1);
    LastSignGroup(result, rest);
  }

  lemma LastSignGroup(result: uint32, rest: seq<byte>)
    requires result >= 0x8000_0000
    ensures Varint32From([1] + rest, 63, result) == Value(result, rest)
  {
    hide Or, ShiftLeft;
    assert ([1] + rest)[1..] == rest;
  }

  /** The fifth group of a longer varint: four of its bits count. */
  lemma FifthGroup(u: nat, rest: seq<byte>, result: uint32)
    requires u >= 128 && result < 0x1000_0000
    ensures Varint32From(EncodeVarint(u) + rest, 28, result)
      == Varint32From(EncodeVarint(u / 128) + rest, 35, result + u % 16 * 0x1000_0000)
  {
    hide Or, Pow2, EncodeVarint, ShiftLeft;
    PowersOfTwo();
    ShiftBy(u % 128);
    ShiftBy(u % 16);
    assert ShiftLeft(u % 128, 28) % TWO_32 == ShiftLeft(u % 16, 28) by { CutTo4(u); }
    OrApart(result, u % 16, 28);
    VarintParts(u, rest);
  }

  lemma CutTo4(u: nat)
    ensures u % 128 * 0x1000_0000 % TWO_32 == u % 16 * 0x1000_0000
  {
    var low := u % 128;
    assert low == low / 16 * 16 + u % 16;
    WholeAway(low / 16, u % 16 * 0x1000_0000);
  }

  lemma WholeAway(q: nat, r: nat)
    requires r < TWO_32
    ensures (q * TWO_32 + r) % TWO_32 == r
  {
  }

  /** A negative number that was sent as a 64-bit one is read as 32 bits. */
  lemma NegativeIsRead(v: int, rest: seq<byte>)
    requires -0x8000_0000 <= v < 0
    ensures Varint32(EncodeVarint(v + TWO_64) + rest) == Value(v + TWO_32, rest)
  {
    hide Varint32From, Pow2, EncodeVarint, ShiftLeft, Or;
    var u := v + TWO_64;
    VarintParts(u, rest);
    FourGroups(u, rest);
    FifthGroup(u / 268435456, rest, u % 268435456);
    assert u / 268435456 / 128 == 0x1fff_ffff;
    assert u % 268435456 + u / 268435456 % 16 * 0x1000_0000 == v + TWO_32;
    SignGroups(v + TWO_32, rest);
  }

  /** The groups of a longer varint before its fifth. */
  lemma FourGroups(u: nat, rest: seq<byte>)
    requires u >= 0x8_0000_0000
    ensures Varint32From(EncodeVarint(u / 128) + rest, 7, u % 128)
      == Varint32From(EncodeVarint(u / 268435456) + rest, 28, u % 268435456)
  {
    hide Varint32From, Pow2, EncodeVarint, ShiftLeft, Or;
    var u1, u2, u3 := u / 128, u / 16384, u / 2097152;
    Quotients(u);
    PowersOfTwo();
    ShiftBy(u1 % 128);
    OneGroup(u1, rest, 7, u % 128);
    ShiftBy(u2 % 128);
    OneGroup(u2, rest, 14, u % 16384);
    ShiftBy(u3 % 128);
    OneGroup(u3, rest, 21, u % 2097152);
  }

  lemma Quotients(u: nat)
    ensures u / 128 / 128 == u / 16384 && u / 16384 / 128 == u / 2097152 && u / 2097152 / 128 == u / 268435456
    ensures u % 128 + u / 128 % 128 * 128 == u % 16384
    ensures u % 16384 + u / 16384 % 128 * 16384 == u % 2097152
    ensures u % 2097152 + u / 2097152 % 128 * 2097152 == u % 268435456
  {
  }

  // ---- scalars ----

  function ToSigned(u: nat, modulus: nat): int
    requires modulus > 0
  {
    var low := u % modulus;
    if low < modulus / 2 then low else low - modulus
  }

  function UnZigZag(value: uint64): int {
    if value % 2 == 1 then -(value / 2 as int) - 1 else value / 2
  }

  lemma ZigZagBack(v: int)
    requires -0x8000_0000_0000_0000 <= v < 0x8000_0000_0000_0000
    ensures UnZigZag(ZigZag(v)) == v
  {
  }

  /** The value as the field's variable holds it, if it does. */
  function Clamped(l: LType, dataSize: nat, svalue: int): Maybe<int> {
    var n := Range(dataSize);
    var clamped := if Signed(l) then ToSigned(svalue % n, n) else svalue % n;
    if clamped == svalue then Just(clamped) else Nothing
  }

  function ClampedTo(l: LType, dataSize: nat, svalue: int, rest: seq<byte>): (r: Parsed<int>)
    ensures r.Value? ==> r.rest == rest
  {
    match Clamped(l, dataSize, svalue)
    case Nothing => Malformed
    case Just(v) => Value(v, rest)
  }

  /** The value of a varint as a 64-bit signed one, before it is cut to size. */
  function Widened(l: LType, dataSize: nat, value: nat): int {
    if l.SVARINT? then UnZigZag(value % TWO_64)
    else if l.VARINT? then ToSigned(value, if dataSize == 8 then TWO_64 else TWO_32)
    else value
  }

  /** The decoder of a packable type. */
  function ReadNumber(l: LType, dataSize: nat, b: seq<byte>): (r: Parsed<int>)
    ensures r.Value? ==> |r.rest| < |b|
  {
    if l.BOOL? then
      match Varint32(b)
      case Malformed => Malformed
      case Value(v, rest) => Value(if v != 0 then 1 else 0, rest)
    else if l.FIXED32? then if |b| < 4 then Malformed else Value(DecodeFixed32(b[..4]), b[4..])
    else if l.FIXED64? then if |b| < 8 then Malformed else Value(DecodeFixed64(b[..8]), b[8..])
    else
      match ParseVarint64(b)
      case Malformed => Malformed
      case Value(v, rest) => ClampedTo(l, dataSize, Widened(l, dataSize, v), rest)
  }

  lemma FitsSigned(n: nat, v: int)
    requires n == 0x100 || n == 0x1_0000 || n == TWO_32 || n == TWO_64
    requires -(n / 2 as int) <= v < n / 2
    ensures ToSigned(v % n, n) == v
  {
    SmallModulus(n, v);
  }

  lemma SmallModulus(n: int, v: int)
    requires n > 0 && -n <= v < n
    ensures v % n == if v < 0 then v + n else v
  {
    if v < 0 {
      assert v % n == (v + n) % n;
    }
  }

  lemma RangeWithin(l: LType, dataSize: nat, v: int)
    requires NumberFits(l, dataSize, v) && SizeFits(l, dataSize) && Packable(l)
    ensures Clamped(l, dataSize, v) == Just(v) || l.BOOL?
    ensures Signed(l) ==> -0x8000_0000_0000_0000 <= v < 0x8000_0000_0000_0000
  {
    hide ToSigned;
    var n := Range(dataSize);
    if Signed(l) {
      FitsSigned(n, v);
      SmallModulus(n, v);
      assert v % n % n == v % n;
    } else if !l.BOOL? {
      SmallModulus(n, v);
    }
  }

  /** A negative value is sent as a 64-bit one and cut to 32 bits again. */
  lemma SignedBack(dataSize: nat, v: int)
    requires NumberFits(VARINT, dataSize, v) && SizeFits(VARINT, dataSize)
    ensures ToSigned(ToUnsigned64(v), if dataSize == 8 then TWO_64 else TWO_32) == v
  {
    if dataSize == 8 {
    } else {
      assert ToUnsigned64(v) == if v < 0 then v + TWO_64 else v;
      assert TWO_64 == TWO_32 * TWO_32;
    }
  }

  /** What the varint of a value is widened to. */
  lemma WidenedBack(l: LType, dataSize: nat, v: int)
    requires NumberFits(l, dataSize, v) && SizeFits(l, dataSize) && (l.VARINT? || l.UVARINT? || l.SVARINT?)
    ensures Widened(l, dataSize, if l.SVARINT? then ZigZag(v) else ToUnsigned64(v)) == v
  {
    hide Clamped;
    RangeWithin(l, dataSize, v);
    if l.VARINT? { SignedBack(dataSize, v); }
    if l.SVARINT? { ZigZagBack(v); }
  }

  /** The decoder undoes the encoder of every packable type. */
  lemma NumberIsRead(l: LType, dataSize: nat, v: int, rest: seq<byte>)
    requires Packable(l) && NumberFits(l, dataSize, v) && SizeFits(l, dataSize)
    ensures ReadNumber(l, dataSize, NumberBytes(l, v) + rest) == Value(v, rest) && NumberBytes(l, v) != []
  {
    hide EncodeVarint, Varint32, ParseVarint64, EncodeFixed32, DecodeFixed32, EncodeFixed64, DecodeFixed64, Clamped,
      Widened, ZigZag;
    RangeWithin(l, dataSize, v);
    if l.BOOL? {
      Varint32IsRead(v, rest);
    } else if l.FIXED32? {
      DecodeEncodeFixed32(v);
      assert (EncodeFixed32(v) + rest)[..4] == EncodeFixed32(v) && (EncodeFixed32(v) + rest)[4..] == rest;
    } else if l.FIXED64? {
      DecodeEncodeFixed64(v);
      assert (EncodeFixed64(v) + rest)[..8] == EncodeFixed64(v) && (EncodeFixed64(v) + rest)[8..] == rest;
    } else {
      Varint64RoundTrip(if l.SVARINT? then ZigZag(v) else ToUnsigned64(v), rest);
      WidenedBack(l, dataSize, v);
    }
  }
}
