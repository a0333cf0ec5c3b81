/** util/coding: little-endian integers, base-128 varints and length-prefixed
    strings. */
module Coding {

  type byte = b: nat | b < 256

  type uint32 = n: nat | n < 0x1_0000_0000

  type uint64 = n: nat | n < 0x1_0000_0000_0000_0000

  const TWO_32: nat := 0x1_0000_0000
  const TWO_64: nat := 0x1_0000_0000_0000_0000

  datatype Maybe<T> = Nothing | Just(value: T)

  /** What remains of an input after a value has been read off its front. */
  datatype Parsed<T> = Value(v: T, rest: seq<byte>) | Malformed

  // ---- fixed width ----

  function EncodeFixed32(v: uint32): (r: seq<byte>)
    ensures |r| == 4
  {
    [v % 256, v / 256 % 256, v / 0x1_0000 % 256, v / 0x100_0000]
  }

  function DecodeFixed32(b: seq<byte>): uint32
    requires |b| >= 4
  {
    b[0] as int + b[1] as int * 256 + b[2] as int * 0x1_0000 + b[3] as int * 0x100_0000
  }

  lemma DecodeEncodeFixed32(v: uint32)
    ensures DecodeFixed32(EncodeFixed32(v)) == v
  {
    var a := v / 256;
    var b := a / 256;
    assert v / 0x1_0000 == b && v / 0x100_0000 == b / 256;
  }

  function EncodeFixed64(v: uint64): (r: seq<byte>)
    ensures |r| == 8
  {
    EncodeFixed32(v % TWO_32) + EncodeFixed32(v / TWO_32)
  }

  function DecodeFixed64(b: seq<byte>): uint64
    requires |b| >= 8
  {
    DecodeFixed32(b[..4]) as int + DecodeFixed32(b[4..8]) as int * TWO_32
  }

  lemma DecodeEncodeFixed64(v: uint64)
    ensures DecodeFixed64(EncodeFixed64(v)) == v
  {
    hide EncodeFixed32, DecodeFixed32;
    var lo, hi := EncodeFixed32(v % TWO_32), EncodeFixed32(v / TWO_32);
    assert (lo + hi)[..4] == lo && (lo + hi)[4..8] == hi;
    DecodeEncodeFixed32(v % TWO_32);
    DecodeEncodeFixed32(v / TWO_32);
  }

  // ---- varints ----

  /** Seven bits a byte, least significant first; the top bit says more. */
  function EncodeVarint(v: nat): (r: seq<byte>)
    ensures |r| > 0
  {
    if v < 128 then [v] else [v % 128 + 128] + EncodeVarint(v / 128)
  }

  /** Value and length of the varint of at most `groups` bytes at the front. */
  function ReadVarint(b: seq<byte>, groups: nat): (r: Maybe<(nat, nat)>)
    ensures r.Just? ==> 0 < r.value.1 <= |b| && r.value.1 <= groups
  {
    if groups == 0 || b == [] then Nothing
    else if b[0] < 128 then Just((b[0], 1))
    else
      match ReadVarint(b[1..], groups - 1)
      case Nothing => Nothing
      case Just(r) => Just((b[0] - 128 + 128 * r.0, r.1 + 1))
  }

  /** The shifts drop what does not fit the target. */
  function ParseVarint(b: seq<byte>, groups: nat, modulus: nat): Parsed<nat>
    requires modulus > 0
  {
    match ReadVarint(b, groups)
    case Nothing => Malformed
    case Just(r) => Value(r.0 % modulus, b[r.1..])
  }

  function ParseVarint32(b: seq<byte>): (r: Parsed<nat>)
    ensures r.Value? ==> r.v < TWO_32 && |r.rest| < |b|
  {
    ParseVarint(b, 5, TWO_32)
  }

  function ParseVarint64(b: seq<byte>): (r: Parsed<nat>)
    ensures r.Value? ==> r.v < TWO_64 && |r.rest| < |b|
  {
    ParseVarint(b, 10, TWO_64)
  }

  function Pow128(g: nat): nat {
    if g == 0 then 1 else 128 * Pow128(g - 1)
  }

  lemma {:induction false} ReadWhatWasWritten(v: nat, rest: seq<byte>, groups: nat)
    requires v < Pow128(groups) && groups > 0
    ensures ReadVarint(EncodeVarint(v) + rest, groups) == Just((v, |EncodeVarint(v)|))
    decreases groups
  {
    if v >= 128 {
      assert v / 128 < Pow128(groups - 1);
      assert groups > 1 by { assert Pow128(0) == 1; }
      ReadWhatWasWritten(v / 128, rest, groups - 1);
      assert (EncodeVarint(v) + rest)[1..] == EncodeVarint(v / 128) + rest;
    }
  }

  lemma Varint32RoundTrip(v: uint32, rest: seq<byte>)
    ensures ParseVarint32(EncodeVarint(v) + rest) == Value(v, rest)
  {
    assert Pow128(5) == 0x8_0000_0000 by { assert Pow128(2) == 0x4000; assert Pow128(3) == 0x20_0000; }
    ReadWhatWasWritten(v, rest, 5);
  }

  lemma Varint64RoundTrip(v: uint64, rest: seq<byte>)
    ensures ParseVarint64(EncodeVarint(v) + rest) == Value(v, rest)
  {
    assert Pow128(5) == 0x8_0000_0000 by { assert Pow128(2) == 0x4000; assert Pow128(3) == 0x20_0000; }
    assert Pow128(7) == 0x2_0000_0000_0000 by { assert Pow128(6) == 128 * Pow128(5); }
    assert Pow128(9) == 0x8000_0000_0000_0000 by { assert Pow128(8) == 128 * Pow128(7); }
    assert Pow128(10) == 128 * Pow128(9);
    ReadWhatWasWritten(v, rest, 10);
  }

  /** A 64-bit varint takes at most ten bytes. */
  lemma {:induction false} VarintLength(v: nat, groups: nat)
    requires v < Pow128(groups) && groups > 0
    ensures |EncodeVarint(v)| <= groups
    decreases groups
  {
    if v >= 128 {
      assert v / 128 < Pow128(groups - 1);
      assert groups > 1 by { assert Pow128(0) == 1; }
      VarintLength(v / 128, groups - 1);
    }
  }

  lemma Varint64Length(v: uint64)
    ensures |EncodeVarint(v)| <= 10
  {
    assert Pow128(5) == 0x8_0000_0000 by { assert Pow128(2) == 0x4000; assert Pow128(3) == 0x20_0000; }
    assert Pow128(7) == 0x2_0000_0000_0000 by { assert Pow128(6) == 128 * Pow128(5); }
    assert Pow128(9) == 0x8000_0000_0000_0000 by { assert Pow128(8) == 128 * Pow128(7); }
    assert Pow128(10) == 128 * Pow128(9);
    VarintLength(v, 10);
  }

  lemma VarintUnfold(v: nat)
    ensures EncodeVarint(v) == if v < 128 then [v] else [v % 128 + 128] + EncodeVarint(v / 128)
  {
  }

  lemma Shifted(result: nat, m: nat, low: nat, high: nat)
    ensures result + m * (low + 128 * high) == (result + m * low) + (m * 128) * high
  {
  }

  /** The whole is what the first i groups gave plus m times the tail. */
  ghost predicate Continues(whole: Maybe<(nat, nat)>, tail: Maybe<(nat, nat)>, result: nat, m: nat, i: nat) {
    if tail.Nothing? then whole.Nothing?
    else whole == Just((result + m * tail.value.0, i + tail.value.1))
  }

  lemma StartContinues(b: seq<byte>, groups: nat)
    ensures Continues(ReadVarint(b, groups), ReadVarint(b, groups), 0, 1, 0)
  {
  }

  lemma NoGroups(b: seq<byte>, groups: nat)
    requires groups == 0 || b == []
    ensures ReadVarint(b, groups) == Nothing
  {
  }

  lemma NothingContinues(whole: Maybe<(nat, nat)>, result: nat, m: nat, i: nat)
    requires Continues(whole, Nothing, result, m, i)
    ensures whole == Nothing
  {
  }

  /** A group shifted in: m is the power of two for its place. */
  function WithGroup(result: nat, m: nat, low: nat): nat {
    result + m * low
  }

  lemma GroupContinues(whole: Maybe<(nat, nat)>, b: seq<byte>, groups: nat, result: nat, m: nat, i: nat)
    requires Continues(whole, ReadVarint(b, groups), result, m, i) && groups > 0 && b != []
    ensures if b[0] >= 128 then
        Continues(whole, ReadVarint(b[1..], groups - 1), WithGroup(result, m, b[0] - 128), m * 128, i + 1)
      else whole == Just((WithGroup(result, m, b[0]), i + 1))
  {
    var tail := ReadVarint(b[1..], groups - 1);
    if b[0] >= 128 && tail.Just? { Shifted(result, m, b[0] - 128, tail.value.0); }
  }

  /** GetVarint32Ptr and GetVarint64Ptr: shift each group in, from the left end
      of the input.  What a shift drops is dropped here once, at the end. */
  method GetVarint(input: seq<byte>, groups: nat, modulus: nat) returns (r: Parsed<nat>)
    requires modulus > 0
    ensures r == ParseVarint(input, groups, modulus)
  {
    hide ReadVarint, Continues, WithGroup;
    var result: nat, m: nat, i: nat := 0, 1, 0;
    ghost var whole := ReadVarint(input, groups);
    assert input[0..] == input;
    StartContinues(input, groups);
    while i < groups && i < |input|
      invariant i <= groups && i <= |input|
      invariant Continues(whole, ReadVarint(input[i..], groups - i), result, m, i)
    {
      var b := input[i];
      assert input[i..][1..] == input[i + 1..] && input[i..][0] == b;
      GroupContinues(whole, input[i..], groups - i, result, m, i);
      if b >= 128 {
        var low: nat := b - 128;
        result := WithGroup(result, m, low);
        m := m * 128;
        i := i + 1;
      } else {
        return Value(WithGroup(result, m, b) % modulus, input[i + 1..]);
      }
    }
    NoGroups(input[i..], groups - i);
    NothingContinues(whole, result, m, i);
    r := Malformed;
  }

  // ---- length-prefixed strings ----

  function LengthPrefixed(s: seq<byte>): seq<byte> {
    EncodeVarint(|s|) + s
  }

  function ParseSlice(b: seq<byte>): (r: Parsed<seq<byte>>)
    ensures r.Value? ==> |r.rest| < |b|
  {
    match ParseVarint32(b)
    case Malformed => Malformed
    case Value(n, rest) => if n <= |rest| then Value(rest[..n], rest[n..]) else Malformed
  }

  lemma SliceRoundTrip(s: seq<byte>, rest: seq<byte>)
    requires |s| < TWO_32
    ensures ParseSlice(LengthPrefixed(s) + rest) == Value(s, rest)
  {
    assert LengthPrefixed(s) + rest == EncodeVarint(|s|) + (s + rest);
    Varint32RoundTrip(|s|, s + rest);
  }
}
