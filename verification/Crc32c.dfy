/** The checksum: Extend works on four interleaved strides, with the result of
    going byte by byte. */
module Crc32c {
  type Buffer = seq<bv8>

  const CRC32_XOR: bv32 := 0xffff_ffff

  // ---- words, as vectors over GF(2) ----

  function Xor(a: bv32, b: bv32): bv32 {
    a ^ b
  }

  function Low(l: bv32): bv32 {
    l & 0xff
  }

  function High(l: bv32): bv32 {
    l >> 8
  }

  lemma XorAssociates(a: bv32, b: bv32, c: bv32)
    ensures Xor(Xor(a, b), c) == Xor(a, Xor(b, c))
  {
  }

  lemma XorCommutes(a: bv32, b: bv32)
    ensures Xor(a, b) == Xor(b, a)
  {
  }

  lemma XorNothing(a: bv32)
    ensures Xor(a, 0) == a && Xor(0, a) == a && Xor(a, a) == 0
  {
  }

  lemma XorMix(a: bv32, b: bv32, c: bv32, d: bv32)
    ensures Xor(Xor(a, b), Xor(c, d)) == Xor(Xor(a, c), Xor(b, d))
  {
    hide Xor;
    XorAssociates(a, b, Xor(c, d));
    XorAssociates(b, c, d);
    XorCommutes(b, c);
    XorAssociates(c, b, d);
    XorAssociates(a, c, Xor(b, d));
  }

  lemma LowXor(a: bv32, b: bv32)
    ensures Low(Xor(a, b)) == Xor(Low(a), Low(b))
  {
  }

  lemma HighXor(a: bv32, b: bv32)
    ensures High(Xor(a, b)) == Xor(High(a), High(b))
  {
  }

  // ---- the table ----

  /** The polynomial of CRC32C (section 12.1 of RFC 3720), lowest bit first. */
  const POLYNOMIAL: bv32 := 0x82f6_3b78

  function Half(l: bv32): bv32 {
    l >> 1
  }

  predicate Odd(l: bv32) {
    l & 1 == 1
  }

  function Bit(l: bv32): bv32 {
    if Odd(l) then Xor(Half(l), POLYNOMIAL) else Half(l)
  }

  function Bits(n: nat, l: bv32): bv32 {
    if n == 0 then l else Bit(Bits(n - 1, l))
  }

  /** kByteExtensionTable: eight steps of the division. */
  function ByteExtension(c: bv32): bv32 {
    Bits(8, c)
  }

  lemma HalfXor(a: bv32, b: bv32)
    ensures Half(Xor(a, b)) == Xor(Half(a), Half(b))
  {
  }

  lemma OddXor(a: bv32, b: bv32)
    ensures Odd(Xor(a, b)) <==> Odd(a) != Odd(b)
  {
  }

  lemma BitLinear(a: bv32, b: bv32)
    ensures Bit(Xor(a, b)) == Xor(Bit(a), Bit(b))
  {
    hide Xor, Half, Odd;
    var p, q := if Odd(a) then POLYNOMIAL else 0, if Odd(b) then POLYNOMIAL else 0;
    HalfXor(a, b);
    OddXor(a, b);
    XorNothing(Half(a));
    XorNothing(Half(b));
    XorNothing(Half(Xor(a, b)));
    XorNothing(POLYNOMIAL);
    XorNothing(0);
    XorMix(Half(a), p, Half(b), q);
  }

  lemma {:induction false} BitsLinear(n: nat, a: bv32, b: bv32)
    ensures Bits(n, Xor(a, b)) == Xor(Bits(n, a), Bits(n, b))
  {
    hide Bit, Xor;
    if n > 0 {
      BitsLinear(n - 1, a, b);
      BitLinear(Bits(n - 1, a), Bits(n - 1, b));
    }
  }

  // ---- byte by byte ----

  /** STEP1. */
  function ByByte(l: bv32, b: bv8): bv32 {
    Xor(ByteExtension(Xor(Low(l), b as bv32)), High(l))
  }

  function ByBytes(l: bv32, data: Buffer): bv32 {
    if data == [] then l else ByByte(ByBytes(l, data[..|data| - 1]), data[|data| - 1])
  }

  function Checksum(crc: bv32, data: Buffer): bv32 {
    Xor(ByBytes(Xor(crc, CRC32_XOR), data), CRC32_XOR)
  }

  lemma {:induction false} StatesJoin(l: bv32, a: Buffer, b: Buffer)
    ensures ByBytes(l, a + b) == ByBytes(ByBytes(l, a), b)
    decreases |b|
  {
    hide ByByte;
    if b == [] {
      assert a + b == a;
    } else {
      StatesJoin(l, a, b[..|b| - 1]);
      assert (a + b)[..|a + b| - 1] == a + b[..|b| - 1];
    }
  }

  lemma XorTwice(a: bv32, b: bv32)
    ensures Xor(Xor(a, b), b) == a
  {
    hide Xor;
    XorAssociates(a, b, b);
    XorNothing(b);
    XorNothing(a);
  }

  /** Extending a checksum is as good as computing it over the whole. */
  lemma ExtendJoins(crc: bv32, a: Buffer, b: Buffer)
    ensures Checksum(Checksum(crc, a), b) == Checksum(crc, a + b)
  {
    hide Xor, ByBytes;
    StatesJoin(Xor(crc, CRC32_XOR), a, b);
    XorTwice(ByBytes(Xor(crc, CRC32_XOR), a), CRC32_XOR);
  }

  // ---- zeros ----

  /** The state after a byte of zeros. */
  function Advance(l: bv32): bv32 {
    Xor(ByteExtension(Low(l)), High(l))
  }

  function AdvanceBy(n: nat, l: bv32): bv32 {
    if n == 0 then l else Advance(AdvanceBy(n - 1, l))
  }

  lemma AdvanceLinear(a: bv32, b: bv32)
    ensures Advance(Xor(a, b)) == Xor(Advance(a), Advance(b))
  {
    hide Xor, Low, High, Bits;
    LowXor(a, b);
    HighXor(a, b);
    BitsLinear(8, Low(a), Low(b));
    XorMix(ByteExtension(Low(a)), High(a), ByteExtension(Low(b)), High(b));
  }

  lemma {:induction false} AdvanceByLinear(n: nat, a: bv32, b: bv32)
    ensures AdvanceBy(n, Xor(a, b)) == Xor(AdvanceBy(n, a), AdvanceBy(n, b))
  {
    hide Advance, Xor;
    if n > 0 {
      AdvanceByLinear(n - 1, a, b);
      AdvanceLinear(AdvanceBy(n - 1, a), AdvanceBy(n - 1, b));
    }
  }

  lemma {:induction false} AdvanceByAdds(m: nat, n: nat, l: bv32)
    ensures AdvanceBy(m, AdvanceBy(n, l)) == AdvanceBy(m + n, l)
  {
    hide Advance;
    if m > 0 { AdvanceByAdds(m - 1, n, l); }
  }

  // ---- words in the buffer ----

  /** A byte below another word. */
  function Below(b: bv8, w: bv32): bv32 {
    (b as bv32) | (w << 8)
  }

  lemma LowOfBelow(b: bv8, w: bv32)
    ensures Low(Below(b, w)) == b as bv32
  {
  }

  lemma HighOfBelow(b: bv8, w: bv32)
    requires w < 0x100_0000
    ensures High(Below(b, w)) == w
  {
  }

  lemma BelowIsSmall(b: bv8, w: bv32)
    ensures w < 0x1_0000 ==> Below(b, w) < 0x100_0000
    ensures w < 0x100 ==> Below(b, w) < 0x1_0000
    ensures (b as bv32) < 0x100
  {
  }

  /** ReadUint32LE. */
  function ReadWord(data: Buffer, p: nat): bv32
    requires p + 4 <= |data|
  {
    (data[p] as bv32) | (data[p + 1] as bv32 << 8) | (data[p + 2] as bv32 << 16) | (data[p + 3] as bv32 << 24)
  }

  lemma WordIsNested(a: bv8, b: bv8, c: bv8, d: bv8)
    ensures (a as bv32) | (b as bv32 << 8) | (c as bv32 << 16) | (d as bv32 << 24)
      == Below(a, Below(b, Below(c, d as bv32)))
  {
  }

  /** Advancing over a byte that was already added to the state. */
  lemma AdvanceOver(l: bv32, b: bv8, w: bv32)
    requires w < 0x100_0000
    ensures Advance(Xor(l, Below(b, w))) == Xor(ByByte(l, b), w)
  {
    hide Xor, Low, High, Bits, Below;
    LowXor(l, Below(b, w));
    HighXor(l, Below(b, w));
    LowOfBelow(b, w);
    HighOfBelow(b, w);
    XorAssociates(ByteExtension(Xor(Low(l), b as bv32)), High(l), w);
  }

  lemma LastByte(l: bv32, b: bv8)
    ensures Advance(Xor(l, b as bv32)) == ByByte(l, b)
  {
    BelowNothing(b);
    AdvanceOver(l, b, 0);
    XorNothing(ByByte(l, b));
  }

  lemma BelowNothing(b: bv8)
    ensures Below(b, 0) == b as bv32
  {
  }

  function FourBytes(l: bv32, data: Buffer, p: nat): bv32
    requires p + 4 <= |data|
  {
    ByByte(ByByte(ByByte(ByByte(l, data[p]), data[p + 1]), data[p + 2]), data[p + 3])
  }

  /** Four table steps take a loaded word into the state. */
  lemma WordAdvances(l: bv32, data: Buffer, p: nat)
    requires p + 4 <= |data|
    ensures AdvanceBy(4, Xor(l, ReadWord(data, p))) == FourBytes(l, data, p)
  {
    hide Xor, ByByte, Advance, Below;
    var a, b, c, d := data[p], data[p + 1], data[p + 2], data[p + 3];
    WordIsNested(a, b, c, d);
    BelowIsSmall(c, d as bv32);
    BelowIsSmall(d, 0);
    BelowIsSmall(b, Below(c, d as bv32));
    AdvanceOver(l, a, Below(b, Below(c, d as bv32)));
    AdvanceOver(ByByte(l, a), b, Below(c, d as bv32));
    AdvanceOver(ByByte(ByByte(l, a), b), c, d as bv32);
    LastByte(ByByte(ByByte(ByByte(l, a), b), c), d);
    FourSteps(Xor(l, ReadWord(data, p)));
  }

  lemma FourSteps(w: bv32)
    ensures AdvanceBy(4, w) == Advance(Advance(Advance(Advance(w))))
  {
    hide Advance;
    assert AdvanceBy(1, w) == Advance(AdvanceBy(0, w));
    assert AdvanceBy(2, w) == Advance(Advance(w));
  }

  lemma FourMoreBytes(l: bv32, data: Buffer, p: nat)
    requires p + 4 <= |data|
    ensures ByBytes(l, data[..p + 4]) == FourBytes(ByBytes(l, data[..p]), data, p)
  {
    hide ByByte;
    assert data[..p + 4][..p + 3] == data[..p + 3] && data[..p + 3][..p + 2] == data[..p + 2];
    assert data[..p + 2][..p + 1] == data[..p + 1] && data[..p + 1][..p] == data[..p];
    assert ByBytes(l, data[..p + 2]) == ByByte(ByByte(ByBytes(l, data[..p]), data[p]), data[p + 1]);
  }

  // ---- strides ----

  /** kStrideExtensionTable0 to 3: what a byte of a word, counted from the top,
      has become 16 bytes on. */
  function StrideExtension0(c: bv32): bv32 { AdvanceBy(16, c << 24) }

  function StrideExtension1(c: bv32): bv32 { AdvanceBy(16, c << 16) }

  function StrideExtension2(c: bv32): bv32 { AdvanceBy(16, c << 8) }

  function StrideExtension3(c: bv32): bv32 { AdvanceBy(16, c) }

  /** The table lookups of STEP4. */
  function Stride(crc: bv32): bv32 {
    Xor(Xor(Xor(StrideExtension3(crc & 0xff), StrideExtension2((crc >> 8) & 0xff)),
        StrideExtension1((crc >> 16) & 0xff)),
        StrideExtension0(crc >> 24))
  }

  lemma BytesOfWord(w: bv32)
    ensures w == Xor(Xor(Xor(w & 0xff, ((w >> 8) & 0xff) << 8), ((w >> 16) & 0xff) << 16), (w >> 24) << 24)
  {
  }

  /** They advance the word by 16 bytes of zeros. */
  lemma StrideAdvances(crc: bv32)
    ensures Stride(crc) == AdvanceBy(16, crc)
  {
    hide Xor, AdvanceBy;
    BytesOfWord(crc);
    var a, b, c, d := crc & 0xff, ((crc >> 8) & 0xff) << 8, ((crc >> 16) & 0xff) << 16, (crc >> 24) << 24;
    AdvanceByLinear(16, Xor(Xor(a, b), c), d);
    AdvanceByLinear(16, Xor(a, b), c);
    AdvanceByLinear(16, a, b);
  }

  /** The four partial results put together: each is 4 bytes behind the next. */
  function Combined(c0: bv32, c1: bv32, c2: bv32, c3: bv32): bv32 {
    AdvanceBy(4, Xor(c3, AdvanceBy(4, Xor(c2, AdvanceBy(4, Xor(c1, AdvanceBy(4, Xor(c0, 0))))))))
  }

  /** The first of them stands for what is 16 bytes away. */
  lemma FirstIsFarthest(c0: bv32, c1: bv32, c2: bv32, c3: bv32)
    ensures Combined(c0, c1, c2, c3)
      == Xor(AdvanceBy(4, Xor(c3, AdvanceBy(4, Xor(c2, AdvanceBy(4, c1))))), AdvanceBy(16, c0))
  {
    hide Xor, AdvanceBy;
    XorNothing(c0);
    var a0 := AdvanceBy(4, c0);
    AdvanceByLinear(4, c1, a0);
    var b1, a1 := AdvanceBy(4, c1), AdvanceBy(4, a0);
    XorAssociates(c2, b1, a1);
    AdvanceByLinear(4, Xor(c2, b1), a1);
    var b2, a2 := AdvanceBy(4, Xor(c2, b1)), AdvanceBy(4, a1);
    XorAssociates(c3, b2, a2);
    AdvanceByLinear(4, Xor(c3, b2), a2);
    AdvanceByAdds(4, 4, c0);
    AdvanceByAdds(4, 8, c0);
    AdvanceByAdds(4, 12, c0);
  }

  /** Replacing the first by the next word plus its stride moves the combined
      result on by that word. */
  lemma StrideMovesOn(c0: bv32, c1: bv32, c2: bv32, c3: bv32, w: bv32)
    ensures Combined(c1, c2, c3, Xor(w, Stride(c0))) == AdvanceBy(4, Xor(Combined(c0, c1, c2, c3), w))
  {
    hide Xor, AdvanceBy, Stride;
    StrideAdvances(c0);
    FirstIsFarthest(c0, c1, c2, c3);
    XorNothing(c1);
    var x, far := AdvanceBy(4, Xor(c3, AdvanceBy(4, Xor(c2, AdvanceBy(4, c1))))), AdvanceBy(16, c0);
    XorAssociates(w, far, x);
    XorCommutes(far, x);
    XorCommutes(w, Xor(x, far));
  }

  /** The state after the bytes before p, in four parts. */
  ghost predicate Holds(l: bv32, data: Buffer, p: nat, c0: bv32, c1: bv32, c2: bv32, c3: bv32) {
    p <= |data| && Combined(c0, c1, c2, c3) == ByBytes(l, data[..p])
  }

  lemma HoldsAfterWord(l: bv32, data: Buffer, p: nat, c0: bv32, c1: bv32, c2: bv32, c3: bv32)
    requires Holds(l, data, p, c0, c1, c2, c3) && p + 4 <= |data|
    ensures Holds(l, data, p + 4, c1, c2, c3, Xor(ReadWord(data, p), Stride(c0)))
  {
    hide Xor, AdvanceBy, Stride, ByBytes, FourBytes, ReadWord, Combined;
    StrideMovesOn(c0, c1, c2, c3, ReadWord(data, p));
    WordAdvances(ByBytes(l, data[..p]), data, p);
    FourMoreBytes(l, data, p);
  }

  /** Four words at once. */
  lemma HoldsAfterSwath(l: bv32, data: Buffer, p: nat, c0: bv32, c1: bv32, c2: bv32, c3: bv32)
    requires Holds(l, data, p, c0, c1, c2, c3) && p + 16 <= |data|
    ensures Holds(l, data, p + 16, Xor(ReadWord(data, p), Stride(c0)), Xor(ReadWord(data, p + 4), Stride(c1)),
                  Xor(ReadWord(data, p + 8), Stride(c2)), Xor(ReadWord(data, p + 12), Stride(c3)))
  {
    hide Xor, Stride, ReadWord, Holds;
    var d0, d1, d2 := Xor(ReadWord(data, p), Stride(c0)), Xor(ReadWord(data, p + 4), Stride(c1)),
      Xor(ReadWord(data, p + 8), Stride(c2));
    HoldsAfterWord(l, data, p, c0, c1, c2, c3);
    HoldsAfterWord(l, data, p + 4, c1, c2, c3, d0);
    HoldsAfterWord(l, data, p + 8, c2, c3, d0, d1);
    HoldsAfterWord(l, data, p + 12, c3, d0, d1, d2);
  }

  /** The first swath. */
  lemma HoldsAtStart(l0: bv32, data: Buffer, p: nat)
    requires p + 16 <= |data|
    ensures Holds(l0, data, p + 16, Xor(ReadWord(data, p), ByBytes(l0, data[..p])), ReadWord(data, p + 4),
                  ReadWord(data, p + 8), ReadWord(data, p + 12))
  {
    hide Xor, AdvanceBy, ReadWord, FourBytes, ByBytes;
    var l := ByBytes(l0, data[..p]);
    XorCommutes(ReadWord(data, p), l);
    XorNothing(Xor(l, ReadWord(data, p)));
    WordAdvances(l, data, p);
    FourMoreBytes(l0, data, p);
    var l1 := FourBytes(l, data, p);
    XorCommutes(ReadWord(data, p + 4), l1);
    WordAdvances(l1, data, p + 4);
    FourMoreBytes(l0, data, p + 4);
    var l2 := FourBytes(l1, data, p + 4);
    XorCommutes(ReadWord(data, p + 8), l2);
    WordAdvances(l2, data, p + 8);
    FourMoreBytes(l0, data, p + 8);
    var l3 := FourBytes(l2, data, p + 8);
    XorCommutes(ReadWord(data, p + 12), l3);
    WordAdvances(l3, data, p + 12);
    FourMoreBytes(l0, data, p + 12);
  }

  // ---- Extend ----

  predicate Aligned(address: nat) {
    address % 4 == 0
  }

  lemma SwathAligned(address: nat)
    requires Aligned(address)
    ensures Aligned(address + 4) && Aligned(address + 8) && Aligned(address + 12) && Aligned(address + 16)
  {
  }

  function RoundUp4(address: nat): (r: nat)
    ensures address <= r < address + 4 && Aligned(r)
  {
    (address + 3) / 4 * 4
  }

  /** Words are only read at aligned addresses. */
  function ReadUint32LE(data: Buffer, address: nat, p: nat): bv32
    requires p + 4 <= |data| && Aligned(address + p)
  {
    ReadWord(data, p)
  }

  /** STEP4W. */
  method Step4W(w0: bv32, l: bv32) returns (r: bv32)
    ensures r == AdvanceBy(4, Xor(w0, l))
  {
    hide Xor, ByteExtension, Low, High;
    var w := Xor(w0, l);
    for i := 0 to 4
      invariant w == AdvanceBy(i, Xor(w0, l))
    {
      XorCommutes(High(w), ByteExtension(Low(w)));
      w := Xor(High(w), ByteExtension(Low(w)));
    }
    r := w;
  }

  method CombineStrides(crc0: bv32, crc1: bv32, crc2: bv32, crc3: bv32) returns (l: bv32)
    ensures l == Combined(crc0, crc1, crc2, crc3)
  {
    hide Xor, AdvanceBy;
    l := Step4W(crc0, 0);
    l := Step4W(crc1, l);
    l := Step4W(crc2, l);
    l := Step4W(crc3, l);
  }

  /** STEP1, up to `end`. */
  method Bytewise(l0: bv32, data: Buffer, p0: nat, end: nat, l: bv32) returns (r: bv32)
    requires p0 <= end <= |data| && l == ByBytes(l0, data[..p0])
    ensures r == ByBytes(l0, data[..end])
  {
    hide ByByte;
    var p := p0;
    r := l;
    while p != end
      invariant p0 <= p <= end && r == ByBytes(l0, data[..p])
      decreases end - p
    {
      assert data[..p + 1][..p] == data[..p];
      r := ByByte(r, data[p]);
      p := p + 1;
    }
  }

  /** The strided part. */
  method Strided(ghost l0: bv32, data: Buffer, address: nat, p0: nat, l1: bv32) returns (p: nat, l: bv32)
    requires p0 + 16 <= |data| && l1 == ByBytes(l0, data[..p0]) && Aligned(address + p0)
    ensures p <= |data| && l == ByBytes(l0, data[..p])
  {
    hide Xor, Stride, ReadWord, Combined, ByBytes, Holds, Aligned;
    p := p0;
    SwathAligned(address + p);
    HoldsAtStart(l0, data, p);
    var crc0 := Xor(ReadUint32LE(data, address, p), l1);
    var crc1, crc2 := ReadUint32LE(data, address, p + 4), ReadUint32LE(data, address, p + 8);
    var crc3 := ReadUint32LE(data, address, p + 12);
    p := p + 16;
    while |data| - p >= 16
      invariant p <= |data| && Aligned(address + p) && Holds(l0, data, p, crc0, crc1, crc2, crc3)
      decreases |data| - p
    {
      SwathAligned(address + p);
      HoldsAfterSwath(l0, data, p, crc0, crc1, crc2, crc3);
      crc0 := Xor(ReadUint32LE(data, address, p), Stride(crc0));
      crc1 := Xor(ReadUint32LE(data, address, p + 4), Stride(crc1));
      crc2 := Xor(ReadUint32LE(data, address, p + 8), Stride(crc2));
      crc3 := Xor(ReadUint32LE(data, address, p + 12), Stride(crc3));
      p := p + 16;
    }
    while |data| - p >= 4
      invariant p <= |data| && Aligned(address + p) && Holds(l0, data, p, crc0, crc1, crc2, crc3)
      decreases |data| - p
    {
      SwathAligned(address + p);
      HoldsAfterWord(l0, data, p, crc0, crc1, crc2, crc3);
      crc0 := Xor(ReadUint32LE(data, address, p), Stride(crc0));
      crc0, crc1, crc2, crc3 := crc1, crc2, crc3, crc0;
      p := p + 4;
    }
    HoldsMeans(l0, data, p, crc0, crc1, crc2, crc3);
    l := CombineStrides(crc0, crc1, crc2, crc3);
  }

  lemma HoldsMeans(l: bv32, data: Buffer, p: nat, c0: bv32, c1: bv32, c2: bv32, c3: bv32)
    requires Holds(l, data, p, c0, c1, c2, c3)
    ensures p <= |data| && ByBytes(l, data[..p]) == Combined(c0, c1, c2, c3)
  {
    hide Combined;
  }

  /** The checksum of all bytes, wherever the buffer lies in memory. */
  method Extend(crc: bv32, data: Buffer, address: nat) returns (r: bv32)
    ensures r == Checksum(crc, data)
  {
    hide Xor, ByBytes;
    var l0 := Xor(crc, CRC32_XOR);
    var l, p := l0, 0;
    assert data[..0] == [] && data[..|data|] == data;
    NoBytes(l0);
    var x := RoundUp4(address) - address;
    if x <= |data| {
      l := Bytewise(l0, data, p, x, l);
      p := x;
    }
    if |data| - p >= 16 {
      p, l := Strided(l0, data, address, p, l);
    }
    l := Bytewise(l0, data, p, |data|, l);
    r := Xor(l, CRC32_XOR);
  }

  lemma NoBytes(l: bv32)
    ensures ByBytes(l, []) == l
  {
  }
}
