/** What the checksum is, apart from how it is computed: the complement of a
    remainder in the division of the message, as a polynomial over GF(2), by the
    polynomial of CRC32C (section 12.1 of RFC 3720). */
module CrcDivision {
  import opened Crc32c

  /** Coefficients, that of the highest power first. */
  type Poly = seq<bool>

  function Zeros(n: nat): (r: Poly)
    ensures |r| == n
  {
    seq(n, _ => false)
  }

  function Plus(a: Poly, b: Poly): (r: Poly)
    requires |a| == |b|
    ensures |r| == |a|
  {
    seq(|a|, i requires 0 <= i < |a| => a[i] != b[i])
  }

  /** x^32 + x^28 + x^27 + x^26 + x^25 + x^23 + x^22 + x^20 + x^19 + x^18 + x^14
      + x^13 + x^11 + x^10 + x^9 + x^8 + x^6 + 1, which is 0x11EDC6F41. */
  const DIVISOR: Poly := [
    true, false, false, false, true, true, true, true, false, true, true, false, true, true, true,
    false, false, false, true, true, false, true, true, true, true, false, true, false, false, false,
    false, false, true]

  function Multiple(c: bool): (r: Poly)
    ensures |r| == 33
  {
    if c then DIVISOR else Zeros(33)
  }

  /** q times the divisor. */
  function Times(q: Poly): (r: Poly)
    ensures |r| == |q| + 32
  {
    if q == [] then Zeros(32) else Plus(Multiple(q[0]) + Zeros(|q| - 1), [false] + Times(q[1..]))
  }

  /** The n lowest bits of a word, the lowest first: the order of transmission. */
  function LowFirst(n: nat, l: bv32): (r: Poly)
    ensures |r| == n
  {
    if n == 0 then [] else [Odd(l)] + LowFirst(n - 1, Half(l))
  }

  function Message(data: Buffer): (r: Poly)
    ensures |r| == 8 * |data|
  {
    if data == [] then [] else Message(data[..|data| - 1]) + LowFirst(8, data[|data| - 1] as bv32)
  }

  /** Dividing the message with 32 zeros behind it, and `start` added to its
      highest 32 coefficients, by the divisor leaves r. */
  ghost predicate IsRemainder(message: Poly, start: Poly, r: Poly)
    requires |start| == |r| == 32
  {
    var n := |message|;
    exists q: Poly :: |q| == n
      && Plus(message + Zeros(32), start + Zeros(n)) == Plus(Times(q), Zeros(n) + r)
  }

  // ---- sums ----

  lemma PlusAssociates(a: Poly, b: Poly, c: Poly)
    requires |a| == |b| == |c|
    ensures Plus(Plus(a, b), c) == Plus(a, Plus(b, c))
  {
  }

  lemma PlusCommutes(a: Poly, b: Poly)
    requires |a| == |b|
    ensures Plus(a, b) == Plus(b, a)
  {
  }

  lemma PlusZeros(a: Poly)
    ensures Plus(a, Zeros(|a|)) == Plus(Zeros(|a|), a) == a
    ensures Plus(a, a) == Zeros(|a|)
  {
  }

  lemma PlusParts(a: Poly, b: Poly, c: Poly, d: Poly)
    requires |a| == |c| && |b| == |d|
    ensures Plus(a + b, c + d) == Plus(a, c) + Plus(b, d)
  {
  }

  lemma PlusOne(a: bool, b: bool)
    ensures Plus([a], [b]) == [a != b]
  {
  }

  lemma ZerosJoin(m: nat, n: nat)
    ensures Zeros(m) + Zeros(n) == Zeros(m + n)
    ensures Zeros(1) == [false]
  {
  }

  /** What is added on both sides makes no difference. */
  lemma PlusCancels(a: Poly, b: Poly, c: Poly)
    requires |a| == |b| == |c| && Plus(a, b) == Plus(a, c)
    ensures b == c
  {
    hide Plus;
    PlusAssociates(a, a, b);
    PlusAssociates(a, a, c);
    PlusZeros(a);
    PlusZeros(b);
    PlusZeros(c);
  }

  /** Dividing leaves only one remainder. */
  lemma RemainderIsUnique(message: Poly, start: Poly, r: Poly, other: Poly)
    requires |start| == |r| == |other| == 32
    requires IsRemainder(message, start, r) && IsRemainder(message, start, other)
    ensures r == other
  {
    hide Plus, Times, Zeros;
    var n := |message|;
    var dividend := Plus(message + Zeros(32), start + Zeros(n));
    var q: Poly :| |q| == n && dividend == Plus(Times(q), Zeros(n) + r);
    var p: Poly :| |p| == n && dividend == Plus(Times(p), Zeros(n) + other);
    QuotientIsUnique(q, p, r, other);
  }

  lemma {:induction false} QuotientIsUnique(q: Poly, p: Poly, r: Poly, s: Poly)
    requires |q| == |p| && |r| == |s| == 32
    requires Plus(Times(q), Zeros(|q|) + r) == Plus(Times(p), Zeros(|p|) + s)
    ensures q == p && r == s
  {
    hide Plus, Zeros, Multiple;
    var n := |q|;
    if n == 0 {
      NothingFirst(r);
      NothingFirst(s);
      PlusCancels(Zeros(32), r, s);
    } else {
      TimesFirst(q, r);
      TimesFirst(p, s);
      var a, b := Plus(Times(q[1..]), Zeros(n - 1) + r), Plus(Times(p[1..]), Zeros(n - 1) + s);
      MultipleFirst(q[0], n - 1, a);
      MultipleFirst(p[0], n - 1, b);
      hide Times;
      PlusCancels(Multiple(q[0]) + Zeros(n - 1), [false] + a, [false] + b);
      assert a == ([false] + a)[1..] == ([false] + b)[1..] == b;
      QuotientIsUnique(q[1..], p[1..], r, s);
      assert q == [q[0]] + q[1..] && p == [p[0]] + p[1..];
    }
  }

  lemma NothingFirst(r: Poly)
    ensures Zeros(0) + r == r
  {
  }

  /** The quotient's first coefficient, apart from the others. */
  lemma TimesFirst(q: Poly, r: Poly)
    requires q != [] && |r| == 32
    ensures Plus(Times(q), Zeros(|q|) + r)
         == Plus(Multiple(q[0]) + Zeros(|q| - 1), [false] + Plus(Times(q[1..]), Zeros(|q| - 1) + r))
  {
    hide Plus, Zeros, Multiple, Times;
    var m, t, z := Multiple(q[0]) + Zeros(|q| - 1), Times(q[1..]), Zeros(|q| - 1) + r;
    TimesIs(q);
    ZerosFirst(|q|, r);
    PlusAssociates(m, [false] + t, [false] + z);
    PlusParts([false], t, [false], z);
    PlusOne(false, false);
  }

  lemma TimesIs(q: Poly)
    requires q != []
    ensures Times(q) == Plus(Multiple(q[0]) + Zeros(|q| - 1), [false] + Times(q[1..]))
  {
    hide Plus, Zeros, Multiple;
  }

  lemma ZerosFirst(n: nat, r: Poly)
    requires n > 0
    ensures Zeros(n) + r == [false] + (Zeros(n - 1) + r)
  {
  }

  lemma MultipleFirst(c: bool, n: nat, a: Poly)
    requires |a| == n + 32
    ensures Plus(Multiple(c) + Zeros(n), [false] + a)[0] == c
  {
  }

  // ---- words as coefficients ----

  lemma OneBit(n: nat, l: bv32, h: bv32)
    requires n > 0 && Half(l) == h
    ensures LowFirst(n, l) == [Odd(l)] + LowFirst(n - 1, h)
  {
  }

  lemma FourBits(n: nat, l: bv32, bits: Poly)
    requires n >= 4 && bits == [Odd(l), Odd(l >> 1), Odd(l >> 2), Odd(l >> 3)]
    ensures LowFirst(n, l) == bits + LowFirst(n - 4, l >> 4)
  {
    hide LowFirst, Odd;
    OneBit(n, l, l >> 1);
    OneBit(n - 1, l >> 1, l >> 2);
    OneBit(n - 2, l >> 2, l >> 3);
    OneBit(n - 3, l >> 3, l >> 4);
  }

  /** The polynomial in the code is the divisor without its highest power. */
  lemma PolynomialIsDivisor()
    ensures [true] + LowFirst(32, POLYNOMIAL) == DIVISOR
  {
    hide LowFirst;
    FourBits(32, 0x82f6_3b78, [false, false, false, true]);
    FourBits(28, 0x82f_63b7, [true, true, true, false]);
    FourBits(24, 0x82_f63b, [true, true, false, true]);
    FourBits(20, 0x8_2f63, [true, true, false, false]);
    FourBits(16, 0x82f6, [false, true, true, false]);
    FourBits(12, 0x82f, [true, true, true, true]);
    FourBits(8, 0x82, [false, true, false, false]);
    FourBits(4, 0x8, [false, false, false, true]);
    NoMoreBits();
  }

  lemma NoMoreBits()
    ensures LowFirst(0, 0) == []
  {
  }

  lemma {:induction false} LowFirstXor(n: nat, a: bv32, b: bv32)
    ensures LowFirst(n, Xor(a, b)) == Plus(LowFirst(n, a), LowFirst(n, b))
  {
    hide Xor, Half, Odd;
    if n > 0 {
      OddXor(a, b);
      HalfXor(a, b);
      LowFirstXor(n - 1, Half(a), Half(b));
    }
  }

  lemma {:induction false} LowFirstZero(n: nat)
    ensures LowFirst(n, 0) == Zeros(n)
  {
    if n > 0 {
      assert !Odd(0) && Half(0) == 0;
      LowFirstZero(n - 1);
    }
  }

  lemma LowFirstOne()
    ensures LowFirst(32, 1) == [true] + Zeros(31) && Odd(1)
  {
    assert Odd(1) && Half(1) == 0;
    LowFirstZero(31);
  }

  function HalfBy(n: nat, l: bv32): bv32 {
    if n == 0 then l else HalfBy(n - 1, Half(l))
  }

  lemma {:induction false} HalvesJoin(m: nat, n: nat, l: bv32)
    ensures HalfBy(m + n, l) == HalfBy(m, HalfBy(n, l))
    decreases n
  {
    hide Half;
    if n > 0 { HalvesJoin(m, n - 1, Half(l)); }
  }

  lemma {:induction false} OneMoreBit(n: nat, l: bv32)
    ensures LowFirst(n + 1, l) == LowFirst(n, l) + [Odd(HalfBy(n, l))]
  {
    hide Half, Odd;
    if n > 0 {
      OneMoreBit(n - 1, Half(l));
    } else {
      assert LowFirst(1, l) == [Odd(l)] + LowFirst(0, Half(l));
    }
  }

  lemma FourHalves(l: bv32)
    ensures HalfBy(4, l) == Half(Half(Half(Half(l))))
  {
    hide Half;
    HalvesJoin(2, 2, l);
    TwoHalves(l);
    TwoHalves(Half(Half(l)));
  }

  lemma TwoHalves(l: bv32)
    ensures HalfBy(2, l) == Half(Half(l))
  {
    hide Half;
    assert HalfBy(1, Half(l)) == HalfBy(0, Half(Half(l)));
  }

  lemma EightHalves(l: bv32)
    ensures HalfBy(8, l) == High(l)
  {
    hide HalfBy, Half, High;
    HalvesJoin(4, 4, l);
    FourHalves(l);
    FourHalves(Half(Half(Half(Half(l)))));
    HalvesAreHigh(l);
  }

  lemma HalvesAreHigh(l: bv32)
    ensures Half(Half(Half(Half(Half(Half(Half(Half(l)))))))) == High(l)
  {
  }

  lemma NothingLeft(l: bv32)
    ensures HalfBy(32, l) == 0
  {
    HalvesJoin(8, 24, l);
    HalvesJoin(8, 16, l);
    HalvesJoin(8, 8, l);
    EightHalves(l);
    EightHalves(High(l));
    EightHalves(High(High(l)));
    EightHalves(High(High(High(l))));
    hide HalfBy;
  }

  /** Taking out the lowest bit is multiplying by x. */
  lemma Shifted(l: bv32)
    ensures LowFirst(32, l) + [false] == [Odd(l)] + LowFirst(32, Half(l))
  {
    hide HalfBy, Half, LowFirst;
    OneMoreBit(32, l);
    NothingLeft(l);
    OneBit(33, l, Half(l));
  }

  // ---- bit by bit ----

  function BitIn(l: bv32, b: bool): bv32 {
    Bit(if b then Xor(l, 1) else l)
  }

  function BitsIn(l: bv32, m: Poly): bv32
    decreases |m|
  {
    if m == [] then l else BitsIn(BitIn(l, m[0]), m[1..])
  }

  /** The coefficient of the quotient that a bit gives. */
  predicate Next(l: bv32, b: bool) {
    Odd(l) != b
  }

  /** One step of the division. */
  lemma BitDivides(l: bv32, b: bool)
    ensures Plus([b] + Zeros(32), LowFirst(32, l) + [false])
         == Plus(Multiple(Next(l, b)), [false] + LowFirst(32, BitIn(l, b)))
  {
    hide LowFirst, Xor, Half, Odd, Plus, Zeros;
    var l1 := if b then Xor(l, 1) else l;
    var t := LowFirst(32, l1) + [false];
    BitAdded(l, b);
    Shifted(l1);
    var h := LowFirst(32, Half(l1));
    ZerosJoin(32, 1);
    PlusZeros(t);
    if Next(l, b) {
      LowFirstXor(32, Half(l1), POLYNOMIAL);
      PolynomialIsDivisor();
      var d := LowFirst(32, POLYNOMIAL);
      PlusParts([true], d, [false], Plus(h, d));
      PlusOne(true, false);
      PlusCommutes(h, d);
      PlusAssociates(d, d, h);
      PlusZeros(d);
      PlusZeros(h);
    } else {
      assert BitIn(l, b) == Half(l1);
    }
  }

  lemma BitAdded(l: bv32, b: bool)
    ensures var l1 := if b then Xor(l, 1) else l;
      LowFirst(32, l1) + [false] == Plus([b] + Zeros(32), LowFirst(32, l) + [false]) && Odd(l1) == Next(l, b)
  {
    hide LowFirst, Xor, Half, Odd, Plus;
    var s := LowFirst(32, l);
    ZerosJoin(31, 1);
    ZerosJoin(1, 32);
    assert [b] + Zeros(32) == ([b] + Zeros(31)) + [false];
    PlusParts([b] + Zeros(31), [false], s, [false]);
    PlusOne(false, false);
    if b {
      LowFirstXor(32, l, 1);
      LowFirstOne();
      PlusCommutes(s, [true] + Zeros(31));
      OddXor(l, 1);
    } else {
      ZerosJoin(1, 31);
      PlusZeros(s);
    }
  }

  /** The state after the message is the remainder. */
  lemma {:induction false} BitsDivide(l: bv32, m: Poly)
    ensures IsRemainder(m, LowFirst(32, l), LowFirst(32, BitsIn(l, m)))
    decreases |m|
  {
    hide LowFirst, BitIn, Next, Times, Plus, Zeros, Multiple;
    var n, start := |m|, LowFirst(32, l);
    if m == [] {
      NothingDivided(start);
    } else {
      var k, c := BitIn(l, m[0]), Next(l, m[0]);
      BitsDivide(k, m[1..]);
      var r := LowFirst(32, BitsIn(k, m[1..]));
      hide BitsIn;
      var q: Poly :| |q| == n - 1
        && Plus(m[1..] + Zeros(32), LowFirst(32, k) + Zeros(n - 1)) == Plus(Times(q), Zeros(n - 1) + r);
      BitDivides(l, m[0]);
      StepDivides(m[0], m[1..], start, LowFirst(32, k), c);
      TimesFirst([c] + q, r);
      assert ([c] + q)[1..] == q && m == [m[0]] + m[1..];
    }
  }

  lemma NothingDivided(start: Poly)
    requires |start| == 32
    ensures IsRemainder([], start, start)
  {
    assert Plus([] + Zeros(32), start + Zeros(0)) == Plus(Times([]), Zeros(0) + start);
  }

  lemma StepDivides(b: bool, m: Poly, s: Poly, t: Poly, c: bool)
    requires |s| == |t| == 32 && Plus([b] + Zeros(32), s + [false]) == Plus(Multiple(c), [false] + t)
    ensures Plus([b] + m + Zeros(32), s + Zeros(|m| + 1))
         == Plus(Multiple(c) + Zeros(|m|), [false] + Plus(m + Zeros(32), t + Zeros(|m|)))
  {
    hide Plus, Zeros, Multiple;
    var n := |m|;
    ZerosJoin(1, n);
    ZerosJoin(1, 32);
    ZerosJoin(32, n);
    ZerosJoin(n, 32);
    var rest := [false] + (m + Zeros(32));
    // the bit apart from the others
    assert [b] + m + Zeros(32) == Plus([b] + Zeros(32) + Zeros(n), rest) by {
      PlusParts([b], Zeros(n + 32), [false], m + Zeros(32));
      PlusOne(b, false);
      PlusZeros(m + Zeros(32));
      assert [b] + Zeros(32) + Zeros(n) == [b] + Zeros(n + 32);
    }
    assert s + Zeros(n + 1) == s + [false] + Zeros(n);
    var x, y := [b] + Zeros(32), s + [false];
    PlusAssociates(x + Zeros(n), rest, y + Zeros(n));
    PlusCommutes(rest, y + Zeros(n));
    PlusAssociates(x + Zeros(n), y + Zeros(n), rest);
    PlusParts(x, Zeros(n), y, Zeros(n));
    PlusZeros(Zeros(n));
    PlusParts(Multiple(c), Zeros(n), [false] + t, Zeros(n));
    PlusAssociates(Multiple(c) + Zeros(n), [false] + t + Zeros(n), rest);
    assert [false] + t + Zeros(n) == [false] + (t + Zeros(n));
    PlusParts([false], t + Zeros(n), [false], m + Zeros(32));
    PlusOne(false, false);
    PlusCommutes(t + Zeros(n), m + Zeros(32));
  }

  // ---- byte by byte ----

  lemma {:induction false} BitsInJoin(l: bv32, a: Poly, b: Poly)
    ensures BitsIn(l, a + b) == BitsIn(BitsIn(l, a), b)
    decreases |a|
  {
    hide BitIn;
    if a == [] {
      assert a + b == b;
    } else {
      assert (a + b)[0] == a[0] && (a + b)[1..] == a[1..] + b;
      BitsInJoin(BitIn(l, a[0]), a[1..], b);
    }
  }

  /** Eight bits that come in one by one could have been added at once. */
  lemma {:induction false} BitsOfWord(n: nat, l: bv32, w: bv32)
    requires HalfBy(n, w) == 0
    ensures BitsIn(l, LowFirst(n, w)) == Bits(n, Xor(l, w))
  {
    hide Bit, Xor, Half, Odd;
    if n == 0 {
      XorNothing(l);
    } else {
      var b, h := Odd(w), Half(w);
      assert LowFirst(n, w) == [b] + LowFirst(n - 1, h);
      assert BitsIn(l, LowFirst(n, w)) == BitsIn(BitIn(l, b), LowFirst(n - 1, h)) by {
        assert LowFirst(n, w)[1..] == LowFirst(n - 1, h);
      }
      BitsOfWord(n - 1, BitIn(l, b), h);
      assert Xor(BitIn(l, b), h) == Bit(Xor(l, w)) by { BitOfWord(l, w); }
      BitsFirst(n, Xor(l, w));
    }
  }

  lemma {:induction false} BitsFirst(n: nat, l: bv32)
    requires n > 0
    ensures Bits(n, l) == Bits(n - 1, Bit(l))
  {
    hide Bit;
    if n > 1 { BitsFirst(n - 1, l); }
  }

  lemma BitOfWord(l: bv32, w: bv32)
    ensures Xor(BitIn(l, Odd(w)), Half(w)) == Bit(Xor(l, w))
  {
    var e := if Odd(w) then 1 else 0;
    WordSplits(w);
    hide Half, Odd, Xor, Bit;
    XorAssociates(l, e, Xor(w, e));
    assert Xor(Xor(l, e), Xor(w, e)) == Xor(l, w) by {
      XorMix(l, e, w, e);
      XorNothing(e);
      XorNothing(Xor(l, w));
    }
    BitLinear(Xor(l, e), Xor(w, e));
    XorNothing(l);
  }

  lemma WordSplits(w: bv32)
    ensures Bit(Xor(w, if Odd(w) then 1 else 0)) == Half(w)
  {
  }

  lemma BytesIn(l: bv32, b: bv8)
    ensures ByByte(l, b) == BitsIn(l, LowFirst(8, b as bv32))
  {
    hide Xor, Half, Low, High, Bits, BitsIn, LowFirst;
    EightHalves(b as bv32);
    HighOfByte(b);
    BitsOfWord(8, l, b as bv32);
    ByteAtOnce(l, b);
  }

  lemma HighOfByte(b: bv8)
    ensures High(b as bv32) == 0
  {
  }

  /** The eight lowest bits of the state are used up, the others move down. */
  lemma ByteAtOnce(l: bv32, b: bv8)
    ensures ByByte(l, b) == Bits(8, Xor(l, b as bv32))
  {
    hide Xor, Low, High, Bits;
    var low, high := Xor(Low(l), b as bv32), Raised(l);
    LowAndHigh(l);
    XorAssociates(high, Low(l), b as bv32);
    BitsLinear(8, high, low);
    BitsOfRaised(l);
    XorCommutes(High(l), ByteExtension(low));
  }

  /** A word without its lowest byte. */
  function Raised(l: bv32): bv32 {
    High(l) << 8
  }

  lemma LowAndHigh(l: bv32)
    ensures Xor(Raised(l), Low(l)) == l
  {
  }

  lemma EightBits(l: bv32)
    ensures Bits(8, l) == Bit(Bit(Bit(Bit(Bit(Bit(Bit(Bit(l))))))))
  {
    hide Bit;
    assert Bits(1, l) == Bit(Bits(0, l));
    assert Bits(2, l) == Bit(Bits(1, l));
    assert Bits(3, l) == Bit(Bits(2, l));
    assert Bits(4, l) == Bit(Bits(3, l));
    assert Bits(5, l) == Bit(Bits(4, l));
    assert Bits(6, l) == Bit(Bits(5, l));
    assert Bits(7, l) == Bit(Bits(6, l));
  }

  lemma BitsOfRaised(l: bv32)
    ensures Bits(8, Raised(l)) == High(l)
  {
    hide Bits;
    EightBits(Raised(l));
    var a := Half(Half(Half(Half(Raised(l)))));
    assert Bit(Bit(Bit(Bit(Raised(l))))) == a;
    assert Bit(Bit(Bit(Bit(a)))) == High(l);
  }

  lemma {:induction false} BytesDivide(l: bv32, data: Buffer)
    ensures ByBytes(l, data) == BitsIn(l, Message(data))
  {
    hide ByByte, BitsIn, LowFirst;
    if data == [] {
      NoBits(l);
    } else {
      var n := |data| - 1;
      BytesDivide(l, data[..n]);
      BytesIn(ByBytes(l, data[..n]), data[n]);
      BitsInJoin(l, Message(data[..n]), LowFirst(8, data[n] as bv32));
    }
  }

  lemma NoBits(l: bv32)
    ensures BitsIn(l, []) == l
  {
  }

  /** The checksum is the remainder, inverted before and after. */
  lemma ChecksumIsRemainder(crc: bv32, data: Buffer, r: Poly)
    requires |r| == 32
    ensures IsRemainder(Message(data), LowFirst(32, Inverted(crc)), r)
       <==> r == LowFirst(32, Inverted(Checksum(crc, data)))
  {
    hide Xor, ByBytes, BitsIn, Message, LowFirst, IsRemainder;
    var l := Inverted(crc);
    BytesDivide(l, data);
    BitsDivide(l, Message(data));
    XorTwice(ByBytes(l, data), CRC32_XOR);
    if IsRemainder(Message(data), LowFirst(32, l), r) {
      RemainderIsUnique(Message(data), LowFirst(32, l), r, LowFirst(32, Inverted(Checksum(crc, data))));
    }
  }

  function Inverted(l: bv32): bv32 {
    Xor(l, 0xffff_ffff)
  }

  // ---- known checksums ----

  /** The first table entry that is not 0. */
  lemma FirstOfTable()
    ensures ByteExtension(1) == 0xf26b_8303
  {
    hide Bits;
    EightBits(1);
  }

  lemma OneByte(data: Buffer, l: bv32, b: bv8, k: bv32)
    requires l == ByBytes(CRC32_XOR, data)
    requires k == Xor(Bit(Bit(Bit(Bit(Bit(Bit(Bit(Bit(Xor(Low(l), b as bv32))))))))), High(l))
    ensures k == ByBytes(CRC32_XOR, data + [b])
  {
    assert (data + [b])[..|data|] == data;
    hide Bits, Bit, Xor, Low, High;
    EightBits(Xor(Low(l), b as bv32));
  }

  /** The checksum of the digits 1 to 9, in ASCII. */
  lemma ChecksumOfDigits()
    ensures Checksum(0, [0x31, 0x32, 0x33, 0x34, 0x35, 0x36, 0x37, 0x38, 0x39]) == 0xe306_9283
  {
    var digits: Buffer := [0x31, 0x32, 0x33, 0x34, 0x35, 0x36, 0x37, 0x38, 0x39];
    hide ByBytes;
    NoBytes(CRC32_XOR);
    OneByte(digits[..0], 0xffff_ffff, 0x31, 0x6f0a_661c);
    assert digits[..1] == digits[..0] + [0x31];
    OneByte(digits[..1], 0x6f0a_661c, 0x32, 0x8caa_3b9f);
    assert digits[..2] == digits[..1] + [0x32];
    OneByte(digits[..2], 0x8caa_3b9f, 0x33, 0xef84_d04d);
    assert digits[..3] == digits[..2] + [0x33];
    OneByte(digits[..3], 0xef84_d04d, 0x34, 0x9c5_0b11);
    assert digits[..4] == digits[..3] + [0x34];
    OneByte(digits[..4], 0x9c5_0b11, 0x35, 0xe72e_dcca);
    assert digits[..5] == digits[..4] + [0x35];
    OneByte(digits[..5], 0xe72e_dcca, 0x36, 0xbeca_8e79);
    assert digits[..6] == digits[..5] + [0x36];
    OneByte(digits[..6], 0xbeca_8e79, 0x37, 0xedbd_6815);
    assert digits[..7] == digits[..6] + [0x37];
    OneByte(digits[..7], 0xedbd_6815, 0x38, 0x9f78_7f65);
    assert digits[..8] == digits[..7] + [0x38];
    OneByte(digits[..8], 0x9f78_7f65, 0x39, 0x1cf9_6d7c);
    assert digits[..9] == digits[..8] + [0x39];
    assert digits == digits[..9];
  }
}
