/** util/bloom.cc: a filter never denies a key it was built from. */
module Blooms {
  import opened Coding

  /** util/hash.h; nothing depends on which function it is. */
  type Hash = seq<byte> -> uint32

  // ---- bits of a byte ----

  predicate HasBit(b: nat, i: nat) {
    if i == 0 then b % 2 == 1 else HasBit(b / 2, i - 1)
  }

  /** b | (1 << i). */
  function SetBit(b: nat, i: nat): nat {
    if i == 0 then (if b % 2 == 1 then b else b + 1) else 2 * SetBit(b / 2, i - 1) + b % 2
  }

  /** That bit is set, and no other one changes. */
  lemma {:induction false} SetBitSets(b: nat, i: nat, j: nat)
    ensures HasBit(SetBit(b, i), j) <==> i == j || HasBit(b, j)
  {
    if i > 0 {
      assert SetBit(b, i) / 2 == SetBit(b / 2, i - 1) && SetBit(b, i) % 2 == b % 2;
      if j > 0 { SetBitSets(b / 2, i - 1, j - 1); }
    } else if j > 0 {
      assert SetBit(b, 0) / 2 == b / 2;
    }
  }

  function Pow2(n: nat): (r: nat)
    ensures r > 0
  {
    if n == 0 then 1 else 2 * Pow2(n - 1)
  }

  lemma {:induction false} SetBitStaysInByte(b: nat, i: nat, n: nat)
    requires b < Pow2(n) && i < n
    ensures SetBit(b, i) < Pow2(n)
  {
    if i > 0 {
      SetBitStaysInByte(b / 2, i - 1, n - 1);
    } else if b % 2 == 0 {
      EvenPower(n);
    }
  }

  lemma EvenPower(n: nat)
    requires n > 0
    ensures Pow2(n) % 2 == 0
  {
  }

  function SetInByte(b: byte, i: nat): byte
    requires i < 8
  {
    SetBitStaysInByte(b, i, 8);
    SetBit(b, i)
  }

  // ---- bits of an array ----

  predicate BitAt(cells: seq<byte>, pos: nat)
    requires pos < 8 * |cells|
  {
    HasBit(cells[pos / 8], pos % 8)
  }

  /** One bit more than before, and no other change. */
  lemma SetAt(cells: seq<byte>, pos: nat, q: nat)
    requires pos < 8 * |cells| && q < 8 * |cells|
    ensures BitAt(cells[pos / 8 := SetInByte(cells[pos / 8], pos % 8)], q) <==> q == pos || BitAt(cells, q)
  {
    hide HasBit, SetBit;
    SetBitSets(cells[pos / 8], pos % 8, q % 8);
  }

  lemma NoBits(i: nat)
    ensures !HasBit(0, i)
  {
  }

  // ---- the probes of a key ----

  /** Rotation right by 17 bits. */
  function RotateRight17(h: uint32): uint32 {
    h / 0x2_0000 + h % 0x2_0000 * 0x8000
  }

  /** The j-th probe: double hashing, 32 bits wide. */
  function Probe(h: uint32, delta: uint32, j: nat): uint32 {
    if j == 0 then h else (Probe(h, delta, j - 1) + delta) % TWO_32
  }

  function BitPosition(hash: Hash, key: seq<byte>, j: nat, bits: nat): (r: nat)
    requires bits > 0
    ensures r < bits
  {
    Probe(hash(key), RotateRight17(hash(key)), j) % bits
  }

  /** Additions of delta, done at once. */
  lemma {:induction false} ProbeIs(h: uint32, delta: uint32, j: nat)
    ensures Probe(h, delta, j) == (h as int + j * delta as int) % 0x1_0000_0000
  {
    if j > 0 {
      ProbeIs(h, delta, j - 1);
      var before := h as int + (j - 1) * delta as int;
      assert h as int + j * delta as int == before + delta as int by {
        assert j * delta as int == (j - 1) * delta as int + delta as int;
      }
      ReducedFirst(before, delta as int);
    }
  }

  lemma ReducedFirst(a: int, b: int)
    ensures (a % 0x1_0000_0000 + b) % 0x1_0000_0000 == (a + b) % 0x1_0000_0000
  {
  }

  lemma KnownRotations()
    ensures RotateRight17(1) == 0x8000 && RotateRight17(0x2_0000) == 1 && RotateRight17(0x8000_0000) == 0x4000
  {
  }

  /** All probes of the key hit set bits. */
  ghost predicate AllSet(hash: Hash, key: seq<byte>, cells: seq<byte>, k: nat)
    requires |cells| > 0
  {
    forall j :: 0 <= j < k ==> BitAt(cells, BitPosition(hash, key, j, 8 * |cells|))
  }

  /** Some probe of the key is at this bit. */
  ghost predicate IsProbe(hash: Hash, key: seq<byte>, k: nat, bits: nat, pos: nat)
    requires bits > 0
  {
    exists j :: 0 <= j < k && BitPosition(hash, key, j, bits) == pos
  }

  /** Just the probes of these keys are set. */
  ghost predicate IsFilterOf(hash: Hash, keys: seq<seq<byte>>, k: nat, cells: seq<byte>)
    requires |cells| > 0
  {
    forall pos :: 0 <= pos < 8 * |cells| ==>
      (BitAt(cells, pos) <==> exists i :: 0 <= i < |keys| && IsProbe(hash, keys[i], k, 8 * |cells|, pos))
  }

  lemma FilterMatches(hash: Hash, keys: seq<seq<byte>>, k: nat, cells: seq<byte>, i: nat)
    requires |cells| > 0 && IsFilterOf(hash, keys, k, cells) && i < |keys|
    ensures AllSet(hash, keys[i], cells, k)
  {
    hide BitAt, BitPosition;
    forall j | 0 <= j < k
      ensures BitAt(cells, BitPosition(hash, keys[i], j, 8 * |cells|))
    {
      assert IsProbe(hash, keys[i], k, 8 * |cells|, BitPosition(hash, keys[i], j, 8 * |cells|));
    }
  }

  lemma NoKeys(hash: Hash, k: nat, cells: seq<byte>)
    requires |cells| > 0 && forall i :: 0 <= i < |cells| ==> cells[i] == 0
    ensures IsFilterOf(hash, [], k, cells)
  {
    forall pos | 0 <= pos < 8 * |cells|
      ensures !BitAt(cells, pos)
    {
      NoBits(pos % 8);
    }
  }

  lemma OneMoreKey(hash: Hash, keys: seq<seq<byte>>, key: seq<byte>, k: nat, before: seq<byte>, later: seq<byte>)
    requires |later| == |before| > 0 && IsFilterOf(hash, keys, k, before)
    requires forall pos :: 0 <= pos < 8 * |later| ==>
        (BitAt(later, pos) <==> BitAt(before, pos) || IsProbe(hash, key, k, 8 * |later|, pos))
    ensures IsFilterOf(hash, keys + [key], k, later)
  {
    hide BitAt, IsProbe;
    var all := keys + [key];
    forall pos | 0 <= pos < 8 * |later|
      ensures BitAt(later, pos) <==> exists i :: 0 <= i < |all| && IsProbe(hash, all[i], k, 8 * |later|, pos)
    {
      assert all[|keys|] == key;
      if BitAt(before, pos) {
        var i :| 0 <= i < |keys| && IsProbe(hash, keys[i], k, 8 * |before|, pos);
        assert all[i] == keys[i];
      }
    }
  }

  // ---- the policy ----

  class BloomFilterPolicy {
    const hash: Hash
    const bitsPerKey: nat
    const k: nat

    ghost predicate Valid() {
      1 <= k <= 30
    }

    /** 0.69 stands for the logarithm of 2. */
    constructor (bitsPerKey: nat, hash: Hash)
      ensures Valid() && this.hash == hash && this.bitsPerKey == bitsPerKey
      ensures 100 * k <= 69 * bitsPerKey || k == 1
      ensures 69 * bitsPerKey < 100 * (k + 1) || k == 30
    {
      this.hash, this.bitsPerKey := hash, bitsPerKey;
      var probes := (bitsPerKey as real * 0.69).Floor;
      k := if probes < 1 then 1 else if probes > 30 then 30 else probes;
    }

    /** A filter from which this policy, or any Bloom policy, tells that the key
        may be there. */
    ghost predicate Matches(filter: seq<byte>, key: seq<byte>) {
      && |filter| >= 2
      && (filter[|filter| - 1] <= 30 ==> AllSet(hash, key, filter[..|filter| - 1], filter[|filter| - 1]))
    }

    /** As many bytes as the keys want bits for, and no fewer than 8; in them
        just the probes of the keys; behind them the number of probes. */
    ghost predicate IsFilter(keys: seq<seq<byte>>, filter: seq<byte>) {
      var n := |keys| * bitsPerKey;
      && |filter| == (if n < 64 then 8 else (n + 7) / 8) + 1
      && filter[|filter| - 1] as int == k
      && IsFilterOf(hash, keys, k, filter[..|filter| - 1])
    }

    lemma FilterMatchesKeys(keys: seq<seq<byte>>, filter: seq<byte>)
      requires IsFilter(keys, filter)
      ensures forall i :: 0 <= i < |keys| ==> Matches(filter, keys[i])
    {
      hide IsFilterOf, AllSet;
      forall i | 0 <= i < |keys|
        ensures Matches(filter, keys[i])
      {
        FilterMatches(hash, keys, k, filter[..|filter| - 1], i);
      }
    }

    method CreateFilter(keys: seq<seq<byte>>, dst: seq<byte>) returns (r: seq<byte>)
      requires Valid()
      ensures |r| >= |dst| + 2 && r[..|dst|] == dst && IsFilter(keys, r[|dst|..])
      ensures forall i :: 0 <= i < |keys| ==> Matches(r[|dst|..], keys[i])
    {
      hide BitAt, RotateRight17, Probe, BitPosition, IsFilterOf, Matches;
      var bits := |keys| * bitsPerKey;
      if bits < 64 {
        bits := 64;
      }
      var bytes := (bits + 7) / 8;
      bits := bytes * 8;
      var cells: seq<byte> := seq(bytes, _ => 0);
      NoKeys(hash, k, cells);
      assert keys[..0] == [] && keys[..|keys|] == keys;
      for i := 0 to |keys|
        invariant |cells| == bytes && IsFilterOf(hash, keys[..i], k, cells)
      {
        ghost var before := cells;
        cells := AddKey(keys[i], cells);
        OneMoreKey(hash, keys[..i], keys[i], k, before, cells);
        assert keys[..i + 1] == keys[..i] + [keys[i]];
      }
      r := dst + cells + [k];
      assert r[|dst|..] == cells + [k] && (cells + [k])[..|cells|] == cells;
      FilterMatchesKeys(keys, cells + [k]);
    }

    /** The inner loop: k probes of one key. */
    method AddKey(key: seq<byte>, cells0: seq<byte>) returns (cells: seq<byte>)
      requires |cells0| > 0
      ensures |cells| == |cells0|
      ensures forall pos :: 0 <= pos < 8 * |cells| ==>
          (BitAt(cells, pos) <==> BitAt(cells0, pos) || IsProbe(hash, key, k, 8 * |cells|, pos))
    {
      hide BitAt, RotateRight17;
      cells := cells0;
      var bits := 8 * |cells|;
      var h := hash(key);
      var delta := RotateRight17(h);
      for j := 0 to k
        invariant |cells| == |cells0| && h == Probe(hash(key), delta, j)
        invariant forall pos :: 0 <= pos < bits ==>
            (BitAt(cells, pos) <==> BitAt(cells0, pos) || IsProbe(hash, key, j, bits, pos))
      {
        var bitpos := h % bits;
        ghost var before := cells;
        cells := cells[bitpos / 8 := SetInByte(cells[bitpos / 8], bitpos % 8)];
        assert bitpos == BitPosition(hash, key, j, bits);
        forall pos | 0 <= pos < bits
          ensures BitAt(cells, pos) <==> BitAt(cells0, pos) || IsProbe(hash, key, j + 1, bits, pos)
        {
          SetAt(before, bitpos, pos);
          OneMoreProbe(hash, key, j, bits, pos);
        }
        h := (h + delta) % TWO_32;
      }
    }

    method KeyMayMatch(key: seq<byte>, filter: seq<byte>) returns (r: bool)
      ensures r <==> Matches(filter, key)
    {
      hide BitAt, RotateRight17;
      var len := |filter|;
      if len < 2 {
        return false;
      }
      var cells := filter[..len - 1];
      var bits := (len - 1) * 8;
      var probes := filter[len - 1];
      if probes > 30 {
        return true;
      }
      var h := hash(key);
      var delta := RotateRight17(h);
      for j := 0 to probes
        invariant AllSet(hash, key, cells, j) && h == Probe(hash(key), delta, j)
      {
        var bitpos := h % bits;
        if !BitAt(cells, bitpos) {
          assert !BitAt(cells, BitPosition(hash, key, j, 8 * |cells|));
          return false;
        }
        h := (h + delta) % TWO_32;
      }
      return true;
    }
  }

  lemma OneMoreProbe(hash: Hash, key: seq<byte>, j: nat, bits: nat, pos: nat)
    requires bits > 0
    ensures IsProbe(hash, key, j + 1, bits, pos) <==>
        IsProbe(hash, key, j, bits, pos) || pos == BitPosition(hash, key, j, bits)
  {
    hide BitPosition;
    if IsProbe(hash, key, j, bits, pos) {
      var i :| 0 <= i < j && BitPosition(hash, key, i, bits) == pos;
    }
  }
}
