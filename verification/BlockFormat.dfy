/** A block as bytes: entries that share key prefixes with the entry before,
    then the offsets of the restart points. */
module BlockFormat {
  import opened Coding

  datatype Pair = Pair(key: seq<byte>, value: seq<byte>)

  /** An entry as stored: it leaves out the first `shared` bytes of its key. */
  datatype Item = Item(shared: nat, pair: Pair)

  function Key(items: seq<Item>, i: nat): seq<byte>
    requires i < |items|
  {
    items[i].pair.key
  }

  function PairsOf(items: seq<Item>): (r: seq<Pair>)
    ensures |r| == |items| && forall i :: 0 <= i < |items| ==> r[i] == items[i].pair
  {
    if items == [] then [] else PairsOf(items[..|items| - 1]) + [items[|items| - 1].pair]
  }

  // ---- one entry ----

  function Delta(x: Item): seq<byte> {
    if x.shared <= |x.pair.key| then x.pair.key[x.shared..] else []
  }

  function ItemHeader(x: Item): seq<byte> {
    EncodeVarint(x.shared) + EncodeVarint(|Delta(x)|) + EncodeVarint(|x.pair.value|)
  }

  function ItemBytes(x: Item): seq<byte> {
    ItemHeader(x) + Delta(x) + x.pair.value
  }

  /** Lengths are 32 bits wide. */
  predicate Small(x: Item) {
    x.shared <= |x.pair.key| && |x.pair.key| + |x.pair.value| < TWO_32
  }

  datatype Header = Header(shared: nat, nonShared: nat, valueLength: nat, length: nat)

  /** The three varints, in general. */
  function SlowHeader(b: seq<byte>): Maybe<Header> {
    match ParseVarint32(b)
    case Malformed => Nothing
    case Value(shared, b1) =>
      match ParseVarint32(b1)
      case Malformed => Nothing
      case Value(nonShared, b2) =>
        match ParseVarint32(b2)
        case Malformed => Nothing
        case Value(valueLength, b3) => Just(Header(shared, nonShared, valueLength, |b| - |b3|))
  }

  /** DecodeEntry on what is left of the entries.  The sum wraps at 32 bits. */
  function DecodeEntry(b: seq<byte>): Maybe<Header> {
    if |b| < 3 then Nothing
    else
      var h :=
        if b[0] < 128 && b[1] < 128 && b[2] < 128 then Just(Header(b[0], b[1], b[2], 3))
        else SlowHeader(b);
      if h.Nothing? || |b| - h.value.length < (h.value.nonShared + h.value.valueLength) % TWO_32 then Nothing else h
  }

  lemma OneByte(b: seq<byte>)
    requires b != [] && b[0] < 128
    ensures ParseVarint32(b) == Value(b[0], b[1..])
  {
  }

  /** The fast path computes what the slow one would. */
  lemma FastPathAgrees(b: seq<byte>)
    requires |b| >= 3 && b[0] < 128 && b[1] < 128 && b[2] < 128
    ensures SlowHeader(b) == Just(Header(b[0], b[1], b[2], 3))
  {
    hide ParseVarint32;
    OneByte(b);
    OneByte(b[1..]);
    OneByte(b[1..][1..]);
    assert |b| - |b[1..][1..][1..]| == 3;
  }

  lemma SlowHeaderOfItem(x: Item, rest: seq<byte>)
    requires Small(x)
    ensures SlowHeader(ItemHeader(x) + rest) == Just(Header(x.shared, |Delta(x)|, |x.pair.value|, |ItemHeader(x)|))
  {
    hide EncodeVarint, ParseVarint32, Delta;
    assert |Delta(x)| <= |x.pair.key| by { DeltaLength(x); }
    var a, b, c := EncodeVarint(x.shared), EncodeVarint(|Delta(x)|), EncodeVarint(|x.pair.value|);
    assert a + b + c + rest == a + (b + (c + rest));
    Varint32RoundTrip(x.shared, b + (c + rest));
    Varint32RoundTrip(|Delta(x)|, c + rest);
    Varint32RoundTrip(|x.pair.value|, rest);
  }

  lemma DeltaLength(x: Item)
    requires x.shared <= |x.pair.key|
    ensures |Delta(x)| == |x.pair.key| - x.shared
  {
  }

  /** A stored entry is decoded, whatever follows it. */
  lemma DecodeWritten(x: Item, rest: seq<byte>)
    requires Small(x)
    ensures DecodeEntry(ItemBytes(x) + rest) == Just(Header(x.shared, |Delta(x)|, |x.pair.value|, |ItemHeader(x)|))
  {
    hide SlowHeader, ItemHeader, Delta;
    var b := ItemBytes(x) + rest;
    assert b == ItemHeader(x) + (Delta(x) + x.pair.value + rest);
    SlowHeaderOfItem(x, Delta(x) + x.pair.value + rest);
    DeltaLength(x);
    HeaderLength(x);
    if b[0] < 128 && b[1] < 128 && b[2] < 128 { FastPathAgrees(b); }
  }

  lemma HeaderLength(x: Item)
    ensures |ItemHeader(x)| >= 3 && |ItemBytes(x)| >= 3
  {
    hide EncodeVarint, Delta;
  }

  // ---- all entries ----

  function Bytes(items: seq<Item>): seq<byte> {
    if items == [] then [] else Bytes(items[..|items| - 1]) + ItemBytes(items[|items| - 1])
  }

  function Offset(items: seq<Item>, i: nat): nat
    requires i <= |items|
  {
    |Bytes(items[..i])|
  }

  /** Entry i shares what it says with the key before it. */
  predicate Links(items: seq<Item>, i: nat)
    requires i < |items|
  {
    && items[i].shared <= |Key(items, i)|
    && if i == 0 then items[i].shared == 0
       else
         && items[i].shared <= |Key(items, i - 1)|
         && Key(items, i - 1)[..items[i].shared] == Key(items, i)[..items[i].shared]
  }

  ghost predicate Chained(items: seq<Item>) {
    forall i :: 0 <= i < |items| ==> Links(items, i)
  }

  lemma {:induction false} BytesJoin(a: seq<Item>, b: seq<Item>)
    ensures Bytes(a + b) == Bytes(a) + Bytes(b)
    decreases |b|
  {
    hide ItemBytes;
    if b == [] {
      assert a + b == a;
    } else {
      var n := |b| - 1;
      assert (a + b)[..|a + b| - 1] == a + b[..n];
      BytesJoin(a, b[..n]);
    }
  }

  lemma BytesSnoc(items: seq<Item>, x: Item)
    ensures Bytes(items + [x]) == Bytes(items) + ItemBytes(x)
  {
    hide ItemBytes;
    assert (items + [x])[..|items|] == items;
  }

  /** The bytes from entry i on begin with that entry. */
  lemma BytesFrom(items: seq<Item>, i: nat)
    requires i < |items|
    ensures Offset(items, i) + |ItemBytes(items[i])| == Offset(items, i + 1) <= |Bytes(items)|
    ensures Bytes(items)[Offset(items, i)..] == ItemBytes(items[i]) + Bytes(items[i + 1..])
  {
    hide ItemBytes, Bytes;
    var front, rest := items[..i], items[i + 1..];
    assert items == front + ([items[i]] + rest);
    BytesJoin(front, [items[i]] + rest);
    BytesJoin([items[i]], rest);
    BytesOfOne(items[i]);
    BytesJoin(front, [items[i]]);
    assert items[..i + 1] == front + [items[i]];
  }

  lemma BytesOfOne(x: Item)
    ensures Bytes([x]) == ItemBytes(x)
  {
    hide ItemBytes;
    assert [x][..0] == [];
  }

  lemma OffsetEnds(items: seq<Item>)
    ensures Offset(items, 0) == 0 && Offset(items, |items|) == |Bytes(items)|
  {
    assert items[..0] == [] && items[..|items|] == items;
  }

  lemma {:induction false} OffsetsGrow(items: seq<Item>, i: nat, j: nat)
    requires i < j <= |items|
    ensures Offset(items, i) + 3 <= Offset(items, j)
  {
    hide ItemBytes, Bytes;
    if i + 1 < j { OffsetsGrow(items, i, j - 1); }
    BytesFrom(items, j - 1);
    HeaderLength(items[j - 1]);
  }

  lemma OffsetOrder(items: seq<Item>, i: nat, j: nat)
    requires i <= |items| && j <= |items|
    ensures Offset(items, i) < Offset(items, j) <==> i < j
    ensures Offset(items, i) == Offset(items, j) <==> i == j
  {
    hide Offset;
    if i < j { OffsetsGrow(items, i, j); }
    if j < i { OffsetsGrow(items, j, i); }
  }

  lemma OffsetOfMore(items: seq<Item>, x: Item, i: nat)
    requires i <= |items|
    ensures Offset(items + [x], i) == Offset(items, i)
  {
    assert (items + [x])[..i] == items[..i];
  }

  // ---- restart points ----

  function RestartBytes(offsets: seq<nat>): seq<byte> {
    if offsets == [] then []
    else RestartBytes(offsets[..|offsets| - 1]) + EncodeFixed32(offsets[|offsets| - 1] % TWO_32)
  }

  lemma {:induction false} RestartLength(offsets: seq<nat>)
    ensures |RestartBytes(offsets)| == 4 * |offsets|
  {
    hide EncodeFixed32;
    if offsets != [] { RestartLength(offsets[..|offsets| - 1]); }
  }

  lemma {:induction false} RestartAt(offsets: seq<nat>, j: nat)
    requires j < |offsets| && offsets[j] < TWO_32
    ensures |RestartBytes(offsets)| == 4 * |offsets|
    ensures DecodeFixed32(RestartBytes(offsets)[4 * j..4 * j + 4]) == offsets[j]
  {
    hide EncodeFixed32, DecodeFixed32;
    var n := |offsets| - 1;
    RestartLength(offsets);
    RestartLength(offsets[..n]);
    var front, last := RestartBytes(offsets[..n]), EncodeFixed32(offsets[n] % TWO_32);
    if j == n {
      assert (front + last)[4 * n..4 * n + 4] == last;
      DecodeEncodeFixed32(offsets[n]);
    } else {
      RestartAt(offsets[..n], j);
      assert (front + last)[4 * j..4 * j + 4] == front[4 * j..4 * j + 4];
    }
  }

  function OffsetsOf(items: seq<Item>, starts: seq<nat>): (r: seq<nat>)
    requires forall j :: 0 <= j < |starts| ==> starts[j] <= |items|
    ensures |r| == |starts| && forall j :: 0 <= j < |starts| ==> r[j] == Offset(items, starts[j])
  {
    seq(|starts|, j requires 0 <= j < |starts| => Offset(items, starts[j]))
  }

  /** Restart points begin with the first entry, go up, and share nothing. */
  ghost predicate StartsOk(items: seq<Item>, starts: seq<nat>) {
    && starts != [] && starts[0] == 0
    && (forall j :: 0 <= j < |starts| ==> starts[j] <= |items| && (items != [] ==> starts[j] < |items|))
    && (forall i, j :: 0 <= i < j < |starts| ==> starts[i] < starts[j])
    && (forall j :: 0 <= j < |starts| && starts[j] < |items| ==> items[starts[j]].shared == 0)
  }

  function BlockBytes(items: seq<Item>, offsets: seq<nat>): seq<byte> {
    Bytes(items) + RestartBytes(offsets) + EncodeFixed32(|offsets| % TWO_32)
  }

  /** A finished block. */
  ghost predicate IsBlock(data: seq<byte>, items: seq<Item>, starts: seq<nat>) {
    && Chained(items) && (forall i :: 0 <= i < |items| ==> Small(items[i]))
    && StartsOk(items, starts)
    && |data| < TWO_32 && data == BlockBytes(items, OffsetsOf(items, starts))
  }

  lemma BlockParts(data: seq<byte>, items: seq<Item>, starts: seq<nat>)
    requires IsBlock(data, items, starts)
    ensures var n, r := |starts|, |Bytes(items)|;
      && |data| == r + 4 * n + 4 && data[..r] == Bytes(items)
      && DecodeFixed32(data[|data| - 4..]) == n
      && forall j :: 0 <= j < n ==> DecodeFixed32(data[r + 4 * j..r + 4 * j + 4]) == Offset(items, starts[j])
  {
    hide Bytes, RestartBytes, EncodeFixed32, DecodeFixed32, Chained, Small, Offset;
    var n, r, offsets := |starts|, |Bytes(items)|, OffsetsOf(items, starts);
    var tail := EncodeFixed32(n % TWO_32);
    RestartLength(offsets);
    assert data == Bytes(items) + (RestartBytes(offsets) + tail);
    assert data[|data| - 4..] == tail;
    DecodeEncodeFixed32(n);
    forall j | 0 <= j < n ensures DecodeFixed32(data[r + 4 * j..r + 4 * j + 4]) == Offset(items, starts[j]) {
      OffsetWithin(items, starts[j]);
      RestartAt(offsets, j);
      assert data[r + 4 * j..r + 4 * j + 4] == RestartBytes(offsets)[4 * j..4 * j + 4];
    }
  }

  lemma OffsetWithin(items: seq<Item>, i: nat)
    requires i <= |items|
    ensures Offset(items, i) <= |Bytes(items)|
  {
    hide Bytes;
    OffsetEnds(items);
    OffsetOrder(items, i, |items|);
  }
}
