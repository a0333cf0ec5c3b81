/** Blocks in a table file: handles, trailers, and reading one back. */
module TableFormat {
  import opened Coding
  import opened BlockFormat
  import LogFormat

  type Checksum = LogFormat.Checksum

  const TRAILER_SIZE: nat := 5
  const NO_COMPRESSION: byte := 0

  datatype Handle = Handle(offset: nat, size: nat)

  function EncodeHandle(h: Handle): seq<byte> {
    EncodeVarint(h.offset) + EncodeVarint(h.size)
  }

  function DecodeHandle(input: seq<byte>): Maybe<Handle> {
    match ParseVarint64(input)
    case Malformed => Nothing
    case Value(offset, rest) =>
      match ParseVarint64(rest)
      case Malformed => Nothing
      case Value(size, _) => Just(Handle(offset, size))
  }

  lemma HandleRoundTrip(h: Handle, rest: seq<byte>)
    requires h.offset < TWO_64 && h.size < TWO_64
    ensures DecodeHandle(EncodeHandle(h) + rest) == Just(h)
  {
    hide EncodeVarint, ParseVarint64;
    assert EncodeHandle(h) + rest == EncodeVarint(h.offset) + (EncodeVarint(h.size) + rest);
    Varint64RoundTrip(h.offset, EncodeVarint(h.size) + rest);
    Varint64RoundTrip(h.size, rest);
  }

  /** WriteRawBlock: contents, type and checksum. */
  function RawBlock(crc: Checksum, contents: seq<byte>): (r: seq<byte>)
    ensures |r| == |contents| + TRAILER_SIZE
  {
    contents + [NO_COMPRESSION] + EncodeFixed32(LogFormat.Mask(crc(contents + [NO_COMPRESSION])))
  }

  /** The contents are stored where the handle says. */
  ghost predicate StoredAt(crc: Checksum, file: seq<byte>, h: Handle, contents: seq<byte>) {
    && h.size == |contents| && h.offset + h.size + TRAILER_SIZE <= |file|
    && file[h.offset..h.offset + h.size + TRAILER_SIZE] == RawBlock(crc, contents)
  }

  /** ReadBlock, for uncompressed blocks. */
  function ReadBlock(crc: Checksum, verify: bool, file: seq<byte>, h: Handle): Maybe<seq<byte>> {
    if h.offset + h.size + TRAILER_SIZE > |file| then Nothing
    else
      var data := file[h.offset..h.offset + h.size + TRAILER_SIZE];
      var n := h.size;
      if verify && LogFormat.Unmask(DecodeFixed32(data[n + 1..n + 5])) != crc(data[..n + 1]) then Nothing
      else if data[n] == NO_COMPRESSION then Just(data[..n])
      else Nothing
  }

  lemma StoredIsRead(crc: Checksum, verify: bool, file: seq<byte>, h: Handle, contents: seq<byte>)
    requires StoredAt(crc, file, h, contents)
    ensures ReadBlock(crc, verify, file, h) == Just(contents)
  {
    hide EncodeFixed32, DecodeFixed32, LogFormat.Mask, LogFormat.Unmask;
    var n, data := |contents|, RawBlock(crc, contents);
    var sum := crc(contents + [NO_COMPRESSION]);
    assert data[..n + 1] == contents + [NO_COMPRESSION] && data[..n] == contents;
    assert data[n + 1..n + 5] == EncodeFixed32(LogFormat.Mask(sum));
    DecodeEncodeFixed32(LogFormat.Mask(sum));
    LogFormat.UnmaskMask(sum);
  }

  /** A block is read exactly if it is in the file without compression and, when
      that is asked for, its checksum is that of the contents and the type. */
  lemma ReadExactly(crc: Checksum, verify: bool, file: seq<byte>, h: Handle, contents: seq<byte>)
    ensures ReadBlock(crc, verify, file, h) == Just(contents) <==>
      && var o, e := h.offset, h.offset + h.size;
      && e + 5 <= |file| && contents == file[o..e] && file[e] == 0
      && (verify ==> LogFormat.Unmask(DecodeFixed32(file[e + 1..e + 5])) == crc(file[o..e + 1]))
  {
    hide DecodeFixed32, LogFormat.Unmask;
    var o, e := h.offset, h.offset + h.size;
    if e + 5 <= |file| {
      var data := file[o..e + 5];
      assert data[h.size + 1..h.size + 5] == file[e + 1..e + 5];
      assert data[..h.size + 1] == file[o..e + 1] && data[..h.size] == file[o..e] && data[h.size] == file[e];
    }
  }

  /** What is appended later does not disturb a block. */
  lemma StillStored(crc: Checksum, file: seq<byte>, more: seq<byte>, h: Handle, contents: seq<byte>)
    requires StoredAt(crc, file, h, contents)
    ensures StoredAt(crc, file + more, h, contents)
  {
    var e := h.offset + h.size + TRAILER_SIZE;
    assert (file + more)[h.offset..e] == file[h.offset..e];
  }

  lemma NewlyStored(crc: Checksum, file: seq<byte>, contents: seq<byte>)
    ensures StoredAt(crc, file + RawBlock(crc, contents), Handle(|file|, |contents|), contents)
  {
    hide RawBlock;
    var r := RawBlock(crc, contents);
    assert (file + r)[|file|..|file| + |r|] == r;
  }

  // ---- block sizes bound everything in a block ----

  /** No key is longer than the bytes that lead up to it. */
  lemma {:induction false} KeysFitBlock(items: seq<Item>, i: nat)
    requires Chained(items) && i < |items|
    ensures |Key(items, i)| + |items[i].pair.value| <= Offset(items, i + 1)
  {
    hide Bytes, ItemHeader;
    BytesFrom(items, i);
    assert Links(items, i);
    DeltaLength(items[i]);
    if i > 0 { KeysFitBlock(items, i - 1); }
  }

  lemma SmallBlock(items: seq<Item>)
    requires Chained(items) && |Bytes(items)| < TWO_32
    ensures forall i :: 0 <= i < |items| ==> Small(items[i])
  {
    hide Bytes, Offset;
    forall i | 0 <= i < |items| ensures Small(items[i]) {
      KeysFitBlock(items, i);
      OffsetWithin(items, i + 1);
      assert Links(items, i);
    }
  }

  /** A block in the file, and what is in it. */
  datatype TableBlock = TableBlock(handle: Handle, items: seq<Item>, starts: seq<nat>)

  ghost predicate BlockFits(crc: Checksum, file: seq<byte>, b: TableBlock) {
    && Chained(b.items) && StartsOk(b.items, b.starts)
    && StoredAt(crc, file, b.handle, BlockBytes(b.items, OffsetsOf(b.items, b.starts)))
  }

  lemma BlockStillFits(crc: Checksum, file: seq<byte>, more: seq<byte>, b: TableBlock)
    requires BlockFits(crc, file, b)
    ensures BlockFits(crc, file + more, b)
  {
    hide Chained, StoredAt, BlockBytes;
    StillStored(crc, file, more, b.handle, BlockBytes(b.items, OffsetsOf(b.items, b.starts)));
  }

  /** Reading such a block gives a well-formed one. */
  lemma BlockIsRead(crc: Checksum, verify: bool, file: seq<byte>, b: TableBlock)
    requires BlockFits(crc, file, b) && b.handle.size < TWO_32
    ensures ReadBlock(crc, verify, file, b.handle).Just?
    ensures IsBlock(ReadBlock(crc, verify, file, b.handle).value, b.items, b.starts)
  {
    hide Chained, Bytes, EncodeFixed32, RestartBytes, ReadBlock;
    StoredIsRead(crc, verify, file, b.handle, BlockBytes(b.items, OffsetsOf(b.items, b.starts)));
    SmallBlock(b.items);
  }

  // ---- the footer ----

  const HANDLE_MAX: nat := 20
  const FOOTER_SIZE: nat := 48
  const MAGIC: uint64 := 0xdb47_7524_8b80_fb57

  datatype Footer = Footer(metaindex: Handle, index: Handle)

  function Zeros(n: nat): (r: seq<byte>)
    ensures |r| == n
  {
    seq(n, i => 0)
  }

  function EncodeFooter(f: Footer): seq<byte> {
    var handles := EncodeHandle(f.metaindex) + EncodeHandle(f.index);
    var padded := if |handles| <= 2 * HANDLE_MAX then handles + Zeros(2 * HANDLE_MAX - |handles|)
        else handles[..2 * HANDLE_MAX];
    padded + EncodeFixed32(MAGIC % TWO_32) + EncodeFixed32(MAGIC / TWO_32)
  }

  function DecodeFooter(input: seq<byte>): Maybe<Footer>
    requires |input| == FOOTER_SIZE
  {
    if DecodeFixed32(input[40..44]) != MAGIC % TWO_32 || DecodeFixed32(input[44..48]) != MAGIC / TWO_32 then Nothing
    else
      match ParseVarint64(input)
      case Malformed => Nothing
      case Value(o1, r1) =>
        match ParseVarint64(r1)
        case Malformed => Nothing
        case Value(s1, r2) =>
          match DecodeHandle(r2)
          case Nothing => Nothing
          case Just(index) => Just(Footer(Handle(o1, s1), index))
  }

  predicate Wide(h: Handle) {
    h.offset < TWO_64 && h.size < TWO_64
  }

  lemma FooterRoundTrip(f: Footer)
    requires Wide(f.metaindex) && Wide(f.index)
    ensures |EncodeFooter(f)| == FOOTER_SIZE && DecodeFooter(EncodeFooter(f)) == Just(f)
  {
    hide EncodeVarint, ParseVarint64, EncodeFixed32, DecodeFixed32, DecodeHandle;
    Varint64Length(f.metaindex.offset);
    Varint64Length(f.metaindex.size);
    Varint64Length(f.index.offset);
    Varint64Length(f.index.size);
    var a, b, c := EncodeVarint(f.metaindex.offset), EncodeVarint(f.metaindex.size), EncodeHandle(f.index);
    var handles := EncodeHandle(f.metaindex) + c;
    assert |handles| <= 2 * HANDLE_MAX;
    var rest := Zeros(2 * HANDLE_MAX - |handles|) + EncodeFixed32(MAGIC % TWO_32) + EncodeFixed32(MAGIC / TWO_32);
    var all := EncodeFooter(f);
    assert all == a + (b + (c + rest));
    assert all[40..44] == EncodeFixed32(MAGIC % TWO_32) && all[44..48] == EncodeFixed32(MAGIC / TWO_32);
    DecodeEncodeFixed32(MAGIC % TWO_32);
    DecodeEncodeFixed32(MAGIC / TWO_32);
    Varint64RoundTrip(f.metaindex.offset, b + (c + rest));
    Varint64RoundTrip(f.metaindex.size, c + rest);
    HandleRoundTrip(f.index, rest);
  }

  /** 48 bytes, the last 8 of them the magic number. */
  lemma KnownFooter(f: Footer)
    ensures |EncodeFooter(f)| == 48
    ensures EncodeFooter(f)[40..] == [0x57, 0xfb, 0x80, 0x8b, 0x24, 0x75, 0x47, 0xdb]
  {
    hide EncodeHandle;
    assert EncodeFixed32(MAGIC % TWO_32) == [0x57, 0xfb, 0x80, 0x8b];
    assert EncodeFixed32(MAGIC / TWO_32) == [0x24, 0x75, 0x47, 0xdb];
  }

  /** Without it nothing is taken for a footer. */
  lemma FooterNeedsMagic(input: seq<byte>)
    requires |input| == 48 && DecodeFooter(input).Just?
    ensures input[40..] == [0x57, 0xfb, 0x80, 0x8b, 0x24, 0x75, 0x47, 0xdb]
  {
    hide ParseVarint64, DecodeHandle;
    FixedBytes(input[40..44], [0x57, 0xfb, 0x80, 0x8b]);
    FixedBytes(input[44..48], [0x24, 0x75, 0x47, 0xdb]);
    assert input[40..] == input[40..44] + input[44..48];
  }

  /** Little-endian numbers are equal only if their bytes are. */
  lemma FixedBytes(a: seq<byte>, b: seq<byte>)
    requires |a| == |b| == 4 && DecodeFixed32(a) == DecodeFixed32(b)
    ensures a == b
  {
    var x, y := a[0] as int + 256 * a[1] as int, b[0] as int + 256 * b[1] as int;
    var p, q := a[2] as int + 256 * a[3] as int, b[2] as int + 256 * b[3] as int;
    assert x + 65536 * p == y + 65536 * q;
    assert 0 <= x < 65536 && 0 <= y < 65536;
    assert x == y && p == q;
  }
}
