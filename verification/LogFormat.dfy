/** The write-ahead log: records cut into fragments that never cross a 32 KiB
    block boundary. */
module LogFormat {
  import opened Coding

  const ZERO_TYPE: byte := 0
  const FULL_TYPE: byte := 1
  const FIRST_TYPE: byte := 2
  const MIDDLE_TYPE: byte := 3
  const LAST_TYPE: byte := 4

  const BLOCK_SIZE: nat := 32768

  // Checksum (4 bytes), length (2 bytes), type (1 byte).
  const HEADER_SIZE: nat := 7

  // The checksum of a byte string; nothing depends on which function it is.
  type Checksum = seq<byte> -> uint32

  const MASK_DELTA: uint32 := 0xa282ead8

  /** Stored checksums are rotated right by 15 bits and shifted by a constant. */
  function Mask(crc: uint32): uint32 {
    (crc / 0x8000 + crc % 0x8000 * 0x2_0000 + MASK_DELTA) % 0x1_0000_0000
  }

  function Unmask(masked: uint32): uint32 {
    var rot := (masked - MASK_DELTA) % 0x1_0000_0000;
    rot / 0x2_0000 + rot % 0x2_0000 * 0x8000
  }

  lemma RotateBack(hi: nat, lo: nat)
    requires hi < 0x2_0000 && lo < 0x8000
    ensures (hi + lo * 0x2_0000) / 0x2_0000 == lo && (hi + lo * 0x2_0000) % 0x2_0000 == hi
  {
  }

  lemma ShiftBack(rot: uint32)
    ensures ((rot + MASK_DELTA) % 0x1_0000_0000 - MASK_DELTA) % 0x1_0000_0000 == rot
  {
    if rot + MASK_DELTA < 0x1_0000_0000 {
    } else {
      assert (rot + MASK_DELTA) % 0x1_0000_0000 == rot + MASK_DELTA - 0x1_0000_0000;
    }
  }

  lemma UnmaskMask(crc: uint32)
    ensures Unmask(Mask(crc)) == crc
  {
    var hi, lo := crc / 0x8000, crc % 0x8000;
    RotateBack(hi, lo);
    ShiftBack(hi + lo * 0x2_0000);
  }

  function Header(crc: Checksum, t: byte, payload: seq<byte>): (r: seq<byte>)
    requires |payload| < 0x1_0000
    ensures |r| == HEADER_SIZE
  {
    EncodeFixed32(Mask(crc([t] + payload))) + [|payload| % 256, |payload| / 256, t]
  }

  function PhysicalRecord(crc: Checksum, t: byte, payload: seq<byte>): (r: seq<byte>)
    requires |payload| < 0x1_0000
    ensures |r| == HEADER_SIZE + |payload|
  {
    Header(crc, t, payload) + payload
  }

  /** Zero bytes that fill a block too short for a header. */
  function Trailer(offset: nat): (r: seq<byte>)
    requires offset <= BLOCK_SIZE
    ensures |r| < HEADER_SIZE
    ensures |r| == if BLOCK_SIZE - offset < HEADER_SIZE then BLOCK_SIZE - offset else 0
  {
    if BLOCK_SIZE - offset < HEADER_SIZE then seq(BLOCK_SIZE - offset, i => 0) else []
  }

  function StartOffset(offset: nat): (r: nat)
    requires offset <= BLOCK_SIZE
    ensures r + HEADER_SIZE <= BLOCK_SIZE
  {
    if BLOCK_SIZE - offset < HEADER_SIZE then 0 else offset
  }

  /** How much of a record fits behind a header placed at `offset`. */
  function FragmentLength(offset: nat, left: nat): (n: nat)
    requires offset + HEADER_SIZE <= BLOCK_SIZE
    ensures n <= left && offset + HEADER_SIZE + n <= BLOCK_SIZE
    ensures n < left ==> offset + HEADER_SIZE + n == BLOCK_SIZE
  {
    var avail := BLOCK_SIZE - offset - HEADER_SIZE;
    if left < avail then left else avail
  }

  function FragmentType(begin: bool, end: bool): byte {
    if begin && end then FULL_TYPE else if begin then FIRST_TYPE else if end then LAST_TYPE else MIDDLE_TYPE
  }

  /** The bytes a record takes when writing resumes at `offset` of a block.
      A first fragment of length zero, at the very end of a block, is the one
      that makes no progress. */
  function Fragments(crc: Checksum, offset: nat, data: seq<byte>, begin: bool): seq<byte>
    requires offset <= BLOCK_SIZE
    decreases |data|, if offset == BLOCK_SIZE - HEADER_SIZE then 1 else 0
  {
    var start := StartOffset(offset);
    var n := FragmentLength(start, |data|);
    var here := Trailer(offset) + PhysicalRecord(crc, FragmentType(begin, n == |data|), data[..n]);
    if n == |data| then here else here + Fragments(crc, start + HEADER_SIZE + n, data[n..], false)
  }

  /** Emitting one fragment brings the file closer to what it is to be. */
  lemma EmitOne(crc: Checksum, file: seq<byte>, offset: nat, data: seq<byte>, begin: bool)
    requires offset <= BLOCK_SIZE
    ensures var start := StartOffset(offset);
      var n := FragmentLength(start, |data|);
      var more := file + Trailer(offset) + PhysicalRecord(crc, FragmentType(begin, n == |data|), data[..n]);
      file + Fragments(crc, offset, data, begin)
        == more + if n == |data| then [] else Fragments(crc, start + HEADER_SIZE + n, data[n..], false)
  {
    hide PhysicalRecord, Trailer;
    var start := StartOffset(offset);
    var n := FragmentLength(start, |data|);
    var trailer, payload := Trailer(offset), PhysicalRecord(crc, FragmentType(begin, n == |data|), data[..n]);
    if n < |data| {
      var rest := Fragments(crc, start + HEADER_SIZE + n, data[n..], false);
      assert file + (trailer + payload + rest) == (file + trailer + payload) + rest;
    } else {
      assert file + (trailer + payload) == (file + trailer + payload) + [];
    }
  }

  lemma FragmentsAtBlockEnd(crc: Checksum, data: seq<byte>, begin: bool)
    ensures Fragments(crc, BLOCK_SIZE, data, begin) == Fragments(crc, 0, data, begin)
  {
  }

  /** The log file that holds exactly `records`. */
  function Image(crc: Checksum, records: seq<seq<byte>>): seq<byte> {
    if records == [] then []
    else
      var before := Image(crc, records[..|records| - 1]);
      before + Fragments(crc, |before| % BLOCK_SIZE, records[|records| - 1], true)
  }
}

/** class log::Writer. */
module LogWriter {
  import opened Coding
  import opened LogFormat

  lemma SameOffset(a: nat, b: nat, n: nat)
    requires a % BLOCK_SIZE == b % BLOCK_SIZE
    ensures (a + n) % BLOCK_SIZE == (b + n) % BLOCK_SIZE
  {
  }

  class Writer {
    const crc: Checksum
    var dest: seq<byte>            // the file, written by appending
    var blockOffset: nat

    ghost predicate Valid()
      reads this
    {
      blockOffset <= BLOCK_SIZE && blockOffset % BLOCK_SIZE == |dest| % BLOCK_SIZE
    }

    constructor (checksum: Checksum)
      ensures Valid() && dest == [] && crc == checksum
    {
      crc, dest, blockOffset := checksum, [], 0;
    }

    method EmitPhysicalRecord(t: byte, payload: seq<byte>)
      requires Valid() && blockOffset + HEADER_SIZE + |payload| <= BLOCK_SIZE
      modifies this
      ensures Valid() && blockOffset == old(blockOffset) + HEADER_SIZE + |payload|
      ensures dest == old(dest) + PhysicalRecord(crc, t, payload)
    {
      hide Mask, EncodeFixed32;
      SameOffset(blockOffset, |dest|, HEADER_SIZE + |payload|);
      var length := |payload|;
      var buf: seq<byte> := EncodeFixed32(Mask(crc([t] + payload))) + [length % 256, length / 256, t];
      dest := dest + buf;
      dest := dest + payload;
      blockOffset := blockOffset + HEADER_SIZE + length;
    }

    /** Fills up a block that has no room for a header. */
    method FinishBlock()
      requires Valid()
      modifies this
      ensures Valid() && dest == old(dest) + Trailer(old(blockOffset)) && blockOffset == StartOffset(old(blockOffset))
    {
      SameOffset(blockOffset, |dest|, |Trailer(blockOffset)|);
      var leftover := BLOCK_SIZE - blockOffset;
      if leftover < HEADER_SIZE {
        if leftover > 0 {
          dest := dest + seq(leftover, i => 0);
        }
        blockOffset := 0;
      }
    }

    method AddRecord(record: seq<byte>)
      requires Valid()
      modifies this
      ensures Valid() && dest == old(dest) + Fragments(crc, |old(dest)| % BLOCK_SIZE, record, true)
    {
      hide Fragments, PhysicalRecord, Trailer;
      var left := record;
      var begin := true;
      ghost var all := dest + Fragments(crc, blockOffset, record, true);
      FragmentsAtBlockEnd(crc, record, true);
      while true
        invariant Valid() && (left == [] ==> begin)
        invariant dest + Fragments(crc, blockOffset, left, begin) == all
        decreases |left|, if blockOffset == BLOCK_SIZE - HEADER_SIZE then 1 else 0
      {
        EmitOne(crc, dest, blockOffset, left, begin);
        FinishBlock();
        var avail := BLOCK_SIZE - blockOffset - HEADER_SIZE;
        var fragmentLength := if |left| < avail then |left| else avail;
        var end := |left| == fragmentLength;
        var t := if begin && end then FULL_TYPE else if begin then FIRST_TYPE else if end then LAST_TYPE
            else MIDDLE_TYPE;
        EmitPhysicalRecord(t, left[..fragmentLength]);
        left := left[fragmentLength..];
        begin := false;
        if |left| == 0 { break; }
      }
    }
  }
}
