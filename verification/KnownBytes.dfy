/** Known contents and the bytes that stand for them, in each of the formats. */
module KnownBytes {
  import opened Coding
  import LogFormat
  import WriteBatches
  import EditCoding
  import BlockFormat
  import FilterBlocks
  import TableFormat
  import InternalKeys
  import GroupCommit

  lemma Numbers()
    ensures EncodeFixed32(0x0102_0304) == [4, 3, 2, 1]
    ensures EncodeFixed64(0x0102_0304_0506_0708) == [8, 7, 6, 5, 4, 3, 2, 1]
    ensures EncodeVarint(127) == [0x7f] && EncodeVarint(128) == [0x80, 0x01] && EncodeVarint(300) == [0xac, 0x02]
    ensures LengthPrefixed([97, 98]) == [2, 97, 98]
  {
    assert EncodeVarint(1) == [1] && EncodeVarint(2) == [2];
  }

  /** Stored checksums. */
  lemma Masks()
    ensures LogFormat.Mask(0) == 0xa282_ead8 && LogFormat.Mask(0x8000) == 0xa282_ead9
    ensures LogFormat.Mask(1) == 0xa284_ead8 && LogFormat.Mask(0xffff_ffff) == 0xa282_ead7
  {
  }

  /** A whole record of one byte. */
  lemma LogRecord(crc: LogFormat.Checksum)
    ensures LogFormat.Fragments(crc, 0, [97], true)
         == EncodeFixed32(LogFormat.Mask(crc([1, 97]))) + [1, 0, 1, 97]
  {
    hide EncodeFixed32, LogFormat.Mask;
    assert [97][..1] == [97] && [1] + [97] == [1, 97];
    assert LogFormat.Trailer(0) == [];
  }

  /** Where the blocks end: 7 bytes still take a header, 6 do not. */
  lemma LogBlocks(crc: LogFormat.Checksum)
    ensures LogFormat.Fragments(crc, 32768 - 7, [97], true)
         == LogFormat.PhysicalRecord(crc, 2, []) + LogFormat.PhysicalRecord(crc, 4, [97])
    ensures LogFormat.Fragments(crc, 32768 - 6, [97], true)
         == [0, 0, 0, 0, 0, 0] + LogFormat.PhysicalRecord(crc, 1, [97])
  {
    hide LogFormat.PhysicalRecord;
    assert [97][..0] == [] && [97][0..] == [97] && [97][..1] == [97];
    LogFormat.FragmentsAtBlockEnd(crc, [97], false);
    assert LogFormat.Fragments(crc, 0, [97], false) == [] + LogFormat.PhysicalRecord(crc, 4, [97]);
    assert LogFormat.Trailer(32768 - 6) == [0, 0, 0, 0, 0, 0];
  }

  /** A batch from number 5 on, with an insertion and a deletion. */
  lemma Batch()
    ensures WriteBatches.Contents(5, 2, [WriteBatches.Put([107], [118]), WriteBatches.Delete([107])])
         == [5, 0, 0, 0, 0, 0, 0, 0, 2, 0, 0, 0, 1, 1, 107, 1, 118, 0, 1, 107]
  {
    hide WriteBatches.RecordOf, EncodeFixed64, EncodeFixed32;
    var put, del := WriteBatches.Put([107], [118]), WriteBatches.Delete([107]);
    BatchParts();
    assert [put, del][1..] == [del] && [del][1..] == [];
    assert WriteBatches.Records([del]) == [0, 1, 107] + WriteBatches.Records([]);
  }

  lemma BatchParts()
    ensures WriteBatches.RecordOf(WriteBatches.Put([107], [118])) == [1, 1, 107, 1, 118]
    ensures WriteBatches.RecordOf(WriteBatches.Delete([107])) == [0, 1, 107]
    ensures EncodeFixed64(5) == [5, 0, 0, 0, 0, 0, 0, 0] && EncodeFixed32(2) == [2, 0, 0, 0]
  {
  }

  /** A file that was added. */
  lemma NewFileField()
    ensures EditCoding.EncodeField(EditCoding.NewFile(6, EditCoding.TableFile(8, 9, [97], [98])))
         == [7, 6, 8, 9, 1, 97, 1, 98]
  {
    hide EncodeVarint;
    SmallNumbers();
    assert LengthPrefixed([97]) == [1, 97] && LengthPrefixed([98]) == [1, 98];
  }

  /** A record with one field of each kind, in the order of the code. */
  lemma EditOrder(e: EditCoding.Edit)
    requires e.comparator == Just([99]) && e.logNumber == Just(8) && e.prevLogNumber == Just(9)
    requires e.nextFileNumber == Just(10) && e.lastSequence == Just(11)
    requires e.compactPointers == [(6, [107])] && e.deleted == [(5, 12)] && e.newFiles == []
    ensures EditCoding.Encoded(e) == [1, 1, 99, 2, 8, 9, 9, 3, 10, 4, 11, 5, 6, 1, 107, 6, 5, 12]
  {
    hide EditCoding.EncodeField, EditCoding.EncodeFields;
    var a, b, c, d, p := EditCoding.Comparator([99]), EditCoding.LogNumber(8), EditCoding.PrevLogNumber(9),
      EditCoding.NextFileNumber(10), EditCoding.LastSequence(11);
    var q, r := EditCoding.CompactPointer(6, [107]), EditCoding.DeletedFile(5, 12);
    assert EditCoding.FieldsOf(e) == [a, b, c, d, p, q, r];
    SmallFields();
    var all := [a, b, c, d, p, q, r];
    FieldsInTurn(all, 0);
    FieldsInTurn(all, 1);
    FieldsInTurn(all, 2);
    FieldsInTurn(all, 3);
    FieldsInTurn(all, 4);
    FieldsInTurn(all, 5);
    FieldsInTurn(all, 6);
    assert all[..7] == all;
  }

  lemma SmallFields()
    ensures EditCoding.EncodeField(EditCoding.Comparator([99])) == [1, 1, 99]
    ensures EditCoding.EncodeField(EditCoding.LogNumber(8)) == [2, 8]
    ensures EditCoding.EncodeField(EditCoding.PrevLogNumber(9)) == [9, 9]
    ensures EditCoding.EncodeField(EditCoding.NextFileNumber(10)) == [3, 10]
    ensures EditCoding.EncodeField(EditCoding.LastSequence(11)) == [4, 11]
    ensures EditCoding.EncodeField(EditCoding.CompactPointer(6, [107])) == [5, 6, 1, 107]
    ensures EditCoding.EncodeField(EditCoding.DeletedFile(5, 12)) == [6, 5, 12]
  {
    hide EncodeVarint;
    SmallNumbers();
  }

  lemma SmallNumbers()
    ensures forall n :: 0 <= n < 128 ==> EncodeVarint(n) == [n]
  {
  }

  lemma FieldsInTurn(fields: seq<EditCoding.Field>, n: nat)
    requires n < |fields|
    ensures EditCoding.EncodeFields(fields[..n + 1])
         == EditCoding.EncodeFields(fields[..n]) + EditCoding.EncodeField(fields[n])
    ensures EditCoding.EncodeFields(fields[..0]) == []
  {
    hide EditCoding.EncodeField;
    assert fields[..n + 1][..n] == fields[..n];
  }

  /** There are seven levels. */
  lemma Levels(level: nat, rest: seq<byte>)
    requires level < 128
    ensures EditCoding.GetLevel([level] + rest) == if level < 7 then Value(level, rest) else Malformed
  {
    assert EncodeVarint(level) == [level];
    Varint32RoundTrip(level, rest);
  }

  /** An entry of a block that shares one byte with the key before it. */
  lemma BlockEntry()
    ensures BlockFormat.ItemBytes(BlockFormat.Item(1, BlockFormat.Pair([10, 11, 12], [13]))) == [1, 2, 1, 11, 12, 13]
  {
    assert [10, 11, 12][1..] == [11, 12];
  }

  lemma EmptyBlock()
    ensures BlockFormat.BlockBytes([], [0]) == [0, 0, 0, 0, 1, 0, 0, 0]
  {
    assert [0][..0] == [];
    assert BlockFormat.RestartBytes([0]) == BlockFormat.RestartBytes([]) + [0, 0, 0, 0];
  }

  /** Behind a block comes its type, and the checksum of both. */
  lemma BlockTrailer(crc: LogFormat.Checksum)
    ensures TableFormat.RawBlock(crc, [97]) == [97, 0] + EncodeFixed32(LogFormat.Mask(crc([97, 0])))
  {
    hide EncodeFixed32, LogFormat.Mask;
    assert [97] + [0] == [97, 0];
  }

  lemma BlockHandle()
    ensures TableFormat.EncodeHandle(TableFormat.Handle(300, 5)) == [0xac, 0x02, 5]
  {
    Numbers();
    assert EncodeVarint(5) == [5];
  }

  lemma EmptyFilterBlock()
    ensures FilterBlocks.Contents([], []) == [0, 0, 0, 0, 11]
  {
  }

  /** The type is in the lowest byte of an internal key's trailer. */
  lemma Trailers()
    ensures InternalKeys.PackSequenceAndType(5, InternalKeys.TypeValue) == 0x501
    ensures InternalKeys.PackSequenceAndType(5, InternalKeys.TypeDeletion) == 0x500
  {
  }

  /** How large a group of batches may grow: 128 KB more than a small first
      one, or 1 MB. */
  lemma GroupSizes(first: GroupCommit.Request)
    ensures GroupCommit.MaxSize(first) == if first.size <= 131072 then first.size + 131072 else 1048576
  {
  }
}
