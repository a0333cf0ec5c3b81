/** class TableBuilder: sorted pairs in, a table file out. */
module TableBuilders {
  import opened Coding
  import opened ByteOrder
  import opened BlockFormat
  import opened BlockBuilders
  import opened FilterBlocks
  import opened TableFormat
  import opened TableLayouts
  import Blooms
  import LogFormat

  class TableBuilder {
    const crc: Checksum
    const blockSize: nat
    const interval: nat
    const filtered: bool
    const policyName: seq<byte>
    const dataBlock: BlockBuilder
    const indexBlock: BlockBuilder
    const filterBlock: FilterBlockBuilder
    var file: seq<byte>
    var offset: nat
    var lastKey: seq<byte>
    var numEntries: nat
    var closed: bool
    var pendingIndexEntry: bool
    var pendingHandle: Handle
    ghost var added: seq<Pair>
    ghost var blocks: seq<TableBlock>
    ghost var seps: seq<seq<byte>>

    ghost function State(): Built
      reads this, dataBlock, indexBlock
    {
      Built(file, blocks, dataBlock.items, seps, indexBlock.items,
            if pendingIndexEntry then Just(pendingHandle) else Nothing, added)
    }

    /** The builders it uses. */
    ghost predicate Assembled()
      reads this, dataBlock, indexBlock, filterBlock
    {
      && dataBlock != indexBlock && dataBlock.Valid() && indexBlock.Valid() && filterBlock.Valid()
      && !dataBlock.finished && !indexBlock.finished && interval >= 1
    }

    ghost predicate Valid()
      reads this, dataBlock, indexBlock, filterBlock
    {
      && Assembled() && !closed && Ok(crc, State())
      && offset == |file| && numEntries == |added| && (added != [] ==> lastKey == added[|added| - 1].key)
      && (filtered ==> Filed(filterBlock.Filed(), offset, blocks, dataBlock.items))
    }

    constructor (crc: Checksum, policy: Blooms.BloomFilterPolicy, filtered: bool, name: seq<byte>, blockSize: nat,
        interval: nat)
      requires policy.Valid() && interval >= 1
      ensures Valid() && added == [] && this.crc == crc && this.filtered == filtered && policyName == name
      ensures this.blockSize == blockSize && dataBlock.blockRestartInterval == interval
      ensures indexBlock.blockRestartInterval == 1
      ensures fresh(dataBlock) && fresh(indexBlock) && fresh(filterBlock) && filterBlock.policy == policy
    {
      hide Ok, Filed, BlockBuilder.Valid, FilterBlockBuilder.Valid, Keeps;
      this.crc, this.blockSize, this.interval := crc, blockSize, interval;
      this.filtered, policyName := filtered, name;
      dataBlock := new BlockBuilder(interval);
      indexBlock := new BlockBuilder(1);
      filterBlock := new FilterBlockBuilder(policy);
      file, offset, lastKey, numEntries, closed := [], 0, [], 0, false;
      pendingIndexEntry, pendingHandle := false, Handle(0, 0);
      added, blocks, seps := [], [], [];
      new;
      OkStart(crc);
      if filtered {
        filterBlock.StartBlock(0);
        FiledStart(filterBlock.Filed());
      }
    }

    /** The pair joins the open block, which is not full yet. */
    twostate predicate OpenGrew(key: seq<byte>, value: seq<byte>)
      reads this, dataBlock
    {
      && blocks == old(blocks) && |dataBlock.items| == |old(dataBlock.items)| + 1
      && dataBlock.items[..|old(dataBlock.items)|] == old(dataBlock.items)
      && dataBlock.items[|old(dataBlock.items)|].pair == Pair(key, value)
      && |dataBlock.buffer| + 4 * |dataBlock.restarts| + 4 < blockSize
    }

    /** The pair fills the open block. */
    ghost predicate NewBlock(open: seq<Item>, key: seq<byte>, value: seq<byte>, b: TableBlock) {
      && |b.items| == |open| + 1 && b.items[..|open|] == open && b.items[|open|].pair == Pair(key, value)
      && b.handle.size >= blockSize
    }

    method Add(key: seq<byte>, value: seq<byte>)
      requires Valid() && Follows(added, key)
      modifies this, dataBlock, indexBlock, filterBlock
      ensures Valid() && added == old(added) + [Pair(key, value)]
      ensures if |blocks| == |old(blocks)| then OpenGrew(key, value)
        else
          && dataBlock.items == [] && |blocks| == |old(blocks)| + 1 && blocks[..|old(blocks)|] == old(blocks)
          && NewBlock(old(dataBlock.items), key, value, blocks[|old(blocks)|])
    {
      hide Valid, Follows, BlockBuilder.Valid, FilterBlockBuilder.Valid;
      AddPair(key, value);
      var estimatedBlockSize := dataBlock.CurrentSizeEstimate();
      if estimatedBlockSize >= blockSize {
        Flush();
      }
    }

    /** The part of Add before a full block is flushed. */
    method AddPair(key: seq<byte>, value: seq<byte>)
      requires Valid() && Follows(added, key)
      modifies this, dataBlock, indexBlock, filterBlock
      ensures Valid() && added == old(added) + [Pair(key, value)]
      ensures blocks == old(blocks) && |dataBlock.items| == |old(dataBlock.items)| + 1
      ensures dataBlock.items[..|old(dataBlock.items)|] == old(dataBlock.items)
      ensures dataBlock.items[|old(dataBlock.items)|].pair == Pair(key, value)
    {
      hide Ok, Filed, BlockBuilder.Valid, FilterBlockBuilder.Valid, Follows, Separates;
      ghost var before := State();
      ghost var sep, i := [], Item(0, Pair([], []));
      if pendingIndexEntry {
        sep, i := AddIndexEntry(key);
      }
      if filtered {
        filterBlock.AddKey(key);
      }
      lastKey := key;
      numEntries := numEntries + 1;
      ghost var x := AddData(key, value);
      if before.pending.Just? {
        OkAddPending(crc, before, sep, i, x);
      } else {
        OkAdd(crc, before, x);
      }
      if filtered {
        FiledMore(old(filterBlock.groups), old(filterBlock.pending), offset, blocks, before.open, x);
      }
    }

    /** The index entry of the block before is written once the next key is
        known. */
    method AddIndexEntry(key: seq<byte>) returns (ghost sep: seq<byte>, ghost i: Item)
      requires Valid() && pendingIndexEntry && Follows(added, key)
      modifies this`lastKey, this`pendingIndexEntry, this`seps, indexBlock
      ensures Assembled() && State() == WithEntry(old(State()), sep, i)
      ensures i.pair == Pair(sep, EncodeHandle(pendingHandle))
      ensures added != [] ==> Separates(added[|added| - 1].key, sep, key)
      ensures IsSeparator(old(lastKey), key, sep)
    {
      hide Ok, Filed, BlockBuilder.Valid, FilterBlockBuilder.Valid, CompareInternal, Compare, User, Shortened,
        EncodeHandle, IsSeparator;
      PendingHasKeys(crc, State());
      lastKey := FindInternalSeparator(lastKey, key);
      sep := lastKey;
      var handleEncoding := EncodeHandle(pendingHandle);
      indexBlock.Add(lastKey, handleEncoding);
      i := indexBlock.items[|indexBlock.items| - 1];
      seps := seps + [sep];
      pendingIndexEntry := false;
    }

    method AddData(key: seq<byte>, value: seq<byte>) returns (ghost x: Item)
      requires Assembled() && !pendingIndexEntry
      modifies this`added, dataBlock
      ensures Assembled() && State() == WithPair(old(State()), x) && x.pair == Pair(key, value)
    {
      hide BlockBuilder.Valid, FilterBlockBuilder.Valid;
      dataBlock.Add(key, value);
      x := dataBlock.items[|dataBlock.items| - 1];
      added := added + [x.pair];
    }

    method Flush()
      requires Valid()
      modifies this`file, this`offset, this`pendingIndexEntry, this`pendingHandle, this`blocks, dataBlock, filterBlock
      ensures Valid() && dataBlock.items == []
      ensures if old(dataBlock.items) == [] then blocks == old(blocks)
        else
          && |blocks| == |old(blocks)| + 1 && blocks[..|old(blocks)|] == old(blocks)
          && blocks[|old(blocks)|].items == old(dataBlock.items)
          && blocks[|old(blocks)|].handle.size == old(dataBlock.CurrentSizeEstimate())
    {
      hide Ok, Filed, BlockBuilder.Valid, FilterBlockBuilder.Valid, RawBlock, BlockBytes, Chained, StartsOk, OffsetsOf;
      dataBlock.EmptyMeans();
      if dataBlock.Empty() {
        return;
      }
      NotPending(crc, State());
      ghost var before := State();
      ghost var stored;
      pendingHandle, stored := WriteBlock(dataBlock);
      blocks := blocks + [stored];
      pendingIndexEntry := true;
      OkFlush(crc, before, stored.starts);
      if filtered {
        ghost var groups := filterBlock.Filed();
        LaterGroup(groups, old(offset), before.blocks, before.open, offset);
        filterBlock.StartBlock(offset);
        FiledFlush(groups, filterBlock.Filed(), old(offset), offset, before.blocks, stored);
      }
    }

    method WriteBlock(block: BlockBuilder) returns (handle: Handle, ghost stored: TableBlock)
      requires block.Valid() && !block.finished && offset == |file|
      modifies this`file, this`offset, block
      ensures block.Valid() && !block.finished && block.items == [] && offset == |file|
      ensures Chained(old(block.items)) && StartsOk(old(block.items), stored.starts)
      ensures stored == TableBlock(handle, old(block.items), stored.starts)
      ensures var contents := BlockBytes(stored.items, OffsetsOf(stored.items, stored.starts));
        file == old(file) + RawBlock(crc, contents) && handle == Handle(old(offset), |contents|)
      ensures handle.size == old(block.CurrentSizeEstimate())
    {
      hide BlockBuilder.Valid, RawBlock, BlockBytes, Chained;
      block.Shape();
      block.EstimateIsSize();
      ghost var items, starts := block.items, block.starts;
      var raw := block.Finish();
      handle := WriteRawBlock(raw);
      stored := TableBlock(handle, items, starts);
      block.Reset();
    }

    method WriteRawBlock(contents: seq<byte>) returns (handle: Handle)
      requires offset == |file|
      modifies this`file, this`offset
      ensures file == old(file) + RawBlock(crc, contents) && offset == |file|
      ensures handle == Handle(old(offset), |contents|)
    {
      hide EncodeFixed32, LogFormat.Mask;
      handle := Handle(offset, |contents|);
      file := file + contents;
      var trailer := [NO_COMPRESSION] + EncodeFixed32(LogFormat.Mask(crc(contents + [NO_COMPRESSION])));
      file := file + trailer;
      assert file == old(file) + RawBlock(crc, contents);
      offset := offset + |contents| + TRAILER_SIZE;
    }

    method FinishFilter() returns (filterHandle: Handle, ghost filter: Maybe<Piece>)
      requires filterBlock.Valid() && offset == |file|
      requires filtered ==> Filed(filterBlock.Filed(), offset, blocks, dataBlock.items)
      modifies this`file, this`offset, filterBlock
      ensures filterBlock.Valid() && offset == |file| && old(file) <= file
      ensures FilterStored(crc, filterBlock.policy, file, filter, filterBlock.groups, blocks)
      ensures HandleOf(filter) == if filtered then Just(filterHandle) else Nothing
    {
      hide FilterBlockBuilder.Valid, RawBlock, StoredAt, IsFilterBlock, AllFiled, Keeps;
      filterHandle, filter := Handle(0, 0), Nothing;
      if filtered {
        ghost var before := filterBlock.Filed();
        var contents := filterBlock.Finish();
        NewlyStored(crc, file, contents);
        filterHandle := WriteRawBlock(contents);
        FiledEnd(before, filterBlock.groups, blocks);
        filter := Just(Piece(filterHandle, contents));
      }
    }

    method FinishMeta(filterHandle: Handle) returns (metaindexHandle: Handle, ghost meta: TableBlock)
      requires offset == |file| && interval >= 1
      modifies this`file, this`offset
      ensures offset == |file| && old(file) <= file
      ensures BlockFits(crc, file, meta) && meta.handle == metaindexHandle
      ensures MetaFits(policyName, if filtered then Just(filterHandle) else Nothing, meta.items)
    {
      hide BlockBuilder.Valid, RawBlock, BlockBytes, Chained, StartsOk, BlockFits, EncodeHandle;
      var metaIndexBlock := new BlockBuilder(interval);
      if filtered {
        metaIndexBlock.Add(FILTER_PREFIX + policyName, EncodeHandle(filterHandle));
      }
      metaindexHandle, meta := WriteBlock(metaIndexBlock);
      NewBlockFits(crc, old(file), meta.items, meta.starts);
    }

    method FinishIndex() returns (indexHandle: Handle, ghost index: TableBlock)
      requires Assembled() && Ok(crc, State()) && dataBlock.items == [] && offset == |file|
      requires added != [] ==> lastKey == added[|added| - 1].key
      modifies this`file, this`offset, this`lastKey, this`pendingIndexEntry, this`seps, indexBlock
      ensures offset == |file| && old(file) <= file
      ensures BlockFits(crc, file, index) && index.handle == indexHandle
      ensures Sealed(crc, Built(old(file), blocks, [], seps, index.items, Nothing, added))
      ensures old(pendingIndexEntry) ==> seps != [] && IsSuccessor(old(lastKey), seps[|seps| - 1])
    {
      hide Ok, Sealed, BlockBuilder.Valid, FilterBlockBuilder.Valid, RawBlock, BlockBytes, Chained, StartsOk, BlockFits,
        EncodeHandle, CompareInternal, Shortened, IsSuccessor;
      ghost var before := State();
      if pendingIndexEntry {
        PendingHasKeys(crc, before);
        lastKey := FindInternalSuccessor(lastKey);
        var handleEncoding := EncodeHandle(pendingHandle);
        indexBlock.Add(lastKey, handleEncoding);
        pendingIndexEntry := false;
        seps := seps + [lastKey];
        OkLast(crc, before, lastKey, indexBlock.items[|indexBlock.items| - 1]);
      } else {
        NothingDue(crc, before);
      }
      assert Sealed(crc, State());
      indexHandle, index := WriteBlock(indexBlock);
      NewBlockFits(crc, old(file), index.items, index.starts);
    }

    /** Finish: filters, the metaindex, the index and the footer. */
    method Finish() returns (ghost t: Layout)
      requires Valid()
      modifies this, dataBlock, indexBlock, filterBlock
      ensures closed && IsTable(crc, filterBlock.policy, policyName, file, t, added) && added == old(added)
      ensures t.filter.Just? <==> filtered
    {
      hide Ok, Filed, BlockBuilder.Valid, FilterBlockBuilder.Valid, EncodeFooter, BlockFits, MetaFits, FilterStored,
          Sealed,
        DataFits;
      Flush();
      closed := true;
      ghost var data := State();
      var filterHandle, metaindexHandle, indexHandle;
      ghost var filter, meta, index;
      filterHandle, filter := FinishFilter();
      ghost var withFilter, groups := file, filterBlock.groups;
      metaindexHandle, meta := FinishMeta(filterHandle);
      ghost var withMeta := file;
      OkStillThere(crc, data, file);
      indexHandle, index := FinishIndex();
      ghost var withIndex := file;
      var footer := EncodeFooter(Footer(metaindexHandle, indexHandle));
      file := file + footer;
      offset := offset + |footer|;
      t := Layout(blocks, seps, filter, groups, meta, index);
      FilterStillThere(crc, filterBlock.policy, withFilter, file, filter, groups, blocks);
      StillThere(crc, withMeta, file, meta);
      StillThere(crc, withIndex, file, index);
      SealedFits(crc, Built(withMeta, blocks, [], seps, index.items, Nothing, added), file, t);
      assert FooterFits(file, t);
    }
  }
}
