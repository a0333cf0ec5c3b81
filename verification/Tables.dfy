/** class Table: opening a finished table file, and looking a key up in it. */
module Tables {
  import opened Coding
  import opened BlockFormat
  import opened BlockIter
  import opened ByteOrder
  import opened FilterBlocks
  import opened TableFormat
  import opened TableLayouts
  import opened TableOrder
  import Blooms

  /** Block and filter sizes are 32-bit quantities, offsets 64-bit ones. */
  ghost predicate Narrow(file: seq<byte>, t: Layout) {
    && |file| < TWO_64 && t.meta.handle.size < TWO_32 && t.index.handle.size < TWO_32
    && (t.filter.Just? ==> t.filter.value.handle.size < TWO_32)
    && forall j :: 0 <= j < |t.blocks| ==> t.blocks[j].handle.size < TWO_32
  }

  function FooterOf(file: seq<byte>): Maybe<Footer> {
    if |file| < FOOTER_SIZE then Nothing else DecodeFooter(file[|file| - FOOTER_SIZE..])
  }

  /** The index block, if the footer can be read and leads to one. */
  function IndexContents(crc: Checksum, verify: bool, file: seq<byte>): Maybe<seq<byte>> {
    match FooterOf(file)
    case Nothing => Nothing
    case Just(footer) => ReadBlock(crc, verify, file, footer.index)
  }

  /** BlockReader: the block an index entry points to. */
  function BlockAt(crc: Checksum, verify: bool, file: seq<byte>, indexValue: seq<byte>): Maybe<seq<byte>> {
    match DecodeHandle(indexValue)
    case Nothing => Nothing
    case Just(handle) => ReadBlock(crc, verify, file, handle)
  }

  function OrEmpty(contents: Maybe<seq<byte>>): seq<byte> {
    if contents.Just? then contents.value else []
  }

  // ---- what is found in a finished table ----

  lemma StoredIsWide(crc: Checksum, file: seq<byte>, h: Handle, contents: seq<byte>)
    requires StoredAt(crc, file, h, contents) && |file| < TWO_64
    ensures Wide(h)
  {
    hide RawBlock;
  }

  lemma BlockIsWide(crc: Checksum, file: seq<byte>, b: TableBlock)
    requires BlockFits(crc, file, b) && |file| < TWO_64
    ensures Wide(b.handle)
  {
    hide Chained, StoredAt, BlockBytes;
    StoredIsWide(crc, file, b.handle, BlockBytes(b.items, OffsetsOf(b.items, b.starts)));
  }

  lemma FooterIsRead(crc: Checksum, file: seq<byte>, t: Layout)
    requires FooterFits(file, t) && |file| < TWO_64 && BlockFits(crc, file, t.meta) && BlockFits(crc, file, t.index)
    ensures FooterOf(file) == Just(Footer(t.meta.handle, t.index.handle))
  {
    hide BlockFits, EncodeFooter, DecodeFooter;
    BlockIsWide(crc, file, t.meta);
    BlockIsWide(crc, file, t.index);
    FooterRoundTrip(Footer(t.meta.handle, t.index.handle));
  }

  lemma HandleIsRead(h: Handle)
    requires Wide(h)
    ensures DecodeHandle(EncodeHandle(h)) == Just(h)
  {
    hide EncodeHandle, DecodeHandle;
    HandleRoundTrip(h, []);
    assert EncodeHandle(h) + [] == EncodeHandle(h);
  }

  /** The index entry of block j leads to that block. */
  lemma EntryLeadsToBlock(crc: Checksum, verify: bool, file: seq<byte>, t: Layout, added: seq<Pair>, j: nat)
    requires DataFits(crc, file, t, added) && Narrow(file, t) && j < |t.blocks|
    ensures |t.index.items| == |t.blocks| && Key(t.index.items, j) == t.seps[j]
    ensures DecodeHandle(t.index.items[j].pair.value) == Just(t.blocks[j].handle)
    ensures BlockAt(crc, verify, file, t.index.items[j].pair.value).Just?
    ensures IsBlock(BlockAt(crc, verify, file, t.index.items[j].pair.value).value, t.blocks[j].items,
        t.blocks[j].starts)
  {
    hide BlockFits, FlatPairs, KeysOk, SepsFit, EncodeHandle, DecodeHandle, IsBlock, ReadBlock, StoredAt;
    BlockIsWide(crc, file, t.blocks[j]);
    HandleIsRead(t.blocks[j].handle);
    BlockIsRead(crc, verify, file, t.blocks[j]);
  }

  lemma IndexAscends(crc: Checksum, file: seq<byte>, t: Layout, added: seq<Pair>)
    requires DataFits(crc, file, t, added)
    ensures Ascending(CompareInternal, t.index.items)
  {
    hide BlockFits, FlatPairs, SepsFit, PairsAscending, CompareInternal, AllStored, EncodeHandle;
    forall i, j | 0 <= i < j < |t.index.items|
      ensures CompareInternal(Key(t.index.items, i), Key(t.index.items, j)) < 0
    {
      SepsAllAscend(t.Segs(), t.seps, i, j);
    }
  }

  lemma DataAscends(crc: Checksum, file: seq<byte>, t: Layout, added: seq<Pair>, j: nat)
    requires DataFits(crc, file, t, added) && j < |t.blocks|
    ensures Ascending(CompareInternal, t.blocks[j].items)
  {
    hide BlockFits, FlatPairs, SepsFit, PairsAscending, CompareInternal, AllStored, IndexFits, Ascending;
    SegmentAscends(t.Segs(), j);
    assert t.Segs()[j] == t.blocks[j].items;
  }

  /** What a lookup that searches block j passes on. */
  function FromBlock(items: seq<Item>, target: seq<byte>): Maybe<Pair> {
    var r := FirstAtLeast(CompareInternal, items, target, 0);
    if r < |items| then Just(items[r].pair) else Nothing
  }

  /** What the caller keeps of it: SaveValue looks at the user key. */
  function SameUser(found: Maybe<Pair>, target: seq<byte>): Maybe<Pair> {
    if found.Just? && User(found.value.key) == User(target) then found else Nothing
  }

  lemma IndexEntries(crc: Checksum, file: seq<byte>, t: Layout, added: seq<Pair>, j: nat)
    requires DataFits(crc, file, t, added) && j < |t.blocks|
    ensures |t.index.items| == |t.blocks| == |t.seps| && Key(t.index.items, j) == t.seps[j]
  {
    hide BlockFits, FlatPairs, SepsFit, KeysOk, AllStored, EncodeHandle;
  }

  /** The block the index leads to decides. */
  lemma BlockDecides(crc: Checksum, file: seq<byte>, t: Layout, added: seq<Pair>, target: seq<byte>)
    requires DataFits(crc, file, t, added)
    ensures var j := FirstAtLeast(CompareInternal, t.index.items, target, 0);
      && |t.index.items| == |t.blocks|
      && TableAnswer(added, target) ==
           if j < |t.blocks| then SameUser(FromBlock(t.blocks[j].items, target), target) else Nothing
  {
    hide BlockFits, FlatPairs, SepsFit, PairsAscending, CompareInternal, AllStored, IndexFits, User, TableAnswer;
    assert |t.index.items| == |t.seps| by { assert IndexFits(t.index.items, t.seps, t.blocks); CountEntries(t); }
    var j := FirstAtLeast(CompareInternal, t.index.items, target, 0);
    if j < |t.blocks| {
      IndexEntries(crc, file, t, added, j);
      if j > 0 { IndexEntries(crc, file, t, added, j - 1); }
      assert t.Segs()[j] == t.blocks[j].items;
      AnswerInBlock(t.Segs(), t.seps, j, target);
    } else {
      if j > 0 { IndexEntries(crc, file, t, added, j - 1); }
      NoAnswer(t.Segs(), t.seps, target);
    }
  }

  lemma CountEntries(t: Layout)
    requires IndexFits(t.index.items, t.seps, t.blocks)
    ensures |t.index.items| == |t.seps|
  {
  }

  lemma OpensWell(crc: Checksum, verify: bool, policy: Blooms.BloomFilterPolicy, name: seq<byte>, file: seq<byte>,
      t: Layout, added: seq<Pair>)
    requires IsTable(crc, policy, name, file, t, added) && Narrow(file, t)
    ensures DataFits(crc, file, t, added) && FooterOf(file) == Just(Footer(t.meta.handle, t.index.handle))
    ensures IsBlock(OrEmpty(IndexContents(crc, verify, file)), t.index.items, t.index.starts)
  {
    hide BlockFits, FooterFits, FooterOf, IsBlock, AllStored, FlatPairs, SepsFit, KeysOk, IndexFits, FilterStored,
      MetaFits, ReadBlock;
    FooterIsRead(crc, file, t);
    BlockIsRead(crc, verify, file, t.index);
  }

  /** The metaindex block has the one entry, or none. */
  lemma MetaIsRead(crc: Checksum, verify: bool, policy: Blooms.BloomFilterPolicy, name: seq<byte>, file: seq<byte>,
      t: Layout, added: seq<Pair>)
    requires IsTable(crc, policy, name, file, t, added) && Narrow(file, t)
    ensures ReadBlock(crc, verify, file, t.meta.handle).Just?
    ensures IsBlock(ReadBlock(crc, verify, file, t.meta.handle).value, t.meta.items, t.meta.starts)
    ensures IsOrder(Compare) && Ascending(Compare, t.meta.items)
    ensures FilterStored(crc, policy, file, t.filter, t.groups, t.blocks)
    ensures MetaFits(name, HandleOf(t.filter), t.meta.items)
  {
    hide BlockFits, FooterFits, IsBlock, DataFits, FilterStored, ReadBlock, Compare, EncodeHandle;
    BlockIsRead(crc, verify, file, t.meta);
    forall a, b ensures Compare(a, b) < 0 <==> Compare(b, a) > 0 {
      CompareMirrors(a, b);
    }
    forall a, b, c | Compare(a, b) < 0 && Compare(b, c) <= 0 ensures Compare(a, c) < 0 {
      CompareChains(a, b, c);
    }
  }

  /** Looking up the name of a policy in the metaindex finds the filters of that
      policy, if there are any. */
  lemma NameFindsFilter(name: seq<byte>, wanted: seq<byte>, filter: Maybe<Handle>, items: seq<Item>)
    requires MetaFits(name, filter, items)
    ensures var p, key := FirstAtLeast(Compare, items, FILTER_PREFIX + wanted, 0), FILTER_PREFIX + wanted;
      if p < |items| && Key(items, p) == key then
        name == wanted && filter.Just? && items[p].pair.value == EncodeHandle(filter.value)
      else filter.Nothing? || name != wanted
  {
    hide Compare, EncodeHandle;
    var key := FILTER_PREFIX + wanted;
    CompareMirrors(key, key);
    assert (FILTER_PREFIX + name)[7..] == name && key[7..] == wanted;
  }

  class Table {
    const crc: Checksum
    const file: seq<byte>
    const indexBlock: seq<byte>
    const metaindexHandle: Handle
    var filter: FilterBlockReader?
    ghost const t: Layout
    ghost const added: seq<Pair>

    /** The filter, if there is one, denies no key that was added. */
    ghost predicate FilterWorks()
      reads this
    {
      filter != null ==>
        && AllFiled(t.groups, t.blocks)
        && (filter.num > 0 ==> filter.offsetStart + 4 * filter.num + 5 <= |filter.contents|)
        && Reads(filter.policy, filter.contents, t.groups, filter.offsetStart, filter.num, filter.baseLg)
    }

    ghost predicate Wired() {
      DataFits(crc, file, t, added) && Narrow(file, t) && IsBlock(indexBlock, t.index.items, t.index.starts)
    }

    ghost predicate Valid()
      reads this
    {
      Wired() && FilterWorks()
    }

    /** Table::Open.  The policy may be none or any; a policy of the builder's
        name is the builder's. */
    constructor Open(crc: Checksum, paranoid: bool, file: seq<byte>, policy: Blooms.BloomFilterPolicy?, name: seq<byte>,
        ghost written: Blooms.BloomFilterPolicy, ghost writtenName: seq<byte>, ghost t: Layout, ghost added: seq<Pair>)
      requires IsTable(crc, written, writtenName, file, t, added) && Narrow(file, t)
      requires name == writtenName ==> policy == null || policy == written
      ensures Valid() && this.added == added && this.file == file && this.crc == crc
      ensures filter != null <==> policy != null && name == writtenName && t.filter.Just?
      ensures filter != null ==> filter.policy == policy
    {
      hide IsTable, Narrow, IsBlock, DataFits, ReadBlock, FooterOf;
      this.crc, this.file := crc, file;
      this.t, this.added := t, added;
      var footer := FooterOf(file);
      indexBlock := OrEmpty(IndexContents(crc, paranoid, file));
      metaindexHandle := if footer.Just? then footer.value.metaindex else Handle(0, 0);
      filter := null;
      new;
      OpensWell(crc, paranoid, written, writtenName, file, t, added);
      assert FilterWorks();
      if policy != null {
        ReadMeta(paranoid, policy, name, written, writtenName);
      }
    }

    method ReadMeta(paranoid: bool, policy: Blooms.BloomFilterPolicy, name: seq<byte>,
        ghost written: Blooms.BloomFilterPolicy, ghost writtenName: seq<byte>)
      requires IsTable(crc, written, writtenName, file, t, added) && Narrow(file, t)
      requires metaindexHandle == t.meta.handle && (name == writtenName ==> policy == written) && filter == null
      modifies this`filter
      ensures FilterWorks() && (filter != null <==> name == writtenName && t.filter.Just?)
      ensures filter != null ==> filter.policy == policy
    {
      hide IsTable, Narrow, IsBlock, DataFits, ReadBlock, IsOrder, Ascending, FilterStored, EncodeHandle,
        MetaFits, Compare, Iter.At, Reads, AllFiled;
      MetaIsRead(crc, paranoid, written, writtenName, file, t, added);
      var contents := ReadBlock(crc, paranoid, file, metaindexHandle);
      if contents.Just? {
        var iter := new Iter(contents.value, Compare, t.meta.items, t.meta.starts);
        var key := FILTER_PREFIX + name;
        iter.Seek(key);
        iter.OnPair(FirstAtLeast(Compare, t.meta.items, key, 0));
        NameFindsFilter(writtenName, name, HandleOf(t.filter), t.meta.items);
        if iter.IsValid() && iter.key == key {
          ReadFilter(paranoid, policy, iter.Value());
        }
      }
    }

    method ReadFilter(paranoid: bool, policy: Blooms.BloomFilterPolicy, filterHandleValue: seq<byte>)
      requires t.filter.Just? && filterHandleValue == EncodeHandle(t.filter.value.handle)
      requires FilterStored(crc, policy, file, t.filter, t.groups, t.blocks) && Narrow(file, t)
      modifies this`filter
      ensures FilterWorks() && filter != null && filter.policy == policy
    {
      hide ReadBlock, EncodeHandle, DecodeHandle, StoredAt, IsFilterBlock, AllFiled, Reads;
      FilterIsRead(crc, paranoid, policy, file, t);
      var filterHandle := DecodeHandle(filterHandleValue);
      if filterHandle.Just? {
        var block := ReadBlock(crc, paranoid, file, filterHandle.value);
        if block.Just? {
          filter := new FilterBlockReader(policy, block.value, t.groups);
        }
      }
    }

    /** What the filter for block j, if there is one, answers for the key. */
    ghost predicate FilterSays(j: nat, key: seq<byte>, mayMatch: bool)
      requires j < |t.blocks|
      reads this
    {
      if filter == null then mayMatch
      else MayMatch(filter.policy, t.groups, t.blocks[j].handle.offset, User(key), mayMatch)
    }

    /** InternalGet: the pair handed to the callback, and the status. */
    method InternalGet(verify: bool, key: seq<byte>) returns (ok: bool, result: Maybe<Pair>)
      requires Valid()
      ensures ok && SameUser(result, key) == TableAnswer(added, key)
      ensures var j := FirstAtLeast(CompareInternal, t.index.items, key, 0);
        && |t.index.items| == |t.blocks|
        && if j == |t.blocks| then result == Nothing
           else
             || (FilterSays(j, key, true) && result == FromBlock(t.blocks[j].items, key))
             || (FilterSays(j, key, false) && result == Nothing)
    {
      hide IsBlock, DataFits, Narrow, IsOrder, Ascending, CompareInternal, FilterWorks, EncodeHandle,
        DecodeHandle, User, TableAnswer, BlockAt, Iter.At, FilterSays;
      ok, result := true, Nothing;
      IndexAscends(crc, file, t, added);
      InternalIsOrder();
      BlockDecides(crc, file, t, added, key);
      var iiter := new Iter(indexBlock, CompareInternal, t.index.items, t.index.starts);
      iiter.Seek(key);
      ghost var j := FirstAtLeast(CompareInternal, t.index.items, key, 0);
      iiter.OnPair(j);
      if iiter.IsValid() {
        EntryLeadsToBlock(crc, verify, file, t, added, j);
        var mayMatch := AskFilter(iiter.Value(), key, j);
        if mayMatch {
          ok, result := SearchBlock(verify, iiter.Value(), key, j);
        }
      }
    }

    /** The block's filter is asked, if there is one; a key that is there is not
        ruled out. */
    method AskFilter(handleValue: seq<byte>, key: seq<byte>, ghost j: nat) returns (mayMatch: bool)
      requires Valid() && j < |t.blocks| && DecodeHandle(handleValue) == Just(t.blocks[j].handle)
      ensures SameUser(FromBlock(t.blocks[j].items, key), key).Just? ==> mayMatch
      ensures FilterSays(j, key, mayMatch)
    {
      hide Wired, CompareInternal, DecodeHandle, User, Reads, InGroup, MayMatch;
      var handle := DecodeHandle(handleValue);
      mayMatch := true;
      if filter != null && handle.Just? {
        ghost var found := FromBlock(t.blocks[j].items, key);
        ghost var r := FirstAtLeast(CompareInternal, t.blocks[j].items, key, 0);
        mayMatch := filter.KeyMayMatch(handle.value.offset, key, t.groups);
        assert KeysFiled(t.groups, t.blocks[j].handle.offset, t.blocks[j].items);
        if found.Just? && User(found.value.key) == User(key) {
          assert found.value.key == Key(t.blocks[j].items, r);
          FiledMayMatch(filter.policy, t.groups, handle.value.offset, found.value.key, mayMatch);
        }
      }
    }

    method SearchBlock(verify: bool, indexValue: seq<byte>, key: seq<byte>, ghost j: nat)
        returns (ok: bool, result: Maybe<Pair>)
      requires Valid() && j < |t.blocks| && indexValue == t.index.items[j].pair.value && |t.index.items| == |t.blocks|
      ensures ok && result == FromBlock(t.blocks[j].items, key)
    {
      hide IsBlock, DataFits, Narrow, IsOrder, Ascending, CompareInternal, FilterWorks, DecodeHandle, BlockAt, Iter.At;
      EntryLeadsToBlock(crc, verify, file, t, added, j);
      DataAscends(crc, file, t, added, j);
      InternalIsOrder();
      var contents := BlockAt(crc, verify, file, indexValue);
      ok, result := contents.Just?, Nothing;
      if contents.Just? {
        var blockIter := new Iter(contents.value, CompareInternal, t.blocks[j].items, t.blocks[j].starts);
        blockIter.Seek(key);
        blockIter.OnPair(FirstAtLeast(CompareInternal, t.blocks[j].items, key, 0));
        if blockIter.IsValid() {
          result := Just(Pair(blockIter.key, blockIter.Value()));
        }
      }
    }
  }

  lemma FilterIsRead(crc: Checksum, verify: bool, policy: Blooms.BloomFilterPolicy, file: seq<byte>, t: Layout)
    requires t.filter.Just? && FilterStored(crc, policy, file, t.filter, t.groups, t.blocks) && Narrow(file, t)
    ensures DecodeHandle(EncodeHandle(t.filter.value.handle)) == Just(t.filter.value.handle)
    ensures ReadBlock(crc, verify, file, t.filter.value.handle) == Just(t.filter.value.contents)
    ensures IsFilterBlock(policy, t.filter.value.contents, t.groups) && AllFiled(t.groups, t.blocks)
  {
    hide ReadBlock, EncodeHandle, DecodeHandle, IsFilterBlock, AllFiled, RawBlock;
    StoredIsWide(crc, file, t.filter.value.handle, t.filter.value.contents);
    HandleIsRead(t.filter.value.handle);
    StoredIsRead(crc, verify, file, t.filter.value.handle, t.filter.value.contents);
  }
}
