/** The parts of a table file: what holds while it is being built, and what a
    finished one is. */
module TableLayouts {
  import opened Coding
  import opened ByteOrder
  import opened BlockFormat
  import opened FilterBlocks
  import opened TableFormat
  import opened TableOrder
  import Blooms

  function SegmentsOf(blocks: seq<TableBlock>, open: seq<Item>): (r: Segments)
    ensures |r| == |blocks| + if open == [] then 0 else 1
    ensures forall j :: 0 <= j < |blocks| ==> r[j] == blocks[j].items
    ensures open != [] ==> r[|blocks|] == open
  {
    seq(|blocks|, j requires 0 <= j < |blocks| => blocks[j].items) + if open == [] then [] else [open]
  }

  ghost predicate AllStored(crc: Checksum, file: seq<byte>, blocks: seq<TableBlock>) {
    forall j :: 0 <= j < |blocks| ==> blocks[j].items != [] && BlockFits(crc, file, blocks[j])
  }

  /** The index entries name the separators and the handles. */
  ghost predicate IndexFits(index: seq<Item>, seps: seq<seq<byte>>, blocks: seq<TableBlock>) {
    && |index| == |seps| <= |blocks|
    && forall j :: 0 <= j < |index| ==> index[j].pair == Pair(seps[j], EncodeHandle(blocks[j].handle))
  }

  /** Each key of the block is filed under the block's offset. */
  ghost predicate KeysFiled(groups: Groups, offset: nat, items: seq<Item>) {
    forall i :: 0 <= i < |items| ==> InGroup(groups, offset, Key(items, i))
  }

  ghost predicate AllFiled(groups: Groups, blocks: seq<TableBlock>) {
    forall j :: 0 <= j < |blocks| ==> KeysFiled(groups, blocks[j].handle.offset, blocks[j].items)
  }

  lemma FiledOn(later: Groups, before: Groups, blocks: seq<TableBlock>)
    requires Keeps(later, before) && AllFiled(before, blocks)
    ensures AllFiled(later, blocks)
  {
    forall j | 0 <= j < |blocks| ensures KeysFiled(later, blocks[j].handle.offset, blocks[j].items) {
      FiledOnBlock(later, before, blocks[j].handle.offset, blocks[j].items);
    }
  }

  lemma FiledOnBlock(later: Groups, before: Groups, offset: nat, items: seq<Item>)
    requires Keeps(later, before) && KeysFiled(before, offset, items)
    ensures KeysFiled(later, offset, items)
  {
  }

  lemma StoredOn(crc: Checksum, file: seq<byte>, more: seq<byte>, blocks: seq<TableBlock>)
    requires AllStored(crc, file, blocks)
    ensures AllStored(crc, file + more, blocks)
  {
    hide BlockFits;
    forall j | 0 <= j < |blocks| ensures BlockFits(crc, file + more, blocks[j]) {
      BlockStillFits(crc, file, more, blocks[j]);
    }
  }

  /** The separator chosen when the next block's first key is known. */
  lemma SepAdded(segs: Segments, seps: seq<seq<byte>>, sep: seq<byte>, next: seq<Item>)
    requires SepsFit(segs, seps) && |seps| + 1 == |segs| && next != []
    requires Shortened(Last(segs[|segs| - 1]), sep) && CompareInternal(Last(segs[|segs| - 1]), sep) <= 0
    requires CompareInternal(sep, First(next)) < 0
    requires sep != Last(segs[|segs| - 1]) ==> Compare(User(sep), User(First(next))) < 0
    ensures SepsFit(segs + [next], seps + [sep])
  {
    hide CompareInternal, Shortened, Compare;
    var more, all := segs + [next], seps + [sep];
    assert forall j :: 0 <= j < |segs| ==> more[j] == segs[j];
    forall j | 0 <= j < |all| ensures SepFits(more, all[j], j) {
      if j < |seps| {
        assert SepFits(segs, seps[j], j);
      }
    }
  }

  /** The last separator, when nothing follows. */
  lemma LastSepAdded(segs: Segments, seps: seq<seq<byte>>, sep: seq<byte>)
    requires SepsFit(segs, seps) && |seps| + 1 == |segs|
    requires Shortened(Last(segs[|segs| - 1]), sep) && CompareInternal(Last(segs[|segs| - 1]), sep) <= 0
    ensures SepsFit(segs, seps + [sep])
  {
    hide CompareInternal, Shortened, Compare;
    forall j | 0 <= j < |seps + [sep]| ensures SepFits(segs, (seps + [sep])[j], j) {
      if j < |seps| {
        assert SepFits(segs, seps[j], j);
      }
    }
  }

  /** A pair added to the open block changes nothing for the separators. */
  lemma SepsWithLonger(segs: Segments, seps: seq<seq<byte>>, x: Item)
    requires SepsFit(segs, seps) && |seps| + 1 == |segs|
    ensures SepsFit(segs[..|segs| - 1] + [segs[|segs| - 1] + [x]], seps)
  {
    hide CompareInternal, Shortened, Compare;
    var n := |segs| - 1;
    var more := segs[..n] + [segs[n] + [x]];
    assert First(more[n]) == First(segs[n]);
    assert forall j :: 0 <= j < n ==> more[j] == segs[j];
    forall j | 0 <= j < |seps| ensures SepFits(more, seps[j], j) {
      assert SepFits(segs, seps[j], j);
    }
  }

  lemma SepsOfEmpty()
    ensures SepsFit([], [])
  {
  }

  /** Flattened pairs when the open block gets one more. */
  lemma FlatWithMore(blocks: seq<TableBlock>, open: seq<Item>, x: Item)
    ensures FlatPairs(SegmentsOf(blocks, open + [x])) == FlatPairs(SegmentsOf(blocks, open)) + [x.pair]
  {
    hide FlatPairs, PairsOf;
    var closed := SegmentsOf(blocks, []);
    assert SegmentsOf(blocks, open + [x]) == closed + [open + [x]];
    FlatSnoc(closed, open + [x]);
    PairsSnoc(open, x);
    if open != [] {
      assert SegmentsOf(blocks, open) == closed + [open];
      FlatSnoc(closed, open);
    } else {
      assert PairsOf([]) == [] by { NoPairs(); }
      assert FlatPairs(closed) + ([] + [x.pair]) == FlatPairs(closed) + [x.pair];
    }
  }

  lemma NoPairs()
    ensures PairsOf([]) == [] && FlatPairs([]) == []
  {
  }

  lemma AscendingMore(pairs: seq<Pair>, p: Pair)
    requires PairsAscending(pairs) && (pairs != [] ==> CompareInternal(pairs[|pairs| - 1].key, p.key) < 0)
    ensures PairsAscending(pairs + [p])
  {
    hide CompareInternal;
    var all := pairs + [p];
    forall i, j | 0 <= i < j < |all| ensures CompareInternal(all[i].key, all[j].key) < 0 {
      if j == |pairs| && i < j - 1 {
        InternalChains(all[i].key, all[j - 1].key, p.key);
      }
    }
  }

  // ---- a table being built ----

  /** What has been written and what is waiting. */
  datatype Built = Built(file: seq<byte>, blocks: seq<TableBlock>, open: seq<Item>, seps: seq<seq<byte>>,
    index: seq<Item>, pending: Maybe<Handle>, added: seq<Pair>) {
    function Segs(): Segments {
      SegmentsOf(blocks, open)
    }
  }

  ghost predicate KeysOk(pairs: seq<Pair>) {
    PairsAscending(pairs) && forall i :: 0 <= i < |pairs| ==> |pairs[i].key| >= 8
  }

  /** A key that may follow. */
  predicate Follows(pairs: seq<Pair>, key: seq<byte>) {
    |key| >= 8 && (pairs != [] ==> CompareInternal(pairs[|pairs| - 1].key, key) < 0)
  }

  /** An index entry is due exactly between two blocks. */
  ghost predicate PendingFits(b: Built) {
    if b.pending.Just? then
      b.open == [] && |b.blocks| == |b.seps| + 1 && b.pending.value == b.blocks[|b.seps|].handle
    else |b.blocks| == |b.seps| && (b.open == [] ==> b.blocks == [])
  }

  ghost predicate Ok(crc: Checksum, b: Built) {
    && AllStored(crc, b.file, b.blocks) && FlatPairs(b.Segs()) == b.added && KeysOk(b.added)
    && SepsFit(b.Segs(), b.seps) && IndexFits(b.index, b.seps, b.blocks) && PendingFits(b)
  }

  lemma OkStart(crc: Checksum)
    ensures Ok(crc, Built([], [], [], [], [], Nothing, []))
  {
    NoPairs();
    SepsOfEmpty();
    assert SegmentsOf([], []) == [];
  }

  lemma KeysOkMore(pairs: seq<Pair>, p: Pair)
    requires KeysOk(pairs) && Follows(pairs, p.key)
    ensures KeysOk(pairs + [p])
  {
    hide PairsAscending, CompareInternal;
    AscendingMore(pairs, p);
  }

  function WithPair(b: Built, x: Item): Built {
    b.(open := b.open + [x], added := b.added + [x.pair])
  }

  lemma OkAdd(crc: Checksum, b: Built, x: Item)
    requires Ok(crc, b) && b.pending.Nothing? && Follows(b.added, x.pair.key)
    ensures Ok(crc, WithPair(b, x))
  {
    hide AllStored, FlatPairs, KeysOk, IndexFits, Follows;
    FlatWithMore(b.blocks, b.open, x);
    KeysOkMore(b.added, x.pair);
    var n := |b.blocks|;
    if b.open == [] {
      assert b.open + [x] == [x];
      assert SegmentsOf([], [x]) == [] + [[x]] == [[x]];
      hide SepFits;
      assert SepsFit([[x]], []);
    } else {
      SepsWithLonger(b.Segs(), b.seps, x);
      assert WithPair(b, x).Segs() == b.Segs()[..n] + [b.Segs()[n] + [x]];
    }
  }

  /** The last pair added is the last of the last block. */
  lemma LastAdded(segs: Segments)
    requires segs != [] && NoneEmpty(segs)
    ensures FlatPairs(segs) != [] && FlatPairs(segs)[|FlatPairs(segs)| - 1].key == Last(segs[|segs| - 1])
  {
    hide FlatPairs, PairsOf;
    var n := |segs| - 1;
    SegmentAt(segs, n, |segs[n]| - 1);
    SegmentInFlat(segs, n);
    assert segs[..n + 1] == segs;
  }

  /** What is required of the separator between the last key and the next. */
  predicate Separates(last: seq<byte>, sep: seq<byte>, next: seq<byte>) {
    && Shortened(last, sep) && CompareInternal(last, sep) <= 0 && CompareInternal(sep, next) < 0
    && (sep != last ==> Compare(User(sep), User(next)) < 0)
  }

  function WithEntry(b: Built, sep: seq<byte>, i: Item): Built {
    b.(seps := b.seps + [sep], index := b.index + [i], pending := Nothing)
  }

  lemma EntryFits(index: seq<Item>, seps: seq<seq<byte>>, blocks: seq<TableBlock>, sep: seq<byte>, i: Item)
    requires IndexFits(index, seps, blocks) && |seps| < |blocks|
    requires i.pair == Pair(sep, EncodeHandle(blocks[|seps|].handle))
    ensures IndexFits(index + [i], seps + [sep], blocks)
  {
  }

  lemma OkAddPending(crc: Checksum, b: Built, sep: seq<byte>, i: Item, x: Item)
    requires Ok(crc, b) && b.pending.Just? && Follows(b.added, x.pair.key)
    requires b.added != [] ==> Separates(b.added[|b.added| - 1].key, sep, x.pair.key)
    requires i.pair == Pair(sep, EncodeHandle(b.pending.value))
    ensures Ok(crc, WithPair(WithEntry(b, sep, i), x))
  {
    hide AllStored, FlatPairs, KeysOk, IndexFits, Follows, CompareInternal, Shortened, Compare, User;
    var segs := b.Segs();
    FlatWithMore(b.blocks, b.open, x);
    KeysOkMore(b.added, x.pair);
    EntryFits(b.index, b.seps, b.blocks, sep, i);
    LastAdded(segs);
    SepAdded(segs, b.seps, sep, [x]);
    assert b.open + [x] == [x];
    assert SegmentsOf(b.blocks, [x]) == segs + [[x]];
  }

  function WithBlock(crc: Checksum, b: Built, contents: seq<byte>, starts: seq<nat>): Built {
    var handle := Handle(|b.file|, |contents|);
    b.(file := b.file + RawBlock(crc, contents), blocks := b.blocks + [TableBlock(handle, b.open, starts)],
       open := [], pending := Just(handle))
  }

  lemma NewBlockFits(crc: Checksum, file: seq<byte>, items: seq<Item>, starts: seq<nat>)
    requires Chained(items) && StartsOk(items, starts)
    ensures var contents := BlockBytes(items, OffsetsOf(items, starts));
      BlockFits(crc, file + RawBlock(crc, contents), TableBlock(Handle(|file|, |contents|), items, starts))
  {
    hide Chained, BlockBytes, RawBlock, StoredAt;
    NewlyStored(crc, file, BlockBytes(items, OffsetsOf(items, starts)));
  }

  lemma OkFlush(crc: Checksum, b: Built, starts: seq<nat>)
    requires Ok(crc, b) && b.open != [] && Chained(b.open) && StartsOk(b.open, starts)
    ensures Ok(crc, WithBlock(crc, b, BlockBytes(b.open, OffsetsOf(b.open, starts)), starts))
  {
    hide FlatPairs, KeysOk, SepsFit, RawBlock, BlockBytes, BlockFits, Chained;
    var contents := BlockBytes(b.open, OffsetsOf(b.open, starts));
    var later := WithBlock(crc, b, contents, starts);
    StoredOn(crc, b.file, RawBlock(crc, contents), b.blocks);
    NewBlockFits(crc, b.file, b.open, starts);
    assert later.Segs() == b.Segs();
  }

  // ---- the keys in the filters ----

  ghost predicate Filed(groups: Groups, offset: nat, blocks: seq<TableBlock>, open: seq<Item>) {
    && |groups| == offset / FILTER_BASE + 1
    && AllFiled(groups, blocks) && KeysFiled(groups, offset, open)
  }

  lemma FiledMore(groups: Groups, keys: seq<seq<byte>>, offset: nat, blocks: seq<TableBlock>, open: seq<Item>, x: Item)
    requires Filed(groups + [keys], offset, blocks, open)
    ensures Filed(groups + [keys + [x.pair.key]], offset, blocks, open + [x])
  {
    hide AllFiled;
    var before, later := groups + [keys], groups + [keys + [x.pair.key]];
    assert Keeps(later, before);
    FiledOn(later, before, blocks);
    FiledOnBlock(later, before, offset, open);
    forall i | 0 <= i < |open + [x]| ensures InGroup(later, offset, Key(open + [x], i)) {
      if i < |open| { assert InGroup(later, offset, Key(open, i)); }
    }
  }

  lemma FiledFlush(before: Groups, later: Groups, offset: nat, newOffset: nat, blocks: seq<TableBlock>, b: TableBlock)
    requires Filed(before, offset, blocks, b.items) && b.handle.offset == offset && Keeps(later, before)
    requires |later| == newOffset / FILTER_BASE + 1
    ensures Filed(later, newOffset, blocks + [b], [])
  {
    hide KeysFiled, Keeps;
    FiledOn(later, before, blocks);
    FiledOnBlock(later, before, offset, b.items);
    NoneFiled(later, newOffset);
  }

  lemma FiledStart(groups: Groups)
    requires |groups| == 1
    ensures Filed(groups, 0, [], [])
  {
  }

  lemma NoneFiled(groups: Groups, offset: nat)
    ensures KeysFiled(groups, offset, [])
  {
  }

  lemma FiledEnd(before: Groups, groups: Groups, blocks: seq<TableBlock>)
    requires AllFiled(before, blocks) && Keeps(groups + [[]], before)
    ensures AllFiled(groups, blocks)
  {
    FiledOn(groups + [[]], before, blocks);
    forall j | 0 <= j < |blocks| ensures KeysFiled(groups, blocks[j].handle.offset, blocks[j].items) {
      assert KeysFiled(groups + [[]], blocks[j].handle.offset, blocks[j].items);
    }
  }

  lemma PendingHasKeys(crc: Checksum, b: Built)
    requires Ok(crc, b) && b.pending.Just?
    ensures b.added != [] && |b.added[|b.added| - 1].key| >= 8
  {
    hide FlatPairs, AllStored, PairsAscending, IndexFits;
    LastAdded(b.Segs());
  }

  lemma NotPending(crc: Checksum, b: Built)
    requires Ok(crc, b) && b.open != []
    ensures b.pending.Nothing?
  {
    hide FlatPairs, AllStored, KeysOk, SepsFit, IndexFits;
  }

  lemma LaterGroup(groups: Groups, offset: nat, blocks: seq<TableBlock>, open: seq<Item>, later: nat)
    requires Filed(groups, offset, blocks, open) && offset <= later
    ensures |groups| <= later / FILTER_BASE + 1
  {
    hide AllFiled, KeysFiled;
  }

  // ---- a finished table ----

  /** "filter." */
  const FILTER_PREFIX: seq<byte> := [102, 105, 108, 116, 101, 114, 46]

  datatype Piece = Piece(handle: Handle, contents: seq<byte>)

  datatype Layout = Layout(blocks: seq<TableBlock>, seps: seq<seq<byte>>, filter: Maybe<Piece>, groups: Groups,
    meta: TableBlock, index: TableBlock) {
    function Segs(): Segments {
      SegmentsOf(blocks, [])
    }
  }

  /** Blocks that hold the pairs, and an index block with a separator for each. */
  ghost predicate DataFits(crc: Checksum, file: seq<byte>, t: Layout, added: seq<Pair>) {
    && AllStored(crc, file, t.blocks) && BlockFits(crc, file, t.index)
    && FlatPairs(t.Segs()) == added && KeysOk(added)
    && SepsFit(t.Segs(), t.seps) && |t.seps| == |t.blocks| && IndexFits(t.index.items, t.seps, t.blocks)
  }

  /** Filters for the keys of all blocks. */
  ghost predicate FilterStored(crc: Checksum, policy: Blooms.BloomFilterPolicy, file: seq<byte>, filter: Maybe<Piece>,
      groups: Groups, blocks: seq<TableBlock>)
  {
    filter.Just? ==>
      && StoredAt(crc, file, filter.value.handle, filter.value.contents) && AllFiled(groups, blocks)
      && (|filter.value.contents| < TWO_32 ==> IsFilterBlock(policy, filter.value.contents, groups))
  }

  /** The metaindex block says where the filters are. */
  ghost predicate MetaFits(name: seq<byte>, filter: Maybe<Handle>, items: seq<Item>) {
    if filter.Just? then |items| == 1 && items[0].pair == Pair(FILTER_PREFIX + name, EncodeHandle(filter.value))
    else items == []
  }

  function HandleOf(filter: Maybe<Piece>): Maybe<Handle> {
    if filter.Just? then Just(filter.value.handle) else Nothing
  }

  ghost predicate FooterFits(file: seq<byte>, t: Layout) {
    var footer := EncodeFooter(Footer(t.meta.handle, t.index.handle));
    |footer| <= |file| && file[|file| - |footer|..] == footer
  }

  ghost predicate IsTable(crc: Checksum, policy: Blooms.BloomFilterPolicy, name: seq<byte>, file: seq<byte>, t: Layout,
      added: seq<Pair>)
  {
    && DataFits(crc, file, t, added) && FilterStored(crc, policy, file, t.filter, t.groups, t.blocks)
    && BlockFits(crc, file, t.meta) && MetaFits(name, HandleOf(t.filter), t.meta.items) && FooterFits(file, t)
  }

  // ---- appending ----

  lemma StillThere(crc: Checksum, file: seq<byte>, later: seq<byte>, b: TableBlock)
    requires file <= later && BlockFits(crc, file, b)
    ensures BlockFits(crc, later, b)
  {
    hide BlockFits;
    assert later == file + later[|file|..];
    BlockStillFits(crc, file, later[|file|..], b);
  }

  lemma AllStillThere(crc: Checksum, file: seq<byte>, later: seq<byte>, blocks: seq<TableBlock>)
    requires file <= later && AllStored(crc, file, blocks)
    ensures AllStored(crc, later, blocks)
  {
    hide AllStored;
    assert later == file + later[|file|..];
    StoredOn(crc, file, later[|file|..], blocks);
  }

  lemma FilterStillThere(crc: Checksum, policy: Blooms.BloomFilterPolicy, file: seq<byte>, later: seq<byte>,
      filter: Maybe<Piece>, groups: Groups, blocks: seq<TableBlock>)
    requires file <= later && FilterStored(crc, policy, file, filter, groups, blocks)
    ensures FilterStored(crc, policy, later, filter, groups, blocks)
  {
    hide StoredAt, IsFilterBlock, AllFiled;
    assert later == file + later[|file|..];
    if filter.Just? {
      StillStored(crc, file, later[|file|..], filter.value.handle, filter.value.contents);
    }
  }

  lemma OkStillThere(crc: Checksum, b: Built, file: seq<byte>)
    requires Ok(crc, b) && b.file <= file
    ensures Ok(crc, b.(file := file))
  {
    hide AllStored, FlatPairs, KeysOk, IndexFits, SepsFit;
    AllStillThere(crc, b.file, file, b.blocks);
    assert b.(file := file).Segs() == b.Segs();
  }

  /** The last index entry. */
  lemma OkLast(crc: Checksum, b: Built, sep: seq<byte>, i: Item)
    requires Ok(crc, b) && b.pending.Just? && i.pair == Pair(sep, EncodeHandle(b.pending.value))
    requires b.added != [] ==>
      Shortened(b.added[|b.added| - 1].key, sep) && CompareInternal(b.added[|b.added| - 1].key, sep) <= 0
    ensures Sealed(crc, WithEntry(b, sep, i))
  {
    hide AllStored, FlatPairs, KeysOk, IndexFits, CompareInternal, Shortened;
    EntryFits(b.index, b.seps, b.blocks, sep, i);
    LastAdded(b.Segs());
    LastSepAdded(b.Segs(), b.seps, sep);
  }

  /** Every block is in the index. */
  ghost predicate Sealed(crc: Checksum, b: Built) {
    && b.open == [] && AllStored(crc, b.file, b.blocks) && FlatPairs(b.Segs()) == b.added && KeysOk(b.added)
    && SepsFit(b.Segs(), b.seps) && |b.seps| == |b.blocks| && IndexFits(b.index, b.seps, b.blocks)
  }

  lemma NothingDue(crc: Checksum, b: Built)
    requires Ok(crc, b) && b.open == [] && b.pending.Nothing?
    ensures Sealed(crc, b)
  {
    hide AllStored, FlatPairs, KeysOk, IndexFits, SepsFit;
  }

  lemma SealedFits(crc: Checksum, b: Built, file: seq<byte>, t: Layout)
    requires Sealed(crc, b) && b.file <= file && BlockFits(crc, file, t.index) && t.index.items == b.index
    requires t.blocks == b.blocks && t.seps == b.seps
    ensures DataFits(crc, file, t, b.added)
  {
    hide AllStored, FlatPairs, KeysOk, IndexFits, SepsFit, BlockFits;
    AllStillThere(crc, b.file, file, b.blocks);
  }
}
