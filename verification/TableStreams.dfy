/** Table::NewIterator: the index block and the data blocks of a table file, as
    bytes, are what TwoLevelIterator takes for one sorted list of entries. */
module TableStreams {
  import opened Coding
  import opened BlockFormat
  import opened TableFormat
  import opened TableLayouts
  import opened TableOrder
  import opened BlockIter
  import opened ByteOrder
  import opened InternalKeys
  import TwoLevelIter
  import opened IteratorStack

  // ---- bytes as entries ----

  /** The place of a user key in the bytewise order, and bytes as values. */
  datatype Reading = Reading(place: seq<byte> -> real, text: seq<byte> -> string)

  ghost predicate InPlace(r: Reading) {
    forall a, b :: ByteOrder.Compare(a, b) < 0 <==> r.place(a) < r.place(b)
  }

  /** ParseInternalKey succeeds. */
  predicate IsInternal(key: seq<byte>) {
    |key| >= 8 && Tag(key) % 256 <= 1
  }

  function KeyOf(r: Reading, key: seq<byte>): InternalKey
    requires IsInternal(key)
  {
    InternalKey(r.place(User(key)), Tag(key) / 256, if Tag(key) % 256 == 1 then TypeValue else TypeDeletion)
  }

  ghost predicate AllInternal(pairs: seq<Pair>) {
    forall i :: 0 <= i < |pairs| ==> IsInternal(pairs[i].key)
  }

  function EntryOf(r: Reading, p: Pair): Entry
    requires IsInternal(p.key)
  {
    Entry(KeyOf(r, p.key), r.text(p.value))
  }

  function EntriesOf(r: Reading, pairs: seq<Pair>): (es: seq<Entry>)
    requires AllInternal(pairs)
    ensures |es| == |pairs| && forall i :: 0 <= i < |es| ==> es[i] == EntryOf(r, pairs[i])
  {
    seq(|pairs|, i requires 0 <= i < |pairs| => EntryOf(r, pairs[i]))
  }

  lemma SamePlace(r: Reading, a: seq<byte>, b: seq<byte>)
    requires InPlace(r)
    ensures r.place(a) == r.place(b) <==> a == b
    ensures ByteOrder.Compare(a, b) < 0 <==> r.place(a) < r.place(b)
    ensures ByteOrder.Compare(a, b) == 0 <==> a == b
  {
    hide ByteOrder.Compare;
    CompareMirrors(a, b);
  }

  /** The order of encoded internal keys is that of what they encode. */
  lemma EncodedOrder(r: Reading, a: seq<byte>, b: seq<byte>)
    requires InPlace(r) && IsInternal(a) && IsInternal(b)
    ensures CompareInternal(a, b) < 0 <==> Less(KeyOf(r, a), KeyOf(r, b))
  {
    hide ByteOrder.Compare, InPlace, Tag, User;
    SamePlace(r, User(a), User(b));
    SamePlace(r, User(b), User(a));
    CompareMirrors(User(a), User(b));
    TagOrder(Tag(a), Tag(b));
  }

  lemma TagOrder(a: nat, b: nat)
    requires a % 256 <= 1 && b % 256 <= 1
    ensures a > b <==> a / 256 > b / 256 || (a / 256 == b / 256 && a % 256 == 1 && b % 256 == 0)
  {
  }

  /** Seeking in a block and in its entries ends at the same place. */
  lemma SeekCarriesOver(r: Reading, items: seq<Item>, target: seq<byte>, from: nat)
    requires InPlace(r) && AllInternal(PairsOf(items)) && IsInternal(target) && from <= |items|
    ensures FirstAtLeast(CompareInternal, items, target, from)
        == from + SeekIndex(EntriesOf(r, PairsOf(items))[from..], KeyOf(r, target))
    decreases |items| - from
  {
    hide InPlace, CompareInternal, Less, KeyOf;
    var es := EntriesOf(r, PairsOf(items));
    if from < |items| {
      EncodedOrder(r, Key(items, from), target);
      assert es[from..][0] == es[from] && es[from..][1..] == es[from + 1..];
      if CompareInternal(Key(items, from), target) < 0 {
        SeekCarriesOver(r, items, target, from + 1);
      }
    }
  }

  // ---- the table ----

  /** Opening the value of an index entry yields the block it leads to. */
  ghost predicate OpensBlocks(r: Reading, t: Layout, open: string -> seq<Entry>) {
    |t.index.items| == |t.blocks| && forall j :: 0 <= j < |t.blocks| ==>
      && AllInternal(PairsOf(t.blocks[j].items))
      && open(r.text(t.index.items[j].pair.value)) == EntriesOf(r, PairsOf(t.blocks[j].items))
  }

  lemma SeparatorIsInternal(start: seq<byte>, sep: seq<byte>)
    requires IsInternal(start) && Shortened(start, sep)
    ensures IsInternal(sep)
  {
    assert SEEK_TAG % 256 == 1;
  }

  /** The parts of DataFits that the order of keys rests on. */
  ghost predicate Ordered(t: Layout, added: seq<Pair>) {
    && FlatPairs(t.Segs()) == added && PairsAscending(added) && SepsFit(t.Segs(), t.seps)
    && |t.seps| == |t.blocks| == |t.Segs()| == |t.index.items|
    && (forall j :: 0 <= j < |t.blocks| ==> t.Segs()[j] == t.blocks[j].items && Key(t.index.items, j) == t.seps[j])
  }

  lemma OrderOfTable(crc: Checksum, file: seq<byte>, t: Layout, added: seq<Pair>)
    requires DataFits(crc, file, t, added)
    ensures Ordered(t, added)
  {
    hide BlockFits, FlatPairs, SepsFit, AllStored, EncodeHandle;
  }

  lemma KeysOfBlock(t: Layout, added: seq<Pair>, j: nat, i: nat)
    requires Ordered(t, added) && AllInternal(added) && j < |t.blocks| && i < |t.blocks[j].items|
    ensures IsInternal(Key(t.blocks[j].items, i))
  {
    hide FlatPairs, SepsFit, IsInternal, PairsAscending;
    SegmentAt(t.Segs(), j, i);
  }

  lemma IndexIsInternal(t: Layout, added: seq<Pair>)
    requires Ordered(t, added) && AllInternal(added)
    ensures AllInternal(PairsOf(t.index.items))
  {
    hide FlatPairs, IsInternal, PairsAscending, Shortened, CompareInternal;
    forall j | 0 <= j < |PairsOf(t.index.items)| ensures IsInternal(PairsOf(t.index.items)[j].key) {
      assert SepFits(t.Segs(), t.seps[j], j);
      KeysOfBlock(t, added, j, |t.blocks[j].items| - 1);
      SeparatorIsInternal(Last(t.Segs()[j]), t.seps[j]);
    }
  }

  lemma IndexSorted(r: Reading, t: Layout, added: seq<Pair>)
    requires InPlace(r) && Ordered(t, added) && AllInternal(added) && AllInternal(PairsOf(t.index.items))
    ensures Sorted(EntriesOf(r, PairsOf(t.index.items)))
  {
    hide FlatPairs, IsInternal, PairsAscending, SepsFit, CompareInternal, InPlace, KeyOf, Less;
    var es := EntriesOf(r, PairsOf(t.index.items));
    forall i, j | 0 <= i < j < |es| ensures Less(es[i].key, es[j].key) {
      SepsAllAscend(t.Segs(), t.seps, i, j);
      EncodedOrder(r, Key(t.index.items, i), Key(t.index.items, j));
    }
  }

  /** Where a key of block j lies between the index keys. */
  lemma BetweenSeparators(t: Layout, added: seq<Pair>, j: nat, i: nat)
    requires Ordered(t, added) && j < |t.blocks| && i < |t.blocks[j].items|
    ensures CompareInternal(t.seps[j], Key(t.blocks[j].items, i)) >= 0
    ensures j > 0 ==> CompareInternal(t.seps[j - 1], Key(t.blocks[j].items, i)) < 0
  {
    hide FlatPairs, PairsAscending, Shortened, CompareInternal;
    var segs, seg := t.Segs(), t.blocks[j].items;
    SegmentAscends(segs, j);
    assert SepFits(segs, t.seps[j], j);
    InternalMirrors(Key(seg, i), t.seps[j]);
    InternalMirrors(Key(seg, i), Key(seg, i));
    assert i < |seg| - 1 ==> CompareInternal(Key(seg, i), Last(seg)) < 0;
    InternalChains(Key(seg, i), Last(seg), t.seps[j]);
    if j > 0 {
      assert SepFits(segs, t.seps[j - 1], j - 1);
      assert i > 0 ==> CompareInternal(First(seg), Key(seg, i)) < 0;
      InternalChains(t.seps[j - 1], First(seg), Key(seg, i));
    }
  }

  lemma BlockSeparated(r: Reading, t: Layout, added: seq<Pair>, open: string -> seq<Entry>, j: nat)
    requires InPlace(r) && Ordered(t, added) && AllInternal(added) && AllInternal(PairsOf(t.index.items))
    requires OpensBlocks(r, t, open) && j < |t.blocks|
    ensures TwoLevelIter.BlockFits(EntriesOf(r, PairsOf(t.index.items)), open, j)
  {
    hide FlatPairs, PairsAscending, SepsFit, CompareInternal, InPlace, KeyOf, Less, IsInternal;
    var index, items := EntriesOf(r, PairsOf(t.index.items)), t.blocks[j].items;
    var es := EntriesOf(r, PairsOf(items));
    SegmentAscends(t.Segs(), j);
    forall i, k | 0 <= i < k < |es| ensures Less(es[i].key, es[k].key) {
      EncodedOrder(r, Key(items, i), Key(items, k));
    }
    forall e | e in es
      ensures !Less(index[j].key, e.key) && (j > 0 ==> Less(index[j - 1].key, e.key))
    {
      var i :| 0 <= i < |es| && es[i] == e;
      BetweenSeparators(t, added, j, i);
      EncodedOrder(r, t.seps[j], Key(items, i));
      if j > 0 { EncodedOrder(r, t.seps[j - 1], Key(items, i)); }
    }
  }

  lemma EntriesJoin(r: Reading, a: seq<Pair>, b: seq<Pair>)
    requires AllInternal(a) && AllInternal(b)
    ensures AllInternal(a + b) && EntriesOf(r, a + b) == EntriesOf(r, a) + EntriesOf(r, b)
  {
    hide IsInternal, EntryOf;
  }

  ghost predicate YieldsSegment(r: Reading, seg: seq<Item>, e: Entry, open: string -> seq<Entry>) {
    AllInternal(PairsOf(seg)) && open(e.value) == EntriesOf(r, PairsOf(seg))
  }

  lemma {:induction false} FrontIsFlat(r: Reading, segs: Segments, index: seq<Entry>, open: string -> seq<Entry>,
      n: nat)
    requires n <= |segs| == |index| && forall j :: 0 <= j < |segs| ==> YieldsSegment(r, segs[j], index[j], open)
    ensures AllInternal(FlatPairs(segs[..n]))
    ensures TwoLevelIter.Front(index, open, n) == EntriesOf(r, FlatPairs(segs[..n]))
  {
    hide AllInternal, FlatPairs, EntriesOf, PairsOf;
    if n > 0 {
      FrontIsFlat(r, segs, index, open, n - 1);
      assert segs[..n] == segs[..n - 1] + [segs[n - 1]];
      FlatSnoc(segs[..n - 1], segs[n - 1]);
      assert YieldsSegment(r, segs[n - 1], index[n - 1], open);
      EntriesJoin(r, FlatPairs(segs[..n - 1]), PairsOf(segs[n - 1]));
    } else {
      NoEntries(r);
      assert segs[..0] == [];
    }
  }

  lemma NoEntries(r: Reading)
    ensures FlatPairs([]) == [] && AllInternal([]) && EntriesOf(r, []) == []
  {
  }

  /** The pairs that were added to the table, as entries, are what its index and
      blocks make when laid end to end; and the index separates the blocks, so
      all that is proved of TwoLevelIterator holds of an iterator over a table. */
  lemma TableIsTwoLevel(r: Reading, crc: Checksum, file: seq<byte>, t: Layout, added: seq<Pair>,
      open: string -> seq<Entry>)
    requires InPlace(r) && DataFits(crc, file, t, added) && AllInternal(added) && OpensBlocks(r, t, open)
    ensures AllInternal(PairsOf(t.index.items))
    ensures var index := EntriesOf(r, PairsOf(t.index.items));
      TwoLevelIter.Separates(index, open) && TwoLevelIter.Flat(index, open) == EntriesOf(r, added)
  {
    hide FlatPairs, Ordered, InPlace, IsInternal, TwoLevelIter.BlockFits, OpensBlocks, DataFits;
    OrderOfTable(crc, file, t, added);
    IndexIsInternal(t, added);
    IndexSorted(r, t, added);
    Counts(t, added);
    forall j | 0 <= j < |t.blocks| ensures TwoLevelIter.BlockFits(EntriesOf(r, PairsOf(t.index.items)), open, j) {
      BlockSeparated(r, t, added, open, j);
    }
    var index := EntriesOf(r, PairsOf(t.index.items));
    forall j | 0 <= j < |t.Segs()| ensures YieldsSegment(r, t.Segs()[j], index[j], open) {
      BlockYields(r, t, open, j);
    }
    FrontIsFlat(r, t.Segs(), index, open, |t.blocks|);
    assert t.Segs()[..|t.blocks|] == t.Segs();
  }

  lemma BlockYields(r: Reading, t: Layout, open: string -> seq<Entry>, j: nat)
    requires OpensBlocks(r, t, open) && j < |t.blocks| && AllInternal(PairsOf(t.index.items))
    ensures YieldsSegment(r, t.blocks[j].items, EntriesOf(r, PairsOf(t.index.items))[j], open)
  {
    hide AllInternal, IsInternal;
  }

  lemma Counts(t: Layout, added: seq<Pair>)
    requires Ordered(t, added)
    ensures |t.index.items| == |t.blocks| && FlatPairs(t.Segs()) == added && |t.Segs()| == |t.blocks|
    ensures forall j :: 0 <= j < |t.blocks| ==> t.Segs()[j] == t.blocks[j].items
  {
  }

  // ---- a block's iterator ----

  /** The bytes of every seek target encode it. */
  ghost predicate TargetsFit(r: Reading, calls: seq<Call>, bytes: InternalKey -> seq<byte>) {
    forall i :: 0 <= i < |calls| && calls[i].SeekTo? ==>
      IsInternal(bytes(calls[i].target)) && KeyOf(r, bytes(calls[i].target)) == calls[i].target
  }

  lemma WithinItems(it: BlockIter.Iter, p: nat)
    requires it.At(p)
    ensures p <= |it.items|
  {
  }

  /** Block::Iter, parsing shared prefixes and searching restart points, refines
      the list of the block's entries under any calls. */
  method DriveBlock(it: BlockIter.Iter, ghost r: Reading, calls: seq<Call>, bytes: InternalKey -> seq<byte>,
      ghost p0: nat) returns (ghost p: nat)
    requires it.Wired() && !it.corrupted && it.At(p0) && it.comparator == CompareInternal
    requires InPlace(r) && AllInternal(PairsOf(it.items)) && TargetsFit(r, calls, bytes)
    modifies it
    ensures !it.corrupted && it.At(p) && p == MovedBy(EntriesOf(r, PairsOf(it.items)), p0, calls)
  {
    hide InPlace, IsInternal, KeyOf, CompareInternal, BlockIter.Iter.Wired, BlockIter.Iter.At, SeekIndex, FirstAtLeast;
    p := p0;
    WithinItems(it, p0);
    ghost var es := EntriesOf(r, PairsOf(it.items));
    for i := 0 to |calls|
      invariant !it.corrupted && it.At(p) && p <= |es| && p == MovedBy(es, p0, calls[..i])
    {
      OneMoreCall(es, p0, calls, i);
      it.OnPair(p);
      match calls[i] {
        case ToFirst =>
          it.SeekToFirst();
          p := 0;
        case ToLast =>
          it.SeekToLast();
          p := if |es| == 0 then 0 else |es| - 1;
        case SeekTo(target) =>
          it.Seek(bytes(target));
          SeekCarriesOver(r, it.items, bytes(target), 0);
          assert es[0..] == es;
          p := FirstAtLeast(CompareInternal, it.items, bytes(target), 0);
        case Forth =>
          if it.IsValid() {
            it.Next(p);
            p := p + 1;
          }
        case Back =>
          if it.IsValid() {
            it.Prev(p);
            p := if p == 0 then |es| else p - 1;
          }
      }
    }
    assert calls[..|calls|] == calls;
  }
}
