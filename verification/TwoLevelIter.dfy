/** class TwoLevelIterator: an index of blocks read as one list.  Tables use it
    over their data blocks and levels over their files. */
module TwoLevelIter {
  import opened InternalKeys
  import opened Iterators

  /** What lies in front of block i when all blocks are laid end to end. */
  ghost function Front(index: seq<Entry>, open: string -> seq<Entry>, i: nat): seq<Entry>
    requires i <= |index|
  {
    if i == 0 then [] else Front(index, open, i - 1) + open(index[i - 1].value)
  }

  ghost function Flat(index: seq<Entry>, open: string -> seq<Entry>): seq<Entry> {
    Front(index, open, |index|)
  }

  ghost predicate BlockFits(index: seq<Entry>, open: string -> seq<Entry>, i: nat)
    requires i < |index|
  {
    && Sorted(open(index[i].value))
    && (forall e :: e in open(index[i].value) ==> !Less(index[i].key, e.key))
    && (i > 0 ==> forall e :: e in open(index[i].value) ==> Less(index[i - 1].key, e.key))
  }

  /** Each index key is at or after the keys of its block and before those of
      the next one.  Blocks may be empty. */
  ghost predicate Separates(index: seq<Entry>, open: string -> seq<Entry>) {
    Sorted(index) && forall i :: 0 <= i < |index| ==> BlockFits(index, open, i)
  }

  lemma {:induction false} FrontBelow(index: seq<Entry>, open: string -> seq<Entry>, i: nat)
    requires Separates(index, open) && i <= |index|
    ensures Sorted(Front(index, open, i))
    ensures i > 0 ==> forall e :: e in Front(index, open, i) ==> !Less(index[i - 1].key, e.key)
  {
    if i > 0 {
      FrontBelow(index, open, i - 1);
      assert BlockFits(index, open, i - 1);
      var a, b := Front(index, open, i - 1), open(index[i - 1].value);
      forall j, k | 0 <= j < |a| && 0 <= k < |b| ensures Less(a[j].key, b[k].key) {
        assert a[j] in a && b[k] in b;
      }
      forall e | e in a ensures !Less(index[i - 1].key, e.key) {
        if i > 1 { assert Less(index[i - 2].key, index[i - 1].key); }
      }
    }
  }

  lemma {:induction false} FrontIsPrefix(index: seq<Entry>, open: string -> seq<Entry>, i: nat, n: nat)
    requires i <= n <= |index|
    ensures Front(index, open, i) <= Front(index, open, n)
  {
    if i < n {
      FrontIsPrefix(index, open, i, n - 1);
    }
  }

  /** Entry p of block i in the whole. */
  lemma InFlat(index: seq<Entry>, open: string -> seq<Entry>, i: nat, p: nat)
    requires i < |index| && p < |open(index[i].value)|
    ensures |Front(index, open, i)| + p < |Flat(index, open)|
    ensures Flat(index, open)[|Front(index, open, i)| + p] == open(index[i].value)[p]
  {
    FrontIsPrefix(index, open, i + 1, |index|);
  }

  /** Whatever follows block i is after its index key. */
  lemma {:induction false} BeyondBlock(index: seq<Entry>, open: string -> seq<Entry>, i: nat, n: nat)
    requires Separates(index, open) && i < n <= |index|
    ensures forall k ::
        |Front(index, open, i + 1)| <= k < |Front(index, open, n)| ==> Less(index[i].key, Front(index, open, n)[k].key)
  {
    if i + 1 < n {
      BeyondBlock(index, open, i, n - 1);
      assert BlockFits(index, open, n - 1);
      var a, b := Front(index, open, n - 1), open(index[n - 1].value);
      forall k | 0 <= k < |b| ensures Less(index[i].key, b[k].key) {
        assert b[k] in b;
        assert i == n - 2 || Less(index[i].key, index[n - 2].key);
      }
    }
  }

  lemma FrontBeforeTarget(index: seq<Entry>, open: string -> seq<Entry>, target: InternalKey, i: nat)
    requires Separates(index, open) && i <= |index| && (i > 0 ==> Less(index[i - 1].key, target))
    ensures |Front(index, open, i)| <= |Flat(index, open)|
    ensures forall k :: 0 <= k < |Front(index, open, i)| ==> Less(Flat(index, open)[k].key, target)
  {
    hide Separates;
    FrontBelow(index, open, i);
    FrontIsPrefix(index, open, i, |index|);
    var front := Front(index, open, i);
    forall k | 0 <= k < |front| ensures Less(Flat(index, open)[k].key, target) {
      assert front[k] in front;
    }
  }

  lemma RestAtTarget(index: seq<Entry>, open: string -> seq<Entry>, target: InternalKey, i: nat)
    requires Separates(index, open) && i < |index| && !Less(index[i].key, target)
    ensures forall k ::
        |Front(index, open, i + 1)| <= k < |Flat(index, open)| ==> !Less(Flat(index, open)[k].key, target)
  {
    BeyondBlock(index, open, i, |index|);
  }

  /** Seeking the index and then its block finds the place in the whole. */
  lemma SeekInBlock(index: seq<Entry>, open: string -> seq<Entry>, target: InternalKey)
    requires Separates(index, open)
    ensures var i := SeekIndex(index, target);
      SeekIndex(Flat(index, open), target) ==
        if i == |index| then |Flat(index, open)|
        else |Front(index, open, i)| + SeekIndex(open(index[i].value), target)
  {
    hide Separates, Less, Front;
    var i, flat := SeekIndex(index, target), Flat(index, open);
    FrontBeforeTarget(index, open, target, i);
    if i < |index| {
      var front, block := |Front(index, open, i)|, open(index[i].value);
      RestAtTarget(index, open, target, i);
      assert |Front(index, open, i + 1)| == front + |block| by { FrontGrows(index, open, i); }
      forall q | 0 <= q < |block| ensures front + q < |flat| && flat[front + q] == block[q] {
        InFlat(index, open, i, q);
      }
      FrontIsPrefix(index, open, i + 1, |index|);
      SeekInMiddle(flat, target, front, block);
    } else {
      SeekIndexUnique(flat, target, |flat|);
    }
  }

  lemma FrontGrows(index: seq<Entry>, open: string -> seq<Entry>, i: nat)
    requires i < |index|
    ensures |Front(index, open, i + 1)| == |Front(index, open, i)| + |open(index[i].value)|
  {
  }

  lemma SeekInMiddle(flat: seq<Entry>, target: InternalKey, front: nat, block: seq<Entry>)
    requires front + |block| <= |flat|
    requires forall k :: 0 <= k < front ==> Less(flat[k].key, target)
    requires forall q :: 0 <= q < |block| ==> flat[front + q] == block[q]
    requires forall k :: front + |block| <= k < |flat| ==> !Less(flat[k].key, target)
    ensures SeekIndex(flat, target) == front + SeekIndex(block, target)
  {
    hide Less;
    var p := SeekIndex(block, target);
    forall j | front <= j < front + p ensures Less(flat[j].key, target) {
      assert flat[front + (j - front)] == block[j - front];
    }
    if p < |block| { assert flat[front + p] == block[p]; }
    SeekIndexUnique(flat, target, front + p);
  }

  lemma SeekIndexUnique(es: seq<Entry>, target: InternalKey, i: nat)
    requires i <= |es|
    requires forall j :: 0 <= j < i ==> Less(es[j].key, target)
    requires i < |es| ==> !Less(es[i].key, target)
    ensures SeekIndex(es, target) == i
  {
  }

  class TwoLevelIterator {
    const index: InternalIterator
    const open: string -> seq<Entry>        // block_function
    var data: InternalIterator?
    var dataBlockHandle: string

    ghost function All(): seq<Entry> {
      Flat(index.entries, open)
    }

    /** What holds throughout every operation. */
    ghost predicate Wired()
      reads this, index, data
    {
      && index.Valid() && Separates(index.entries, open)
      && (data != null ==> data != index && data.Valid() && data.entries == open(dataBlockHandle))
    }

    /** The data iterator, if any, runs over the block the index stands at. */
    ghost predicate InStep()
      reads this, index, data
    {
      && (data == null <==> !index.AtEntry())
      && (data != null ==> data.entries == open(index.Value()))
    }

    ghost predicate Valid()
      reads this, index, data
    {
      && Wired() && InStep()
      && (data != null ==> data.AtEntry())
    }

    /** Where the iterator stands in the whole. */
    ghost function Pos(): nat
      requires index.Valid()
      reads this, index, data
    {
      if data == null || !index.AtEntry() then |All()|
      else |Front(index.entries, open, index.pos)| + data.pos
    }

    /** How many entries lie at or before it. */
    ghost function Behind(): nat
      requires index.Valid()
      reads this, index, data
    {
      if data == null || !index.AtEntry() then 0
      else |Front(index.entries, open, index.pos)| + Ahead(data.entries, data.pos)
    }

    constructor (idx: InternalIterator, blockFunction: string -> seq<Entry>)
      requires idx.Valid() && !idx.AtEntry() && Separates(idx.entries, blockFunction)
      ensures Valid() && index == idx && open == blockFunction && Pos() == |All()| && data == null
    {
      index, open, data, dataBlockHandle := idx, blockFunction, null, "";
    }

    predicate AtEntry()
      reads this, data
    {
      data != null && data.AtEntry()
    }

    function Key(): InternalKey
      requires AtEntry()
      reads this, data
    {
      data.Key()
    }

    function Value(): string
      requires AtEntry()
      reads this, data
    {
      data.Value()
    }

    /** Readers see the entry of the whole list at Pos. */
    lemma CurrentOfBlocks()
      requires Valid()
      ensures AtEntry() <==> Pos() < |All()|
      ensures AtEntry() ==> Key() == All()[Pos()].key && Value() == All()[Pos()].value
    {
      if data != null {
        InFlat(index.entries, open, index.pos, data.pos);
      }
    }

    method InitDataBlock()
      requires Wired()
      modifies this
      ensures Wired() && InStep()
      ensures data == null || data == old(data) || fresh(data)
    {
      if !index.AtEntry() {
        data := null;
      } else {
        var handle := index.Value();
        if data != null && handle == dataBlockHandle {
          // The data iterator already runs over this block.
        } else {
          assert BlockFits(index.entries, open, index.pos);
          dataBlockHandle := handle;
          data := new InternalIterator(open(handle));
        }
      }
    }

    method SkipEmptyDataBlocksForward()
      requires Wired() && InStep()
      modifies this, index, data
      ensures Valid() && Pos() == old(Pos())
      ensures data == null || data == old(data) || fresh(data)
    {
      hide Separates, Front;
      while data == null || !data.AtEntry()
        invariant Wired() && InStep() && Pos() == old(Pos())
        invariant data == null || data == old(data) || fresh(data)
        decreases |index.entries| - index.pos
      {
        if !index.AtEntry() {
          data := null;
          return;
        }
        FrontGrows(index.entries, open, index.pos);
        index.Next();
        InitDataBlock();
        if data != null { data.SeekToFirst(); }
      }
    }

    method SkipEmptyDataBlocksBackward()
      requires Wired() && InStep()
      modifies this, index, data
      ensures Valid() && Pos() == if old(Behind()) == 0 then |All()| else old(Behind()) - 1
      ensures data == null || data == old(data) || fresh(data)
    {
      hide Separates;
      while data == null || !data.AtEntry()
        invariant Wired() && InStep() && Behind() == old(Behind())
        invariant data == null || data == old(data) || fresh(data)
        decreases if index.AtEntry() then index.pos + 1 else 0
      {
        if !index.AtEntry() {
          data := null;
          return;
        }
        index.Prev();
        InitDataBlock();
        if data != null { data.SeekToLast(); }
      }
    }

    method Seek(target: InternalKey)
      requires Valid()
      modifies this, index, data
      ensures Valid() && Pos() == SeekIndex(All(), target)
      ensures data == null || data == old(data) || fresh(data)
    {
      hide Separates, Front;
      index.Seek(target);
      InitDataBlock();
      if data != null { data.Seek(target); }
      SeekInBlock(index.entries, open, target);
      SkipEmptyDataBlocksForward();
    }

    method SeekToFirst()
      requires Valid()
      modifies this, index, data
      ensures Valid() && Pos() == 0
      ensures data == null || data == old(data) || fresh(data)
    {
      hide Separates;
      index.SeekToFirst();
      InitDataBlock();
      if data != null { data.SeekToFirst(); }
      SkipEmptyDataBlocksForward();
    }

    method SeekToLast()
      requires Valid()
      modifies this, index, data
      ensures Valid() && Pos() == if |All()| == 0 then 0 else |All()| - 1
      ensures data == null || data == old(data) || fresh(data)
    {
      hide Separates;
      index.SeekToLast();
      InitDataBlock();
      if data != null { data.SeekToLast(); }
      SkipEmptyDataBlocksBackward();
    }

    method Next()
      requires Valid() && AtEntry()
      modifies this, index, data
      ensures Valid() && Pos() == old(Pos()) + 1
      ensures data == null || data == old(data) || fresh(data)
    {
      hide Separates, Front;
      data.Next();
      SkipEmptyDataBlocksForward();
    }

    method Prev()
      requires Valid() && AtEntry()
      modifies this, index, data
      ensures Valid() && Pos() == if old(Pos()) == 0 then |All()| else old(Pos()) - 1
      ensures data == null || data == old(data) || fresh(data)
    {
      hide Separates, Front;
      data.Prev();
      SkipEmptyDataBlocksBackward();
    }
  }
}
