/** The iterator every sorted source offers. */
module Iterators {
  import opened InternalKeys

  /** How many entries lie at or before the position p of an iterator; an
      iterator that ran off the front is invalid, that is at |es|. */
  function Ahead(es: seq<Entry>, p: nat): nat {
    if p < |es| then p + 1 else 0
  }

  /** An iterator over one sorted list of entries: a memtable, a block, the list
      of a level's files.  Running off either end leaves it invalid, which is
      the position |entries|. */
  class InternalIterator {
    const entries: seq<Entry>
    var pos: nat

    ghost predicate Valid()
      reads this
    {
      Sorted(entries) && pos <= |entries|
    }

    constructor (es: seq<Entry>)
      requires Sorted(es)
      ensures Valid() && entries == es && pos == |es|
    {
      entries, pos := es, |es|;
    }

    predicate AtEntry()
      reads this
    {
      pos < |entries|
    }

    function Key(): InternalKey
      requires AtEntry()
      reads this
    {
      entries[pos].key
    }

    function Value(): string
      requires AtEntry()
      reads this
    {
      entries[pos].value
    }

    method SeekToFirst()
      requires Valid()
      modifies this
      ensures Valid() && pos == 0
    {
      pos := 0;
    }

    method SeekToLast()
      requires Valid()
      modifies this
      ensures Valid() && pos == if entries == [] then 0 else |entries| - 1
    {
      pos := if |entries| == 0 then 0 else |entries| - 1;
    }

    method Seek(target: InternalKey)
      requires Valid()
      modifies this
      ensures Valid() && pos == SeekIndex(entries, target)
    {
      pos := SeekIndex(entries, target);
    }

    method Next()
      requires Valid() && AtEntry()
      modifies this
      ensures Valid() && pos == old(pos) + 1
    {
      pos := pos + 1;
    }

    method Prev()
      requires Valid() && AtEntry()
      modifies this
      ensures Valid() && pos == if old(pos) == 0 then |entries| else old(pos) - 1
    {
      pos := if pos == 0 then |entries| else pos - 1;
    }
  }
}
