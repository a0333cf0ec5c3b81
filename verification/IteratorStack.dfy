/** DBImpl::NewIterator: the database iterator over the merging iterator over
    the sources of a database, from end to end. */
module IteratorStack {
  import opened InternalKeys
  import opened Versions
  import opened History
  import opened LsmState
  import opened Iterators
  import opened MergingIter
  import opened TwoLevelIter
  import opened DbIter
  import opened IteratorView
  import opened IteratorSources

  // ---- every iterator is a cursor over one list ----

  datatype Call = ToFirst | ToLast | SeekTo(target: InternalKey) | Forth | Back

  /** Where a call takes the position of a cursor; Next and Prev are for an entry
      only. */
  function Moved(es: seq<Entry>, p: nat, call: Call): nat {
    match call
    case ToFirst => 0
    case ToLast => if es == [] then 0 else |es| - 1
    case SeekTo(target) => SeekIndex(es, target)
    case Forth => if p < |es| then p + 1 else p
    case Back => if p < |es| then (if p == 0 then |es| else p - 1) else p
  }

  function MovedBy(es: seq<Entry>, p: nat, calls: seq<Call>): nat {
    if calls == [] then p else Moved(es, MovedBy(es, p, calls[..|calls| - 1]), calls[|calls| - 1])
  }

  lemma OneMoreCall(es: seq<Entry>, p: nat, calls: seq<Call>, i: nat)
    requires i < |calls|
    ensures MovedBy(es, p, calls[..i + 1]) == Moved(es, MovedBy(es, p, calls[..i]), calls[i])
  {
    assert calls[..i + 1][..i] == calls[..i];
  }

  method DriveList(it: InternalIterator, calls: seq<Call>)
    requires it.Valid()
    modifies it
    ensures it.Valid() && it.pos == MovedBy(it.entries, old(it.pos), calls)
  {
    for i := 0 to |calls|
      invariant it.Valid() && it.pos == MovedBy(it.entries, old(it.pos), calls[..i])
    {
      OneMoreCall(it.entries, old(it.pos), calls, i);
      match calls[i] {
        case ToFirst => it.SeekToFirst();
        case ToLast => it.SeekToLast();
        case SeekTo(target) => it.Seek(target);
        case Forth => if it.AtEntry() { it.Next(); }
        case Back => if it.AtEntry() { it.Prev(); }
      }
    }
    assert calls[..|calls|] == calls;
  }

  /** Merging refines one sorted list under any calls, turns included. */
  method DriveMerged(m: MergingIterator, calls: seq<Call>)
    requires m.Valid()
    modifies m, m.children
    ensures m.Valid() && m.pos == MovedBy(m.merged, old(m.pos), calls)
  {
    hide MergingIterator.Valid, SeekIndex;
    for i := 0 to |calls|
      invariant m.Valid() && m.pos == MovedBy(m.merged, old(m.pos), calls[..i])
    {
      OneMoreCall(m.merged, old(m.pos), calls, i);
      m.CurrentIs();
      match calls[i] {
        case ToFirst => m.SeekToFirst();
        case ToLast => m.SeekToLast();
        case SeekTo(target) => m.Seek(target);
        case Forth => if m.AtEntry() { m.Next(); }
        case Back => if m.AtEntry() { m.Prev(); }
      }
    }
    assert calls[..|calls|] == calls;
  }

  /** So does an index over blocks. */
  method DriveBlocks(t: TwoLevelIterator, calls: seq<Call>)
    requires t.Valid()
    modifies t, t.index, t.data
    ensures t.Valid() && t.Pos() == MovedBy(t.All(), old(t.Pos()), calls)
    ensures t.data == null || t.data == old(t.data) || fresh(t.data)
  {
    hide SeekIndex, Flat;
    for i := 0 to |calls|
      invariant t.Valid() && t.Pos() == MovedBy(t.All(), old(t.Pos()), calls[..i])
      invariant t.data == null || t.data == old(t.data) || fresh(t.data)
    {
      OneMoreCall(t.All(), old(t.Pos()), calls, i);
      t.CurrentOfBlocks();
      match calls[i] {
        case ToFirst => t.SeekToFirst();
        case ToLast => t.SeekToLast();
        case SeekTo(target) => t.Seek(target);
        case Forth => if t.AtEntry() { t.Next(); }
        case Back => if t.AtEntry() { t.Prev(); }
      }
    }
    assert calls[..|calls|] == calls;
  }

  /** The iterator over a level, file by file, cannot be told from one over the
      list of all that the level holds: it may take that one's place among the
      children of a merging iterator. */
  method LevelStandsIn(t: TwoLevelIterator, it: InternalIterator, calls: seq<Call>)
    requires t.Valid() && it.Valid() && it.entries == t.All() && it.pos == t.Pos() && t.index != it && t.data != it
    modifies t, t.index, t.data, it
    ensures t.Valid() && it.Valid() && it.pos == t.Pos() && (t.AtEntry() <==> it.AtEntry())
    ensures t.AtEntry() ==> t.Key() == it.Key() && t.Value() == it.Value()
  {
    hide SeekIndex, Flat;
    DriveBlocks(t, calls);
    DriveList(it, calls);
    t.CurrentOfBlocks();
  }

  /** Version::NewConcatenatingIterator; `name` is what the index says of a file,
      and `open` the file it stands for. */
  method NewLevelIterator(files: seq<File>, name: File -> string, open: string -> seq<Entry>)
    returns (t: TwoLevelIterator)
    requires LevelSorted(files) && forall f :: f in files ==> open(name(f)) == f.entries
    ensures fresh(t) && fresh(t.index) && t.data == null
    ensures t.Valid() && t.All() == Concatenation(files) && t.Pos() == |t.All()|
  {
    var index := seq(|files|, i requires 0 <= i < |files| => Entry(Largest(files[i]), name(files[i])));
    assert forall i :: 0 <= i < |files| ==> files[i] in files;
    LevelRangesApart(index, open, files);
    hide Flat, Separates;
    var it := new InternalIterator(index) by { assert Sorted(index) by { IndexIsSorted(index, open); } }
    t := new TwoLevelIterator(it, open);
  }

  lemma IndexIsSorted(index: seq<Entry>, open: string -> seq<Entry>)
    requires Separates(index, open)
    ensures Sorted(index)
  {
  }

  // ---- the iterator of a database ----

  method NewChildren(lists: seq<seq<Entry>>) returns (cs: seq<InternalIterator>)
    requires forall i :: 0 <= i < |lists| ==> Sorted(lists[i])
    ensures |cs| == |lists| && fresh(cs)
    ensures forall k :: 0 <= k < |cs| ==> cs[k].Valid() && cs[k].entries == lists[k]
    ensures forall k, l :: 0 <= k < l < |cs| ==> cs[k] != cs[l]
  {
    hide Sorted;
    cs := [];
    for i := 0 to |lists|
      invariant |cs| == i && fresh(cs)
      invariant forall k :: 0 <= k < i ==> cs[k].Valid() && cs[k].entries == lists[k]
      invariant forall k, l :: 0 <= k < l < i ==> cs[k] != cs[l]
    {
      var child := new InternalIterator(lists[i]);
      cs := cs + [child];
    }
  }

  /** DBImpl::NewInternalIterator: a child for every source. */
  method NewInternalIterator(db: Db) returns (m: MergingIterator)
    requires Shape(db)
    ensures fresh(m) && fresh(m.children) && m.Valid() && m.pos == |m.merged| && StreamOf(db, m.merged)
    ensures |m.children| == |Lists(db)|
    ensures forall i :: 0 <= i < |m.children| ==> m.children[i].entries == Lists(db)[i]
  {
    hide Shape, Merges, Sorted, Lists, StreamOf;
    ghost var es := InternalIteratorStreams(db);
    SourcesSorted(es, Lists(db));
    var cs := NewChildren(Lists(db));
    assert seq(|cs|, i requires 0 <= i < |cs| => cs[i].entries) == Lists(db);
    m := new MergingIterator(cs, es);
  }

  lemma SourcesSorted(es: seq<Entry>, lists: seq<seq<Entry>>)
    requires Merges(es, lists)
    ensures forall i :: 0 <= i < |lists| ==> Sorted(lists[i])
  {
  }

  /** DBImpl::NewIterator at snapshot s. */
  method NewIterator(db: Db, s: SequenceNumber) returns (it: DBIter)
    requires Shape(db) && ReadsRight(db) && db.floor <= s <= |db.ops|
    ensures fresh(it) && fresh(it.iter) && fresh(it.iter.children)
    ensures it.Valid() && !it.valid && it.Live() == Replay(db.ops[..s])
  {
    hide Shape, ReadsRight, MergingIterator.Valid, View, Replay;
    HistoryFits(db);
    var m := NewInternalIterator(db);
    it := new DBIter(m, s);
    IteratorShowsHistory(db, m.merged, s);
  }

  ghost predicate Listed(pairs: seq<(UserKey, string)>, live: map<UserKey, string>) {
    && (forall i, j :: 0 <= i < j < |pairs| ==> pairs[i].0 < pairs[j].0)
    && (forall i :: 0 <= i < |pairs| ==> pairs[i].0 in live && live[pairs[i].0] == pairs[i].1)
  }

  ghost function KeysOf(pairs: seq<(UserKey, string)>): set<UserKey> {
    if pairs == [] then {} else KeysOf(pairs[..|pairs| - 1]) + {pairs[|pairs| - 1].0}
  }

  /** What is left to list. */
  function Rest(pairs: seq<(UserKey, string)>): Range {
    if pairs == [] then All else After(pairs[|pairs| - 1].0)
  }

  /** Iterating from SeekToFirst lists the whole map after the first s operations,
      in key order, each key once with its value: through the memtables, the
      level-0 files and the levels of any well-formed database. */
  method Scan(db: Db, s: SequenceNumber) returns (pairs: seq<(UserKey, string)>)
    requires Shape(db) && ReadsRight(db) && db.floor <= s <= |db.ops|
    ensures Listed(pairs, Replay(db.ops[..s])) && KeysOf(pairs) == Replay(db.ops[..s]).Keys
  {
    hide Shape, ReadsRight, Replay, View, DBIter.Valid, Listed, KeysOf, DBIter.OnLeast;
    var it := NewIterator(db, s);
    ghost var live := it.Live();
    ghost var rest := live.Keys;
    pairs := [];
    it.SeekToFirst();
    NothingListed(live);
    while it.valid
      invariant it.Valid() && fresh(it) && fresh(it.iter) && fresh(it.iter.children) && it.Live() == live
      invariant it.OnLeast(Rest(pairs))
      invariant Listed(pairs, live) && KeysOf(pairs) == live.Keys - rest && rest <= live.Keys
      invariant forall k :: k in rest <==> k in live && Rest(pairs).Has(k)
      decreases |rest|
    {
      LeastIs(it, Rest(pairs));
      ghost var key := it.Key();
      OneMoreListed(pairs, live, rest, key);
      pairs := pairs + [(it.Key(), it.Value())];
      rest := rest - {key};
      it.Next();
    }
    LeastIs(it, Rest(pairs));
    assert forall k :: k in live ==> !Rest(pairs).Has(k);
    assert forall k :: k !in rest;
    assert live.Keys - rest == live.Keys;
  }

  lemma NothingListed(live: map<UserKey, string>)
    ensures Listed([], live) && KeysOf([]) == {}
  {
  }

  lemma LeastIs(it: DBIter, range: Range)
    requires it.Valid() && it.OnLeast(range)
    ensures it.valid ==>
      && it.Key() in it.Live() && range.Has(it.Key()) && it.Value() == it.Live()[it.Key()]
      && forall k :: k in it.Live() && range.Has(k) ==> it.Key() <= k
    ensures !it.valid ==> forall k :: k in it.Live() ==> !range.Has(k)
  {
  }

  lemma OneMoreListed(before: seq<(UserKey, string)>, live: map<UserKey, string>, rest: set<UserKey>, key: UserKey)
    requires key in live && Listed(before, live) && Rest(before).Has(key)
    requires rest <= live.Keys && KeysOf(before) == live.Keys - rest
    requires forall k :: k in rest <==> k in live && Rest(before).Has(k)
    requires forall k :: k in live && Rest(before).Has(k) ==> key <= k
    ensures var pairs := before + [(key, live[key])];
      && Listed(pairs, live) && KeysOf(pairs) == live.Keys - (rest - {key})
      && Rest(pairs) == After(key) && forall k :: k in rest - {key} <==> k in live && k > key
  {
    hide Listed, KeysOf;
    PairAdded(before, live, key);
    RestShrinks(live, rest, Rest(before), key);
    assert live.Keys - (rest - {key}) == (live.Keys - rest) + {key};
  }

  lemma RestShrinks(live: map<UserKey, string>, rest: set<UserKey>, range: Range, key: UserKey)
    requires key in live && range.Has(key) && !range.Before?
    requires forall k :: k in rest <==> k in live && range.Has(k)
    requires forall k :: k in live && range.Has(k) ==> key <= k
    ensures key in rest && forall k :: k in rest - {key} <==> k in live && k > key
  {
    forall k ensures k in rest - {key} <==> k in live && k > key {
      assert k in rest <==> k in live && range.Has(k);
    }
  }

  lemma PairAdded(before: seq<(UserKey, string)>, live: map<UserKey, string>, key: UserKey)
    requires key in live && Listed(before, live) && Rest(before).Has(key)
    ensures var pairs := before + [(key, live[key])]; Listed(pairs, live) && KeysOf(pairs) == KeysOf(before) + {key}
  {
    KeyAdded(before, (key, live[key]));
    hide KeysOf;
    forall i | 0 <= i < |before| ensures before[i].0 < key {
      if i < |before| - 1 { assert before[i].0 < before[|before| - 1].0; }
    }
  }

  lemma KeyAdded(before: seq<(UserKey, string)>, pair: (UserKey, string))
    ensures KeysOf(before + [pair]) == KeysOf(before) + {pair.0}
  {
    assert (before + [pair])[..|before|] == before;
  }
}
