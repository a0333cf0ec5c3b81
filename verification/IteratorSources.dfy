/** What NewInternalIterator merges: the memtables, the files of level 0 and
    one concatenating iterator per deeper level. */
module IteratorSources {
  import opened InternalKeys
  import opened Versions
  import opened LsmState
  import opened CompactionFiles
  import opened MergingIter
  import opened TwoLevelIter
  import opened IteratorView

  datatype Source = MemTable | ImmTable | Level0File(index: nat) | DeepLevel(level: nat)

  predicate Proper(db: Db, src: Source) {
    match src
    case MemTable => true
    case ImmTable => db.imm.Some?
    case Level0File(i) => i < |db.current.files[0]|
    case DeepLevel(l) => 0 < l < NUM_LEVELS && db.current.files[l] != []
  }

  function Concatenation(files: seq<File>): (r: seq<Entry>)
    ensures forall e :: e in r <==> InFiles(files, e)
  {
    if files == [] then []
    else
      var f := files[|files| - 1];
      var rest := files[..|files| - 1];
      assert forall g :: g in files <==> g in rest || g == f;
      Concatenation(rest) + f.entries
  }

  function Contents(db: Db, src: Source): seq<Entry>
    requires Proper(db, src)
  {
    match src
    case MemTable => db.mem
    case ImmTable => db.imm.value
    case Level0File(i) => db.current.files[0][i].entries
    case DeepLevel(l) => Concatenation(db.current.files[l])
  }

  function Level0Sources(n: nat): seq<Source> {
    seq(n, i requires 0 <= i < n => Level0File(i))
  }

  function DeepSources(v: Version, l: nat): seq<Source>
    requires l <= NUM_LEVELS
    decreases NUM_LEVELS - l
  {
    if l == NUM_LEVELS then []
    else (if v.files[l] == [] then [] else [DeepLevel(l)]) + DeepSources(v, l + 1)
  }

  function Sources(db: Db): seq<Source> {
    Memtables(db) + Level0Sources(|db.current.files[0]|) + DeepSources(db.current, 1)
  }

  ghost predicate EachOnce(srcs: seq<Source>) {
    forall i, j :: 0 <= i < j < |srcs| ==> srcs[i] != srcs[j]
  }

  lemma EachOnceInBoth(a: seq<Source>, b: seq<Source>)
    requires EachOnce(a) && EachOnce(b) && forall src :: src in a ==> src !in b
    ensures EachOnce(a + b)
  {
    forall i, j | 0 <= i < j < |a + b| ensures (a + b)[i] != (a + b)[j] {
      if i < |a| { assert (a + b)[i] in a; }
      if j >= |a| { assert (a + b)[j] in b; }
    }
  }

  function Memtables(db: Db): seq<Source> {
    if db.imm.Some? then [MemTable, ImmTable] else [MemTable]
  }

  lemma Level0SourcesAre(n: nat)
    ensures EachOnce(Level0Sources(n))
    ensures forall src :: src in Level0Sources(n) <==> src.Level0File? && src.index < n
  {
    forall src ensures src in Level0Sources(n) <==> src.Level0File? && src.index < n {
      if src.Level0File? && src.index < n { assert Level0Sources(n)[src.index] == src; }
    }
  }

  lemma {:induction false} DeepSourcesAre(v: Version, l: nat)
    requires l <= NUM_LEVELS
    ensures EachOnce(DeepSources(v, l))
    ensures forall src ::
        src in DeepSources(v, l) <==> src.DeepLevel? && l <= src.level < NUM_LEVELS && v.files[src.level] != []
    decreases NUM_LEVELS - l
  {
    if l < NUM_LEVELS {
      DeepSourcesAre(v, l + 1);
      if v.files[l] != [] {
        EachOnceInBoth([DeepLevel(l)], DeepSources(v, l + 1));
      }
    }
  }

  /** Every source once, and nothing else. */
  lemma SourcesAreProper(db: Db)
    ensures forall src :: src in Sources(db) <==> Proper(db, src)
    ensures EachOnce(Sources(db))
  {
    var mems, files, deep := Memtables(db), Level0Sources(|db.current.files[0]|), DeepSources(db.current, 1);
    hide *;
    assert EachOnce(mems) && forall src ::
        src in mems <==> src.MemTable? || (src.ImmTable? && db.imm.Some?) by { MemtablesAre(db); }
    Level0SourcesAre(|db.current.files[0]|);
    DeepSourcesAre(db.current, 1);
    EachOnceInBoth(files, deep);
    EachOnceInBoth(mems, files + deep);
    SourcesAreParts(db);
    forall src ensures src in Sources(db) <==> Proper(db, src) {
      ProperIs(db, src);
    }
  }

  lemma MemtablesAre(db: Db)
    ensures EachOnce(Memtables(db))
    ensures forall src :: src in Memtables(db) <==> src.MemTable? || (src.ImmTable? && db.imm.Some?)
  {
  }

  lemma SourcesAreParts(db: Db)
    ensures Sources(db) == Memtables(db) + (Level0Sources(|db.current.files[0]|) + DeepSources(db.current, 1))
  {
  }

  lemma ProperIs(db: Db, src: Source)
    ensures Proper(db, src) <==>
      (|| src.MemTable? || (src.ImmTable? && db.imm.Some?)
       || (src.Level0File? && src.index < |db.current.files[0]|)
       || (src.DeepLevel? && 1 <= src.level < NUM_LEVELS && db.current.files[src.level] != []))
  {
  }

  /** Sources of a well-formed database share no internal key. */
  lemma SourcesApart(db: Db, a: Source, b: Source)
    requires Shape(db) && Proper(db, a) && Proper(db, b) && a != b
    ensures DifferentKeys(Contents(db, a), Contents(db, b))
  {
    hide Sorted, LevelSorted, RunningOk, AllFromHistory, SnapshotsOk;
    forall e, f | e in Contents(db, a) && f in Contents(db, b) && e.key == f.key ensures false {
      EntryOfSource(db, a, e);
      EntryOfSource(db, b, f);
      OrderedSources(db, a, b, e, f);
    }
  }

  ghost predicate HeldIn(db: Db, src: Source, e: Entry)
    requires Proper(db, src)
  {
    match src
    case MemTable => e in db.mem
    case ImmTable => InImm(db, e)
    case Level0File(i) => At(db.current, Level0(db.current.files[0][i].number), e)
    case DeepLevel(l) => At(db.current, Level(l), e)
  }

  lemma EntryOfSource(db: Db, src: Source, e: Entry)
    requires Proper(db, src) && e in Contents(db, src)
    ensures HeldIn(db, src, e)
  {
  }

  function PlaceInVersion(db: Db, src: Source): Place
    requires Proper(db, src) && !src.MemTable? && !src.ImmTable?
  {
    match src
    case Level0File(i) => Level0(db.current.files[0][i].number)
    case DeepLevel(l) => Level(l)
  }

  lemma OrderedPlaces(db: Db, a: Source, b: Source)
    requires WellShaped(db.current) && Proper(db, a) && Proper(db, b) && a != b
    requires !a.MemTable? && !a.ImmTable? && !b.MemTable? && !b.ImmTable?
    ensures Newer(PlaceInVersion(db, a), PlaceInVersion(db, b)) || Newer(PlaceInVersion(db, b), PlaceInVersion(db, a))
  {
  }

  lemma OrderedSources(db: Db, a: Source, b: Source, e: Entry, f: Entry)
    requires Shape(db) && Proper(db, a) && Proper(db, b) && a != b
    requires HeldIn(db, a, e) && HeldIn(db, b, f)
    ensures e.key != f.key
  {
    hide Sorted, RunningOk, AllFromHistory, SnapshotsOk, InFiles, LevelSorted, At, NumbersOk, NewestFirst;
    if a.MemTable? || a.ImmTable? || b.MemTable? || b.ImmTable? {
      assert !a.MemTable? && !a.ImmTable? ==> InVersion(db.current, e);
      assert !b.MemTable? && !b.ImmTable? ==> InVersion(db.current, f);
      assert e in (if a.MemTable? then Mem(db) else if a.ImmTable? then Imm(db) else Stored(db.current));
      assert f in (if b.MemTable? then Mem(db) else if b.ImmTable? then Imm(db) else Stored(db.current));
    } else {
      OrderedPlaces(db, a, b);
      StrictlyNewer(db, PlaceInVersion(db, a), PlaceInVersion(db, b), e, f);
    }
  }

  lemma StrictlyNewer(db: Db, p: Place, q: Place, e: Entry, f: Entry)
    requires NewestFirst(db.current) && At(db.current, p, e) && At(db.current, q, f) && (Newer(p, q) || Newer(q, p))
    ensures e.key != f.key
  {
  }

  // ---- the lists the children run over ----

  /** The files of a sorted level, end to end, are sorted. */
  lemma {:induction false} ConcatenationSorted(files: seq<File>)
    requires LevelSorted(files)
    ensures Sorted(Concatenation(files))
    ensures forall e :: e in Concatenation(files) ==> files != [] && AtMost(e.key, Largest(files[|files| - 1]))
  {
    if files != [] {
      var n := |files| - 1;
      var rest, f := files[..n], files[n];
      ConcatenationSorted(rest);
      forall e | e in Concatenation(rest) ensures Less(e.key, Smallest(f)) {
        assert Less(Largest(files[n - 1]), Smallest(files[n]));
      }
      forall e | e in f.entries ensures AtMost(Smallest(f), e.key) && AtMost(e.key, Largest(f)) {
        EntriesInRange(f, e);
      }
      forall e | e in Concatenation(rest) ensures AtMost(e.key, Largest(f)) {
        EntriesInRange(f, f.entries[0]);
      }
      SortedJoin(Concatenation(rest), f.entries, Smallest(f));
    }
  }

  lemma SortedJoin(a: seq<Entry>, b: seq<Entry>, k: InternalKey)
    requires Sorted(a) && Sorted(b)
    requires forall e :: e in a ==> Less(e.key, k)
    requires forall e :: e in b ==> AtMost(k, e.key)
    ensures Sorted(a + b)
  {
    forall i, j | 0 <= i < |a| && 0 <= j < |b| ensures Less(a[i].key, b[j].key) {
      assert a[i] in a && b[j] in b;
    }
  }

  /** The index of a concatenating iterator: one entry per file, under its
      largest key; opening its value yields the file. */
  ghost predicate IndexesLevel(index: seq<Entry>, open: string -> seq<Entry>, files: seq<File>) {
    |index| == |files| && forall i ::
        0 <= i < |files| ==> index[i].key == Largest(files[i]) && open(index[i].value) == files[i].entries
  }

  /** So the two-level iterator over a level runs over its files end to end. */
  lemma LevelRangesApart(index: seq<Entry>, open: string -> seq<Entry>, files: seq<File>)
    requires LevelSorted(files) && IndexesLevel(index, open, files)
    ensures Separates(index, open) && Flat(index, open) == Concatenation(files)
  {
    LargestSorted(index, open, files);
    forall i | 0 <= i < |index| ensures BlockFits(index, open, i) {
      forall e | e in open(index[i].value)
        ensures !Less(index[i].key, e.key) && (i > 0 ==> Less(index[i - 1].key, e.key))
      {
        EntriesInRange(files[i], e);
      }
    }
    FrontIsConcatenation(index, open, files, |files|);
    assert files[..|files|] == files;
  }

  lemma LargestSorted(index: seq<Entry>, open: string -> seq<Entry>, files: seq<File>)
    requires LevelSorted(files) && IndexesLevel(index, open, files)
    ensures Sorted(index)
  {
    forall i, j | 0 <= i < j < |index| ensures Less(index[i].key, index[j].key) {
      EntriesInRange(files[j], files[j].entries[0]);
    }
  }

  lemma {:induction false} FrontIsConcatenation(index: seq<Entry>, open: string -> seq<Entry>, files: seq<File>, n: nat)
    requires IndexesLevel(index, open, files) && n <= |files|
    ensures Front(index, open, n) == Concatenation(files[..n])
  {
    if n > 0 {
      FrontIsConcatenation(index, open, files, n - 1);
      assert files[..n][..n - 1] == files[..n - 1];
    }
  }

  function MergeLists(lists: seq<seq<Entry>>): (r: seq<Entry>)
    ensures forall e :: e in r <==> exists i :: 0 <= i < |lists| && e in lists[i]
  {
    if lists == [] then []
    else
      var n := |lists| - 1;
      var rest := MergeLists(lists[..n]);
      assert forall i :: 0 <= i < n ==> lists[..n][i] == lists[i];
      MergeEntries(rest, lists[n])
  }

  ghost predicate AllApart(lists: seq<seq<Entry>>) {
    forall i, j :: 0 <= i < j < |lists| ==> DifferentKeys(lists[i], lists[j])
  }

  lemma {:induction false} ListsMerge(lists: seq<seq<Entry>>)
    requires (forall i :: 0 <= i < |lists| ==> Sorted(lists[i])) && AllApart(lists)
    ensures Merges(MergeLists(lists), lists)
  {
    if lists != [] {
      var n := |lists| - 1;
      ListsMerge(lists[..n]);
      forall e, f | e in MergeLists(lists[..n]) && f in lists[n] ensures e.key != f.key {
        var i :| 0 <= i < n && e in lists[..n][i];
        assert DifferentKeys(lists[i], lists[n]);
      }
      MergeEntriesSorted(MergeLists(lists[..n]), lists[n]);
    }
  }

  function Lists(db: Db): seq<seq<Entry>> {
    SourcesAreProper(db);
    seq(|Sources(db)|, i requires 0 <= i < |Sources(db)| => assert Sources(db)[i] in Sources(db); Contents(db,
        Sources(db)[i]))
  }

  /** The internal iterator of a well-formed database runs over one sorted list
      that holds each stored version exactly once. */
  lemma InternalIteratorStreams(db: Db) returns (es: seq<Entry>)
    requires Shape(db)
    ensures Merges(es, Lists(db)) && StreamOf(db, es)
  {
    es := MergeLists(Lists(db));
    var srcs := Sources(db);
    SourcesAreProper(db);
    hide Sources, MergeLists, Shape;
    forall i | 0 <= i < |srcs| ensures Sorted(Lists(db)[i]) {
      assert srcs[i] in srcs;
      ContentsSorted(db, srcs[i]);
    }
    forall i, j | 0 <= i < j < |srcs| ensures DifferentKeys(Lists(db)[i], Lists(db)[j]) {
      assert srcs[i] in srcs && srcs[j] in srcs;
      SourcesApart(db, srcs[i], srcs[j]);
    }
    ListsMerge(Lists(db));
    forall e ensures e in es <==> Holds(db, e) {
      if Holds(db, e) {
        var src := SourceOfEntry(db, e);
        var i :| 0 <= i < |srcs| && srcs[i] == src;
        assert e in Lists(db)[i];
      } else if e in es {
        var i :| 0 <= i < |Lists(db)| && e in Lists(db)[i];
        assert srcs[i] in srcs;
        EntryOfSource(db, srcs[i], e);
        HeldInHolds(db, srcs[i], e);
      }
    }
  }

  lemma ContentsSorted(db: Db, src: Source)
    requires Shape(db) && Proper(db, src)
    ensures Sorted(Contents(db, src))
  {
    if src.DeepLevel? { ConcatenationSorted(db.current.files[src.level]); }
  }

  lemma HeldInHolds(db: Db, src: Source, e: Entry)
    requires Proper(db, src) && HeldIn(db, src, e)
    ensures Holds(db, e)
  {
  }

  lemma SourceOfEntry(db: Db, e: Entry) returns (src: Source)
    requires Holds(db, e)
    ensures Proper(db, src) && e in Contents(db, src)
  {
    if e in db.mem {
      src := MemTable;
    } else if InImm(db, e) {
      src := ImmTable;
    } else {
      var p :| At(db.current, p, e);
      match p
      case Level(l) => src := DeepLevel(l);
      case Level0(n) =>
        var f :| f in db.current.files[0] && f.number == n && e in f.entries;
        var i :| 0 <= i < |db.current.files[0]| && db.current.files[0][i] == f;
        src := Level0File(i);
    }
  }
}
