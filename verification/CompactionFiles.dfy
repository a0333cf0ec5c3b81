/** Reading the inputs of a compaction in order, and cutting its survivors into
    output files. */
module CompactionFiles {
  import opened InternalKeys
  import opened Versions
  import opened CompactionWork

  // ---- merging the inputs of a compaction ----

  function MergeEntries(a: seq<Entry>, b: seq<Entry>): (r: seq<Entry>)
    ensures forall e :: e in r <==> e in a || e in b
  {
    if a == [] then b
    else if b == [] then a
    else if Less(b[0].key, a[0].key) then
      var rest := MergeEntries(a, b[1..]);
      assert forall e :: e in b <==> e == b[0] || e in b[1..];
      [b[0]] + rest
    else
      var rest := MergeEntries(a[1..], b);
      assert forall e :: e in a <==> e == a[0] || e in a[1..];
      [a[0]] + rest
  }

  ghost predicate DifferentKeys(a: seq<Entry>, b: seq<Entry>) {
    forall e, f :: e in a && f in b ==> e.key != f.key
  }

  lemma MergeEntriesSorted(a: seq<Entry>, b: seq<Entry>)
    requires Sorted(a) && Sorted(b) && DifferentKeys(a, b)
    ensures Sorted(MergeEntries(a, b))
  {
    if a == [] || b == [] {
    } else if Less(b[0].key, a[0].key) {
      MergeEntriesSorted(a, b[1..]);
      ConsSorted(b[0], MergeEntries(a, b[1..]), a, b[1..]);
    } else {
      assert a[0] in a && b[0] in b;
      MergeEntriesSorted(a[1..], b);
      ConsSorted(a[0], MergeEntries(a[1..], b), a[1..], b);
    }
  }

  lemma ConsSorted(e: Entry, rest: seq<Entry>, a: seq<Entry>, b: seq<Entry>)
    requires Sorted(rest) && (forall f :: f in rest <==> f in a || f in b)
    requires forall k :: 0 <= k < |a| ==> Less(e.key, a[k].key)
    requires forall k :: 0 <= k < |b| ==> Less(e.key, b[k].key)
    ensures Sorted([e] + rest)
  {
    forall j | 0 <= j < |rest| ensures Less(e.key, rest[j].key) {
      assert rest[j] in rest;
    }
  }

  /** What iterating MakeInputIterator yields. */
  function MergeAll(files: seq<File>): (r: seq<Entry>)
    ensures forall e :: e in r <==> InFiles(files, e)
  {
    if files == [] then []
    else
      var rest := MergeAll(files[1..]);
      assert forall f :: f in files <==> f == files[0] || f in files[1..];
      MergeEntries(files[0].entries, rest)
  }

  ghost predicate NoSharedKeys(files: seq<File>) {
    forall i, j :: 0 <= i < j < |files| ==> DifferentKeys(files[i].entries, files[j].entries)
  }

  lemma MergeAllSorted(files: seq<File>)
    requires NoSharedKeys(files)
    ensures Sorted(MergeAll(files))
  {
    if files != [] {
      MergeAllSorted(files[1..]);
      forall e, f | e in files[0].entries && f in MergeAll(files[1..]) ensures e.key != f.key {
        var g :| g in files[1..] && f in g.entries;
        var k :| 0 <= k < |files[1..]| && files[1..][k] == g;
        assert DifferentKeys(files[0].entries, files[k + 1].entries);
      }
      MergeEntriesSorted(files[0].entries, MergeAll(files[1..]));
    }
  }

  // ---- output files ----

  function EntriesOf(files: seq<File>): (r: seq<seq<Entry>>)
    ensures |r| == |files| && forall i :: 0 <= i < |files| ==> r[i] == files[i].entries
  {
    seq(|files|, i requires 0 <= i < |files| => files[i].entries)
  }

  method MakeOutputFiles(outputs: seq<seq<Entry>>, next: nat, fileSize: seq<Entry> -> nat) returns (files: seq<File>)
    requires OneVersionEach(Flatten(outputs))
    requires forall k :: 0 <= k < |outputs| ==> outputs[k] != []
    ensures |files| == |outputs|
    ensures forall i :: 0 <= i < |files| ==> files[i].number == next + i && files[i].size == fileSize(outputs[i])
    ensures EntriesOf(files) == outputs && LevelSorted(files)
    ensures forall e :: InFiles(files, e) <==> e in Flatten(outputs)
  {
    files := [];
    assert outputs[..0] == [];
    for i := 0 to |outputs|
      invariant |files| == i
      invariant forall k :: 0 <= k < i ==>
        files[k].number == next + k && files[k].entries == outputs[k] && files[k].size == fileSize(outputs[k])
      invariant LevelSorted(files)
      invariant forall e :: InFiles(files, e) <==> e in Flatten(outputs[..i])
    {
      assert outputs[..i + 1] == outputs[..i] + [outputs[i]];
      FlattenSnoc(outputs[..i], outputs[i]);
      FlattenPrefix(outputs, i + 1);
      var f := NextOutput(files, Flatten(outputs[..i]), FileMeta(next + i, fileSize(outputs[i]), outputs[i]));
      files := files + [f];
    }
    assert outputs[..|outputs|] == outputs;
  }

  lemma FlattenPrefix(outputs: seq<seq<Entry>>, n: nat)
    requires n <= |outputs| && OneVersionEach(Flatten(outputs))
    ensures OneVersionEach(Flatten(outputs[..n]))
    decreases |outputs| - n
  {
    if n == |outputs| {
      assert outputs[..n] == outputs;
    } else {
      FlattenPrefix(outputs, n + 1);
      assert outputs[..n + 1][..n] == outputs[..n];
      var a, b := Flatten(outputs[..n]), outputs[n];
      assert forall k :: 0 <= k < |a| ==> (a + b)[k] == a[k];
    }
  }

  /** The next chunk is a file that sorts after the files made so far. */
  method NextOutput(files: seq<File>, ghost before: seq<Entry>, meta: FileMeta) returns (f: File)
    requires LevelSorted(files) && meta.entries != []
    requires forall e :: InFiles(files, e) <==> e in before
    requires OneVersionEach(before + meta.entries)
    ensures f == meta
    ensures LevelSorted(files + [f])
    ensures forall e :: InFiles(files + [f], e) <==> e in before + meta.entries
  {
    ChunkFollows(before, meta.entries);
    f := meta;
    forall i | 0 <= i < |files| ensures Less(Largest(files[i]), Smallest(f)) {
      var last := files[i].entries[|files[i].entries| - 1];
      assert files[i] in files && last in files[i].entries;
      assert InFiles(files, last);
    }
    forall e ensures InFiles(files + [f], e) <==> e in before + meta.entries {
      assert forall g :: g in files + [f] <==> g in files || g == f;
    }
  }

  lemma ChunkFollows(before: seq<Entry>, chunk: seq<Entry>)
    requires OneVersionEach(before + chunk)
    ensures Sorted(chunk)
    ensures forall e, d :: e in before && d in chunk ==> Less(e.key, d.key)
  {
    var all := before + chunk;
    forall i, j | 0 <= i < j < |chunk| ensures Less(chunk[i].key, chunk[j].key) {
      assert all[|before| + i] == chunk[i] && all[|before| + j] == chunk[j];
    }
    forall e, d | e in before && d in chunk ensures Less(e.key, d.key) {
      var i :| 0 <= i < |before| && before[i] == e;
      var j :| 0 <= j < |chunk| && chunk[j] == d;
      assert all[i] == e && all[|before| + j] == d;
    }
  }
}
