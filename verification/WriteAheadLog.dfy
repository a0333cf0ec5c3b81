/** Write batches, the memtable they make, and the log files that keep them. */
module WriteAheadLog {
  import opened InternalKeys
  import opened History
  import opened LsmState
  import opened LsmSteps

  /** A WriteBatch as logged: the number of its first operation, and the
      operations. */
  datatype Batch = Batch(first: nat, ops: seq<Op>)

  /** Sequence numbers continue from batch to batch after `from`. */
  predicate Chain(batches: seq<Batch>, from: nat) {
    batches == [] || (batches[0].first == from + 1 && Chain(batches[1..], from + |batches[0].ops|))
  }

  function OpsOf(batches: seq<Batch>): seq<Op> {
    if batches == [] then [] else batches[0].ops + OpsOf(batches[1..])
  }

  lemma {:induction false} OpsOfJoin(a: seq<Batch>, b: seq<Batch>)
    ensures OpsOf(a + b) == OpsOf(a) + OpsOf(b)
  {
    if a == [] {
      assert a + b == b;
    } else {
      assert (a + b)[1..] == a[1..] + b;
      OpsOfJoin(a[1..], b);
    }
  }

  lemma {:induction false} ChainJoin(a: seq<Batch>, b: seq<Batch>, from: nat)
    ensures Chain(a + b, from) <==> Chain(a, from) && Chain(b, from + |OpsOf(a)|)
  {
    if a == [] {
      assert a + b == b;
    } else {
      assert (a + b)[1..] == a[1..] + b && (a + b)[0] == a[0];
      ChainJoin(a[1..], b, from + |a[0].ops|);
    }
  }

  /** The memtable that holds operations a+1 .. b of the history. */
  function MemRange(ops: seq<Op>, a: nat, b: nat): seq<Entry>
    requires a <= b <= |ops| <= MAX_SEQUENCE_NUMBER
    decreases b
  {
    if a == b then [] else AddToMem(MemRange(ops, a, b - 1), EntryOf(ops, b))
  }

  ghost predicate InRange(ops: seq<Op>, a: nat, b: nat, e: Entry)
    requires |ops| <= MAX_SEQUENCE_NUMBER
  {
    a < e.key.sqn <= b && FromHistory(ops, e)
  }

  lemma OneMoreInRange(ops: seq<Op>, a: nat, b: nat, e: Entry)
    requires a < b <= |ops| <= MAX_SEQUENCE_NUMBER
    ensures InRange(ops, a, b, e) <==> InRange(ops, a, b - 1, e) || e == EntryOf(ops, b)
  {
  }

  lemma {:induction false} MemRangeHolds(ops: seq<Op>, a: nat, b: nat)
    requires a <= b <= |ops| <= MAX_SEQUENCE_NUMBER
    ensures Sorted(MemRange(ops, a, b))
    ensures forall e :: e in MemRange(ops, a, b) <==> InRange(ops, a, b, e)
    decreases b
  {
    hide AddToMem, Sorted, FromHistory, EntryOf;
    if a == b {
      SortedIfEmpty();
    } else {
      MemRangeHolds(ops, a, b - 1);
      var rest, last := MemRange(ops, a, b - 1), EntryOf(ops, b);
      forall f | f in rest ensures f.key != last.key {
        assert last.key.sqn == b by { KeyOfEntry(ops, b); }
      }
      forall e ensures e in MemRange(ops, a, b) <==> InRange(ops, a, b, e) {
        OneMoreInRange(ops, a, b, e);
      }
    }
  }

  lemma SortedIfEmpty()
    ensures Sorted([])
  {
  }

  lemma KeyOfEntry(ops: seq<Op>, b: nat)
    requires 0 < b <= |ops| <= MAX_SEQUENCE_NUMBER
    ensures EntryOf(ops, b).key.sqn == b
  {
  }

  lemma SameEntry(ops: seq<Op>, more: seq<Op>, b: nat)
    requires 0 < b <= |ops| && |ops + more| <= MAX_SEQUENCE_NUMBER
    ensures EntryOf(ops + more, b) == EntryOf(ops, b)
  {
  }

  lemma {:induction false} MemRangeOfPrefix(ops: seq<Op>, more: seq<Op>, a: nat, b: nat)
    requires a <= b <= |ops| && |ops + more| <= MAX_SEQUENCE_NUMBER
    ensures MemRange(ops + more, a, b) == MemRange(ops, a, b)
    decreases b
  {
    hide AddToMem, EntryOf;
    if a < b {
      MemRangeOfPrefix(ops, more, a, b - 1);
      SameEntry(ops, more, b);
    }
  }

  /** MemTableInserter: the operations of a batch get consecutive numbers. */
  function InsertOps(mem: seq<Entry>, first: nat, ops: seq<Op>): seq<Entry>
    requires first + |ops| <= MAX_SEQUENCE_NUMBER + 1
    decreases |ops|
  {
    if ops == [] then mem
    else
      var n := |ops| - 1;
      var rest := InsertOps(mem, first, ops[..n]);
      AddToMem(rest, Entry(InternalKey(ops[n].user, first + n, ops[n].kind), ops[n].value))
  }

  lemma SegmentFront(all: seq<Op>, m: nat, ops: seq<Op>)
    requires ops != [] && m + |ops| <= |all| && all[m..m + |ops|] == ops
    ensures all[m..m + |ops| - 1] == ops[..|ops| - 1] && all[m + |ops| - 1] == ops[|ops| - 1]
  {
    assert all[m..m + |ops| - 1] == all[m..m + |ops|][..|ops| - 1];
    assert all[m + |ops| - 1] == all[m..m + |ops|][|ops| - 1];
  }

  lemma LoggedEntry(all: seq<Op>, q: nat)
    requires 0 < q <= |all| <= MAX_SEQUENCE_NUMBER
    ensures EntryOf(all, q) == Entry(InternalKey(all[q - 1].user, q, all[q - 1].kind), all[q - 1].value)
  {
  }

  lemma InsertOpsUnfold(mem: seq<Entry>, first: nat, ops: seq<Op>)
    requires first + |ops| <= MAX_SEQUENCE_NUMBER + 1
    ensures ops == [] ==> InsertOps(mem, first, ops) == mem
    ensures ops != [] ==> var n := |ops| - 1;
      InsertOps(mem, first, ops) == AddToMem(InsertOps(mem, first, ops[..n]),
          Entry(InternalKey(ops[n].user, first + n, ops[n].kind), ops[n].value))
  {
    hide AddToMem;
  }

  lemma RangeUnfold(ops: seq<Op>, a: nat, b: nat)
    requires a < b <= |ops| <= MAX_SEQUENCE_NUMBER
    ensures MemRange(ops, a, b) == AddToMem(MemRange(ops, a, b - 1), EntryOf(ops, b))
  {
    hide AddToMem;
  }

  /** Replaying logged operations gives the memtable they were in. */
  lemma {:induction false} InsertOpsMakesRange(all: seq<Op>, a: nat, m: nat, ops: seq<Op>)
    requires a <= m && m + |ops| <= |all| <= MAX_SEQUENCE_NUMBER && all[m..m + |ops|] == ops
    ensures InsertOps(MemRange(all, a, m), m + 1, ops) == MemRange(all, a, m + |ops|)
    decreases |ops|
  {
    hide AddToMem, EntryOf, InsertOps, MemRange;
    InsertOpsUnfold(MemRange(all, a, m), m + 1, ops);
    if ops != [] {
      var n := |ops| - 1;
      SegmentFront(all, m, ops);
      InsertOpsMakesRange(all, a, m, ops[..n]);
      LoggedEntry(all, m + n + 1);
      RangeUnfold(all, a, m + |ops|);
    }
  }

  /** WriteBatchInternal::InsertInto on a running database: one Write each. */
  function WriteAll(db: Db, ops: seq<Op>): (n: Db)
    requires |db.ops| + |ops| < MAX_SEQUENCE_NUMBER
    ensures n.ops == db.ops + ops
    decreases |ops|
  {
    if ops == [] then db else Write(WriteAll(db, ops[..|ops| - 1]), ops[|ops| - 1])
  }

  lemma {:induction false} WriteAllIs(db: Db, ops: seq<Op>)
    requires |db.ops| + |ops| < MAX_SEQUENCE_NUMBER
    ensures var n := WriteAll(db, ops);
      && n == db.(mem := n.mem, ops := n.ops)
      && n.mem == InsertOps(db.mem, |db.ops| + 1, ops)
    decreases |ops|
  {
    hide AddToMem;
    if ops != [] {
      var k := |ops| - 1;
      WriteAllIs(db, ops[..k]);
      var before := WriteAll(db, ops[..k]);
      assert (before.ops + [ops[k]])[|before.ops|] == ops[k];
    }
  }

  /** The same writes to databases that hold the same. */
  lemma {:induction false} WriteAllHeld(a: Db, b: Db, ops: seq<Op>)
    requires a.ops == b.ops && |a.ops| + |ops| < MAX_SEQUENCE_NUMBER && Held(a) == Held(b)
    ensures Held(WriteAll(a, ops)) == Held(WriteAll(b, ops))
    decreases |ops|
  {
    hide AddToMem, Holds, EntryOf;
    if ops != [] {
      var k := |ops| - 1;
      WriteAllHeld(a, b, ops[..k]);
      var x, y := WriteAll(a, ops[..k]), WriteAll(b, ops[..k]);
      forall e ensures Holds(WriteAll(a, ops), e) <==> Holds(WriteAll(b, ops), e) {
        WriteHolds(x, ops[k], e);
        WriteHolds(y, ops[k], e);
        assert Holds(x, e) <==> e in Held(x);
        assert Holds(y, e) <==> e in Held(y);
      }
      SameHeld(WriteAll(a, ops), WriteAll(b, ops));
    }
  }

  lemma {:induction false} WriteAllKeepsShape(db: Db, ops: seq<Op>)
    requires Shape(db) && |db.ops| + |ops| < MAX_SEQUENCE_NUMBER
    ensures |WriteAll(db, ops).ops| == |db.ops| + |ops|
    ensures Shape(WriteAll(db, ops)) && (ReadsRight(db) ==> ReadsRight(WriteAll(db, ops)))
    decreases |ops|
  {
    hide Shape, Complete, ReadsRight;
    if ops != [] {
      var k := |ops| - 1;
      WriteAllKeepsShape(db, ops[..k]);
      WriteAllIs(db, ops[..k]);
      WriteKeepsShape(WriteAll(db, ops[..k]), ops[k]);
      if ReadsRight(db) { WriteKeepsReads(WriteAll(db, ops[..k]), ops[k]); }
    }
  }

  /** What was written later has later numbers. */
  lemma {:induction false} WriteAllAdds(db: Db, ops: seq<Op>, e: Entry)
    requires |db.ops| + |ops| < MAX_SEQUENCE_NUMBER
    ensures Holds(db, e) ==> Holds(WriteAll(db, ops), e)
    ensures Holds(WriteAll(db, ops), e) ==> Holds(db, e) || e.key.sqn > |db.ops|
    decreases |ops|
  {
    hide Holds;
    if ops != [] {
      var k := |ops| - 1;
      WriteAllIs(db, ops[..k]);
      WriteAllAdds(db, ops[..k], e);
      WriteHolds(WriteAll(db, ops[..k]), ops[k], e);
    }
  }

  // ---- log files ----

  type Logs = map<nat, seq<Batch>>

  /** The batches of the logs numbered from n up to top, oldest log first. */
  function Stream(logs: Logs, n: nat, top: nat): seq<Batch>
    requires n <= top
    decreases top - n
  {
    if n == top then []
    else (if n in logs then logs[n] else []) + Stream(logs, n + 1, top)
  }

  predicate BoundedBy(logs: Logs, top: nat) {
    forall n :: n in logs ==> n < top
  }

  lemma {:induction false} StreamSplit(logs: Logs, n: nat, m: nat, top: nat)
    requires n <= m <= top
    ensures Stream(logs, n, top) == Stream(logs, n, m) + Stream(logs, m, top)
    decreases m - n
  {
    if n < m {
      StreamSplit(logs, n + 1, m, top);
    }
  }

  lemma {:induction false} StreamBeyond(logs: Logs, n: nat, top: nat)
    requires n <= top && forall m :: n <= m < top && m in logs ==> logs[m] == []
    ensures Stream(logs, n, top) == []
    decreases top - n
  {
    if n < top {
      StreamBeyond(logs, n + 1, top);
    }
  }

  lemma {:induction false} StreamSame(a: Logs, b: Logs, n: nat, top: nat)
    requires n <= top
    requires forall m :: n <= m < top ==> (m in a && a[m] != [] ==> m in b && b[m] == a[m])
    requires forall m :: n <= m < top ==> (m in b && b[m] != [] ==> m in a && b[m] == a[m])
    ensures Stream(a, n, top) == Stream(b, n, top)
    decreases top - n
  {
    if n < top {
      StreamSame(a, b, n + 1, top);
    }
  }

  lemma StreamOfOne(logs: Logs, n: nat, top: nat)
    requires n < top && n in logs
    requires forall k :: n <= k < top && k in logs ==> k == n
    ensures Stream(logs, n, top) == logs[n]
  {
    StreamBeyond(logs, n + 1, top);
    assert logs[n] + [] == logs[n];
  }

  /** Two logs and nothing else that counts. */
  lemma StreamOfTwo(logs: Logs, n: nat, m: nat, top: nat)
    requires n < m < top && n in logs && m in logs
    requires forall k :: n <= k < top && k in logs ==> k == n || k == m
    ensures Stream(logs, n, top) == logs[n] + logs[m]
  {
    StreamSplit(logs, n, m, top);
    StreamOfOne(logs, n, m);
    StreamOfOne(logs, m, top);
  }
}
