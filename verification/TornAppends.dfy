/** A crash in the middle of an append: the log or manifest, read back from its
    bytes, has the new record whole or not at all. */
module TornAppends {
  import opened Coding
  import LogFormat
  import LogReader
  import LogRoundTrip
  import WriteBatches
  import History
  import WriteAheadLog

  type Checksum = LogFormat.Checksum

  /** The records that log::Reader finds in a file of these bytes. */
  function RecordsIn(crc: Checksum, file: seq<byte>): LogRoundTrip.Contents {
    LogRoundTrip.ReadAll(crc, true, file, LogReader.Cursor(0, 0, false))
  }

  lemma AllSurvive(crc: Checksum, records: seq<seq<byte>>, k: nat, n: nat)
    requires k <= |records| && LogRoundTrip.EndOf(crc, records, k) <= n
    ensures LogRoundTrip.Surviving(crc, records, n, 0) >= k
  {
    if k > 0 {
      LogRoundTrip.SurvivingEndWithin(crc, records, n, 0, k - 1);
    }
  }

  lemma EndOfFront(crc: Checksum, records: seq<seq<byte>>, last: seq<byte>)
    ensures LogRoundTrip.EndOf(crc, records + [last], |records|) == |LogFormat.Image(crc, records)|
    ensures LogRoundTrip.EndOf(crc, records + [last], |records| + 1) == |LogFormat.Image(crc, records + [last])|
  {
    assert (records + [last])[..|records|] == records;
    assert (records + [last])[..|records| + 1] == records + [last];
  }

  /** However much of an append reached the file, reading finds the earlier
      records, and the new one exactly if all of its bytes are there. */
  lemma AppendIsAllOrNothing(crc: Checksum, records: seq<seq<byte>>, last: seq<byte>, n: nat)
    requires |LogFormat.Image(crc, records)| <= n <= |LogFormat.Image(crc, records + [last])|
    ensures RecordsIn(crc, LogFormat.Image(crc, records + [last])[..n]) ==
      LogRoundTrip.Contents(if n == |LogFormat.Image(crc, records + [last])| then records + [last] else records, [])
  {
    hide LogFormat.Image, LogRoundTrip.Surviving, LogRoundTrip.EndOf;
    var all := records + [last];
    EndOfFront(crc, records, last);
    AllSurvive(crc, all, |records|, n);
    LogRoundTrip.SurvivingEndWithin(crc, all, n, 0, |records|);
    LogRoundTrip.LogRoundTrip(crc, true, all, n);
    assert all[..|records|] == records && all[..|all|] == all;
  }

  // ---- the write-ahead log ----

  /** How an operation is written in a batch; the keys stand in comparator order. */
  type Code = History.Op -> WriteBatches.Update

  function Updates(code: Code, ops: seq<History.Op>): (r: seq<WriteBatches.Update>)
    ensures |r| == |ops| && forall i :: 0 <= i < |ops| ==> r[i] == code(ops[i])
  {
    if ops == [] then [] else [code(ops[0])] + Updates(code, ops[1..])
  }

  ghost predicate Loggable(code: Code, b: WriteAheadLog.Batch) {
    b.first < TWO_64 && |b.ops| < TWO_32 && WriteBatches.AllFit(Updates(code, b.ops))
  }

  ghost predicate AllLoggable(code: Code, batches: seq<WriteAheadLog.Batch>) {
    forall i :: 0 <= i < |batches| ==> Loggable(code, batches[i])
  }

  /** The record of a batch; its counters are cut to their width. */
  function BatchBytes(code: Code, b: WriteAheadLog.Batch): seq<byte> {
    WriteBatches.Contents(b.first % TWO_64, |b.ops| % TWO_32, Updates(code, b.ops))
  }

  function LogRecords(code: Code, batches: seq<WriteAheadLog.Batch>): (r: seq<seq<byte>>)
    ensures |r| == |batches|
  {
    if batches == [] then [] else [BatchBytes(code, batches[0])] + LogRecords(code, batches[1..])
  }

  lemma {:induction false} LogRecordsAt(code: Code, batches: seq<WriteAheadLog.Batch>, i: nat)
    requires i < |batches|
    ensures LogRecords(code, batches)[i] == BatchBytes(code, batches[i])
  {
    hide BatchBytes;
    if i > 0 { LogRecordsAt(code, batches[1..], i - 1); }
  }

  lemma {:induction false} LogRecordsSnoc(code: Code, batches: seq<WriteAheadLog.Batch>, b: WriteAheadLog.Batch)
    ensures LogRecords(code, batches + [b]) == LogRecords(code, batches) + [BatchBytes(code, b)]
  {
    hide BatchBytes;
    if batches == [] {
      assert [b][1..] == [];
    } else {
      assert (batches + [b])[1..] == batches[1..] + [b];
      LogRecordsSnoc(code, batches[1..], b);
    }
  }

  /** What recovery takes from one record: the number of its first operation and
      its updates. */
  datatype Recovered = Recovered(first: nat, updates: seq<WriteBatches.Update>) | Unusable

  function RecoverRecord(record: seq<byte>): Recovered {
    var r := WriteBatches.ReplayAll(record);
    if r.status.Ok? && |record| >= 8 then Recovered(DecodeFixed64(record[..8]), r.updates) else Unusable
  }

  function RecoverRecords(records: seq<seq<byte>>): (r: seq<Recovered>)
    ensures |r| == |records| && forall i :: 0 <= i < |records| ==> r[i] == RecoverRecord(records[i])
  {
    if records == [] then [] else [RecoverRecord(records[0])] + RecoverRecords(records[1..])
  }

  /** The batches themselves, in the same form. */
  function Coded(code: Code, batches: seq<WriteAheadLog.Batch>): (r: seq<Recovered>)
    ensures |r| == |batches|
    ensures forall i :: 0 <= i < |batches| ==> r[i] == Recovered(batches[i].first, Updates(code, batches[i].ops))
  {
    if batches == [] then [] else [Recovered(batches[0].first, Updates(code, batches[0].ops))] + Coded(code,
        batches[1..])
  }

  lemma BatchIsRecovered(code: Code, b: WriteAheadLog.Batch)
    requires Loggable(code, b)
    ensures RecoverRecord(BatchBytes(code, b)) == Recovered(b.first, Updates(code, b.ops))
  {
    hide WriteBatches.ReplayAll, EncodeFixed32, EncodeFixed64, DecodeFixed64, WriteBatches.Records;
    var updates := Updates(code, b.ops);
    WriteBatches.BatchRoundTrip(b.first, |b.ops|, updates);
    WriteBatches.HeaderParts(b.first, |b.ops|, WriteBatches.Records(updates));
  }

  lemma BatchesAreRecovered(code: Code, batches: seq<WriteAheadLog.Batch>)
    requires AllLoggable(code, batches)
    ensures RecoverRecords(LogRecords(code, batches)) == Coded(code, batches)
  {
    hide Loggable, RecoverRecord, BatchBytes, LogRecords;
    forall i | 0 <= i < |batches| ensures RecoverRecords(LogRecords(code, batches))[i] == Coded(code, batches)[i] {
      BatchIsRecovered(code, batches[i]);
      LogRecordsAt(code, batches, i);
    }
  }

  /** From bytes to batches: a log onto which a batch was being appended when the
      process died is recovered as the log before, or as the log with the whole
      batch, and the latter exactly if all its bytes had been written. */
  lemma TornLogIsWholeBatches(crc: Checksum, code: Code, batches: seq<WriteAheadLog.Batch>, b: WriteAheadLog.Batch,
      n: nat)
    requires AllLoggable(code, batches + [b])
    requires |LogFormat.Image(crc, LogRecords(code, batches))| <= n <= |LogFormat.Image(crc,
        LogRecords(code, batches + [b]))|
    ensures var bytes := LogFormat.Image(crc, LogRecords(code, batches + [b]));
      var found := RecordsIn(crc, bytes[..n]);
      && found.drops == []
      && RecoverRecords(found.records) == Coded(code, if n == |bytes| then batches + [b] else batches)
  {
    hide LogFormat.Image, Loggable, RecordsIn, RecoverRecord, BatchBytes, LogRecords;
    assert AllLoggable(code, batches) by {
      assert forall i :: 0 <= i < |batches| ==> (batches + [b])[i] == batches[i];
    }
    LogRecordsSnoc(code, batches, b);
    AppendIsAllOrNothing(crc, LogRecords(code, batches), BatchBytes(code, b), n);
    BatchesAreRecovered(code, batches);
    BatchesAreRecovered(code, batches + [b]);
  }
}
