/** class WriteBatch: a byte string that is logged as it is and replayed into a
    memtable. */
module WriteBatches {
  import opened Coding

  const HEADER: nat := 12
  const TAG_DELETION: byte := 0
  const TAG_VALUE: byte := 1

  datatype Update = Put(key: seq<byte>, value: seq<byte>) | Delete(key: seq<byte>)

  /** Lengths are written as 32-bit varints. */
  predicate Fits(u: Update) {
    |u.key| < TWO_32 && (u.Put? ==> |u.value| < TWO_32)
  }

  predicate AllFit(updates: seq<Update>) {
    forall i :: 0 <= i < |updates| ==> Fits(updates[i])
  }

  function RecordOf(u: Update): seq<byte> {
    match u
    case Put(key, value) => [TAG_VALUE] + LengthPrefixed(key) + LengthPrefixed(value)
    case Delete(key) => [TAG_DELETION] + LengthPrefixed(key)
  }

  function Records(updates: seq<Update>): seq<byte> {
    if updates == [] then [] else RecordOf(updates[0]) + Records(updates[1..])
  }

  lemma {:induction false} RecordsJoin(a: seq<Update>, b: seq<Update>)
    ensures Records(a + b) == Records(a) + Records(b)
  {
    hide RecordOf;
    if a == [] {
      assert a + b == b;
    } else {
      assert (a + b)[1..] == a[1..] + b;
      RecordsJoin(a[1..], b);
      Regroup(RecordOf(a[0]), Records(a[1..]), Records(b));
    }
  }

  lemma Regroup(a: seq<byte>, b: seq<byte>, c: seq<byte>)
    ensures a + (b + c) == (a + b) + c
  {
  }

  /** The representation of a batch that starts at `sequence`. */
  function Contents(sequence: uint64, count: uint32, updates: seq<Update>): seq<byte> {
    EncodeFixed64(sequence) + EncodeFixed32(count) + Records(updates)
  }

  datatype Status = Ok | TooSmall | BadPut | BadDelete | UnknownTag | WrongCount

  /** What a handler was given before the replay ended, and how it ended. */
  datatype Replay = Replay(updates: seq<Update>, status: Status)

  function Prepend(u: Update, r: Replay): Replay {
    r.(updates := [u] + r.updates)
  }

  /** Replaying the records of any byte string, well-formed or not. */
  function ReplayRecords(input: seq<byte>): Replay
    decreases |input|
  {
    if input == [] then Replay([], Ok)
    else if input[0] == TAG_VALUE then
      match ParseSlice(input[1..])
      case Malformed => Replay([], BadPut)
      case Value(key, afterKey) =>
        match ParseSlice(afterKey)
        case Malformed => Replay([], BadPut)
        case Value(value, rest) => Prepend(Put(key, value), ReplayRecords(rest))
    else if input[0] == TAG_DELETION then
      match ParseSlice(input[1..])
      case Malformed => Replay([], BadDelete)
      case Value(key, rest) => Prepend(Delete(key), ReplayRecords(rest))
    else Replay([], UnknownTag)
  }

  function ReplayAll(rep: seq<byte>): Replay {
    if |rep| < HEADER then Replay([], TooSmall)
    else
      var r := ReplayRecords(rep[HEADER..]);
      if r.status.Ok? && |r.updates| != DecodeFixed32(rep[8..12]) then r.(status := WrongCount) else r
  }

  /** One written record is read back, whatever follows it. */
  lemma RecordRoundTrip(u: Update, rest: seq<byte>)
    requires Fits(u)
    ensures ReplayRecords(RecordOf(u) + rest) == Prepend(u, ReplayRecords(rest))
  {
    hide LengthPrefixed, ParseSlice;
    var input := RecordOf(u) + rest;
    match u
    case Put(key, value) =>
      assert input[1..] == LengthPrefixed(key) + (LengthPrefixed(value) + rest);
      SliceRoundTrip(key, LengthPrefixed(value) + rest);
      SliceRoundTrip(value, rest);
    case Delete(key) =>
      assert input[1..] == LengthPrefixed(key) + rest;
      SliceRoundTrip(key, rest);
  }

  lemma {:induction false} RecordsRoundTrip(updates: seq<Update>)
    requires AllFit(updates)
    ensures ReplayRecords(Records(updates)) == Replay(updates, Ok)
  {
    if updates != [] {
      RecordsRoundTrip(updates[1..]);
      RecordRoundTrip(updates[0], Records(updates[1..]));
    }
  }

  lemma HeaderParts(sequence: uint64, count: uint32, records: seq<byte>)
    ensures var rep := EncodeFixed64(sequence) + EncodeFixed32(count) + records;
      && |rep| >= HEADER && rep[..8] == EncodeFixed64(sequence) && rep[8..12] == EncodeFixed32(count)
          && rep[HEADER..] == records
      && DecodeFixed64(rep[..8]) == sequence && DecodeFixed32(rep[8..12]) == count
  {
    hide EncodeFixed64, EncodeFixed32, DecodeFixed32, DecodeFixed64;
    DecodeEncodeFixed64(sequence);
    DecodeEncodeFixed32(count);
    var s, c := EncodeFixed64(sequence), EncodeFixed32(count);
    assert (s + c + records)[..8] == s && (s + c + records)[8..12] == c && (s + c + records)[12..] == records;
  }

  /** Replaying a batch hands over its updates in order and succeeds exactly when
      the recorded count is right. */
  lemma BatchRoundTrip(sequence: uint64, count: uint32, updates: seq<Update>)
    requires AllFit(updates)
    ensures ReplayAll(Contents(sequence, count, updates)) == Replay(updates, if |updates| == count then Ok
        else WrongCount)
  {
    HeaderParts(sequence, count, Records(updates));
    RecordsRoundTrip(updates);
  }

  /** What was handed over, then what is still to come. */
  function Then(given: seq<Update>, r: Replay): Replay {
    Replay(given + r.updates, r.status)
  }

  lemma ThenPrepend(given: seq<Update>, u: Update, r: Replay)
    ensures Then(given, Prepend(u, r)) == Then(given + [u], r)
  {
  }

  class WriteBatch {
    var rep: seq<byte>
    ghost var sequence: uint64
    ghost var updates: seq<Update>

    ghost predicate Valid()
      reads this
    {
      rep == Contents(sequence, |updates| % TWO_32, updates)
    }

    constructor ()
      ensures Valid() && sequence == 0 && updates == []
    {
      rep := [0, 0, 0, 0, 0, 0, 0, 0, 0, 0, 0, 0];
      sequence, updates := 0, [];
    }

    method Count() returns (n: uint32)
      requires Valid()
      ensures n == |updates| % TWO_32
    {
      HeaderParts(sequence, |updates| % TWO_32, Records(updates));
      n := DecodeFixed32(rep[8..12]);
    }

    method SetCount(n: uint32, ghost count: uint32)
      requires rep == Contents(sequence, count, updates)
      modifies `rep
      ensures rep == Contents(sequence, n, updates)
    {
      hide Records, EncodeFixed32, EncodeFixed64;
      HeaderParts(sequence, count, Records(updates));
      rep := rep[..8] + EncodeFixed32(n) + rep[12..];
    }

    method SetSequence(s: uint64)
      requires Valid()
      modifies this
      ensures Valid() && sequence == s && updates == old(updates)
    {
      hide Records, EncodeFixed32, EncodeFixed64;
      HeaderParts(sequence, |updates| % TWO_32, Records(updates));
      rep := EncodeFixed64(s) + rep[8..];
      sequence := s;
      assert rep == EncodeFixed64(s) + EncodeFixed32(|updates| % TWO_32) + Records(updates);
    }

    /** Put and Delete: the count goes up, the record goes to the end. */
    method Add(u: Update)
      requires Valid()
      modifies this
      ensures Valid() && sequence == old(sequence) && updates == old(updates) + [u]
    {
      hide RecordOf, EncodeFixed32, EncodeFixed64, Records;
      var n := Count();
      SetCount((n + 1) % TWO_32, |updates| % TWO_32);
      rep := rep + RecordOf(u);
      RecordsJoin(updates, [u]);
      OneRecord(u);
      CountUp(|updates|, 1);
      updates := updates + [u];
    }

    /** WriteBatchInternal::Append. */
    method Append(src: WriteBatch)
      requires src != this && Valid() && src.Valid()
      modifies this
      ensures Valid() && sequence == old(sequence) && updates == old(updates) + src.updates
    {
      hide EncodeFixed32, EncodeFixed64, Records;
      var n := Count();
      var m := src.Count();
      SetCount((n + m) % TWO_32, |updates| % TWO_32);
      HeaderParts(src.sequence, |src.updates| % TWO_32, Records(src.updates));
      rep := rep + src.rep[HEADER..];
      RecordsJoin(updates, src.updates);
      CountUp(|updates|, |src.updates|);
      updates := updates + src.updates;
    }

    /** WriteBatch::Iterate with a handler that notes what it is given. */
    method Iterate() returns (given: seq<Update>, status: Status)
      ensures Replay(given, status) == ReplayAll(rep)
    {
      given := [];
      if |rep| < HEADER {
        return given, TooSmall;
      }
      given, status := IterateRecords(rep[HEADER..]);
      if status.Ok? && |given| != DecodeFixed32(rep[8..12]) {
        status := WrongCount;
      }
    }
  }

  /** The loop of Iterate over the records. */
  method IterateRecords(records: seq<byte>) returns (given: seq<Update>, status: Status)
    ensures Replay(given, status) == ReplayRecords(records)
  {
    hide ParseSlice, Then;
    given := [];
    var input := records;
    assert Then([], ReplayRecords(records)) == ReplayRecords(records) by { NothingGiven(ReplayRecords(records)); }
    while input != []
      invariant ReplayRecords(records) == Then(given, ReplayRecords(input))
      decreases |input|
    {
      var tag := input[0];
      if tag == TAG_VALUE {
        var key := ParseSlice(input[1..]);
        if key.Malformed? { NothingMore(given, BadPut); return given, BadPut; }
        var value := ParseSlice(key.rest);
        if value.Malformed? { NothingMore(given, BadPut); return given, BadPut; }
        ThenPrepend(given, Put(key.v, value.v), ReplayRecords(value.rest));
        given := given + [Put(key.v, value.v)];
        input := value.rest;
      } else if tag == TAG_DELETION {
        var key := ParseSlice(input[1..]);
        if key.Malformed? { NothingMore(given, BadDelete); return given, BadDelete; }
        ThenPrepend(given, Delete(key.v), ReplayRecords(key.rest));
        given := given + [Delete(key.v)];
        input := key.rest;
      } else {
        NothingMore(given, UnknownTag);
        return given, UnknownTag;
      }
    }
    NothingMore(given, Ok);
    status := Ok;
  }

  lemma NothingGiven(r: Replay)
    ensures Then([], r) == r
  {
    assert [] + r.updates == r.updates;
  }

  lemma NothingMore(given: seq<Update>, status: Status)
    ensures Then(given, Replay([], status)) == Replay(given, status)
  {
    assert given + [] == given;
  }

  lemma OneRecord(u: Update)
    ensures Records([u]) == RecordOf(u)
  {
    assert [u][1..] == [];
  }

  lemma CountUp(a: nat, b: nat)
    ensures (a % TWO_32 + b % TWO_32) % TWO_32 == (a + b) % TWO_32
    ensures (a % TWO_32 + b) % TWO_32 == (a + b) % TWO_32
  {
  }
}
