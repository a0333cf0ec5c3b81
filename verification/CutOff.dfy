/** Input that is cut off: a batch or a manifest record that ends inside one of
    its parts is refused. */
module CutOff {
  import opened Coding
  import WriteBatches
  import EditCoding

  // ---- varints and strings ----

  predicate EndsAt(b: seq<byte>, k: nat) {
    k < |b| && b[k] < 128 && forall j :: 0 <= j < k ==> b[j] >= 128
  }

  /** A varint ends with its first byte below 128, if that comes soon enough. */
  lemma {:induction false} ReadExactlyIf(b: seq<byte>, groups: nat)
    ensures forall k: nat :: EndsAt(b, k) ==>
        if k < groups then ReadVarint(b, groups).Just? && ReadVarint(b, groups).value.1 == k + 1
        else ReadVarint(b, groups) == Nothing
    ensures (forall k: nat :: !EndsAt(b, k)) ==> ReadVarint(b, groups) == Nothing
    decreases groups
  {
    if groups > 0 && b != [] && b[0] < 128 {
      assert EndsAt(b, 0);
    } else if groups > 0 && b != [] {
      ReadExactlyIf(b[1..], groups - 1);
      forall k: nat
        ensures EndsAt(b, k) <==> k > 0 && EndsAt(b[1..], k - 1)
      {
        Shifted(b, k);
      }
      forall k: nat
        ensures EndsAt(b[1..], k) <==> EndsAt(b, k + 1)
      {
        Shifted(b, k + 1);
      }
    }
  }

  lemma Shifted(b: seq<byte>, k: nat)
    requires b != [] && b[0] >= 128
    ensures EndsAt(b, k) <==> k > 0 && EndsAt(b[1..], k - 1)
  {
    if k > 0 && EndsAt(b[1..], k - 1) {
      forall j | 0 <= j < k
        ensures b[j] >= 128
      {
        assert j > 0 ==> b[1..][j - 1] == b[j];
      }
    }
    if EndsAt(b, k) {
      forall j | 0 <= j < k - 1
        ensures b[1..][j] >= 128
      {
        assert b[1..][j] == b[j + 1];
      }
    }
  }

  /** 32-bit varints take 5 bytes at most, 64-bit ones 10. */
  lemma AcceptedExactly(b: seq<byte>)
    ensures ParseVarint32(b).Value? <==> exists k: nat :: k < 5 && EndsAt(b, k)
    ensures ParseVarint64(b).Value? <==> exists k: nat :: k < 10 && EndsAt(b, k)
  {
    hide ReadVarint, EndsAt;
    ReadExactlyIf(b, 5);
    ReadExactlyIf(b, 10);
  }

  lemma {:induction false} VarintEnds(v: nat, k: nat)
    ensures EndsAt(EncodeVarint(v), k) <==> k == |EncodeVarint(v)| - 1
  {
    if v >= 128 {
      var b := EncodeVarint(v);
      assert b[1..] == EncodeVarint(v / 128);
      Shifted(b, k);
      if k > 0 { VarintEnds(v / 128, k - 1); }
    }
  }

  lemma CutVarint(v: nat, n: nat)
    requires n < |EncodeVarint(v)|
    ensures ParseVarint32(EncodeVarint(v)[..n]) == ParseVarint64(EncodeVarint(v)[..n]) == Malformed
  {
    var b := EncodeVarint(v);
    hide EncodeVarint;
    forall k: nat
      ensures !EndsAt(b[..n], k)
    {
      VarintEnds(v, k);
      if k < n {
        if EndsAt(b[..n], k) { SameEnd(b, n, k); }
      }
    }
    AcceptedExactly(b[..n]);
  }

  lemma SameEnd(b: seq<byte>, n: nat, k: nat)
    requires k < n <= |b| && EndsAt(b[..n], k)
    ensures EndsAt(b, k)
  {
    forall j | 0 <= j < k
      ensures b[j] >= 128
    {
      assert b[..n][j] == b[j];
    }
  }

  lemma CutJoin(a: seq<byte>, b: seq<byte>, n: nat)
    requires n <= |a| + |b|
    ensures (a + b)[..n] == if n <= |a| then a[..n] else a + b[..n - |a|]
  {
  }

  lemma CutString(s: seq<byte>, n: nat)
    requires n < |LengthPrefixed(s)| && |s| < TWO_32
    ensures ParseSlice(LengthPrefixed(s)[..n]) == Malformed
  {
    hide EncodeVarint, ParseVarint32;
    var length := EncodeVarint(|s|);
    CutJoin(length, s, n);
    if n < |length| {
      CutVarint(|s|, n);
    } else {
      assert n == |length| ==> length[..n] == length + s[..0];
      Varint32RoundTrip(|s|, s[..n - |length|]);
    }
  }

  // ---- batches ----

  /** A batch that ends inside a record hands over the ones before it and fails. */
  lemma {:induction false} CutBatch(updates: seq<WriteBatches.Update>, u: WriteBatches.Update, n: nat)
    requires WriteBatches.AllFit(updates) && WriteBatches.Fits(u) && 0 < n < |WriteBatches.RecordOf(u)|
    ensures WriteBatches.ReplayRecords(WriteBatches.Records(updates) + WriteBatches.RecordOf(u)[..n])
         == WriteBatches.Replay(updates, if u.Put? then WriteBatches.BadPut else WriteBatches.BadDelete)
  {
    hide WriteBatches.RecordOf, WriteBatches.ReplayRecords, WriteBatches.Fits;
    var cut := WriteBatches.RecordOf(u)[..n];
    if updates == [] {
      CutUpdate(u, n);
      assert WriteBatches.Records([]) + cut == cut;
    } else {
      var first, later := WriteBatches.RecordOf(updates[0]), WriteBatches.Records(updates[1..]);
      CutBatch(updates[1..], u, n);
      assert first + later + cut == first + (later + cut);
      WriteBatches.RecordRoundTrip(updates[0], later + cut);
    }
  }

  lemma CutUpdate(u: WriteBatches.Update, n: nat)
    requires WriteBatches.Fits(u) && 0 < n < |WriteBatches.RecordOf(u)|
    ensures WriteBatches.ReplayRecords(WriteBatches.RecordOf(u)[..n])
         == WriteBatches.Replay([], if u.Put? then WriteBatches.BadPut else WriteBatches.BadDelete)
  {
    hide LengthPrefixed, ParseSlice;
    var cut := WriteBatches.RecordOf(u)[..n];
    match u
    case Put(key, value) =>
      var a, b := LengthPrefixed(key), LengthPrefixed(value);
      CutJoin(a, b, n - 1);
      assert WriteBatches.RecordOf(u) == [1] + (a + b);
      CutJoin([1], a + b, n);
      assert cut == [1] + (a + b)[..n - 1] && cut[1..] == (a + b)[..n - 1];
      if n - 1 < |a| {
        CutString(key, n - 1);
      } else {
        assert n - 1 == |a| ==> a[..n - 1] == a + b[..0];
        SliceRoundTrip(key, b[..n - 1 - |a|]);
        CutString(value, n - 1 - |a|);
      }
    case Delete(key) =>
      CutJoin([0], LengthPrefixed(key), n);
      assert cut[1..] == LengthPrefixed(key)[..n - 1];
      CutString(key, n - 1);
  }

  /** Only two tags are known, and the header has 12 bytes. */
  lemma OtherBatches(rep: seq<byte>)
    ensures rep != [] && rep[0] > 1 ==>
        WriteBatches.ReplayRecords(rep) == WriteBatches.Replay([], WriteBatches.UnknownTag)
    ensures |rep| < 12 ==> WriteBatches.ReplayAll(rep) == WriteBatches.Replay([], WriteBatches.TooSmall)
  {
  }

  // ---- manifest records ----

  /** A record that ends inside a field sets the fields before it and fails. */
  lemma CutRecord(e: EditCoding.Edit, fields: seq<EditCoding.Field>, f: EditCoding.Field, n: nat)
    requires EditCoding.AllFit(fields) && EditCoding.Fits(f) && 0 < n < |EditCoding.EncodeField(f)|
    ensures EditCoding.DecodeFields(e, EditCoding.EncodeFields(fields) + EditCoding.EncodeField(f)[..n])
         == EditCoding.Decoded(EditCoding.AddAll(e, fields), false)
  {
    hide EditCoding.EncodeField, EditCoding.EncodeFields, EditCoding.DecodeFields;
    EditCoding.FieldsRoundTrip(e, fields, EditCoding.EncodeField(f)[..n]);
    CutField(EditCoding.AddAll(e, fields), f, n);
  }

  lemma CutField(e: EditCoding.Edit, f: EditCoding.Field, n: nat)
    requires EditCoding.Fits(f) && 0 < n < |EditCoding.EncodeField(f)|
    ensures EditCoding.DecodeFields(e, EditCoding.EncodeField(f)[..n]) == EditCoding.Decoded(e, false)
  {
    hide EncodeVarint, ParseVarint32, EditCoding.ParseBody, EditCoding.BodyOf, EditCoding.EncodeField;
    EditCoding.TagAndBody(f);
    var tag, body := EncodeVarint(EditCoding.TagOf(f)), EditCoding.BodyOf(f);
    CutJoin(tag, body, n);
    if n < |tag| {
      CutVarint(EditCoding.TagOf(f), n);
    } else {
      var m := n - |tag|;
      assert n == |tag| ==> tag[..n] == tag + body[..0];
      Varint32RoundTrip(EditCoding.TagOf(f), body[..m]);
      CutBody(f, m);
    }
  }

  lemma CutBody(f: EditCoding.Field, n: nat)
    requires EditCoding.Fits(f) && n < |EditCoding.BodyOf(f)|
    ensures EditCoding.ParseBody(EditCoding.TagOf(f), EditCoding.BodyOf(f)[..n]) == Malformed
  {
    hide EncodeVarint, ParseVarint32, ParseVarint64, LengthPrefixed, ParseSlice, EditCoding.GetLevel,
      EditCoding.ParseFile;
    match f
    case Comparator(name) => CutString(name, n);
    case LogNumber(v) => CutVarint(v, n);
    case PrevLogNumber(v) => CutVarint(v, n);
    case NextFileNumber(v) => CutVarint(v, n);
    case LastSequence(v) => CutVarint(v, n);
    case CompactPointer(level, key) =>
      CutAfterLevel(level, LengthPrefixed(key), n);
      if n >= |EncodeVarint(level)| { CutString(key, n - |EncodeVarint(level)|); }
    case DeletedFile(level, v) =>
      CutAfterLevel(level, EncodeVarint(v), n);
      if n >= |EncodeVarint(level)| { CutVarint(v, n - |EncodeVarint(level)|); }
    case NewFile(level, file) =>
      CutAfterLevel(level, FileBytes(file), n);
      if n >= |EncodeVarint(level)| { CutFile(file, n - |EncodeVarint(level)|); }
  }

  lemma CutAfterLevel(level: nat, rest: seq<byte>, n: nat)
    requires level < EditCoding.NUM_LEVELS && n < |EncodeVarint(level) + rest|
    ensures var l := EncodeVarint(level);
      EditCoding.GetLevel((l + rest)[..n]) == if n < |l| then Malformed else Value(level, rest[..n - |l|])
  {
    hide EncodeVarint, ParseVarint32;
    var l := EncodeVarint(level);
    CutJoin(l, rest, n);
    if n < |l| {
      CutVarint(level, n);
    } else {
      assert n == |l| ==> l[..n] == l + rest[..0];
      EditCoding.LevelRoundTrip(level, rest[..n - |l|]);
    }
  }

  lemma CutNumber(v: nat, rest: seq<byte>, n: nat)
    requires v < TWO_64 && n < |EncodeVarint(v) + rest|
    ensures var l := EncodeVarint(v);
      ParseVarint64((l + rest)[..n]) == if n < |l| then Malformed else Value(v, rest[..n - |l|])
  {
    hide EncodeVarint, ParseVarint64;
    var l := EncodeVarint(v);
    CutJoin(l, rest, n);
    if n < |l| {
      CutVarint(v, n);
    } else {
      assert n == |l| ==> l[..n] == l + rest[..0];
      Varint64RoundTrip(v, rest[..n - |l|]);
    }
  }

  function FileBytes(f: EditCoding.TableFile): seq<byte> {
    EncodeVarint(f.number) + EncodeVarint(f.size) + LengthPrefixed(f.smallest) + LengthPrefixed(f.largest)
  }

  lemma CutFile(f: EditCoding.TableFile, n: nat)
    requires EditCoding.Fits(EditCoding.NewFile(0, f))
    requires n < |FileBytes(f)|
    ensures EditCoding.ParseFile(FileBytes(f)[..n]) == Malformed
  {
    hide EncodeVarint, ParseVarint64, LengthPrefixed, ParseSlice;
    var a, b, c, d := EncodeVarint(f.number), EncodeVarint(f.size), LengthPrefixed(f.smallest),
        LengthPrefixed(f.largest);
    assert a + b + c + d == a + (b + (c + d));
    CutNumber(f.number, b + (c + d), n);
    if n >= |a| {
      CutNumber(f.size, c + d, n - |a|);
      if n - |a| >= |b| {
        var m := n - |a| - |b|;
        CutJoin(c, d, m);
        if m < |c| {
          CutString(f.smallest, m);
        } else {
          assert m == |c| ==> c[..m] == c + d[..0];
          SliceRoundTrip(f.smallest, d[..m - |c|]);
          CutString(f.largest, m - |c|);
        }
      }
    }
  }

  /** No other tags are known. */
  lemma OtherTags(e: EditCoding.Edit, tag: nat, rest: seq<byte>)
    requires tag < TWO_32 && tag !in {1, 2, 3, 4, 5, 6, 7, 9}
    ensures EditCoding.DecodeFields(e, EncodeVarint(tag) + rest) == EditCoding.Decoded(e, false)
  {
    hide EncodeVarint, ParseVarint32;
    Varint32RoundTrip(tag, rest);
  }
}
