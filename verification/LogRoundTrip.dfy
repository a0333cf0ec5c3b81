/** Reading a log back, whole or cut off anywhere. */
module LogRoundTrip {
  import opened Coding
  import opened LogFormat
  import opened LogReader

  /** The bytes `s` lie in g from p on. */
  ghost predicate LiesAt(g: seq<byte>, p: nat, s: seq<byte>) {
    p + |s| <= |g| && g[p..p + |s|] == s
  }

  lemma HeaderBytes(crc: Checksum, t: byte, payload: seq<byte>)
    requires |payload| < 0x1_0000
    ensures var h := Header(crc, t, payload);
      && h[..4] == EncodeFixed32(Mask(crc([t] + payload)))
      && h[4] as int + h[5] as int * 256 == |payload| && h[6] == t
  {
    hide Mask, EncodeFixed32;
  }

  /** A buffer that begins with a written record, or breaks off inside it. */
  lemma ParseWritten(crc: Checksum, verify: bool, g: seq<byte>, p: nat, e: nat, eof: bool, t: byte, payload: seq<byte>)
    requires |payload| < 0x1_0000 && 0 < t < 128 && LiesAt(g, p, PhysicalRecord(crc, t, payload))
    requires p + HEADER_SIZE <= e <= |g|
    ensures p + HEADER_SIZE + |payload| <= e ==>
      Parse(crc, verify, g[p..e], eof) == Parsed(t, payload, HEADER_SIZE + |payload|, [])
    ensures p + HEADER_SIZE + |payload| > e && eof ==>
      Parse(crc, verify, g[p..e], eof) == Parsed(EOF, [], e - p, [])
  {
    hide Mask, Unmask, EncodeFixed32, DecodeFixed32, Header;
    HeaderBytes(crc, t, payload);
    var b, header := g[p..e], Header(crc, t, payload);
    var whole := PhysicalRecord(crc, t, payload);
    assert forall k :: 0 <= k < HEADER_SIZE ==> b[k] == g[p + k] == whole[k] == header[k];
    assert LengthField(b) == |payload| && b[6] == t;
    if p + HEADER_SIZE + |payload| <= e {
      assert whole[HEADER_SIZE..] == payload;
      assert g[p..p + |whole|][HEADER_SIZE..] == g[p + HEADER_SIZE..p + |whole|];
      SliceOfSlice(g, p, e, HEADER_SIZE, |whole|);
      SliceOfSlice(g, p, e, 6, |whole|);
      SliceOfSlice(g, p, p + |whole|, 6, |whole|);
      assert b[6..HEADER_SIZE + |payload|] == [t] + payload;
      assert b[..4] == header[..4];
      DecodeEncodeFixed32(Mask(crc([t] + payload)));
      UnmaskMask(crc([t] + payload));
    }
  }

  lemma LiesInside(g: seq<byte>, p: nat, a: seq<byte>, b: seq<byte>)
    requires LiesAt(g, p, a + b)
    ensures LiesAt(g, p, a) && LiesAt(g, p + |a|, b)
  {
    assert g[p..p + |a|] == (a + b)[..|a|];
    assert g[p + |a|..p + |a| + |b|] == (a + b)[|a|..];
  }

  /** What reading one physical record must give: that record if it is whole
      within the first n bytes, else the end of the file. */
  ghost predicate ReadsBack(r: Physical, n: nat, e: nat, t: byte, payload: seq<byte>) {
    && r.drops == []
    && if e <= n then r.kind == t && r.fragment == payload && r.next.pos == e else r.kind == EOF
  }

  lemma ReadHere(crc: Checksum, verify: bool, g: seq<byte>, n: nat, c: Cursor, t: byte, payload: seq<byte>)
    requires n <= |g| && CursorOk(g[..n], c) && c.end - c.pos >= HEADER_SIZE
    requires |payload| < 0x1_0000 && 0 < t < 128 && LiesAt(g, c.pos, PhysicalRecord(crc, t, payload))
    requires c.pos + HEADER_SIZE + |payload| <= c.end || c.eof
    ensures ReadsBack(ReadPhysical(crc, verify, g[..n], c), n, c.pos + HEADER_SIZE + |payload|, t, payload)
  {
    hide Parse;
    assert g[..n][c.pos..c.end] == g[c.pos..c.end];
    ParseWritten(crc, verify, g, c.pos, c.end, c.eof, t, payload);
  }

  lemma ReadPhysicalWritten(crc: Checksum, verify: bool, g: seq<byte>, n: nat, c: Cursor, t: byte, payload: seq<byte>)
    requires n <= |g| && CursorOk(g[..n], c) && 0 < t < 128
    requires StartOffset(c.pos % BLOCK_SIZE) + HEADER_SIZE + |payload| <= BLOCK_SIZE
    requires LiesAt(g, c.pos, Trailer(c.pos % BLOCK_SIZE) + PhysicalRecord(crc, t, payload))
    ensures ReadsBack(ReadPhysical(crc, verify, g[..n], c), n,
        c.pos + |Trailer(c.pos % BLOCK_SIZE)| + HEADER_SIZE + |payload|, t, payload)
  {
    hide Parse, PhysicalRecord;
    var file, offset := g[..n], c.pos % BLOCK_SIZE;
    CursorInBlock(file, c);
    LiesInside(g, c.pos, Trailer(offset), PhysicalRecord(crc, t, payload));
    if c.end - c.pos >= HEADER_SIZE {
      ReadHere(crc, verify, g, n, c, t, payload);
    } else if !c.eof {
      var d := Refill(file, c);
      RefillFirst(crc, verify, file, c);
      assert d.pos == c.pos + |Trailer(offset)|;
      if d.end - d.pos >= HEADER_SIZE {
        ReadHere(crc, verify, g, n, d, t, payload);
      }
    }
  }

  /** The rest of a record, from the fragment at c on. */
  ghost predicate Completes(r: Logical, n: nat, e: nat, record: seq<byte>) {
    && r.drops == []
    && (r.ok <==> e <= n)
    && (r.ok ==> r.record == record && r.next.pos == e)
  }

  lemma FragmentKinds(begin: bool, end: bool)
    ensures 0 < FragmentType(begin, end) < 128
  {
  }

  lemma KindOfRead(r: Physical, n: nat, e: nat, t: byte, payload: seq<byte>)
    requires ReadsBack(r, n, e, t, payload) && e <= n
    ensures r.next.pos == e
  {
  }

  lemma FirstOfFragments(crc: Checksum, offset: nat, data: seq<byte>, begin: bool)
    requires offset <= BLOCK_SIZE
    ensures var start := StartOffset(offset);
      var k := FragmentLength(start, |data|);
      && start + HEADER_SIZE + k <= BLOCK_SIZE && k <= |data|
      && (|data| > 0 && k == 0 ==> offset == BLOCK_SIZE - HEADER_SIZE)
      && Fragments(crc, offset, data, begin) == Trailer(offset) + PhysicalRecord(crc, FragmentType(begin, k == |data|),
          data[..k])
           + (if k == |data| then [] else Fragments(crc, start + HEADER_SIZE + k, data[k..], false))
  {
    hide PhysicalRecord, Trailer;
  }

  lemma LastFragment(crc: Checksum, verify: bool, file: seq<byte>, n: nat, c: Cursor, e: nat, begin: bool,
      data: seq<byte>, scratch: seq<byte>)
    requires CursorOk(file, c) && (begin ==> scratch == [])
    requires ReadsBack(ReadPhysical(crc, verify, file, c), n, e, FragmentType(begin, true), data)
    ensures Completes(ReadLogical(crc, verify, file, c, !begin, scratch), n, e, scratch + data)
  {
    hide ReadPhysical, CursorOk;
  }

  lemma MoreFragments(crc: Checksum, verify: bool, file: seq<byte>, n: nat, c: Cursor, e: nat, begin: bool,
      part: seq<byte>, scratch: seq<byte>)
    requires CursorOk(file, c) && (begin ==> scratch == [])
    requires ReadsBack(ReadPhysical(crc, verify, file, c), n, e, FragmentType(begin, false), part)
    ensures var r := ReadLogical(crc, verify, file, c, !begin, scratch);
      if e <= n then r == ReadLogical(crc, verify, file, ReadPhysical(crc, verify, file, c).next, true, scratch + part)
      else !r.ok && r.drops == []
  {
    hide ReadPhysical, CursorOk, Assemble;
    var p := ReadPhysical(crc, verify, file, c);
    assert Assemble(p.kind, p.fragment, !begin, scratch) == if e <= n then More(true, scratch + part, [])
        else Done(false, [], []) by {
      Assembled(begin, part, scratch, p.fragment);
    }
    if e <= n {
      var rest := ReadLogical(crc, verify, file, p.next, true, scratch + part);
      assert [] + [] + rest.drops == rest.drops;
    }
  }

  lemma Assembled(begin: bool, part: seq<byte>, scratch: seq<byte>, any: seq<byte>)
    requires begin ==> scratch == []
    ensures Assemble(FragmentType(begin, false), part, !begin, scratch) == More(true, scratch + part, [])
    ensures Assemble(EOF, any, !begin, scratch) == Done(false, [], [])
  {
    assert [] + part == part;
  }

  lemma {:induction false} ReadFragments(crc: Checksum, verify: bool, g: seq<byte>, n: nat, c: Cursor, data: seq<byte>,
      begin: bool, scratch: seq<byte>)
    requires n <= |g| && CursorOk(g[..n], c) && (begin ==> scratch == [])
    requires LiesAt(g, c.pos, Fragments(crc, c.pos % BLOCK_SIZE, data, begin))
    ensures Completes(ReadLogical(crc, verify, g[..n], c, !begin, scratch), n,
                      c.pos + |Fragments(crc, c.pos % BLOCK_SIZE, data, begin)|, scratch + data)
    decreases |data|, if c.pos % BLOCK_SIZE == BLOCK_SIZE - HEADER_SIZE then 1 else 0
  {
    hide Fragments, Trailer, PhysicalRecord, ReadPhysical, ReadLogical, CursorOk, LiesAt, ReadsBack, FragmentType;
    var offset := c.pos % BLOCK_SIZE;
    var start := StartOffset(offset);
    var k := FragmentLength(start, |data|);
    var t := FragmentType(begin, k == |data|);
    var here := Trailer(offset) + PhysicalRecord(crc, t, data[..k]);
    var e := c.pos + |here|;
    FragmentKinds(begin, k == |data|);
    FirstOfFragments(crc, offset, data, begin);
    if k == |data| {
      assert data[..k] == data && here + [] == here;
      ReadPhysicalWritten(crc, verify, g, n, c, t, data);
      LastFragment(crc, verify, g[..n], n, c, e, begin, data, scratch);
    } else {
      var rest := Fragments(crc, start + HEADER_SIZE + k, data[k..], false);
      LiesInside(g, c.pos, here, rest);
      ReadPhysicalWritten(crc, verify, g, n, c, t, data[..k]);
      MoreFragments(crc, verify, g[..n], n, c, e, begin, data[..k], scratch);
      if e <= n {
        var next := ReadPhysical(crc, verify, g[..n], c).next;
        assert next.pos == e by { KindOfRead(ReadPhysical(crc, verify, g[..n], c), n, e, t, data[..k]); }
        OffsetAfter(c.pos, |Trailer(offset)|, HEADER_SIZE + k);
        FragmentsAtBlockEnd(crc, data[k..], false);
        ReadFragments(crc, verify, g, n, next, data[k..], false, scratch + data[..k]);
        assert (scratch + data[..k]) + data[k..] == scratch + data;
      }
    }
  }

  /** Where the position behind a fragment lies in its block. */
  lemma OffsetAfter(pos: nat, trailer: nat, length: nat)
    requires trailer == |Trailer(pos % BLOCK_SIZE)| && StartOffset(pos % BLOCK_SIZE) + length <= BLOCK_SIZE
    ensures var after := StartOffset(pos % BLOCK_SIZE) + length;
      (pos + trailer + length) % BLOCK_SIZE == if after == BLOCK_SIZE then 0 else after
  {
  }

  /** End of the i-th record. */
  function EndOf(crc: Checksum, records: seq<seq<byte>>, i: nat): nat
    requires i <= |records|
  {
    |Image(crc, records[..i])|
  }

  lemma {:induction false} ImagePrefix(crc: Checksum, records: seq<seq<byte>>, i: nat)
    requires i <= |records|
    ensures Image(crc, records[..i]) <= Image(crc, records)
    decreases |records| - i
  {
    if i == |records| {
      assert records[..i] == records;
    } else {
      ImagePrefix(crc, records, i + 1);
      assert records[..i + 1][..i] == records[..i];
    }
  }

  lemma RecordLies(crc: Checksum, records: seq<seq<byte>>, i: nat)
    requires i < |records|
    ensures var p := EndOf(crc, records, i);
      && LiesAt(Image(crc, records), p, Fragments(crc, p % BLOCK_SIZE, records[i], true))
      && EndOf(crc, records, i + 1) == p + |Fragments(crc, p % BLOCK_SIZE, records[i], true)|
  {
    hide Fragments, LiesAt;
    ImagePrefix(crc, records, i + 1);
    assert records[..i + 1][..i] == records[..i];
    var before := Image(crc, records[..i]);
    PrefixLies(Image(crc, records), before, Fragments(crc, |before| % BLOCK_SIZE, records[i], true));
  }

  lemma PrefixLies(g: seq<byte>, a: seq<byte>, b: seq<byte>)
    requires a + b <= g
    ensures LiesAt(g, |a|, b)
  {
    assert b == (a + b)[|a|..];
  }

  /** Standing behind i records of a log cut off at n, ReadRecord returns the
      next one if all of it is there, and otherwise ends quietly. */
  lemma NextRecord(crc: Checksum, verify: bool, records: seq<seq<byte>>, n: nat, c: Cursor, i: nat)
    requires n <= |Image(crc, records)| && i <= |records|
    requires CursorOk(Image(crc, records)[..n], c) && c.pos == EndOf(crc, records, i)
    ensures var r := ReadLogical(crc, verify, Image(crc, records)[..n], c, false, []);
      if i < |records| then Completes(r, n, EndOf(crc, records, i + 1), records[i]) else !r.ok && r.drops == []
  {
    hide Fragments;
    var g := Image(crc, records);
    if i < |records| {
      RecordLies(crc, records, i);
      ReadFragments(crc, verify, g, n, c, records[i], true, []);
      assert [] + records[i] == records[i];
    } else {
      assert records[..i] == records;
      NothingLeft(crc, verify, g[..n], c);
    }
  }

  lemma NothingLeft(crc: Checksum, verify: bool, file: seq<byte>, c: Cursor)
    requires CursorOk(file, c) && c.pos == |file|
    ensures ReadPhysical(crc, verify, file, c).kind == EOF && ReadPhysical(crc, verify, file, c).drops == []
  {
    if !c.eof {
      var d := Refill(file, c);
      RefillFirst(crc, verify, file, c);
    }
  }

  // ---- reading a whole log ----

  /** What the loop over ReadRecord collects, and what gets reported. */
  datatype Contents = Contents(records: seq<seq<byte>>, drops: seq<nat>)

  function ReadAll(crc: Checksum, verify: bool, file: seq<byte>, c: Cursor): Contents
    requires CursorOk(file, c)
    decreases |file| - c.pos
  {
    var r := ReadLogical(crc, verify, file, c, false, []);
    if !r.ok then Contents([], r.drops)
    else
      var rest := ReadAll(crc, verify, file, r.next);
      Contents([r.record] + rest.records, r.drops + rest.drops)
  }

  /** How many records, from the i-th on, lie whole within n bytes. */
  function Surviving(crc: Checksum, records: seq<seq<byte>>, n: nat, i: nat): (k: nat)
    requires i <= |records|
    ensures i <= k <= |records|
    decreases |records| - i
  {
    if i < |records| && EndOf(crc, records, i + 1) <= n then Surviving(crc, records, n, i + 1) else i
  }

  /** Those are the records that end within n bytes, and no others. */
  lemma {:induction false} SurvivingEndWithin(crc: Checksum, records: seq<seq<byte>>, n: nat, i: nat, j: nat)
    requires i <= j < |records|
    ensures EndOf(crc, records, j + 1) <= n <==> j < Surviving(crc, records, n, i)
    decreases |records| - i
  {
    hide EndOf;
    EndsGrow(crc, records, i + 1, j + 1);
    if EndOf(crc, records, i + 1) <= n && i < j {
      SurvivingEndWithin(crc, records, n, i + 1, j);
    }
  }

  lemma {:induction false} EndsGrow(crc: Checksum, records: seq<seq<byte>>, i: nat, j: nat)
    requires i <= j <= |records|
    ensures EndOf(crc, records, i) <= EndOf(crc, records, j)
  {
    hide Fragments;
    if i < j {
      EndsGrow(crc, records, i, j - 1);
      assert records[..j][..j - 1] == records[..j - 1];
    }
  }

  lemma {:induction false} ReadAllFrom(crc: Checksum, verify: bool, records: seq<seq<byte>>, n: nat, c: Cursor, i: nat)
    requires n <= |Image(crc, records)| && i <= |records|
    requires CursorOk(Image(crc, records)[..n], c) && c.pos == EndOf(crc, records, i)
    ensures ReadAll(crc, verify, Image(crc, records)[..n], c)
         == Contents(records[i..Surviving(crc, records, n, i)], [])
    decreases |records| - i
  {
    hide ReadLogical, Image, CursorOk;
    NextRecord(crc, verify, records, n, c, i);
    var r := ReadLogical(crc, verify, Image(crc, records)[..n], c, false, []);
    if r.ok {
      ReadAllFrom(crc, verify, records, n, r.next, i + 1);
      var k := Surviving(crc, records, n, i);
      assert [records[i]] + records[i + 1..k] == records[i..k];
    }
  }

  /** A log cut off anywhere reads back as exactly the records that are whole,
      in order, and nothing is reported as corrupted. */
  lemma LogRoundTrip(crc: Checksum, verify: bool, records: seq<seq<byte>>, n: nat)
    requires n <= |Image(crc, records)|
    ensures ReadAll(crc, verify, Image(crc, records)[..n], Cursor(0, 0, false))
         == Contents(records[..Surviving(crc, records, n, 0)], [])
  {
    assert records[..0] == [];
    ReadAllFrom(crc, verify, records, n, Cursor(0, 0, false), 0);
  }
}
