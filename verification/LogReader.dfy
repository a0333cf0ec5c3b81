/** class log::Reader, reading a whole file from its start. */
module LogReader {
  import opened Coding
  import opened LogFormat
  import opened LogTrail

  // Pseudo types returned by ReadPhysicalRecord.
  const EOF: nat := 5
  const BAD_RECORD: nat := 6

  /** Where a reader stands: it holds file[pos..end] in its buffer, and has
      seen the end of the file if the last read came back short. */
  datatype Cursor = Cursor(pos: nat, end: nat, eof: bool)

  predicate CursorOk(file: seq<byte>, c: Cursor) {
    && c.pos <= c.end <= |file|
    && (c.eof ==> c.end == |file|)
    && (!c.eof ==> c.end % BLOCK_SIZE == 0)
    && (c.end - c.pos < BLOCK_SIZE || (c.end - c.pos == BLOCK_SIZE && !c.eof))
    && (c.eof ==> c.end - c.pos <= |file| % BLOCK_SIZE)
  }

  /** `drops`: the sizes reported as corrupted. */
  datatype Physical = Physical(kind: nat, fragment: seq<byte>, next: Cursor, drops: seq<nat>)

  function Refill(file: seq<byte>, c: Cursor): (r: Cursor)
    requires CursorOk(file, c) && !c.eof
    ensures CursorOk(file, r)
  {
    var got := if |file| - c.end < BLOCK_SIZE then |file| - c.end else BLOCK_SIZE;
    Cursor(c.end, c.end + got, got < BLOCK_SIZE)
  }

  /** The first record of a buffer; `taken` bytes of the buffer are used up. */
  datatype Parsed = Parsed(kind: nat, fragment: seq<byte>, taken: nat, drops: seq<nat>)

  function LengthField(buffer: seq<byte>): nat
    requires |buffer| >= HEADER_SIZE
  {
    buffer[4] as int + buffer[5] as int * 256
  }

  function Parse(crc: Checksum, verify: bool, buffer: seq<byte>, eof: bool): (r: Parsed)
    requires |buffer| >= HEADER_SIZE
    ensures 0 < r.taken <= |buffer|
  {
    var length := LengthField(buffer);
    var kind := WidenChar(buffer[6]);
    if HEADER_SIZE + length > |buffer| then
      if !eof then Parsed(BAD_RECORD, [], |buffer|, [|buffer|]) else Parsed(EOF, [], |buffer|, [])
    else if kind == ZERO_TYPE && length == 0 then
      Parsed(BAD_RECORD, [], |buffer|, [])
    else if verify && crc(buffer[6..HEADER_SIZE + length]) != Unmask(DecodeFixed32(buffer[..4])) then
      Parsed(BAD_RECORD, [], |buffer|, [|buffer|])
    else
      Parsed(kind, buffer[HEADER_SIZE..HEADER_SIZE + length], HEADER_SIZE + length, [])
  }

  function ReadPhysical(crc: Checksum, verify: bool, file: seq<byte>, c: Cursor): (r: Physical)
    requires CursorOk(file, c)
    ensures CursorOk(file, r.next) && r.next.pos >= c.pos
    ensures r.kind != EOF ==> r.next.pos > c.pos
    decreases if c.eof then 0 else 1, |file| - c.end
  {
    if c.end - c.pos >= HEADER_SIZE then
      var p := Parse(crc, verify, file[c.pos..c.end], c.eof);
      Physical(p.kind, p.fragment, c.(pos := c.pos + p.taken), p.drops)
    else if !c.eof then ReadPhysical(crc, verify, file, Refill(file, c))
    else Physical(EOF, [], c.(pos := c.end), [])
  }

  lemma RefillFirst(crc: Checksum, verify: bool, file: seq<byte>, c: Cursor)
    requires CursorOk(file, c) && c.end - c.pos < HEADER_SIZE && !c.eof
    ensures ReadPhysical(crc, verify, file, c) == ReadPhysical(crc, verify, file, Refill(file, c))
    ensures Refill(file, c).eof || |file| - Refill(file, c).end < |file| - c.end
  {
  }

  lemma SliceOfSlice(g: seq<byte>, p: nat, e: nat, x: nat, y: nat)
    requires x <= y && p + y <= e <= |g|
    ensures g[p..e][x..y] == g[p + x..p + y]
  {
    assert forall k :: 0 <= k < y - x ==> g[p..e][x..y][k] == g[p + x..p + y][k];
  }

  /** How far a cursor is from the end of its block. */
  lemma CursorInBlock(file: seq<byte>, c: Cursor)
    requires CursorOk(file, c)
    ensures var offset := c.pos % BLOCK_SIZE;
      && (c.eof ==> c.end - c.pos < BLOCK_SIZE - offset)
      && (!c.eof && offset > 0 ==> c.end - c.pos == BLOCK_SIZE - offset)
      && (!c.eof && offset == 0 ==> c.end == c.pos || c.end == c.pos + BLOCK_SIZE)
  {
    var q, offset := c.pos / BLOCK_SIZE, c.pos % BLOCK_SIZE;
    if c.eof {
      var m := |file| / BLOCK_SIZE;
      assert m * BLOCK_SIZE <= c.pos <= |file| < (m + 1) * BLOCK_SIZE;
      InBlock(m, c.pos);
    } else {
      var m := c.end / BLOCK_SIZE;
      assert c.end == m * BLOCK_SIZE && c.pos == q * BLOCK_SIZE + offset;
      BlocksApart(m, q, offset);
    }
  }

  lemma InBlock(m: nat, x: nat)
    requires m * BLOCK_SIZE <= x < (m + 1) * BLOCK_SIZE
    ensures x % BLOCK_SIZE == x - m * BLOCK_SIZE
  {
  }

  lemma BlocksApart(m: nat, q: nat, offset: nat)
    requires offset < BLOCK_SIZE && 0 <= m * BLOCK_SIZE - (q * BLOCK_SIZE + offset) <= BLOCK_SIZE
    ensures offset > 0 ==> m == q + 1
    ensures offset == 0 ==> m == q || m == q + 1
  {
  }

  lemma ParsedIsNext(crc: Checksum, verify: bool, file: seq<byte>, pos: nat, c: Cursor)
    requires CursorOk(file, c) && c.end - c.pos >= HEADER_SIZE && c.pos == HeaderAt(pos)
    requires c.end == RestEnd(file, c.pos) && (c.eof <==> c.end % 32768 != 0)
    ensures var p := Parse(crc, verify, file[c.pos..c.end], c.eof);
      IsNext(crc, verify, file, pos, Seen(c.pos, p.kind, p.fragment, p.drops, c.pos + p.taken))
  {
    hide Unmask, DecodeFixed32, CursorOk, HeaderAt, RestEnd;
    CursorInFile(file, c);
    var p, b := c.pos, file[c.pos..c.end];
    var n := PayloadLength(file, p);
    assert b[4] == file[p + 4] && b[5] == file[p + 5] && b[6] == file[p + 6];
    if p + HEADER_SIZE + n <= c.end {
      SliceOfSlice(file, p, c.end, 0, 4);
      SliceOfSlice(file, p, c.end, 6, HEADER_SIZE + n);
      SliceOfSlice(file, p, c.end, HEADER_SIZE, HEADER_SIZE + n);
    }
  }

  /** A buffer with a header in it ends where its block or the file does. */
  lemma BufferEnds(file: seq<byte>, c: Cursor)
    requires CursorOk(file, c) && c.end - c.pos >= HEADER_SIZE
    ensures c.pos == HeaderAt(c.pos) && c.end == RestEnd(file, c.pos) && (c.eof <==> c.end % 32768 != 0)
  {
    CursorInBlock(file, c);
  }

  /** ReadPhysicalRecord does what IsNext allows. */
  lemma PhysicalIsNext(crc: Checksum, verify: bool, file: seq<byte>, c: Cursor)
    requires CursorOk(file, c)
    ensures var r := ReadPhysical(crc, verify, file, c);
      IsNext(crc, verify, file, c.pos, Seen(HeaderAt(c.pos), r.kind, r.fragment, r.drops, r.next.pos))
  {
    hide Parse;
    CursorInBlock(file, c);
    if c.end - c.pos >= HEADER_SIZE {
      BufferEnds(file, c);
      ParsedIsNext(crc, verify, file, c.pos, c);
    } else if !c.eof {
      var d := Refill(file, c);
      RefillFirst(crc, verify, file, c);
      if d.end - d.pos >= HEADER_SIZE {
        BufferEnds(file, d);
        ParsedIsNext(crc, verify, file, c.pos, d);
      }
    }
  }

  lemma ReadHereOrNever(crc: Checksum, verify: bool, file: seq<byte>, c: Cursor)
    requires CursorOk(file, c)
    ensures c.end - c.pos >= HEADER_SIZE ==>
      var p := Parse(crc, verify, file[c.pos..c.end], c.eof);
      ReadPhysical(crc, verify, file, c) == Physical(p.kind, p.fragment, c.(pos := c.pos + p.taken), p.drops)
    ensures c.end - c.pos < HEADER_SIZE && c.eof ==>
      ReadPhysical(crc, verify, file, c) == Physical(EOF, [], c.(pos := c.end), [])
  {
    hide Parse;
  }

  datatype Logical = Logical(ok: bool, record: seq<byte>, next: Cursor, drops: seq<nat>)

  /** What one physical record does to the record being put together. */
  datatype Step = Done(ok: bool, record: seq<byte>, drops: seq<nat>) | More(inFragmented: bool, scratch: seq<byte>,
      drops: seq<nat>)

  function Assemble(kind: nat, fragment: seq<byte>, inFragmented: bool, scratch: seq<byte>): Step {
    var unfinished: seq<nat> := if inFragmented && scratch != [] then [|scratch|] else [];
    if kind == FULL_TYPE then Done(true, fragment, unfinished)
    else if kind == FIRST_TYPE then More(true, fragment, unfinished)
    else if kind == MIDDLE_TYPE then
      if !inFragmented then More(false, scratch, [|fragment|]) else More(true, scratch + fragment, [])
    else if kind == LAST_TYPE then
      if !inFragmented then More(false, scratch, [|fragment|]) else Done(true, scratch + fragment, [])
    else if kind == EOF then Done(false, [], [])
    else if kind == BAD_RECORD then
      if inFragmented then More(false, [], [|scratch|]) else More(false, scratch, [])
    else More(false, [], [|fragment| + if inFragmented then |scratch| else 0])
  }

  function ReadLogical(crc: Checksum, verify: bool, file: seq<byte>, c: Cursor, inFragmented: bool,
      scratch: seq<byte>): (r: Logical)
    requires CursorOk(file, c)
    ensures CursorOk(file, r.next)
    ensures r.ok ==> r.next.pos > c.pos
    decreases |file| - c.pos
  {
    var p := ReadPhysical(crc, verify, file, c);
    match Assemble(p.kind, p.fragment, inFragmented, scratch)
    case Done(ok, record, drops) => Logical(ok, record, p.next, p.drops + drops)
    case More(inF, scr, drops) =>
      var rest := ReadLogical(crc, verify, file, p.next, inF, scr);
      rest.(drops := p.drops + drops + rest.drops)
  }

  /** `report` followed by what is still to come is the same before and after
      one physical record. */
  ghost predicate SameOutcome(a: Logical, reportedA: seq<nat>, b: Logical, reportedB: seq<nat>) {
    a.ok == b.ok && a.record == b.record && a.next == b.next && reportedA + a.drops == reportedB + b.drops
  }

  lemma OneStep(crc: Checksum, verify: bool, file: seq<byte>, c: Cursor, inFragmented: bool, scratch: seq<byte>,
      reported: seq<nat>)
    requires CursorOk(file, c)
    ensures var l := ReadLogical(crc, verify, file, c, inFragmented, scratch);
      var p := ReadPhysical(crc, verify, file, c);
      var step := Assemble(p.kind, p.fragment, inFragmented, scratch);
      if step.Done? then
        && l.ok == step.ok && l.record == step.record && l.next == p.next
        && reported + l.drops == reported + p.drops + step.drops
      else
        && p.next.pos > c.pos
        && SameOutcome(l, reported, ReadLogical(crc, verify, file, p.next, step.inFragmented, step.scratch),
            reported + p.drops + step.drops)
  {
    hide ReadPhysical, Assemble, CursorOk;
    var p := ReadPhysical(crc, verify, file, c);
    EndIsEnd(p.kind, p.fragment, inFragmented, scratch);
    var step := Assemble(p.kind, p.fragment, inFragmented, scratch);
    if step.Done? {
      RegroupDrops(reported, p.drops, step.drops, []);
    } else {
      RegroupDrops(reported, p.drops, step.drops,
          ReadLogical(crc, verify, file, p.next, step.inFragmented, step.scratch).drops);
    }
  }

  lemma RegroupDrops(a: seq<nat>, b: seq<nat>, c: seq<nat>, d: seq<nat>)
    ensures a + (b + c) == a + b + c
    ensures a + (b + c + d) == (a + b + c) + d
  {
  }

  lemma EndIsEnd(kind: nat, fragment: seq<byte>, inFragmented: bool, scratch: seq<byte>)
    ensures Assemble(kind, fragment, inFragmented, scratch).More? ==> kind != EOF
  {
  }

  /** The round that ends ReadRecord. */
  lemma RoundEnds(seen: seq<Seen>, inRecord: bool, from: nat, scratch: seq<byte>, reports: seq<nat>, x: Seen)
    requires EndsOpen(seen, inRecord, from, scratch, reports) && Assemble(x.kind, x.fragment, inRecord, scratch).Done?
    requires x.kind == EOF ==> x.drops == []
    ensures var step := Assemble(x.kind, x.fragment, inRecord, scratch);
      IsOutcome(seen + [x], step.ok, step.record, reports + x.drops + step.drops)
  {
    hide NoneWhole, OpenFrom, Bytes, Joined, IsWhole, Sum;
    var step := Assemble(x.kind, x.fragment, inRecord, scratch);
    var more, i := seen + [x], if x.kind == FULL_TYPE then |seen| else from;
    assert more[..|seen|] == seen && more[|seen|..] == [x] && more[from..] == seen[from..] + [x];
    WholeMore(seen, inRecord, from, x);
    JoinedMore(seen[from..], x);
    Told(seen, x, reports, step.drops);
    if step.ok {
      assert IsWhole(more[i..]) && step.record == Joined(more[i..]);
    } else {
      assert reports + x.drops + step.drops == reports;
    }
  }

  /** A round that does not. */
  lemma RoundGoesOn(seen: seq<Seen>, inRecord: bool, from: nat, scratch: seq<byte>, reports: seq<nat>, x: Seen)
    requires EndsOpen(seen, inRecord, from, scratch, reports) && Assemble(x.kind, x.fragment, inRecord, scratch).More?
    ensures var step := Assemble(x.kind, x.fragment, inRecord, scratch);
      EndsOpen(seen + [x], step.inFragmented, if x.kind == FIRST_TYPE then |seen| else from, step.scratch,
          reports + x.drops + step.drops)
  {
    hide NoneWhole, OpenFrom, Bytes, Joined, IsWhole, Sum;
    var step := Assemble(x.kind, x.fragment, inRecord, scratch);
    var more := seen + [x];
    assert more[|seen|..] == [x] && more[from..] == seen[from..] + [x];
    OpenMore(seen, inRecord, from, x);
    WholeMore(seen, inRecord, from, x);
    JoinedMore(seen[from..], x);
    Told(seen, x, reports, step.drops);
  }

  lemma Told(seen: seq<Seen>, x: Seen, reports: seq<nat>, drops: seq<nat>)
    requires |drops| <= 1
    ensures Sum(reports + x.drops + drops) == Sum(reports) + Sum(x.drops) + if drops == [] then 0 else drops[0]
    ensures Bytes(seen + [x])
         == Bytes(seen) + Sum(x.drops) + if x.kind == EOF || x.kind == BAD_RECORD then 0 else |x.fragment|
  {
    hide Bytes;
    BytesMore(seen, x);
    SumJoin(reports + x.drops, drops);
    SumJoin(reports, x.drops);
    FewSizes(drops);
  }

  ghost predicate UnderWay(crc: Checksum, verify: bool, file: seq<byte>, pos: nat, at: nat, seen: seq<Seen>,
      inRecord: bool, from: nat, scratch: seq<byte>, reports: seq<nat>)
  {
    && IsTrail(crc, verify, file, pos, seen) && EndOfTrail(pos, seen) == at
    && EndsOpen(seen, inRecord, from, scratch, reports)
  }

  /** One round of ReadRecord, seen as what it has met so far. */
  lemma OneRound(crc: Checksum, verify: bool, file: seq<byte>, pos: nat, at: nat, seen: seq<Seen>, inRecord: bool,
      from: nat, scratch: seq<byte>, reports: seq<nat>, x: Seen)
    requires UnderWay(crc, verify, file, pos, at, seen, inRecord, from, scratch, reports)
    requires IsNext(crc, verify, file, at, x)
    ensures var step := Assemble(x.kind, x.fragment, inRecord, scratch);
      var told := reports + x.drops + step.drops;
      if step.Done? then
        && IsTrail(crc, verify, file, pos, seen + [x]) && EndOfTrail(pos, seen + [x]) == x.end
        && IsOutcome(seen + [x], step.ok, step.record, told)
      else UnderWay(crc, verify, file, pos, x.end, seen + [x], step.inFragmented,
                    if x.kind == FIRST_TYPE then |seen| else from, step.scratch, told)
  {
    hide IsNext, Assemble, IsTrail, IsOutcome, EndsOpen;
    TrailGrows(crc, verify, file, pos, seen, x);
    EndIsSilent(crc, verify, file, at, x);
    if Assemble(x.kind, x.fragment, inRecord, scratch).Done? {
      RoundEnds(seen, inRecord, from, scratch, reports, x);
    } else {
      RoundGoesOn(seen, inRecord, from, scratch, reports, x);
    }
  }

  lemma FewSizes(drops: seq<nat>)
    requires |drops| <= 1
    ensures Sum(drops) == if drops == [] then 0 else drops[0]
  {
    assert drops != [] ==> drops[..0] == [];
  }

  class Reader {
    const crc: Checksum
    const checksum: bool
    const file: seq<byte>
    var buffer: seq<byte>
    var eof: bool
    var endOfBufferOffset: nat       // also where the file is read next
    var reported: seq<nat>           // what the Reporter was told

    ghost function At(): Cursor
      reads this
      requires |buffer| <= endOfBufferOffset
    {
      Cursor(endOfBufferOffset - |buffer|, endOfBufferOffset, eof)
    }

    ghost predicate Valid()
      reads this
    {
      && |buffer| <= endOfBufferOffset && CursorOk(file, At())
      && buffer == file[endOfBufferOffset - |buffer|..endOfBufferOffset]
    }

    constructor (check: Checksum, verify: bool, contents: seq<byte>)
      ensures Valid() && file == contents && crc == check && checksum == verify
      ensures At() == Cursor(0, 0, false) && reported == []
    {
      crc, checksum, file := check, verify, contents;
      buffer, eof, endOfBufferOffset, reported := [], false, 0, [];
    }

    method ReportCorruption(bytes: nat)
      modifies `reported
      ensures reported == old(reported) + [bytes]
    {
      reported := reported + [bytes];
    }

    /** Reads the next block over what is left of the last one. */
    method FillBuffer()
      requires Valid() && !eof
      modifies `buffer, `endOfBufferOffset, `eof
      ensures Valid() && At() == Refill(file, old(At()))
    {
      hide CursorOk;
      ghost var c := At();
      CursorInFile(file, c);
      var got := if |file| - endOfBufferOffset < BLOCK_SIZE then |file| - endOfBufferOffset else BLOCK_SIZE;
      buffer := file[endOfBufferOffset..endOfBufferOffset + got];
      endOfBufferOffset := endOfBufferOffset + |buffer|;
      if |buffer| < BLOCK_SIZE {
        eof := true;
      }
      assert At() == Refill(file, c);
    }

    method ReadPhysicalRecord() returns (kind: nat, fragment: seq<byte>)
      requires Valid()
      modifies this
      ensures Valid()
      ensures var r := ReadPhysical(crc, checksum, file, old(At()));
        kind == r.kind && fragment == r.fragment && At() == r.next && reported == old(reported) + r.drops
      ensures old(reported) <= reported
      ensures var pos := old(At()).pos;
        var drops := reported[|old(reported)|..];
        IsNext(crc, checksum, file, pos, Seen(HeaderAt(pos), kind, fragment, drops, At().pos))
    {
      hide Parse, ReadPhysical, CursorOk, IsNext;
      PhysicalIsNext(crc, checksum, file, At());
      fragment := [];
      while true
        invariant Valid() && reported == old(reported) && fragment == []
        invariant ReadPhysical(crc, checksum, file, At()) == ReadPhysical(crc, checksum, file, old(At()))
        decreases if eof then 0 else 1, |file| - endOfBufferOffset
      {
        if |buffer| < HEADER_SIZE {
          if !eof {
            RefillFirst(crc, checksum, file, At());
            FillBuffer();
          } else {
            ReadHereOrNever(crc, checksum, file, At());
            FurtherIsValid(file, At(), endOfBufferOffset);
            buffer := [];
            kind := EOF;
            return;
          }
        } else {
          ReadHereOrNever(crc, checksum, file, At());
          kind, fragment := ParseBuffer();
          return;
        }
      }
    }

    /** The part of ReadPhysicalRecord that follows once a header is at hand. */
    method ParseBuffer() returns (kind: nat, fragment: seq<byte>)
      requires Valid() && |buffer| >= HEADER_SIZE
      modifies `buffer, `reported
      ensures Valid()
      ensures var p := Parse(crc, checksum, old(buffer), eof);
        && kind == p.kind && fragment == p.fragment && reported == old(reported) + p.drops
        && buffer == old(buffer)[p.taken..]
    {
      hide CursorOk, Unmask, DecodeFixed32;
      ghost var taken := Parse(crc, checksum, buffer, eof).taken;
      FurtherIsValid(file, At(), At().pos + taken);
      SliceOfSlice(file, At().pos, endOfBufferOffset, taken, |buffer|);
      fragment := [];
      var header := buffer;
      var length := LengthField(header);
      kind := WidenChar(header[6]);
      if HEADER_SIZE + length > |buffer| {
        var dropSize := |buffer|;
        buffer := [];
        if !eof {
          ReportCorruption(dropSize);
          kind := BAD_RECORD;
          return;
        }
        kind := EOF;
        return;
      }
      if kind == ZERO_TYPE && length == 0 {
        buffer := [];
        kind := BAD_RECORD;
        return;
      }
      if checksum {
        var expectedCrc := Unmask(DecodeFixed32(header[..4]));
        var actualCrc := crc(header[6..HEADER_SIZE + length]);
        if actualCrc != expectedCrc {
          var dropSize := |buffer|;
          buffer := [];
          ReportCorruption(dropSize);
          kind := BAD_RECORD;
          return;
        }
      }
      buffer := buffer[HEADER_SIZE + length..];
      fragment := header[HEADER_SIZE..HEADER_SIZE + length];
    }

    /** `seen` is what the call met. */
    method ReadRecord() returns (ok: bool, record: seq<byte>, ghost seen: seq<Seen>)
      requires Valid()
      modifies this
      ensures Valid()
      ensures var r := ReadLogical(crc, checksum, file, old(At()), false, []);
        ok == r.ok && record == r.record && At() == r.next && reported == old(reported) + r.drops
      ensures IsTrail(crc, checksum, file, old(At()).pos, seen) && EndOfTrail(old(At()).pos, seen) == At().pos
      ensures old(reported) <= reported && IsOutcome(seen, ok, record, reported[|old(reported)|..])
    {
      hide ReadPhysical, ReadLogical, CursorOk, Assemble, IsNext, IsTrail, EndOfTrail, IsOutcome,
        EndsOpen, UnderWay;
      var scratch: seq<byte> := [];
      var inFragmentedRecord := false;
      ghost var all, before := ReadLogical(crc, checksum, file, At(), false, []), reported;
      ghost var pos: nat, from: nat, told: seq<nat> := At().pos, 0, [];
      seen := [];
      NothingMet(crc, checksum, file, pos);
      while true
        invariant Valid()
        invariant SameOutcome(all, before, ReadLogical(crc, checksum, file, At(), inFragmentedRecord, scratch),
            reported)
        invariant UnderWay(crc, checksum, file, pos, At().pos, seen, inFragmentedRecord, from, scratch, told)
        invariant reported == before + told
        decreases |file| - (endOfBufferOffset - |buffer|)
      {
        OneStep(crc, checksum, file, At(), inFragmentedRecord, scratch, reported);
        CursorInFile(file, At());
        ghost var at := At().pos;
        var recordType, fragment := ReadPhysicalRecord();
        CursorInFile(file, At());
        ghost var x := Seen(HeaderAt(at), recordType, fragment, reported[|before + told|..], At().pos);
        OneRound(crc, checksum, file, pos, at, seen, inFragmentedRecord, from, scratch, told, x);
        var step := TakeFragment(recordType, fragment, inFragmentedRecord, scratch);
        seen, told := seen + [x], told + x.drops + step.drops;
        assert reported[|before|..] == told;
        if step.Done? {
          return step.ok, step.record, seen;
        }
        from := if recordType == FIRST_TYPE then |seen| - 1 else from;
        inFragmentedRecord, scratch := step.inFragmented, step.scratch;
      }
    }

    /** The switch over the record type in ReadRecord. */
    method TakeFragment(recordType: nat, fragment: seq<byte>, inFragmented: bool, scratch: seq<byte>)
        returns (step: Step)
      modifies `reported
      ensures step == Assemble(recordType, fragment, inFragmented, scratch)
      ensures reported == old(reported) + step.drops
    {
      if recordType == FULL_TYPE {
        if inFragmented && scratch != [] {
          ReportCorruption(|scratch|);
          return Done(true, fragment, [|scratch|]);
        }
        return Done(true, fragment, []);
      } else if recordType == FIRST_TYPE {
        if inFragmented && scratch != [] {
          ReportCorruption(|scratch|);
          return More(true, fragment, [|scratch|]);
        }
        return More(true, fragment, []);
      } else if recordType == MIDDLE_TYPE {
        if !inFragmented {
          ReportCorruption(|fragment|);
          return More(false, scratch, [|fragment|]);
        }
        return More(true, scratch + fragment, []);
      } else if recordType == LAST_TYPE {
        if !inFragmented {
          ReportCorruption(|fragment|);
          return More(false, scratch, [|fragment|]);
        }
        return Done(true, scratch + fragment, []);
      } else if recordType == EOF {
        return Done(false, [], []);
      } else if recordType == BAD_RECORD {
        if inFragmented {
          ReportCorruption(|scratch|);
          return More(false, [], [|scratch|]);
        }
        return More(false, scratch, []);
      } else {
        var dropped := |fragment| + if inFragmented then |scratch| else 0;
        ReportCorruption(dropped);
        return More(false, [], [dropped]);
      }
    }
  }

  lemma NothingMet(crc: Checksum, verify: bool, file: seq<byte>, pos: nat)
    ensures UnderWay(crc, verify, file, pos, pos, [], false, 0, [], [])
  {
    NothingSeen();
  }

  lemma FurtherIsValid(file: seq<byte>, c: Cursor, pos: nat)
    requires CursorOk(file, c) && c.pos <= pos <= c.end
    ensures CursorOk(file, c.(pos := pos)) && c.end <= |file|
  {
  }

  lemma CursorInFile(file: seq<byte>, c: Cursor)
    requires CursorOk(file, c)
    ensures c.pos <= c.end <= |file|
  {
  }
}
