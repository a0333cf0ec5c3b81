/** What a log reader meets in the bytes of any file, damaged or not, and which
    record that makes. */
module LogTrail {
  import opened Coding
  import opened LogFormat

  /** One header met at `at`: the type and the bytes handed on, the sizes
      reported as dropped, and where reading goes on. */
  datatype Seen = Seen(at: nat, kind: nat, fragment: seq<byte>, drops: seq<nat>, end: nat)

  /** Blocks have 32768 bytes; the last 6 of them hold no header. */
  function HeaderAt(pos: nat): nat {
    if pos % 32768 <= 32761 then pos else pos / 32768 * 32768 + 32768
  }

  /** The end of the block, or of the file. */
  function RestEnd(file: seq<byte>, p: nat): nat {
    var e := p / 32768 * 32768 + 32768;
    if e < |file| then e else |file|
  }

  function PayloadLength(file: seq<byte>, p: nat): nat
    requires p + 7 <= |file|
  {
    file[p + 4] as int + file[p + 5] as int * 256
  }

  /** The stored checksum is that of the type and the payload. */
  predicate Intact(crc: Checksum, file: seq<byte>, p: nat)
    requires p + 7 <= |file| && p + 7 + PayloadLength(file, p) <= |file|
  {
    Unmask(DecodeFixed32(file[p..p + 4])) == crc(file[p + 6..p + 7 + PayloadLength(file, p)])
  }

  /** A header byte is a signed char there, widened to an unsigned int. */
  function WidenChar(b: byte): nat {
    if b < 128 then b else b + 0xffff_ff00
  }

  /** The only thing that reading on from `pos` may come to: 5 is the end of
      the file, 6 a bad record. */
  ghost predicate IsNext(crc: Checksum, verify: bool, file: seq<byte>, pos: nat, x: Seen) {
    var p := HeaderAt(pos);
    var rest := RestEnd(file, p);
    && x.at == p
    && if p + 7 > |file| then x == Seen(p, 5, [], [], |file|)
       else if p + 7 + PayloadLength(file, p) > rest then
         // cut off: by the end of the file, or by the end of its block
         x == if rest % 32768 == 0 then Seen(p, 6, [], [rest - p], rest) else Seen(p, 5, [], [], rest)
       else if file[p + 6] == 0 && PayloadLength(file, p) == 0 then x == Seen(p, 6, [], [], rest)
       else if verify && !Intact(crc, file, p) then x == Seen(p, 6, [], [rest - p], rest)
       else
         && x.fragment == file[p + 7..p + 7 + PayloadLength(file, p)]
         && x.kind == WidenChar(file[p + 6]) && x.end == p + 7 + PayloadLength(file, p) && x.drops == []
  }

  /** Where reading goes on behind what was seen from `pos` on. */
  function EndOfTrail(pos: nat, seen: seq<Seen>): nat {
    if seen == [] then pos else seen[|seen| - 1].end
  }

  ghost predicate IsTrail(crc: Checksum, verify: bool, file: seq<byte>, pos: nat, seen: seq<Seen>) {
    forall i :: 0 <= i < |seen| ==> IsNext(crc, verify, file, EndOfTrail(pos, seen[..i]), seen[i])
  }

  lemma TrailGrows(crc: Checksum, verify: bool, file: seq<byte>, pos: nat, seen: seq<Seen>, x: Seen)
    requires IsTrail(crc, verify, file, pos, seen) && IsNext(crc, verify, file, EndOfTrail(pos, seen), x)
    ensures IsTrail(crc, verify, file, pos, seen + [x])
  {
    hide IsNext, EndOfTrail;
    var more := seen + [x];
    forall i | 0 <= i < |more|
      ensures IsNext(crc, verify, file, EndOfTrail(pos, more[..i]), more[i])
    {
      if i < |seen| {
        assert more[..i] == seen[..i] && more[i] == seen[i];
      } else {
        assert more[..i] == seen;
      }
    }
  }

  /** With verification on, whatever is handed on lies in the file under its
      own checksum. */
  lemma HandedOnIsIntact(crc: Checksum, file: seq<byte>, pos: nat, x: Seen)
    requires IsNext(crc, true, file, pos, x) && x.kind != 5 && x.kind != 6
    ensures var n := |x.fragment|;
      && x.at + 7 + n <= |file| && file[x.at + 7..x.at + 7 + n] == x.fragment && n < 65536
      && Unmask(DecodeFixed32(file[x.at..x.at + 4])) == crc(file[x.at + 6..x.at + 7 + n])
  {
    hide Unmask, DecodeFixed32;
  }

  /** A fragment in place whose checksum differs is reported, with all that
      follows it in its block, and none of it is handed on. */
  lemma DamageIsReported(crc: Checksum, file: seq<byte>, pos: nat, x: Seen, n: nat)
    requires IsNext(crc, true, file, pos, x)
    requires var p := HeaderAt(pos);
      && p + 7 + n <= RestEnd(file, p) && PayloadLength(file, p) == n && (file[p + 6] != 0 || n > 0)
    requires Unmask(DecodeFixed32(file[x.at..x.at + 4])) != crc(file[x.at + 6..x.at + 7 + n])
    ensures x.kind == 6 && x.fragment == [] && x.drops == [x.end - x.at]
    ensures x.end % 32768 == 0 || x.end == |file|
  {
    hide Unmask, DecodeFixed32;
  }

  lemma EndIsSilent(crc: Checksum, verify: bool, file: seq<byte>, pos: nat, x: Seen)
    requires IsNext(crc, verify, file, pos, x)
    ensures x.kind == 5 ==> x.drops == []
  {
  }

  // ---- records ----

  /** Types: 1 a whole record, 2 the first part of one, 3 a middle part and 4
      the last part. */
  predicate IsOpen(seen: seq<Seen>) {
    && seen != [] && seen[0].kind == 2
    && forall i :: 1 <= i < |seen| ==> seen[i].kind == 3
  }

  predicate IsWhole(seen: seq<Seen>) {
    && seen != []
    && var last := |seen| - 1;
      if last == 0 then seen[0].kind == 1 else seen[last].kind == 4 && IsOpen(seen[..last])
  }

  function Joined(seen: seq<Seen>): seq<byte> {
    if seen == [] then [] else Joined(seen[..|seen| - 1]) + seen[|seen| - 1].fragment
  }

  /** No record is complete anywhere before the end. */
  ghost predicate NoneWhole(seen: seq<Seen>) {
    forall i, j :: 0 <= i <= j <= |seen| ==> !IsWhole(seen[i..j])
  }

  /** The unfinished record at the end begins at `from`. */
  ghost predicate OpenFrom(seen: seq<Seen>, inRecord: bool, from: nat) {
    forall i :: 0 <= i <= |seen| ==> (IsOpen(seen[i..]) <==> inRecord && i == from)
  }

  lemma JoinedMore(a: seq<Seen>, x: Seen)
    ensures Joined(a + [x]) == Joined(a) + x.fragment && Joined([x]) == x.fragment
  {
    assert [x][..0] == [];
    assert (a + [x])[..|a|] == a;
  }

  lemma OneMoreSeen(s: seq<Seen>, x: Seen)
    ensures IsOpen(s + [x]) <==> if s == [] then x.kind == 2 else IsOpen(s) && x.kind == 3
    ensures IsWhole(s + [x]) <==> if s == [] then x.kind == 1 else IsOpen(s) && x.kind == 4
  {
    var more := s + [x];
    assert more[..|s|] == s && more[|s|] == x;
    if IsOpen(more) && s != [] {
      forall k | 1 <= k < |s|
        ensures s[k].kind == 3
      {
        assert more[k] == s[k];
      }
    }
  }

  lemma NothingSeen()
    ensures !IsOpen([]) && !IsWhole([])
  {
  }

  lemma OpenMore(seen: seq<Seen>, inRecord: bool, from: nat, x: Seen)
    requires OpenFrom(seen, inRecord, from) && from <= |seen|
    ensures OpenFrom(seen + [x], if x.kind == 2 then true else inRecord && x.kind == 3,
                     if x.kind == 2 then |seen| else from)
  {
    hide IsOpen, IsWhole;
    NothingSeen();
    var more := seen + [x];
    forall i | 0 <= i <= |more|
      ensures IsOpen(more[i..]) <==> if x.kind == 2 then i == |seen| else inRecord && x.kind == 3 && i == from
    {
      assert seen[|seen|..] == [] && more[|more|..] == [];
      if i <= |seen| {
        assert more[i..] == seen[i..] + [x];
        OneMoreSeen(seen[i..], x);
      }
    }
  }

  lemma WholeMore(seen: seq<Seen>, inRecord: bool, from: nat, x: Seen)
    requires OpenFrom(seen, inRecord, from) && NoneWhole(seen)
    ensures forall i :: 0 <= i <= |seen| ==> (IsWhole((seen + [x])[i..])
        <==> (x.kind == 1 && i == |seen|) || (x.kind == 4 && inRecord && i == from))
    ensures !(x.kind == 1 || (x.kind == 4 && inRecord)) ==> NoneWhole(seen + [x])
  {
    hide IsOpen, IsWhole;
    NothingSeen();
    var more := seen + [x];
    forall i | 0 <= i <= |seen|
      ensures IsWhole(more[i..]) <==> (x.kind == 1 && i == |seen|) || (x.kind == 4 && inRecord && i == from)
    {
      assert seen[|seen|..] == [];
      assert more[i..] == seen[i..] + [x];
      OneMoreSeen(seen[i..], x);
    }
    if !(x.kind == 1 || (x.kind == 4 && inRecord)) {
      forall i, j | 0 <= i <= j <= |more|
        ensures !IsWhole(more[i..j])
      {
        if j < |more| {
          assert more[i..j] == seen[i..j];
        } else if i < |more| {
          assert more[i..j] == more[i..];
        } else {
          assert more[i..j] == [];
        }
      }
    }
  }

  // ---- what is reported ----

  function Sum(sizes: seq<nat>): nat {
    if sizes == [] then 0 else Sum(sizes[..|sizes| - 1]) + sizes[|sizes| - 1]
  }

  lemma {:induction false} SumJoin(a: seq<nat>, b: seq<nat>)
    ensures Sum(a + b) == Sum(a) + Sum(b)
    decreases |b|
  {
    if b == [] {
      assert a + b == a;
    } else {
      SumJoin(a, b[..|b| - 1]);
      assert (a + b)[..|a + b| - 1] == a + b[..|b| - 1];
    }
  }

  /** The bytes met: those handed on, and those of dropped blocks. */
  function Bytes(seen: seq<Seen>): nat {
    if seen == [] then 0
    else
      var x := seen[|seen| - 1];
      Bytes(seen[..|seen| - 1]) + Sum(x.drops) + if x.kind == 5 || x.kind == 6 then 0 else |x.fragment|
  }

  lemma BytesMore(a: seq<Seen>, x: Seen)
    ensures Bytes(a + [x]) == Bytes(a) + Sum(x.drops) + if x.kind == 5 || x.kind == 6 then 0 else |x.fragment|
  {
    assert (a + [x])[..|a|] == a;
  }

  // ---- one call of ReadRecord ----

  /** Before the last of what was seen, a record may be unfinished from
      `from` on. */
  ghost predicate EndsOpen(seen: seq<Seen>, inRecord: bool, from: nat, scratch: seq<byte>, reports: seq<nat>) {
    && NoneWhole(seen) && OpenFrom(seen, inRecord, from) && from <= |seen|
    && scratch == (if inRecord then Joined(seen[from..]) else [])
    && Sum(reports) + |scratch| == Bytes(seen)
  }

  /** `record` is the first whole record met and the last thing that was read,
      or the end came first. All else that was met has been reported, except
      for a record that the end cut off. */
  ghost predicate IsOutcome(seen: seq<Seen>, ok: bool, record: seq<byte>, reports: seq<nat>) {
    && seen != []
    && var n := |seen| - 1;
      if ok then
        && NoneWhole(seen[..n]) && Sum(reports) + |record| == Bytes(seen)
        && exists i :: 0 <= i <= n && IsWhole(seen[i..]) && record == Joined(seen[i..])
      else
        && seen[n].kind == 5 && record == []
        && exists inRecord, from, scratch :: EndsOpen(seen[..n], inRecord, from, scratch, reports)
  }
}
