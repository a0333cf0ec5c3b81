/** Required fields: which inputs pb_decode refuses for want of one. */
module PbRequired {
  import opened Coding
  import opened PbFormat
  import opened PbWire
  import opened PbDecoding

  // ---- every reader leaves the end of its input ----

  ghost predicate Ends(rest: seq<byte>, b: seq<byte>) {
    |rest| <= |b| && rest == b[|b| - |rest|..]
  }

  lemma EndsTwice(a: seq<byte>, b: seq<byte>, c: seq<byte>)
    requires Ends(a, b) && Ends(b, c)
    ensures Ends(a, c)
  {
    assert c[|c| - |b|..][|b| - |a|..] == c[|c| - |a|..];
  }

  lemma EndsAfter(b: seq<byte>, n: nat)
    requires n <= |b|
    ensures Ends(b[n..], b)
  {
  }

  lemma {:induction false} Varint32FromEnds(b: seq<byte>, bitpos: nat, result: uint32)
    ensures var r := Varint32From(b, bitpos, result);
      r.Value? ==> Ends(r.rest, b)
    decreases |b|
  {
    hide Ends, Or, ShiftLeft;
    if b != [] {
      EndsAfter(b, 1);
      var low := b[0] % 128;
      var next := if bitpos >= 32 then result else Or(result, ShiftLeft(low, bitpos) % TWO_32) % TWO_32;
      Varint32FromEnds(b[1..], (bitpos + 7) % 256, next);
      var r := Varint32From(b[1..], (bitpos + 7) % 256, next);
      if r.Value? { EndsTwice(r.rest, b[1..], b); }
    }
  }

  lemma Varint32Ends(b: seq<byte>)
    ensures Varint32(b).Value? ==> Ends(Varint32(b).rest, b)
  {
    hide Varint32From, Ends;
    if b != [] {
      EndsAfter(b, 1);
      var r := Varint32From(b[1..], 7, b[0] % 128);
      Varint32FromEnds(b[1..], 7, b[0] % 128);
      if r.Value? { EndsTwice(r.rest, b[1..], b); }
    }
  }

  lemma {:induction false} SkipVarintEnds(b: seq<byte>)
    ensures SkipVarint(b).Value? ==> Ends(SkipVarint(b).rest, b)
  {
    hide Ends;
    if b != [] {
      EndsAfter(b, 1);
      SkipVarintEnds(b[1..]);
      if SkipVarint(b[1..]).Value? { EndsTwice(SkipVarint(b[1..]).rest, b[1..], b); }
    }
  }

  lemma SkipFieldEnds(wireType: nat, b: seq<byte>)
    ensures SkipField(wireType, b).Value? ==> Ends(SkipField(wireType, b).rest, b)
  {
    hide Ends, SkipVarint, Varint32;
    SkipVarintEnds(b);
    Varint32Ends(b);
    if |b| >= 4 { EndsAfter(b, 4); }
    if |b| >= 8 { EndsAfter(b, 8); }
    if wireType == WT_STRING && Varint32(b).Value? {
      var size, rest := Varint32(b).v, Varint32(b).rest;
      if size <= |rest| {
        EndsAfter(rest, size);
        EndsTwice(rest[size..], rest, b);
      }
    }
  }

  lemma NumberEnds(l: LType, dataSize: nat, b: seq<byte>)
    ensures ReadNumber(l, dataSize, b).Value? ==> Ends(ReadNumber(l, dataSize, b).rest, b)
  {
    hide Varint32, Ends, Clamped, Widened, DecodeFixed32, DecodeFixed64;
    Varint32Ends(b);
    Varint64Ends(b);
    if |b| >= 4 { EndsAfter(b, 4); }
    if |b| >= 8 { EndsAfter(b, 8); }
    hide ParseVarint64;
  }

  lemma Varint64Ends(b: seq<byte>)
    ensures ParseVarint64(b).Value? ==> Ends(ParseVarint64(b).rest, b)
  {
  }

  lemma PrefixedEnds(b: seq<byte>)
    ensures ReadPrefixed(b).Value? ==> Ends(ReadPrefixed(b).rest, b)
  {
    hide Varint32, Ends;
    Varint32Ends(b);
    if ReadPrefixed(b).Value? {
      var size, rest := Varint32(b).v, Varint32(b).rest;
      EndsAfter(rest, size);
      EndsTwice(rest[size..], rest, b);
    }
  }

  lemma ValueEnds(l: LType, dataSize: nat, b: seq<byte>, dest: Value)
    ensures ReadValue(l, dataSize, b, dest).Value? ==> Ends(ReadValue(l, dataSize, b, dest).rest, b)
  {
    hide Ends, ReadNumber, ReadPrefixed, ReadInto;
    NumberEnds(l, dataSize, b);
    PrefixedEnds(b);
  }

  lemma FieldEnds(f: Field, i: nat, wireType: nat, b: seq<byte>, m: Message)
    ensures ReadField(f, i, wireType, b, m).Value? ==> Ends(ReadField(f, i, wireType, b, m).rest, b)
  {
    hide Ends, ReadValue, ReadPrefixed, ReadPacked;
    ValueEnds(f.ltype, f.dataSize, b, DestOf(f, m, i));
    PrefixedEnds(b);
  }

  lemma StepEnds(fields: Fields, b: seq<byte>, p: Progress)
    ensures OneStep(fields, b, p).Continue? ==> Ends(OneStep(fields, b, p).rest, b)
  {
    hide Ends, ReadField, SkipField, Varint32, FindTag, Marked;
    if b != [] && Varint32(b).Value? {
      Varint32Ends(b);
      var key, rest := Varint32(b).v, Varint32(b).rest;
      SkipFieldEnds(key % 8, rest);
      if SkipField(key % 8, rest).Value? { EndsTwice(SkipField(key % 8, rest).rest, rest, b); }
      var found := FindTag(fields, key / 8);
      if found.Just? {
        var r := ReadField(fields[found.value], found.value, key % 8, rest, p.m);
        FieldEnds(fields[found.value], found.value, key % 8, rest, p.m);
        if r.Value? { EndsTwice(r.rest, rest, b); }
      }
    }
  }

  // ---- bits ----

  lemma {:induction false} RequiredCounts(fields: Fields, i: nat, n: nat)
    requires i <= n <= |fields|
    ensures RequiredBefore(fields, i) <= RequiredBefore(fields, n)
    ensures i < n && fields[i].htype.Required? ==> RequiredBefore(fields, i) < RequiredBefore(fields, n)
    decreases n
  {
    if i < n { RequiredCounts(fields, i, n - 1); }
  }

  /** Each required field has a bit of its own. */
  lemma OwnBit(fields: Fields, i: nat, k: nat)
    requires i < |fields| && k < |fields| && fields[i].htype.Required? && fields[k].htype.Required?
    requires RequiredBefore(fields, i) == RequiredBefore(fields, k)
    ensures i == k
  {
    if i < k { RequiredCounts(fields, i, k); }
    if k < i { RequiredCounts(fields, k, i); }
  }

  lemma {:induction false} BitHasField(fields: Fields, n: nat, bit: nat) returns (i: nat)
    requires n <= |fields| && bit < RequiredBefore(fields, n)
    ensures i < n && fields[i].htype.Required? && RequiredBefore(fields, i) == bit
  {
    if bit < RequiredBefore(fields, n - 1) {
      i := BitHasField(fields, n - 1, bit);
    } else {
      i := n - 1;
    }
  }

  /** The input is accepted exactly if it can be read to its end and each of the
      first 64 required fields was met. */
  lemma AcceptedExactly(fields: Fields, b: seq<byte>)
    ensures Decoded(fields, b).Just? <==>
      var r := ReadFields(fields, b, Progress(Defaults(fields), {}));
      r.Just? && forall i :: 0 <= i < |fields| && fields[i].htype.Required? && RequiredBefore(fields, i) < 64 ==>
        RequiredBefore(fields, i) in r.value.seen
  {
    hide ReadFields, Defaults;
    var r := ReadFields(fields, b, Progress(Defaults(fields), {}));
    if r.Just? {
      var seen := r.value.seen;
      forall i | AllSeen(seen, RequiredBits(fields)) && 0 <= i < |fields| && fields[i].htype.Required?
          && RequiredBefore(fields, i) < 64
        ensures RequiredBefore(fields, i) in seen
      {
        RequiredCounts(fields, i, |fields|);
      }
      forall k | 0 <= k < RequiredBits(fields)
        ensures k in seen
            || exists i :: 0 <= i < |fields| && fields[i].htype.Required? && RequiredBefore(fields, i) == k
      {
        var i := BitHasField(fields, |fields|, k);
      }
    }
  }

  // ---- what was met was there ----

  /** Somewhere in the input there is a key with this tag. */
  ghost predicate KeyOccurs(b: seq<byte>, tag: nat) {
    exists p :: 0 <= p < |b| && Varint32(b[p..]).Value? && Varint32(b[p..]).v / 8 == tag
  }

  lemma KeyOccursBefore(rest: seq<byte>, b: seq<byte>, tag: nat)
    requires Ends(rest, b) && KeyOccurs(rest, tag)
    ensures KeyOccurs(b, tag)
  {
    hide Varint32;
    var p :| 0 <= p < |rest| && Varint32(rest[p..]).Value? && Varint32(rest[p..]).v / 8 == tag;
    assert rest[p..] == b[|b| - |rest| + p..];
  }

  lemma StepMeets(fields: Fields, b: seq<byte>, p: Progress, i: nat)
    requires i < |fields| && fields[i].htype.Required? && OneStep(fields, b, p).Continue?
    requires RequiredBefore(fields, i) in OneStep(fields, b, p).p.seen && RequiredBefore(fields, i) !in p.seen
    ensures KeyOccurs(b, fields[i].tag)
  {
    hide ReadField, SkipField, Varint32;
    var key := Varint32(b).v;
    var k := FindTag(fields, key / 8).value;
    OwnBit(fields, i, k);
    assert b[0..] == b;
  }

  lemma {:induction false} MetWasThere(fields: Fields, b: seq<byte>, p: Progress, i: nat)
    requires i < |fields| && fields[i].htype.Required? && ReadFields(fields, b, p).Just?
    requires RequiredBefore(fields, i) in ReadFields(fields, b, p).value.seen && RequiredBefore(fields, i) !in p.seen
    ensures KeyOccurs(b, fields[i].tag)
    decreases |b|
  {
    hide OneStep, KeyOccurs, Ends, RequiredBefore;
    var step := OneStep(fields, b, p);
    if step.Continue? {
      if RequiredBefore(fields, i) in step.p.seen {
        StepMeets(fields, b, p, i);
      } else {
        MetWasThere(fields, step.rest, step.p, i);
        StepEnds(fields, b, p);
        KeyOccursBefore(step.rest, b, fields[i].tag);
      }
    }
  }

  /** What is accepted has a key for each of the first 64 required fields: an
      input without one is refused, whatever else is in it. */
  lemma RequiredFieldsWereThere(fields: Fields, b: seq<byte>, i: nat)
    requires i < |fields| && fields[i].htype.Required? && RequiredBefore(fields, i) < 64
    requires Decoded(fields, b).Just?
    ensures KeyOccurs(b, fields[i].tag)
  {
    hide ReadFields, Defaults, KeyOccurs, RequiredBefore;
    AcceptedExactly(fields, b);
    MetWasThere(fields, b, Progress(Defaults(fields), {}), i);
  }
}
