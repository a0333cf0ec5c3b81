/** pb_decode: the loop over tags, driving an iterator over the descriptor and
    filling the struct in. */
module PbDecoder {
  import opened Coding
  import opened PbFormat
  import opened PbWire
  import opened PbDecoding
  import opened PbIterators
  import opened PbInput

  /** The struct being decoded into. */
  class Target {
    var m: Message

    constructor (m: Message)
      ensures this.m == m
    {
      this.m := m;
    }
  }

  // ---- required fields ----

  /** The low n bits of a word of fields_seen, which is the set of its bits. */
  function Mask(n: nat): set<nat> {
    if n == 0 then {} else Mask(n - 1) + {n - 1}
  }

  lemma {:induction false} InMask(n: nat, k: nat)
    ensures k in Mask(n) <==> k < n
  {
    if n > 0 { InMask(n - 1, k); }
  }

  /** The two words of fields_seen hold the bits seen, all of them below n. */
  ghost predicate Holds(words: seq<set<nat>>, seen: set<nat>, n: nat) {
    && |words| == 2 && (forall k :: k in words[0] ==> k < 32) && (forall k :: k in words[1] ==> k < 32)
    && (forall k :: k in seen ==> k < n && k < MAX_REQUIRED_FIELDS)
    && (forall k :: 0 <= k < 32 ==> (k in words[0] <==> k in seen))
    && forall k :: 0 <= k < 32 ==> (k in words[1] <==> k + 32 in seen)
  }

  /** fields_seen[index >> 5] |= 1 << (index & 31). */
  method MarkSeen(words: seq<set<nat>>, index: nat, ghost seen: set<nat>, ghost n: nat) returns (later: seq<set<nat>>)
    requires Holds(words, seen, n) && index < n && index < MAX_REQUIRED_FIELDS
    ensures Holds(later, seen + {index}, n)
  {
    var w := index / 32;
    later := words[w := words[w] + {index % 32}];
  }

  lemma {:induction false} RequiredGrow(fields: Fields, i: nat, j: nat)
    requires i <= j <= |fields|
    ensures RequiredBefore(fields, i) <= RequiredBefore(fields, j)
    ensures i < j && fields[i].htype.Required? ==> RequiredBefore(fields, i) < RequiredBefore(fields, j)
  {
    if i < j { RequiredGrow(fields, i, j - 1); }
  }

  /** The number of required fields, by going on to the last one. */
  method CountRequired(iter: FieldIter) returns (count: nat)
    requires iter.Valid()
    modifies iter
    ensures count == RequiredBefore(iter.start, |iter.start|)
  {
    var lastRequired := false;
    count := 0;
    if |iter.start| == 0 {
      return;
    }
    while true
      invariant iter.Valid() && iter.pos < |iter.start|
      decreases |iter.start| - iter.pos
    {
      ghost var here := iter.pos;
      count := iter.requiredFieldIndex;
      lastRequired := iter.start[iter.pos].htype.Required?;
      var more := iter.Next();
      if !more {
        assert here + 1 == |iter.start|;
        break;
      }
    }
    if lastRequired {
      count := count + 1;
    }
  }

  /** The check of whole words and of the remaining bits. */
  method CheckRequired(words: seq<set<nat>>, count: nat, ghost seen: set<nat>) returns (ok: bool)
    requires Holds(words, seen, count)
    ensures ok <==> AllSeen(seen, if count > MAX_REQUIRED_FIELDS then MAX_REQUIRED_FIELDS else count)
  {
    var reqFieldCount := if count > MAX_REQUIRED_FIELDS then MAX_REQUIRED_FIELDS else count;
    WordsTell(words, seen, count, reqFieldCount);
    ok := true;
    if reqFieldCount > 0 {
      if reqFieldCount >= 32 && words[0] != Mask(32) {
        return false;
      }
      if reqFieldCount >= 64 && words[1] != Mask(32) {
        return false;
      }
      if reqFieldCount % 32 != 0 && words[reqFieldCount / 32] != Mask(reqFieldCount % 32) {
        return false;
      }
    }
  }

  lemma WordIsMask(word: set<nat>, n: nat)
    ensures word == Mask(n) <==> (forall k :: k in word ==> k < n) && (forall k :: 0 <= k < n ==> k in word)
  {
    forall k: nat ensures k in Mask(n) <==> k < n {
      InMask(n, k);
    }
  }

  lemma WordsTell(words: seq<set<nat>>, seen: set<nat>, count: nat, n: nat)
    requires Holds(words, seen, count) && n == if count > MAX_REQUIRED_FIELDS then MAX_REQUIRED_FIELDS else count
    ensures AllSeen(seen, n) <==>
            && (n >= 32 ==> words[0] == Mask(32)) && (n >= 64 ==> words[1] == Mask(32))
            && (n % 32 != 0 ==> words[n / 32] == Mask(n % 32))
  {
    assert forall k :: 0 <= k < 32 ==> (k in words[0] <==> k in seen);
    assert forall k :: 0 <= k < 32 ==> (k in words[1] <==> k + 32 in seen);
    assert forall k :: 32 <= k < 64 ==> (k in seen <==> k - 32 in words[1]);
    if n < 32 {
      WordIsMask(words[0], n);
    } else if n < 64 {
      WordIsMask(words[0], 32);
      WordIsMask(words[1], n - 32);
    } else {
      WordIsMask(words[0], 32);
      WordIsMask(words[1], 32);
    }
  }

  // ---- values and fields ----

  /** The decoder of the type. */
  method DecodeValue(stream: IStream, l: LType, dataSize: nat, dest: Value) returns (ok: bool, v: Value)
    requires l.SUBMESSAGE? ==> WellFormed(l.ptr)
    modifies stream
    ensures Found(ReadValue(l, dataSize, old(stream.rest), dest), ok, v, stream.rest)
    decreases |stream.rest|, 0
  {
    hide ReadNumber, ReadPrefixed, ReadInto, WellFormed;
    v := Number(0);
    if Packable(l) {
      var n;
      ok, n := stream.DecodeNumber(l, dataSize);
      v := Number(n);
      return;
    }
    var substream;
    ok, substream := stream.MakeSubstream();
    if !ok {
      return;
    }
    var data := substream.rest;
    if l.BYTES? {
      ok, v := |data| + BYTES_HEADER <= dataSize, Data(data);
    } else if l.STRING? {
      ok, v := |data| + 1 <= dataSize, Data(data);
    } else if l.FIXED_LENGTH_BYTES? {
      ok, v := |data| == 0 || |data| == dataSize, if |data| == 0 then Data(Zeros(dataSize)) else Data(data);
    } else {
      var target := new Target(dest.StructOf());
      ok := DecodeNoinit(substream, l.ptr, target);
      v := Struct(target.m);
    }
  }

  /** The loop over a packed array. */
  method DecodePacked(substream: IStream, l: LType, dataSize: nat, s0: seq<Value>, arraySize: nat)
      returns (ok: bool, s: seq<Value>)
    modifies substream
    ensures var r := ReadPacked(l, dataSize, old(substream.rest), s0, arraySize);
      if r.Just? then ok && s == r.value else !ok
  {
    hide ReadNumber;
    s := s0;
    while |substream.rest| > 0 && |s| < arraySize
      invariant ReadPacked(l, dataSize, substream.rest, s, arraySize)
        == ReadPacked(l, dataSize, old(substream.rest), s0, arraySize)
      decreases |substream.rest|
    {
      var n;
      ok, n := substream.DecodeNumber(l, dataSize);
      if !ok {
        return;
      }
      s := s + [Number(n)];
    }
    ok := |substream.rest| == 0;
  }

  /** decode_static_field. */
  method DecodeField(stream: IStream, f: Field, i: nat, wireType: nat, target: Target) returns (ok: bool)
    requires FieldWellFormed(f)
    modifies stream, target
    ensures Found(ReadField(f, i, wireType, old(stream.rest), old(target.m)), ok, target.m, stream.rest)
    decreases |stream.rest|, 1
  {
    hide ReadValue, ReadPrefixed, ReadPacked, InitialOf;
    var s := target.m.ArrayAt(i);
    if f.htype.Repeated? && wireType == WT_STRING && Packable(f.ltype) {
      var substream;
      ok, substream := stream.MakeSubstream();
      if !ok {
        return;
      }
      ok, s := DecodePacked(substream, f.ltype, f.dataSize, s, f.htype.arraySize);
      target.m := WithArray(target.m, i, s);
      return;
    }
    if f.htype.Repeated? && |s| >= f.htype.arraySize {
      return false;
    }
    var v;
    ok, v := DecodeValue(stream, f.ltype, f.dataSize, DestOf(f, target.m, i));
    target.m := if f.htype.Repeated? then WithArray(target.m, i, s + [v]) else Assigned(f, target.m, i, v);
  }

  // ---- messages ----

  /** pb_decode_noinit. */
  method DecodeNoinit(stream: IStream, fields: Fields, target: Target) returns (ok: bool)
    requires WellFormed(fields)
    modifies stream, target
    ensures var r := ReadInto(fields, old(stream.rest), old(target.m));
      if r.Just? then ok && target.m == r.value else !ok
    decreases |stream.rest|, 2
  {
    hide ReadField, FindTag, SkipField, Varint32, RequiredBefore, Holds, UniqueTags, AllSeen, FieldWellFormed;
    var fieldsSeen: seq<set<nat>> := [{}, {}];
    var iter := new FieldIter(fields);
    ghost var seen, n := {}, RequiredBefore(fields, |fields|);
    ghost var whole := ReadFields(fields, stream.rest, Progress(target.m, {}));
    NothingSeen(n);
    var eof := false;
    while !eof && |stream.rest| > 0
      invariant iter.Valid() && iter.start == fields && fresh(iter) && |stream.rest| <= |old(stream.rest)|
      invariant Holds(fieldsSeen, seen, n)
      invariant if eof then whole == Just(Progress(target.m, seen))
        else whole == ReadFields(fields, stream.rest, Progress(target.m, seen))
      decreases !eof, |stream.rest|
    {
      var wireType, tag;
      ok, eof, wireType, tag := stream.DecodeTag();
      if !ok {
        if !eof {
          return;
        }
        break;
      }
      var found := iter.Find(tag);
      if !found {
        ok := stream.PassField(wireType);
        if !ok {
          return;
        }
      } else {
        var i := iter.pos;
        if fields[i].htype.Required? && iter.requiredFieldIndex < MAX_REQUIRED_FIELDS {
          RequiredGrow(fields, i, |fields|);
          fieldsSeen := MarkSeen(fieldsSeen, iter.requiredFieldIndex, seen, n);
        }
        seen := Marked(fields, i, seen);
        ok := DecodeField(stream, fields[i], i, wireType, target);
        if !ok {
          return;
        }
      }
    }
    var count := CountRequired(iter);
    ok := CheckRequired(fieldsSeen, count, seen);
  }

  lemma NothingSeen(n: nat)
    ensures Holds([{}, {}], {}, n)
  {
  }

  /** pb_decode, into a struct set to defaults. */
  method Decode(stream: IStream, fields: Fields) returns (ok: bool, target: Target)
    requires WellFormed(fields)
    modifies stream
    ensures fresh(target)
    ensures var r := Decoded(fields, old(stream.rest)); if r.Just? then ok && target.m == r.value else !ok
  {
    hide ReadInto, Defaults;
    target := new Target(Defaults(fields));
    ok := DecodeNoinit(stream, fields, target);
  }

  /** pb_decode_delimited: a length and a message of that length; the stream goes
      on behind it. */
  method DecodeDelimited(stream: IStream, fields: Fields) returns (ok: bool, target: Target)
    requires WellFormed(fields)
    modifies stream
    ensures fresh(target)
    ensures var p := ReadPrefixed(old(stream.rest));
      if p.Malformed? then !ok
      else
        var r := Decoded(fields, p.v);
        if r.Just? then ok && target.m == r.value && stream.rest == p.rest else !ok
  {
    hide ReadInto, Defaults, ReadPrefixed;
    target := new Target(Defaults(fields));
    var substream;
    ok, substream := stream.MakeSubstream();
    if !ok {
      return;
    }
    ok, target := Decode(substream, fields);
  }
}
