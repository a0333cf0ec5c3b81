/** The bytewise comparator, the order of encoded internal keys, and the keys that
    index blocks use in place of longer ones. */
module ByteOrder {
  import opened Coding

  /** Slice::compare: memcmp on the common length, then the lengths. */
  function Compare(a: seq<byte>, b: seq<byte>): int {
    if a == [] && b == [] then 0
    else if a == [] then -1
    else if b == [] then 1
    else if a[0] < b[0] then -1
    else if a[0] > b[0] then 1
    else Compare(a[1..], b[1..])
  }

  lemma {:induction false} CompareMirrors(a: seq<byte>, b: seq<byte>)
    ensures Compare(a, b) == -Compare(b, a)
    ensures Compare(a, b) == 0 <==> a == b
  {
    if a != [] && b != [] && a[0] == b[0] {
      CompareMirrors(a[1..], b[1..]);
      assert a == [a[0]] + a[1..] && b == [b[0]] + b[1..];
    }
  }

  lemma {:induction false} CompareChains(a: seq<byte>, b: seq<byte>, c: seq<byte>)
    requires Compare(a, b) <= 0 && Compare(b, c) <= 0
    ensures Compare(a, c) <= 0
    ensures Compare(a, b) < 0 || Compare(b, c) < 0 ==> Compare(a, c) < 0
  {
    if a != [] && b != [] && c != [] && a[0] == b[0] == c[0] {
      CompareChains(a[1..], b[1..], c[1..]);
    }
  }

  lemma {:induction false} CompareAfterPrefix(a: seq<byte>, b: seq<byte>, n: nat)
    requires n <= |a| && n <= |b| && a[..n] == b[..n]
    ensures Compare(a, b) == Compare(a[n..], b[n..])
  {
    if n > 0 {
      assert a[0] == a[..n][0] && b[0] == b[..n][0];
      assert a[1..][..n - 1] == a[..n][1..] && b[1..][..n - 1] == b[..n][1..];
      CompareAfterPrefix(a[1..], b[1..], n - 1);
      assert a[1..][n - 1..] == a[n..] && b[1..][n - 1..] == b[n..];
    }
  }

  /** The first difference decides. */
  lemma CompareAtDifference(a: seq<byte>, b: seq<byte>, n: nat)
    requires n < |a| && n < |b| && a[..n] == b[..n] && a[n] < b[n]
    ensures Compare(a, b) == -1
  {
    CompareAfterPrefix(a, b, n);
    assert a[n..][0] == a[n] && b[n..][0] == b[n];
  }

  ghost predicate IsDifference(a: seq<byte>, b: seq<byte>, i: nat) {
    i < |a| && i < |b| && a[..i] == b[..i] && a[i] != b[i]
  }

  lemma OneDifference(a: seq<byte>, b: seq<byte>, i: nat, j: nat)
    requires IsDifference(a, b, i) && IsDifference(a, b, j)
    ensures i == j
  {
    NoneBefore(a, b, i);
    NoneBefore(a, b, j);
  }

  lemma NoneBefore(a: seq<byte>, b: seq<byte>, i: nat)
    requires IsDifference(a, b, i)
    ensures forall j: nat :: j < i ==> !IsDifference(a, b, j)
  {
    forall j: nat | j < i
      ensures !IsDifference(a, b, j)
    {
      assert a[j] == a[..i][j] == b[..i][j] == b[j];
    }
  }

  /** The key with its byte i incremented, and cut off behind it. */
  function Raised(key: seq<byte>, i: nat): (r: seq<byte>)
    requires i < |key| && key[i] < 255
    ensures |r| == i + 1
  {
    key[..i] + [key[i] + 1]
  }

  /** No key from start on and before limit is shorter than that. */
  lemma ShorterIsOutside(start: seq<byte>, limit: seq<byte>, i: nat, key: seq<byte>)
    requires IsDifference(start, limit, i) && |key| <= i
    ensures Compare(key, start) < 0 || Compare(limit, key) < 0
  {
    if key == start[..|key|] {
      CompareAfterPrefix(key, start, |key|);
      assert key[|key|..] == [];
    } else {
      var j := FirstDifference(key, start);
      assert start[j] == start[..i][j] == limit[j];
      assert start[..j] == start[..i][..j] == limit[..i][..j] == limit[..j];
      if key[j] < start[j] {
        CompareAtDifference(key, start, j);
      } else {
        CompareAtDifference(limit, key, j);
      }
    }
  }

  lemma FirstDifference(a: seq<byte>, b: seq<byte>) returns (i: nat)
    requires |a| <= |b| && a != b[..|a|]
    ensures IsDifference(a, b, i)
  {
    var k :| 0 <= k < |a| && a[k] != b[k];
    i := 0;
    while a[i] == b[i]
      invariant i <= k && a[..i] == b[..i]
      decreases k - i
    {
      i := i + 1;
    }
  }

  /** BytewiseComparator: a key in [start, limit), as short as incrementing the
      first differing byte makes it. */
  method FindShortestSeparator(start: seq<byte>, limit: seq<byte>) returns (r: seq<byte>)
    ensures Compare(start, r) <= 0 && |r| <= |start|
    ensures r != start || Compare(start, limit) < 0 ==> Compare(r, limit) < 0
    ensures forall i: nat :: IsDifference(start, limit, i) ==>
        r == if start[i] as int + 1 < limit[i] as int then Raised(start, i) else start
    ensures start <= limit || limit <= start ==> r == start
  {
    var minLength := if |start| < |limit| then |start| else |limit|;
    var diffIndex := 0;
    while diffIndex < minLength && start[diffIndex] == limit[diffIndex]
      invariant 0 <= diffIndex <= minLength && start[..diffIndex] == limit[..diffIndex]
    {
      diffIndex := diffIndex + 1;
    }
    r := start;
    CompareMirrors(start, start);
    if diffIndex < minLength {
      assert IsDifference(start, limit, diffIndex);
      forall i: nat | IsDifference(start, limit, i)
        ensures i == diffIndex
      {
        OneDifference(start, limit, i, diffIndex);
      }
      var diffByte := start[diffIndex];
      if diffByte < 255 && diffByte + 1 < limit[diffIndex] {
        r := start[..diffIndex] + [diffByte + 1];
        CompareAtDifference(start, r, diffIndex);
        CompareAtDifference(r, limit, diffIndex);
      }
    }
  }

  /** BytewiseComparator: a key at or after `key`, shortened at the first byte
      that can be incremented. */
  method FindShortSuccessor(key: seq<byte>) returns (r: seq<byte>)
    ensures Compare(key, r) <= 0 && |r| <= |key|
    ensures forall i :: 0 <= i < |key| && key[i] != 255 && (forall j :: 0 <= j < i ==> key[j] == 255) ==>
        r == Raised(key, i)
    ensures (forall i :: 0 <= i < |key| ==> key[i] == 255) ==> r == key
  {
    CompareMirrors(key, key);
    for i := 0 to |key|
      invariant forall j :: 0 <= j < i ==> key[j] == 255
    {
      if key[i] != 255 {
        r := key[..i] + [key[i] + 1];
        CompareAtDifference(key, r, i);
        return;
      }
    }
    r := key;
  }

  // ---- encoded internal keys ----

  /** ExtractUserKey. */
  function User(key: seq<byte>): seq<byte> {
    if |key| < 8 then key else key[..|key| - 8]
  }

  function Tag(key: seq<byte>): nat {
    if |key| < 8 then 0 else DecodeFixed64(key[|key| - 8..])
  }

  /** kMaxSequenceNumber and kValueTypeForSeek, packed. */
  const SEEK_TAG: nat := 0xFF_FFFF_FFFF_FFFF * 0x100 + 1

  /** InternalKeyComparator::Compare. */
  function CompareInternal(a: seq<byte>, b: seq<byte>): int {
    var r := Compare(User(a), User(b));
    if r != 0 then r else if Tag(a) > Tag(b) then -1 else if Tag(a) < Tag(b) then 1 else 0
  }

  lemma InternalMirrors(a: seq<byte>, b: seq<byte>)
    ensures CompareInternal(a, b) == -CompareInternal(b, a)
  {
    hide Compare, Tag, User;
    CompareMirrors(User(a), User(b));
  }

  lemma InternalChains(a: seq<byte>, b: seq<byte>, c: seq<byte>)
    requires CompareInternal(a, b) <= 0 && CompareInternal(b, c) <= 0
    ensures CompareInternal(a, c) <= 0
    ensures CompareInternal(a, b) < 0 || CompareInternal(b, c) < 0 ==> CompareInternal(a, c) < 0
  {
    hide Compare, Tag, User;
    CompareMirrors(User(a), User(b));
    CompareMirrors(User(b), User(c));
    CompareMirrors(User(a), User(c));
    CompareChains(User(a), User(b), User(c));
  }

  function WithTag(user: seq<byte>, tag: uint64): (r: seq<byte>) {
    user + EncodeFixed64(tag)
  }

  lemma TagOfWith(user: seq<byte>, tag: uint64)
    ensures User(WithTag(user, tag)) == user && Tag(WithTag(user, tag)) == tag
  {
    hide EncodeFixed64, DecodeFixed64;
    DecodeEncodeFixed64(tag);
    var key := WithTag(user, tag);
    assert key[..|key| - 8] == user && key[|key| - 8..] == EncodeFixed64(tag);
  }

  /** What both shortening functions may turn `start` into: itself, or a later
      user key with the tag that sorts first. */
  predicate Shortened(start: seq<byte>, r: seq<byte>) {
    r == start || (Compare(User(start), User(r)) < 0 && Tag(r) == SEEK_TAG && |r| < |start|)
  }

  /** The user key is cut off behind its first byte that differs, if something
      lies between and it becomes shorter. */
  ghost predicate IsSeparator(start: seq<byte>, limit: seq<byte>, r: seq<byte>) {
    var s, t := User(start), User(limit);
    && (forall i: nat :: IsDifference(s, t, i) ==>
          r == if s[i] as int + 1 < t[i] as int && i + 1 < |s| then WithTag(Raised(s, i), SEEK_TAG) else start)
    && (s <= t || t <= s ==> r == start)
  }

  /** The user key is cut off behind its first byte below 255, if it becomes
      shorter. */
  ghost predicate IsSuccessor(key: seq<byte>, r: seq<byte>) {
    var s := User(key);
    && (forall i :: 0 <= i < |s| && s[i] != 255 && (forall j :: 0 <= j < i ==> s[j] == 255) ==>
          r == if i + 1 < |s| then WithTag(Raised(s, i), SEEK_TAG) else key)
    && ((forall i :: 0 <= i < |s| ==> s[i] == 255) ==> r == key)
  }

  /** The tag that sorts first. */
  lemma KnownSeekTag()
    ensures EncodeFixed64(SEEK_TAG) == [1, 255, 255, 255, 255, 255, 255, 255]
  {
  }

  method FindInternalSeparator(start: seq<byte>, limit: seq<byte>) returns (r: seq<byte>)
    requires |start| >= 8 && |limit| >= 8
    ensures Shortened(start, r) && CompareInternal(start, r) <= 0
    ensures CompareInternal(start, limit) < 0 ==> CompareInternal(r, limit) < 0
    ensures CompareInternal(start, limit) < 0 && r != start ==> Compare(User(r), User(limit)) < 0
    ensures IsSeparator(start, limit, r)
  {
    hide Compare, EncodeFixed64, DecodeFixed64;
    var userStart, userLimit := User(start), User(limit);
    var tmp := FindShortestSeparator(userStart, userLimit);
    r := start;
    InternalMirrors(start, start);
    CompareMirrors(userStart, tmp);
    if |tmp| < |userStart| && Compare(userStart, tmp) < 0 {
      TagOfWith(tmp, SEEK_TAG);
      CompareMirrors(userStart, userLimit);
      r := WithTag(tmp, SEEK_TAG);
    }
  }

  method FindInternalSuccessor(key: seq<byte>) returns (r: seq<byte>)
    requires |key| >= 8
    ensures Shortened(key, r) && CompareInternal(key, r) <= 0
    ensures IsSuccessor(key, r)
  {
    hide Compare, EncodeFixed64, DecodeFixed64;
    var userKey := User(key);
    var tmp := FindShortSuccessor(userKey);
    r := key;
    InternalMirrors(key, key);
    CompareMirrors(userKey, tmp);
    if |tmp| < |userKey| && Compare(userKey, tmp) < 0 {
      TagOfWith(tmp, SEEK_TAG);
      r := WithTag(tmp, SEEK_TAG);
    }
  }
}
