/** class DBIter: from the stream of all stored versions to a cursor over the
    live keys, in both directions. */
module DbIter {
  import opened InternalKeys
  import opened Versions
  import opened Iterators
  import opened MergingIter

  /** The map a reader at `s` should see: going backwards over the entries, a
      newer version replaces the older ones of its key. */
  function View(es: seq<Entry>, s: SequenceNumber): map<UserKey, string> {
    if es == [] then map[]
    else
      var rest := View(es[1..], s);
      var e := es[0];
      if e.key.sqn > s then rest
      else match e.key.kind
        case TypeValue => rest[e.key.user := e.value]
        case TypeDeletion => rest - {e.key.user}
  }

  /** Entry i is the newest visible version of its key, and a value. */
  ghost predicate Yield(es: seq<Entry>, s: SequenceNumber, i: int) {
    && 0 <= i < |es|
    && es[i].key.sqn <= s && es[i].key.kind.TypeValue?
    && forall j :: 0 <= j < i && es[j].key.user == es[i].key.user ==> es[j].key.sqn > s
  }

  lemma {:induction false} ViewIsYields(es: seq<Entry>, s: SequenceNumber)
    ensures forall i :: Yield(es, s, i) ==> es[i].key.user in View(es, s) && View(es, s)[es[i].key.user] == es[i].value
    ensures forall k :: k in View(es, s) ==> exists i :: Yield(es, s, i) && es[i].key.user == k
  {
    if es != [] {
      ViewIsYields(es[1..], s);
      forall i | Yield(es, s, i)
        ensures es[i].key.user in View(es, s) && View(es, s)[es[i].key.user] == es[i].value
      {
        if i > 0 {
          YieldInTail(es, s, i);
        }
      }
      forall k | k in View(es, s) ensures exists i :: Yield(es, s, i) && es[i].key.user == k {
        if es[0].key.user == k && es[0].key.sqn <= s {
          assert Yield(es, s, 0);
        } else {
          assert k in View(es[1..], s);
          var j :| Yield(es[1..], s, j) && es[1..][j].key.user == k;
          YieldFromTail(es, s, j);
        }
      }
    }
  }

  lemma YieldInTail(es: seq<Entry>, s: SequenceNumber, i: int)
    requires Yield(es, s, i) && i > 0
    ensures Yield(es[1..], s, i - 1)
    ensures es[0].key.user == es[i].key.user ==> es[0].key.sqn > s
  {
    forall j | 0 <= j < i - 1 && es[1..][j].key.user == es[i].key.user ensures es[1..][j].key.sqn > s {
      assert es[j + 1] == es[1..][j];
    }
  }

  lemma YieldFromTail(es: seq<Entry>, s: SequenceNumber, j: int)
    requires es != [] && Yield(es[1..], s, j)
    requires es[0].key.user == es[1..][j].key.user ==> es[0].key.sqn > s
    ensures Yield(es, s, j + 1) && es[j + 1] == es[1..][j]
  {
    forall i | 0 <= i < j + 1 && es[i].key.user == es[j + 1].key.user ensures es[i].key.sqn > s {
      if i > 0 { assert es[1..][i - 1] == es[i]; }
    }
  }

  /** May FindNextUserEntry stop at i when it is told to skip the keys up to
      `skip` (None: skip nothing)? */
  ghost predicate Acceptable(es: seq<Entry>, s: SequenceNumber, skip: Option<UserKey>, i: int) {
    Yield(es, s, i) && Past(skip, es[i].key.user)
  }

  predicate Past(skip: Option<UserKey>, user: UserKey) {
    skip.Some? ==> user > skip.value
  }

  /** Visible versions in front of p0 belong to keys that are out of the way,
      and those from p0 on to keys not before `skip`. */
  ghost predicate StartsClean(es: seq<Entry>, s: SequenceNumber, p0: nat, skip: Option<UserKey>) {
    && (forall j, i :: 0 <= j < p0 <= i < |es| && es[j].key.sqn <= s && Past(skip, es[i].key.user)
          ==> es[j].key.user != es[i].key.user)
    && (skip.Some? ==> forall i :: p0 <= i < |es| && es[i].key.sqn <= s ==> es[i].key.user >= skip.value)
  }

  /** y is the first acceptable entry from p0 on; y == |es| if there is none. */
  ghost predicate FirstFrom(es: seq<Entry>, s: SequenceNumber, p0: nat, skip: Option<UserKey>, y: nat) {
    && p0 <= y <= |es|
    && (y < |es| ==> Acceptable(es, s, skip, y))
    && forall i :: p0 <= i < y ==> !Acceptable(es, s, skip, i)
  }

  /** What the scan knows on reaching p: nothing acceptable was passed, the
      visible entries passed belong to keys up to `skip`, and `skip` is the key
      of one of them unless it is still the one given. */
  ghost predicate Scanned(es: seq<Entry>, s: SequenceNumber, p0: nat, p: nat, skip0: Option<UserKey>,
      skip: Option<UserKey>) {
    && p0 <= p <= |es|
    && (forall i :: p0 <= i < p ==> !Acceptable(es, s, skip0, i))
    && (forall i :: p0 <= i < p && es[i].key.sqn <= s ==> skip.Some? && es[i].key.user <= skip.value)
    && (skip == skip0 || (skip.Some? && exists i :: p0 <= i < p && es[i].key.sqn <= s && es[i].key.user == skip.value))
  }

  lemma ScanStarts(es: seq<Entry>, s: SequenceNumber, p0: nat, skip: Option<UserKey>)
    requires p0 <= |es|
    ensures Scanned(es, s, p0, p0, skip, skip)
  {
  }

  lemma ScanSkipsInvisible(es: seq<Entry>, s: SequenceNumber, p0: nat, p: nat, skip0: Option<UserKey>,
      skip: Option<UserKey>)
    requires p < |es| && Scanned(es, s, p0, p, skip0, skip) && es[p].key.sqn > s
    ensures Scanned(es, s, p0, p + 1, skip0, skip)
  {
  }

  lemma ScanEnds(es: seq<Entry>, s: SequenceNumber, p0: nat, p: nat, skip0: Option<UserKey>, skip: Option<UserKey>)
    requires Scanned(es, s, p0, p, skip0, skip) && (p < |es| ==> Acceptable(es, s, skip0, p))
    ensures FirstFrom(es, s, p0, skip0, p)
  {
  }

  /** A visible value that is not to be skipped is acceptable. */
  lemma StopsWell(es: seq<Entry>, s: SequenceNumber, p0: nat, p: nat, skip0: Option<UserKey>, skip: Option<UserKey>)
    requires Sorted(es) && p < |es| && StartsClean(es, s, p0, skip0) && Scanned(es, s, p0, p, skip0, skip)
    requires es[p].key.sqn <= s && es[p].key.kind.TypeValue? && Past(skip, es[p].key.user)
    ensures Acceptable(es, s, skip0, p)
  {
  }

  /** A visible entry that is a deletion, or is to be skipped, is passed. */
  lemma PassesWell(es: seq<Entry>, s: SequenceNumber, p0: nat, p: nat, skip0: Option<UserKey>, skip: Option<UserKey>)
    requires Sorted(es) && p < |es| && StartsClean(es, s, p0, skip0) && Scanned(es, s, p0, p, skip0, skip)
    requires es[p].key.sqn <= s
    ensures es[p].key.kind.TypeDeletion? ==> Scanned(es, s, p0, p + 1, skip0, Some(es[p].key.user))
    ensures es[p].key.kind.TypeValue? && !Past(skip, es[p].key.user) ==> Scanned(es, s, p0, p + 1, skip0, skip)
  {
    forall i | p0 <= i < p + 1 && es[i].key.sqn <= s ensures es[i].key.user <= es[p].key.user {
      if i < p { assert Less(es[i].key, es[p].key); }
    }
    if es[p].key.kind.TypeValue? && !Past(skip, es[p].key.user) && skip != skip0 {
      var i :| p0 <= i < p && es[i].key.sqn <= s && es[i].key.user == skip.value;
      assert Less(es[i].key, es[p].key);
    }
  }

  lemma UsersInOrder(es: seq<Entry>, i: nat, j: nat)
    requires Sorted(es)
    ensures i <= j < |es| ==> es[i].key.user <= es[j].key.user
  {
    if i < j < |es| { assert Less(es[i].key, es[j].key); }
  }

  /** Position p (invalid: in front of everything) lies before `user`, and
      nothing visible lies in between. */
  ghost predicate JustBefore(es: seq<Entry>, s: SequenceNumber, p: nat, user: UserKey) {
    && (p < |es| ==> es[p].key.user < user)
    && forall j :: 0 <= j < |es| && (p < |es| ==> j > p) && es[j].key.user < user ==> es[j].key.sqn > s
  }

  ghost predicate NoYield(es: seq<Entry>, s: SequenceNumber, lo: nat, hi: nat) {
    forall i :: lo <= i < hi ==> !Yield(es, s, i)
  }

  lemma NothingYieldsAt(es: seq<Entry>, s: SequenceNumber, n: nat)
    ensures NoYield(es, s, n, n)
  {
  }

  /** q is the first visible entry of es[m..n], a value, and the only one there
      that may yield. */
  ghost predicate Candidate(es: seq<Entry>, s: SequenceNumber, m: nat, n: nat, q: nat) {
    && m <= q < n <= |es|
    && es[q].key.sqn <= s && es[q].key.kind.TypeValue?
    && (forall i :: m <= i < q ==> es[i].key.sqn > s)
    && NoYield(es, s, q + 1, n)
  }

  lemma PassedBack(es: seq<Entry>, s: SequenceNumber, p: nat, n: nat)
    requires NoYield(es, s, p + 1, n) && p < |es| && (es[p].key.sqn > s || es[p].key.kind.TypeDeletion?)
    ensures NoYield(es, s, p, n)
  {
  }

  lemma NewCandidate(es: seq<Entry>, s: SequenceNumber, p: nat, n: nat)
    requires NoYield(es, s, p + 1, n) && p < n <= |es| && es[p].key.sqn <= s && es[p].key.kind.TypeValue?
    ensures Candidate(es, s, p, n, p)
  {
  }

  lemma CandidateStays(es: seq<Entry>, s: SequenceNumber, p: nat, n: nat, q: nat)
    requires Candidate(es, s, p + 1, n, q) && es[p].key.sqn > s
    ensures Candidate(es, s, p, n, q)
  {
  }

  /** What a candidate is, without the rest. */
  lemma CandidateParts(es: seq<Entry>, s: SequenceNumber, m: nat, n: nat, q: nat)
    requires Candidate(es, s, m, n, q)
    ensures q < n <= |es| && es[q].key.kind.TypeValue? && NoYield(es, s, q + 1, n)
  {
  }

  /** A candidate yields once a visible entry of an earlier key, or the front,
      is reached. */
  lemma CandidateYields(es: seq<Entry>, s: SequenceNumber, p: nat, m: nat, n: nat, q: nat)
    requires Sorted(es) && Candidate(es, s, m, n, q) && m == Ahead(es, p)
    requires m > 0 ==> es[p].key.user < es[q].key.user
    ensures Yield(es, s, q) && JustBefore(es, s, p, es[q].key.user)
  {
    if m > 0 {
      forall j | 0 <= j <= p ensures es[j].key.user < es[q].key.user {
        if j < p { assert Less(es[j].key, es[p].key); }
      }
    }
    forall j | q <= j < |es| ensures es[j].key.user >= es[q].key.user {
      if q < j { assert Less(es[q].key, es[j].key); }
    }
  }

  /** A visible entry in front of a candidate, of the same key, replaces it. */
  lemma CandidateReplaced(es: seq<Entry>, s: SequenceNumber, p: nat, n: nat, q: nat)
    requires Sorted(es) && Candidate(es, s, p + 1, n, q)
    requires es[p].key.sqn <= s && es[p].key.user >= es[q].key.user
    ensures NoYield(es, s, p + 1, n)
  {
    assert Less(es[p].key, es[q].key);
  }

  /** The keys a positioning call asks for. */
  datatype Range = All | From(low: UserKey) | After(low: UserKey) | Before(high: UserKey) {
    predicate Has(k: UserKey) {
      match this
      case All => true
      case From(low) => k >= low
      case After(low) => k > low
      case Before(high) => k < high
    }
  }

  class DBIter {
    const iter: MergingIterator
    const sequence: SequenceNumber
    var direction: Direction
    var valid: bool
    var savedKey: Option<UserKey>      // None: cleared
    var savedValue: string

    ghost function Entries(): seq<Entry> {
      iter.merged
    }

    /** The entry that yields key and value. */
    ghost predicate At(y: int)
      reads this, iter, iter.children
    {
      && Yield(Entries(), sequence, y)
      && match direction
         case Forward => iter.pos == y
         case Reverse =>
           && savedKey == Some(Entries()[y].key.user) && savedValue == Entries()[y].value
           && JustBefore(Entries(), sequence, iter.pos, Entries()[y].key.user)
    }

    ghost predicate Valid()
      reads this, iter, iter.children
    {
      && iter.Valid()
      && (valid ==> exists y :: At(y))
    }

    constructor (it: MergingIterator, s: SequenceNumber)
      requires it.Valid()
      ensures Valid() && !valid && iter == it && sequence == s
    {
      iter, sequence, direction, valid, savedKey, savedValue := it, s, Forward, false, None, "";
    }

    function Key(): UserKey
      requires Valid() && valid
      reads this, iter, iter.children
    {
      iter.CurrentIs();
      if direction.Forward? then iter.Key().user else savedKey.value
    }

    function Value(): string
      requires Valid() && valid
      reads this, iter, iter.children
    {
      iter.CurrentIs();
      if direction.Forward? then iter.Value() else savedValue
    }

    /** key() and value() are those of the live key that yields at y. */
    lemma Current(y: int)
      requires Valid() && valid && At(y)
      ensures Key() == Entries()[y].key.user && Value() == Entries()[y].value
    {
    }

    ghost function Live(): map<UserKey, string> {
      View(Entries(), sequence)
    }

    /** A cursor on the least live key of `range`, off the end if there is none. */
    ghost predicate OnLeast(range: Range)
      requires Valid()
      reads this, iter, iter.children
    {
      if valid then
        && Key() in Live() && range.Has(Key()) && Value() == Live()[Key()]
        && forall k :: k in Live() && range.Has(k) ==> Key() <= k
      else
        forall k :: k in Live() ==> !range.Has(k)
    }

    ghost predicate OnGreatest(range: Range)
      requires Valid()
      reads this, iter, iter.children
    {
      if valid then
        && Key() in Live() && range.Has(Key()) && Value() == Live()[Key()]
        && forall k :: k in Live() && range.Has(k) ==> k <= Key()
      else
        forall k :: k in Live() ==> !range.Has(k)
    }

    method FindNextUserEntry(skipping0: bool, skip0: UserKey)
      requires iter.Valid() && iter.AtEntry() && direction.Forward?
      requires StartsClean(Entries(), sequence, iter.pos, if skipping0 then Some(skip0) else None)
      modifies this, iter, iter.children
      ensures Valid() && direction.Forward?
      ensures FirstFrom(Entries(), sequence, old(iter.pos), if skipping0 then Some(skip0) else None, iter.pos)
      ensures valid <==> iter.pos < |Entries()|
    {
      hide StartsClean, Scanned, FirstFrom, JustBefore, Sorted, MergingIterator.Valid;
      var skipping, skip := skipping0, skip0;
      ghost var es, p0 := Entries(), iter.pos;
      ghost var first: Option<UserKey> := if skipping0 then Some(skip0) else None;
      iter.CurrentIs();
      ScanStarts(es, sequence, p0, first);
      while true
        invariant iter.Valid() && iter.AtEntry() && direction.Forward?
        invariant Scanned(es, sequence, p0, iter.pos, first, if skipping then Some(skip) else None)
        decreases |es| - iter.pos
      {
        iter.CurrentIs();
        var e := Entry(iter.Key(), iter.Value());
        assert e == es[iter.pos];
        ghost var skipped: Option<UserKey> := if skipping then Some(skip) else None;
        if e.key.sqn <= sequence {
          PassesWell(es, sequence, p0, iter.pos, first, skipped);
          match e.key.kind {
            case TypeDeletion =>
              skip := e.key.user;
              skipping := true;
            case TypeValue =>
              if skipping && e.key.user <= skip {
                // Hidden.
              } else {
                StopsWell(es, sequence, p0, iter.pos, first, skipped);
                ScanEnds(es, sequence, p0, iter.pos, first, skipped);
                valid := true;
                savedKey := None;
                assert At(iter.pos);
                return;
              }
          }
        } else {
          ScanSkipsInvisible(es, sequence, p0, iter.pos, first, skipped);
        }
        iter.Next();
        iter.CurrentIs();
        if !iter.AtEntry() {
          ScanEnds(es, sequence, p0, iter.pos, first, if skipping then Some(skip) else None);
          break;
        }
      }
      savedKey := None;
      valid := false;
    }

    /** From the first acceptable entry to the least live key past `skip`. */
    lemma LeastPast(p0: nat, skip: Option<UserKey>, range: Range)
      requires Valid() && direction.Forward? && (valid <==> iter.pos < |Entries()|)
      requires FirstFrom(Entries(), sequence, p0, skip, iter.pos)
      requires forall i ::
          Yield(Entries(), sequence, i) ==>
            (range.Has(Entries()[i].key.user) <==> i >= p0 && Past(skip, Entries()[i].key.user))
      ensures OnLeast(range)
    {
      hide JustBefore, Sorted, View, MergingIterator.Valid;
      iter.CurrentIs();
      ViewIsYields(Entries(), sequence);
      forall k | k in Live() && range.Has(k)
        ensures valid && Key() <= k
      {
        var i :| Yield(Entries(), sequence, i) && Entries()[i].key.user == k;
        assert Acceptable(Entries(), sequence, skip, i);
        UsersInOrder(Entries(), iter.pos, i);
      }
    }

    method Seek(target: UserKey)
      requires Valid()
      modifies this, iter, iter.children
      ensures Valid() && OnLeast(From(target))
    {
      hide MergingIterator.Valid;
      direction, savedValue, savedKey := Forward, "", None;
      iter.Seek(LookupKey(target, sequence));
      iter.CurrentIs();
      ghost var p0 := iter.pos;
      if iter.AtEntry() {
        FindNextUserEntry(false, target);
      } else {
        valid := false;
      }
      LeastPast(p0, None, From(target));
    }

    method SeekToFirst()
      requires Valid()
      modifies this, iter, iter.children
      ensures Valid() && OnLeast(All)
    {
      hide MergingIterator.Valid;
      direction, savedValue := Forward, "";
      iter.SeekToFirst();
      iter.CurrentIs();
      if iter.AtEntry() {
        FindNextUserEntry(false, 0.0);
      } else {
        valid := false;
      }
      LeastPast(0, None, All);
    }

    method Next()
      requires Valid() && valid
      modifies this, iter, iter.children
      ensures Valid() && OnLeast(After(old(Key())))
    {
      hide MergingIterator.Valid;
      ghost var y :| At(y);
      ghost var key := Key();
      iter.CurrentIs();
      if direction.Reverse? {
        direction := Forward;
        if !iter.AtEntry() { iter.SeekToFirst(); } else { iter.Next(); }
        iter.CurrentIs();
        // The entry of the current key is still ahead, so the case of running
        // off the end here does not arise.
        assert iter.AtEntry();
      } else {
        savedKey := Some(iter.Key().user);
      }
      ghost var p0 := iter.pos;
      FindNextUserEntry(true, savedKey.value);
      LeastPast(p0, Some(key), After(key));
    }

    method FindPrevUserEntry()
      requires iter.Valid() && direction.Reverse?
      modifies this, iter, iter.children
      ensures Valid()
      ensures valid ==> direction.Reverse? && exists y ::
          At(y) && y < Ahead(Entries(), old(iter.pos))
          && NoYield(Entries(), sequence, y + 1, Ahead(Entries(), old(iter.pos)))
      ensures !valid ==> NoYield(Entries(), sequence, 0, Ahead(Entries(), old(iter.pos)))
    {
      hide JustBefore, Sorted, NoYield, Yield, MergingIterator.Valid;
      var valueType := TypeDeletion;
      ghost var n := Ahead(Entries(), iter.pos);
      ghost var q: nat := 0;
      iter.CurrentIs();
      if iter.AtEntry() {
        valueType, q := ScanBack();
      } else {
        assert NoYield(Entries(), sequence, 0, n) by { NothingYieldsAt(Entries(), sequence, 0); }
      }
      if valueType.TypeDeletion? {
        valid, savedKey, savedValue, direction := false, None, "", Forward;
      } else {
        valid := true;
        assert At(q);
      }
    }

    /** The loop of FindPrevUserEntry. */
    method ScanBack() returns (valueType: ValueType, ghost q: nat)
      requires iter.Valid() && iter.AtEntry() && direction.Reverse?
      modifies `savedKey, `savedValue, iter, iter.children
      ensures iter.Valid() && old(iter.pos) < |Entries()|
      ensures valueType.TypeDeletion? ==> NoYield(Entries(), sequence, 0, old(iter.pos) + 1)
      ensures valueType.TypeValue? ==>
        && q <= old(iter.pos) && Yield(Entries(), sequence, q)
        && NoYield(Entries(), sequence, q + 1, old(iter.pos) + 1)
        && JustBefore(Entries(), sequence, iter.pos, Entries()[q].key.user)
        && savedKey == Some(Entries()[q].key.user) && savedValue == Entries()[q].value
    {
      hide JustBefore, Sorted, Yield, NoYield, Candidate, MergingIterator.Valid;
      valueType := TypeDeletion;
      iter.CurrentIs();
      ghost var es := Entries();
      ghost var n := iter.pos + 1;
      q := 0;
      assert NoYield(es, sequence, n, n) by { NothingYieldsAt(es, sequence, n); }
      while true
        invariant iter.Valid() && iter.AtEntry() && iter.pos < n <= |es|
        invariant valueType.TypeDeletion? ==> NoYield(es, sequence, iter.pos + 1, n)
        invariant valueType.TypeValue? ==> Candidate(es, sequence, iter.pos + 1, n, q) && q < n
        invariant valueType.TypeValue? ==> savedKey == Some(es[q].key.user) && savedValue == es[q].value
        decreases iter.pos
      {
        ghost var p := iter.pos;
        iter.CurrentIs();
        var e := Entry(iter.Key(), iter.Value());
        assert e == es[p];
        if e.key.sqn <= sequence {
          if valueType.TypeValue? && e.key.user < savedKey.value {
            CandidateYields(es, sequence, p, p + 1, n, q);
            CandidateParts(es, sequence, p + 1, n, q);
            return;
          }
          if valueType.TypeValue? {
            CandidateReplaced(es, sequence, p, n, q);
          }
          valueType := e.key.kind;
          if valueType.TypeDeletion? {
            savedKey, savedValue := None, "";
            PassedBack(es, sequence, p, n);
          } else {
            savedKey, savedValue := Some(e.key.user), e.value;
            q := p;
            NewCandidate(es, sequence, p, n);
          }
        } else if valueType.TypeDeletion? {
          PassedBack(es, sequence, p, n);
        } else {
          CandidateStays(es, sequence, p, n, q);
        }
        iter.Prev();
        iter.CurrentIs();
        if !iter.AtEntry() {
          if valueType.TypeValue? {
            CandidateYields(es, sequence, iter.pos, 0, n, q);
            CandidateParts(es, sequence, 0, n, q);
          }
          return;
        }
      }
    }

    /** From the last yielding entry below n to the greatest live key of a
        range that ends there. */
    lemma GreatestBelow(n: nat, range: Range)
      requires Valid() && n <= |Entries()|
      requires valid ==> exists y :: At(y) && y < n && NoYield(Entries(), sequence, y + 1, n)
      requires !valid ==> NoYield(Entries(), sequence, 0, n)
      requires forall i :: Yield(Entries(), sequence, i) ==> (range.Has(Entries()[i].key.user) <==> i < n)
      ensures OnGreatest(range)
    {
      hide JustBefore, Sorted, View, MergingIterator.Valid;
      iter.CurrentIs();
      ViewIsYields(Entries(), sequence);
      if valid {
        var y :| At(y) && y < n && NoYield(Entries(), sequence, y + 1, n);
        Current(y);
        forall k | k in Live() && range.Has(k) ensures k <= Key() {
          var i :| Yield(Entries(), sequence, i) && Entries()[i].key.user == k;
          UsersInOrder(Entries(), i, y);
        }
      } else {
        forall k | k in Live() ensures !range.Has(k) {
          var i :| Yield(Entries(), sequence, i) && Entries()[i].key.user == k;
        }
      }
    }

    method SeekToLast()
      requires Valid()
      modifies this, iter, iter.children
      ensures Valid() && OnGreatest(All)
    {
      hide MergingIterator.Valid;
      direction, savedValue := Reverse, "";
      iter.SeekToLast();
      ghost var n := Ahead(Entries(), iter.pos);
      FindPrevUserEntry();
      GreatestBelow(n, All);
    }

    method Prev()
      requires Valid() && valid
      modifies this, iter, iter.children
      ensures Valid() && OnGreatest(Before(old(Key())))
    {
      hide MergingIterator.Valid;
      iter.CurrentIs();
      ghost var key := Key();
      ghost var y :| At(y);
      Current(y);
      if direction.Forward? {
        savedKey := Some(iter.Key().user);
        while true
          invariant iter.Valid() && iter.AtEntry() && iter.pos <= y && savedKey == Some(key)
          invariant direction.Forward?
          invariant forall j :: iter.pos <= j <= y ==> Entries()[j].key.user == key
          decreases iter.pos
        {
          iter.Prev();
          iter.CurrentIs();
          if !iter.AtEntry() {
            valid, savedKey, savedValue := false, None, "";
            GreatestBelow(0, Before(key));
            return;
          }
          if iter.Key().user < savedKey.value { break; }
        }
        direction := Reverse;
      }
      ghost var n := Ahead(Entries(), iter.pos);
      FindPrevUserEntry();
      GreatestBelow(n, Before(key));
    }
  }
}
