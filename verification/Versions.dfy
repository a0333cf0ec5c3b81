/** The files of one version of the database and how they are searched. */
module Versions {
  import opened InternalKeys

  const NUM_LEVELS := 7

  datatype Option<T> = None | Some(value: T)

  datatype FileMeta = FileMeta(number: nat, size: nat, entries: seq<Entry>)

  /** A table file: never empty, entries in internal key order.  Its metadata
      records the first and the last key. */
  type File = f: FileMeta | |f.entries| > 0 && Sorted(f.entries)
    witness FileMeta(0, 0, [Entry(InternalKey(0.0, 0, TypeValue), "")])

  function Smallest(f: File): InternalKey {
    f.entries[0].key
  }

  function Largest(f: File): InternalKey {
    f.entries[|f.entries| - 1].key
  }

  lemma EntriesInRange(f: File, e: Entry)
    requires e in f.entries
    ensures AtMost(Smallest(f), e.key) && AtMost(e.key, Largest(f))
    ensures Smallest(f).user <= e.key.user <= Largest(f).user
  {
  }

  /** Levels above 0: files sorted by key, ranges of internal keys disjoint. */
  ghost predicate LevelSorted(files: seq<File>) {
    forall i, j :: 0 <= i < j < |files| ==> Less(Largest(files[i]), Smallest(files[j]))
  }

  ghost predicate InFiles(files: seq<File>, e: Entry) {
    exists f :: f in files && e in f.entries
  }

  /** The binary search between left and right, whatever the files are like. */
  function SearchFile(files: seq<File>, key: InternalKey, left: nat, right: nat): (r: nat)
    requires left <= right <= |files|
    ensures left <= r <= right
    decreases right - left
  {
    if left == right then right
    else
      var mid := (left + right) / 2;
      if Compare(Largest(files[mid]), key) < 0 then SearchFile(files, key, mid + 1, right)
          else SearchFile(files, key, left, mid)
  }

  /** On a sorted level the search ends at the first file that ends at or after
      `key`. */
  lemma {:induction false} SearchFileIsFirst(files: seq<File>, key: InternalKey, left: nat, right: nat)
    requires LevelSorted(files) && left <= right <= |files|
    requires forall i :: 0 <= i < left ==> Less(Largest(files[i]), key)
    requires forall i :: right <= i < |files| ==> AtMost(key, Largest(files[i]))
    ensures var r := SearchFile(files, key, left, right);
      && (forall i :: 0 <= i < r ==> Less(Largest(files[i]), key))
      && (forall i :: r <= i < |files| ==> AtMost(key, Largest(files[i])))
    decreases right - left
  {
    hide LevelSorted, Compare, Largest, Smallest;
    if left < right {
      var mid := (left + right) / 2;
      CompareIsLexicographic(Largest(files[mid]), key);
      LargestIncreases(files, mid);
      if Compare(Largest(files[mid]), key) < 0 {
        SearchFileIsFirst(files, key, mid + 1, right);
      } else {
        SearchFileIsFirst(files, key, left, mid);
      }
    }
  }

  method FindFile(files: seq<File>, key: InternalKey) returns (right: nat)
    ensures right <= |files| && right == SearchFile(files, key, 0, |files|)
    ensures LevelSorted(files) ==> forall i :: 0 <= i < right ==> Less(Largest(files[i]), key)
    ensures LevelSorted(files) ==> forall i :: right <= i < |files| ==> AtMost(key, Largest(files[i]))
  {
    hide LevelSorted, Less;
    var left := 0;
    right := |files|;
    while left < right
      invariant left <= right <= |files|
      invariant SearchFile(files, key, left, right) == SearchFile(files, key, 0, |files|)
    {
      var mid := (left + right) / 2;
      var f := files[mid];
      if Compare(Largest(f), key) < 0 {
        left := mid + 1;
      } else {
        right := mid;
      }
    }
    if LevelSorted(files) { SearchFileIsFirst(files, key, 0, |files|); }
  }

  lemma LargestIncreases(files: seq<File>, m: nat)
    requires LevelSorted(files) && m < |files|
    ensures forall i :: 0 <= i <= m ==> AtMost(Largest(files[i]), Largest(files[m]))
    ensures forall i :: m <= i < |files| ==> AtMost(Largest(files[m]), Largest(files[i]))
  {
    forall i | 0 <= i < |files|
      ensures AtMost(Smallest(files[i]), Largest(files[i]))
    {
      EntriesInRange(files[i], files[i].entries[0]);
    }
  }

  predicate AfterFile(user: Option<UserKey>, f: File) {
    user.Some? && user.value > Largest(f).user
  }

  predicate BeforeFile(user: Option<UserKey>, f: File) {
    user.Some? && user.value < Smallest(f).user
  }

  /** Some user key of [begin, end] lies in the range of f; None is unbounded. */
  predicate Overlaps(f: File, begin: Option<UserKey>, end: Option<UserKey>) {
    !AfterFile(begin, f) && !BeforeFile(end, f)
  }

  method SomeFileOverlapsRange(disjointSortedFiles: bool, files: seq<File>,
                               begin: Option<UserKey>, end: Option<UserKey>)
    returns (found: bool)
    requires disjointSortedFiles ==> LevelSorted(files)
    ensures found <==> exists i :: 0 <= i < |files| && Overlaps(files[i], begin, end)
  {
    if !disjointSortedFiles {
      for i := 0 to |files|
        invariant forall j :: 0 <= j < i ==> !Overlaps(files[j], begin, end)
      {
        if AfterFile(begin, files[i]) || BeforeFile(end, files[i]) {
        } else {
          return true;
        }
      }
      return false;
    }
    var index := 0;
    if begin.Some? {
      index := FindFile(files, InternalKey(begin.value, MAX_SEQUENCE_NUMBER, VALUE_TYPE_FOR_SEEK));
    }
    assert forall j :: 0 <= j < index ==> AfterFile(begin, files[j]);
    if index >= |files| {
      return false;
    }
    found := !BeforeFile(end, files[index]);
    if found {
      assert Overlaps(files[index], begin, end);
    } else {
      LargestIncreases(files, index);
      assert forall j :: index < j < |files| ==> Smallest(files[j]).user >= Smallest(files[index]).user;
    }
  }

  datatype VersionRep = VersionRep(files: seq<seq<File>>)

  type Version = v: VersionRep | |v.files| == NUM_LEVELS
    witness VersionRep(seq(NUM_LEVELS, i => []))

  /** Where an entry of a version lives: in one level-0 file or in a deeper
      level.  `Newer` is the order in which Get searches. */
  datatype Place = Level0(number: nat) | Level(level: nat)

  predicate Newer(p: Place, q: Place) {
    match (p, q)
    case (Level0(a), Level0(b)) => a > b
    case (Level0(_), Level(_)) => true
    case (Level(a), Level(b)) => a < b
    case (Level(_), Level0(_)) => false
  }

  ghost predicate At(v: Version, p: Place, e: Entry) {
    match p
    case Level0(n) => exists f :: f in v.files[0] && f.number == n && e in f.entries
    case Level(l) => 0 < l < NUM_LEVELS && InFiles(v.files[l], e)
  }

  ghost predicate InVersion(v: Version, e: Entry) {
    exists p :: At(v, p, e)
  }

  /** For every user key, entries in places searched earlier are newer. */
  ghost predicate NewestFirst(v: Version) {
    forall p, q, e, f :: At(v, p, e) && At(v, q, f) && Newer(p, q) && e.key.user == f.key.user ==> e.key.sqn > f.key.sqn
  }

  ghost predicate WellShaped(v: Version) {
    && (forall l :: 0 < l < NUM_LEVELS ==> LevelSorted(v.files[l]))
    && (forall i, j :: 0 <= i < j < |v.files[0]| ==> v.files[0][i].number != v.files[0][j].number)
  }

  /** No two entries of the version have the same user key and sequence number. */
  ghost predicate DistinctVersions(v: Version) {
    forall e, f :: InVersion(v, e) && InVersion(v, f) && e.key.user == f.key.user && e.key.sqn == f.key.sqn ==> e == f
  }

  datatype GetResult = Found(value: string) | NotFound

  function Answer(e: Entry): GetResult {
    if e.key.kind.TypeValue? then Found(e.value) else NotFound
  }

  predicate Visible(e: Entry, user: UserKey, snapshot: SequenceNumber) {
    e.key.user == user && e.key.sqn <= snapshot
  }

  ghost predicate NewestIn(v: Version, user: UserKey, snapshot: SequenceNumber, e: Entry) {
    && InVersion(v, e) && Visible(e, user, snapshot)
    && forall f :: InVersion(v, f) && Visible(f, user, snapshot) ==> f.key.sqn <= e.key.sqn
  }

  ghost predicate NoneVisibleIn(v: Version, user: UserKey, snapshot: SequenceNumber) {
    forall e :: InVersion(v, e) ==> !Visible(e, user, snapshot)
  }

  function LevelOf(p: Place): nat {
    match p
    case Level0(_) => 0
    case Level(l) => l
  }

  ghost predicate NewestFileFirst(candidates: seq<File>, user: UserKey) {
    forall c, d, e, f ::
      0 <= c < d < |candidates| && e in candidates[c].entries && f in candidates[d].entries
          && e.key.user == user == f.key.user
      ==> e.key.sqn > f.key.sqn
  }

  /** Files to look into for one level, in search order: every visible entry of
      the level is in one of them or older than one that is. */
  ghost predicate Covers(v: Version, level: nat, candidates: seq<File>, user: UserKey, snapshot: SequenceNumber)
    requires level < NUM_LEVELS
  {
    && (forall c :: 0 <= c < |candidates| ==> candidates[c] in v.files[level])
    && NewestFileFirst(candidates, user)
    && (forall p, f :: At(v, p, f) && LevelOf(p) == level && Visible(f, user, snapshot) ==>
          exists c, e :: 0 <= c < |candidates| && e in candidates[c].entries && Visible(e, user, snapshot)
              && e.key.sqn >= f.key.sqn)
  }

  function InsertNewestFirst(f: File, files: seq<File>): (r: seq<File>)
    ensures forall g :: g in r <==> g == f || g in files
  {
    if files == [] || f.number > files[0].number then [f] + files
    else
      var rest := InsertNewestFirst(f, files[1..]);
      assert forall g :: g in files <==> g == files[0] || g in files[1..];
      [files[0]] + rest
  }

  ghost predicate NumbersDescend(files: seq<File>) {
    forall i, j :: 0 <= i < j < |files| ==> files[i].number > files[j].number
  }

  lemma InsertDescends(f: File, files: seq<File>)
    requires NumbersDescend(files) && forall g :: g in files ==> g.number != f.number
    ensures NumbersDescend(InsertNewestFirst(f, files))
  {
    if files != [] && f.number <= files[0].number {
      InsertDescends(f, files[1..]);
      var rest := InsertNewestFirst(f, files[1..]);
      forall j | 0 <= j < |rest| ensures files[0].number > rest[j].number {
        assert rest[j] in rest;
        assert files[0] in files;
        if rest[j] != f {
          var k :| 0 <= k < |files[1..]| && files[1..][k] == rest[j];
        }
      }
    }
  }

  predicate RangeHas(f: File, user: UserKey) {
    user >= Smallest(f).user && user <= Largest(f).user
  }

  function Level0Candidates(files: seq<File>, user: UserKey): (r: seq<File>)
    ensures forall f :: f in r <==> f in files && RangeHas(f, user)
  {
    if files == [] then []
    else
      var n := |files| - 1;
      var before := Level0Candidates(files[..n], user);
      assert forall g :: g in files <==> g in files[..n] || g == files[n];
      if RangeHas(files[n], user) then InsertNewestFirst(files[n], before) else before
  }

  lemma {:induction false} CandidatesDescend(files: seq<File>, user: UserKey)
    requires forall i, j :: 0 <= i < j < |files| ==> files[i].number != files[j].number
    ensures NumbersDescend(Level0Candidates(files, user))
  {
    if files != [] {
      var n := |files| - 1;
      CandidatesDescend(files[..n], user);
      forall g | g in Level0Candidates(files[..n], user) ensures g.number != files[n].number {
        var i :| 0 <= i < n && files[..n][i] == g;
      }
      if RangeHas(files[n], user) { InsertDescends(files[n], Level0Candidates(files[..n], user)); }
    }
  }

  /** Level 0: all files whose range covers `user`, newest first. */
  method CollectLevel0(v: Version, user: UserKey) returns (candidates: seq<File>)
    ensures candidates == Level0Candidates(v.files[0], user)
  {
    candidates := [];
    var i := 0;
    assert v.files[0][..0] == [];
    while i < |v.files[0]|
      invariant 0 <= i <= |v.files[0]|
      invariant candidates == Level0Candidates(v.files[0][..i], user)
    {
      var f := v.files[0][i];
      assert v.files[0][..i + 1][..i] == v.files[0][..i] && v.files[0][..i + 1][i] == f;
      if user >= Smallest(f).user && user <= Largest(f).user {
        candidates := InsertNewestFirst(f, candidates);
      }
      i := i + 1;
    }
    assert v.files[0][..i] == v.files[0];
  }

  lemma Level0Covered(v: Version, candidates: seq<File>, user: UserKey, snapshot: SequenceNumber)
    requires NewestFirst(v)
    requires forall f :: f in candidates <==> f in v.files[0] && RangeHas(f, user)
    requires NumbersDescend(candidates)
    ensures Covers(v, 0, candidates, user, snapshot)
  {
    forall c, d, e, f | 0 <= c < d < |candidates| && e in candidates[c].entries && f in candidates[d].entries
        && e.key.user == user == f.key.user
      ensures e.key.sqn > f.key.sqn
    {
      var p, q := Level0(candidates[c].number), Level0(candidates[d].number);
      assert candidates[c] in candidates && candidates[d] in candidates;
      assert At(v, p, e) && At(v, q, f) && Newer(p, q);
    }
    forall p, f | At(v, p, f) && LevelOf(p) == 0 && Visible(f, user, snapshot)
      ensures exists c, e ::
          0 <= c < |candidates| && e in candidates[c].entries && Visible(e, user, snapshot) && e.key.sqn >= f.key.sqn
    {
      var file :| file in v.files[0] && f in file.entries;
      EntriesInRange(file, f);
      var c :| 0 <= c < |candidates| && candidates[c] == file;
    }
  }

  function DeepCandidates(files: seq<File>, user: UserKey, snapshot: SequenceNumber): seq<File> {
    var index := SearchFile(files, LookupKey(user, snapshot), 0, |files|);
    if index < |files| && user >= Smallest(files[index]).user then [files[index]] else []
  }

  /** Deeper levels: at most the first file that ends at or after the lookup key. */
  method CollectLevel(v: Version, level: nat, user: UserKey, snapshot: SequenceNumber) returns (candidates: seq<File>)
    requires 0 < level < NUM_LEVELS
    ensures candidates == DeepCandidates(v.files[level], user, snapshot)
  {
    var files := v.files[level];
    var ikey := LookupKey(user, snapshot);
    var index := FindFile(files, ikey);
    candidates := [];
    if index < |files| && user >= Smallest(files[index]).user {
      candidates := [files[index]];
    }
  }

  lemma DeepCovered(v: Version, level: nat, user: UserKey, snapshot: SequenceNumber, index: nat, candidates: seq<File>)
    requires 0 < level < NUM_LEVELS && LevelSorted(v.files[level]) && index <= |v.files[level]|
    requires forall i :: 0 <= i < index ==> Less(Largest(v.files[level][i]), LookupKey(user, snapshot))
    requires index < |v.files[level]| ==> AtMost(LookupKey(user, snapshot), Largest(v.files[level][index]))
    requires var files := v.files[level];
      candidates == if index < |files| && user >= Smallest(files[index]).user then [files[index]] else []
    ensures Covers(v, level, candidates, user, snapshot)
  {
    var files := v.files[level];
    forall p, f | At(v, p, f) && LevelOf(p) == level && Visible(f, user, snapshot)
      ensures exists c, e ::
          0 <= c < |candidates| && e in candidates[c].entries && Visible(e, user, snapshot) && e.key.sqn >= f.key.sqn
    {
      var file :| file in files && f in file.entries;
      var j :| 0 <= j < |files| && files[j] == file;
      EntriesInRange(files[j], f);
      assert j >= index;
      var e := NewerInFirst(files, index, j, user, snapshot, f);
      assert e in candidates[0].entries;
    }
  }

  /** A visible entry further right in the level is older than the last entry
      of the first file that ends at or after the lookup key. */
  lemma NewerInFirst(files: seq<File>, index: nat, j: nat, user: UserKey, snapshot: SequenceNumber, f: Entry)
      returns (e: Entry)
    requires LevelSorted(files) && index <= j < |files|
    requires AtMost(LookupKey(user, snapshot), Largest(files[index]))
    requires f in files[j].entries && Visible(f, user, snapshot)
    ensures Smallest(files[index]).user <= user
    ensures e in files[index].entries && Visible(e, user, snapshot) && e.key.sqn >= f.key.sqn
  {
    EntriesInRange(files[j], f);
    if j > index {
      e := files[index].entries[|files[index].entries| - 1];
      EntriesInRange(files[index], e);
    } else {
      e := f;
    }
  }

  /** What seeking the lookup key in one file finds of the key. */
  function HitIn(es: seq<Entry>, user: UserKey, snapshot: SequenceNumber): Option<Entry> {
    var i := SeekIndex(es, LookupKey(user, snapshot));
    if i < |es| && es[i].key.user == user then Some(es[i]) else None
  }

  function FirstHit(candidates: seq<File>, user: UserKey, snapshot: SequenceNumber): Option<Entry> {
    if candidates == [] then None
    else if HitIn(candidates[0].entries, user, snapshot).Some? then HitIn(candidates[0].entries, user, snapshot)
    else FirstHit(candidates[1..], user, snapshot)
  }

  /** A hit is the newest visible version in all the candidates; no hit means
      none of them holds one. */
  lemma {:induction false} FirstHitIsNewest(candidates: seq<File>, user: UserKey, snapshot: SequenceNumber)
    requires NewestFileFirst(candidates, user)
    ensures var hit := FirstHit(candidates, user, snapshot);
      if hit.Some? then
        && Visible(hit.value, user, snapshot) && InFiles(candidates, hit.value)
        && forall f, e :: f in candidates && e in f.entries && Visible(e, user, snapshot)
            ==> e.key.sqn <= hit.value.key.sqn
      else
        forall f, e :: f in candidates && e in f.entries ==> !Visible(e, user, snapshot)
  {
    hide SeekIndex, NewestFileFirst;
    if candidates != [] {
      var first, rest := candidates[0], candidates[1..];
      SeekFindsNewest(first.entries, user, snapshot);
      TailNewestFirst(candidates, user);
      assert forall f :: f in candidates <==> f == first || f in rest;
      var hit := HitIn(first.entries, user, snapshot);
      if hit.Some? {
        HitBeatsRest(candidates, user, hit.value);
      } else {
        FirstHitIsNewest(rest, user, snapshot);
      }
    }
  }

  lemma HitBeatsRest(candidates: seq<File>, user: UserKey, hit: Entry)
    requires NewestFileFirst(candidates, user) && candidates != [] && hit in candidates[0].entries
        && hit.key.user == user
    ensures forall f, e :: f in candidates[1..] && e in f.entries && e.key.user == user ==> e.key.sqn < hit.key.sqn
  {
    var rest := candidates[1..];
    forall f, e | f in rest && e in f.entries && e.key.user == user ensures e.key.sqn < hit.key.sqn {
      var d :| 0 <= d < |rest| && rest[d] == f;
      assert candidates[d + 1] == f;
    }
  }

  lemma TailNewestFirst(candidates: seq<File>, user: UserKey)
    requires NewestFileFirst(candidates, user) && candidates != []
    ensures NewestFileFirst(candidates[1..], user)
  {
    var rest := candidates[1..];
    forall c, d, e, f | 0 <= c < d < |rest| && e in rest[c].entries && f in rest[d].entries
        && e.key.user == user == f.key.user
      ensures e.key.sqn > f.key.sqn
    {
      assert rest[c] == candidates[c + 1] && rest[d] == candidates[d + 1];
    }
  }

  /** The first file that yields a version of the key ends the search. */
  method SearchCandidates(candidates: seq<File>, user: UserKey, snapshot: SequenceNumber) returns (hit: Option<Entry>)
    ensures hit == FirstHit(candidates, user, snapshot)
  {
    hide SeekIndex;
    assert candidates[0..] == candidates;
    for c := 0 to |candidates|
      invariant FirstHit(candidates, user, snapshot) == FirstHit(candidates[c..], user, snapshot)
    {
      var es := candidates[c].entries;
      assert candidates[c..][0] == candidates[c] && candidates[c..][1..] == candidates[c + 1..];
      var i := SeekIndex(es, LookupKey(user, snapshot));
      if i < |es| && es[i].key.user == user {
        return Some(es[i]);
      }
    }
    return None;
  }

  function CandidatesAt(v: Version, level: nat, user: UserKey, snapshot: SequenceNumber): seq<File>
    requires level < NUM_LEVELS
  {
    if level == 0 then Level0Candidates(v.files[0], user) else DeepCandidates(v.files[level], user, snapshot)
  }

  lemma CandidatesCover(v: Version, level: nat, user: UserKey, snapshot: SequenceNumber)
    requires WellShaped(v) && NewestFirst(v) && level < NUM_LEVELS
    ensures Covers(v, level, CandidatesAt(v, level, user, snapshot), user, snapshot)
  {
    hide Covers, NewestFirst, LevelSorted;
    if level == 0 {
      CandidatesDescend(v.files[0], user);
      Level0Covered(v, Level0Candidates(v.files[0], user), user, snapshot);
    } else {
      var files, key := v.files[level], LookupKey(user, snapshot);
      SearchFileIsFirst(files, key, 0, |files|);
      DeepCovered(v, level, user, snapshot, SearchFile(files, key, 0, |files|), DeepCandidates(files, user, snapshot));
    }
  }

  /** Version::Get from a level on, on any version at all. */
  function GetFrom(v: Version, level: nat, user: UserKey, snapshot: SequenceNumber): GetResult
    requires level <= NUM_LEVELS
    decreases NUM_LEVELS - level
  {
    if level == NUM_LEVELS then NotFound
    else
      var hit := FirstHit(CandidatesAt(v, level, user, snapshot), user, snapshot);
      if hit.Some? then Answer(hit.value) else GetFrom(v, level + 1, user, snapshot)
  }

  ghost predicate Searchable(v: Version) {
    WellShaped(v) && NewestFirst(v) && DistinctVersions(v)
  }

  /** On a well-formed version with nothing visible above `level`, searching on
      from there finds the newest visible version. */
  lemma {:induction false} GetFromIsNewest(v: Version, level: nat, user: UserKey, snapshot: SequenceNumber)
    requires Searchable(v) && level <= NUM_LEVELS
    requires forall p, e :: At(v, p, e) && LevelOf(p) < level ==> !Visible(e, user, snapshot)
    ensures forall e :: NewestIn(v, user, snapshot, e) ==> GetFrom(v, level, user, snapshot) == Answer(e)
    ensures NoneVisibleIn(v, user, snapshot) ==> GetFrom(v, level, user, snapshot) == NotFound
    decreases NUM_LEVELS - level
  {
    hide WellShaped, NewestFirst, CandidatesAt, FirstHit;
    if level < NUM_LEVELS {
      var candidates := CandidatesAt(v, level, user, snapshot);
      CandidatesCover(v, level, user, snapshot);
      FirstHitIsNewest(candidates, user, snapshot);
      var hit := FirstHit(candidates, user, snapshot);
      if hit.Some? {
        HitIsNewest(v, level, candidates, user, snapshot, hit.value);
        NewestIsUnique(v, user, snapshot, hit.value);
      } else {
        NoneInLevel(v, level, candidates, user, snapshot);
        GetFromIsNewest(v, level + 1, user, snapshot);
      }
    } else {
      forall e | InVersion(v, e) ensures !Visible(e, user, snapshot) {
        var p :| At(v, p, e);
      }
    }
  }

  lemma NewestIsUnique(v: Version, user: UserKey, snapshot: SequenceNumber, hit: Entry)
    requires DistinctVersions(v) && NewestIn(v, user, snapshot, hit)
    ensures forall e :: NewestIn(v, user, snapshot, e) ==> e == hit
  {
    hide InVersion;
  }

  lemma NoneInLevel(v: Version, level: nat, candidates: seq<File>, user: UserKey, snapshot: SequenceNumber)
    requires level < NUM_LEVELS && Covers(v, level, candidates, user, snapshot)
    requires forall f, e :: f in candidates && e in f.entries ==> !Visible(e, user, snapshot)
    requires forall p, e :: At(v, p, e) && LevelOf(p) < level ==> !Visible(e, user, snapshot)
    ensures forall p, e :: At(v, p, e) && LevelOf(p) < level + 1 ==> !Visible(e, user, snapshot)
  {
    hide At, Visible;
    forall c, e | 0 <= c < |candidates| && e in candidates[c].entries ensures !Visible(e, user, snapshot) {
      assert candidates[c] in candidates;
    }
  }

  /** Version::Get: level by level, stopping at the first file that holds a
      visible version of the key.  On a well-formed version that is the newest. */
  method Get(v: Version, user: UserKey, snapshot: SequenceNumber) returns (r: GetResult)
    ensures r == GetFrom(v, 0, user, snapshot)
    ensures Searchable(v) ==> forall e :: NewestIn(v, user, snapshot, e) ==> r == Answer(e)
    ensures Searchable(v) && NoneVisibleIn(v, user, snapshot) ==> r == NotFound
  {
    hide Searchable, NewestIn, NoneVisibleIn, FirstHit, Level0Candidates, DeepCandidates;
    if Searchable(v) {
      assert forall p: Place :: LevelOf(p) >= 0;
      GetFromIsNewest(v, 0, user, snapshot);
    }
    for level := 0 to NUM_LEVELS
      invariant GetFrom(v, 0, user, snapshot) == GetFrom(v, level, user, snapshot)
    {
      var candidates: seq<File>;
      if level == 0 {
        candidates := CollectLevel0(v, user);
      } else {
        candidates := CollectLevel(v, level, user, snapshot);
      }
      var hit := SearchCandidates(candidates, user, snapshot);
      if hit.Some? {
        return Answer(hit.value);
      }
    }
    return NotFound;
  }

  lemma HitIsNewest(v: Version, level: nat, candidates: seq<File>, user: UserKey, snapshot: SequenceNumber, hit: Entry)
    requires NewestFirst(v) && level < NUM_LEVELS
    requires forall p, e :: At(v, p, e) && LevelOf(p) < level ==> !Visible(e, user, snapshot)
    requires Covers(v, level, candidates, user, snapshot)
    requires Visible(hit, user, snapshot) && InFiles(candidates, hit)
    requires forall f, e :: f in candidates && e in f.entries && Visible(e, user, snapshot) ==> e.key.sqn <= hit.key.sqn
    ensures NewestIn(v, user, snapshot, hit)
  {
    var file :| file in candidates && hit in file.entries;
    assert file in v.files[level];
    var p := if level == 0 then Level0(file.number) else Level(level);
    assert At(v, p, hit);
    forall f | InVersion(v, f) && Visible(f, user, snapshot)
      ensures f.key.sqn <= hit.key.sqn
    {
      var q :| At(v, q, f);
      if LevelOf(q) > level {
        assert Newer(p, q);
      }
    }
  }
}
