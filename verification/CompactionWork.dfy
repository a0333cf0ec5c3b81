/** The compaction loop: which versions of each key it drops, and how it cuts
    the survivors into output tables. */
module CompactionWork {
  import opened InternalKeys
  import opened Versions
  import opened InputGrowth

  /** No file two or more levels below `level` has `user` in its range. */
  ghost predicate BaseLevel(v: Version, level: nat, user: UserKey) {
    forall lvl :: level + 2 <= lvl < NUM_LEVELS ==> NoneCovers(v.files[lvl], user)
  }

  /** The part of class Compaction that answers IsBaseLevelForKey: one position
      per level, which only moves forward because keys arrive in order. */
  class BaseLevelCursor {
    const version: Version
    const level: nat
    const levelPtrs: array<nat>
    ghost var reached: Option<UserKey>

    ghost predicate Valid()
      reads this, levelPtrs
    {
      && level + 1 < NUM_LEVELS && levelPtrs.Length == NUM_LEVELS
      && (forall lvl :: 0 < lvl < NUM_LEVELS ==> LevelSorted(version.files[lvl]))
      && (forall lvl :: level + 2 <= lvl < NUM_LEVELS ==> Passed(lvl, levelPtrs[lvl], reached))
    }

    /** Every file before the position ends before the last key asked for. */
    ghost predicate Passed(lvl: nat, ptr: nat, key: Option<UserKey>)
      requires lvl < NUM_LEVELS
    {
      && ptr <= |version.files[lvl]|
      && (key.None? ==> ptr == 0)
      && (key.Some? ==> forall i :: 0 <= i < ptr ==> Largest(version.files[lvl][i]).user < key.value)
    }

    constructor (v: Version, lvl: nat)
      requires WellShaped(v) && lvl + 1 < NUM_LEVELS
      ensures Valid() && version == v && level == lvl && reached == None && fresh(levelPtrs)
    {
      version, level := v, lvl;
      reached := None;
      levelPtrs := new nat[NUM_LEVELS](i => 0);
    }

    method IsBaseLevelForKey(user: UserKey) returns (isBase: bool)
      requires Valid()
      requires reached.Some? ==> reached.value <= user
      modifies this, levelPtrs
      ensures Valid() && reached == Some(user)
      ensures isBase <==> BaseLevel(version, level, user)
    {
      reached := Some(user);
      for lvl := level + 2 to NUM_LEVELS
        invariant Valid() && reached == Some(user)
        invariant forall l :: level + 2 <= l < lvl ==> NoneCovers(version.files[l], user)
      {
        var files := version.files[lvl];
        while levelPtrs[lvl] < |files| && user > Largest(files[levelPtrs[lvl]]).user
          invariant Valid() && reached == Some(user)
          decreases |files| - levelPtrs[lvl]
        {
          levelPtrs[lvl] := levelPtrs[lvl] + 1;
        }
        if levelPtrs[lvl] < |files| && user >= Smallest(files[levelPtrs[lvl]]).user {
          return false;
        }
        StopsBefore(files, levelPtrs[lvl], user);
      }
      isBase := true;
    }
  }

  ghost predicate NoneCovers(files: seq<File>, user: UserKey) {
    forall i :: 0 <= i < |files| ==> !(Smallest(files[i]).user <= user <= Largest(files[i]).user)
  }

  lemma StopsBefore(files: seq<File>, ptr: nat, user: UserKey)
    requires LevelSorted(files) && ptr <= |files|
    requires forall i :: 0 <= i < ptr ==> Largest(files[i]).user < user
    requires ptr < |files| ==> user < Smallest(files[ptr]).user
    ensures NoneCovers(files, user)
  {
    forall i | ptr < i < |files| ensures user < Smallest(files[i]).user {
      EntriesInRange(files[ptr], files[ptr].entries[0]);
    }
  }

  /** A newer version of the same key is already visible to every reader. */
  ghost predicate Hidden(input: seq<Entry>, e: Entry, smallestSnapshot: SequenceNumber) {
    exists p :: p in input && p.key.user == e.key.user && e.key.sqn < p.key.sqn <= smallestSnapshot
  }

  ghost predicate ObsoleteDeletion(v: Version, level: nat, e: Entry, smallestSnapshot: SequenceNumber) {
    e.key.kind.TypeDeletion? && e.key.sqn <= smallestSnapshot && BaseLevel(v, level, e.key.user)
  }

  ghost predicate Survives(v: Version, level: nat, input: seq<Entry>, smallestSnapshot: SequenceNumber, e: Entry) {
    e in input && !Hidden(input, e, smallestSnapshot) && !ObsoleteDeletion(v, level, e, smallestSnapshot)
  }

  /** Of what every reader sees alike, one version of a key is left at most, and
      a deletion only if it hides something further down. */
  lemma OneOldVersionSurvives(v: Version, level: nat, input: seq<Entry>, smallestSnapshot: SequenceNumber, e: Entry,
      o: Entry)
    requires level + 2 <= NUM_LEVELS && e.key.sqn <= smallestSnapshot
    requires Survives(v, level, input, smallestSnapshot, e) && Survives(v, level, input, smallestSnapshot, o)
    ensures o.key.user == e.key.user && o.key.sqn <= smallestSnapshot ==> o.key.sqn == e.key.sqn
    ensures var u := e.key.user;
      e.key.kind.TypeDeletion? ==>
        exists lvl, f :: level + 2 <= lvl < NUM_LEVELS && f in v.files[lvl] && Smallest(f).user <= u <= Largest(f).user
  {
    if e.key.kind.TypeDeletion? {
      var lvl :| level + 2 <= lvl < NUM_LEVELS && !NoneCovers(v.files[lvl], e.key.user);
      var i :| 0 <= i < |v.files[lvl]|
        && Smallest(v.files[lvl][i]).user <= e.key.user <= Largest(v.files[lvl][i]).user;
      assert v.files[lvl][i] in v.files[lvl];
    }
  }

  /** Entries in key order, at most one for each user key and sequence number. */
  ghost predicate OneVersionEach(es: seq<Entry>) {
    forall i, j :: 0 <= i < j < |es| ==>
      es[i].key.user < es[j].key.user || (es[i].key.user == es[j].key.user && es[i].key.sqn > es[j].key.sqn)
  }

  function Flatten(outputs: seq<seq<Entry>>): seq<Entry> {
    if outputs == [] then [] else Flatten(outputs[..|outputs| - 1]) + outputs[|outputs| - 1]
  }

  // ---- where outputs are cut ----

  /** How many of the files, from the front, end before the key. */
  ghost predicate EndBefore(files: seq<File>, key: InternalKey, n: nat) {
    && n <= |files| && (forall i :: 0 <= i < n ==> Less(Largest(files[i]), key))
    && (n < |files| ==> !Less(Largest(files[n]), key))
  }

  /** The part of class Compaction that answers ShouldStopBefore. */
  class GrandparentCursor {
    const grandparents: seq<File>
    const maxOverlap: nat
    var grandparentIndex: nat
    var seenKey: bool
    var overlappedBytes: nat
    // The last key asked for, and the files that had ended when the output began.
    ghost var reached: Option<InternalKey>
    ghost var from: nat

    ghost predicate Valid()
      reads this
    {
      && from <= grandparentIndex <= |grandparents| && (seenKey <==> reached.Some?)
      && overlappedBytes == TotalFileSize(grandparents[from..grandparentIndex])
      && (if seenKey then EndBefore(grandparents, reached.value, grandparentIndex) else grandparentIndex == 0)
    }

    constructor (files: seq<File>, limit: nat)
      ensures Valid() && grandparents == files && maxOverlap == limit && !seenKey && from == 0 && reached == None
    {
      grandparents, maxOverlap := files, limit;
      grandparentIndex, seenKey, overlappedBytes, reached, from := 0, false, 0, None, 0;
    }

    /** True when the files that have ended since the output began are too many
        bytes; the next output then begins with this key. */
    method ShouldStopBefore(key: InternalKey) returns (stop: bool)
      requires Valid() && (reached.Some? ==> AtMost(reached.value, key))
      modifies this
      ensures Valid() && reached == Some(key) && EndBefore(grandparents, key, grandparentIndex)
      ensures old(from) <= grandparentIndex
      ensures stop <==> old(seenKey) && TotalFileSize(grandparents[old(from)..grandparentIndex]) > maxOverlap
      ensures from == if stop || !old(seenKey) then grandparentIndex else old(from)
    {
      ghost var start := from;
      StillEnded(grandparents, reached, key, grandparentIndex);
      while grandparentIndex < |grandparents| && Compare(key, Largest(grandparents[grandparentIndex])) > 0
        invariant from == start <= grandparentIndex <= |grandparents| && seenKey == old(seenKey)
        invariant forall i :: 0 <= i < grandparentIndex ==> Less(Largest(grandparents[i]), key)
        invariant overlappedBytes == if seenKey then TotalFileSize(grandparents[from..grandparentIndex]) else 0
      {
        CompareIsLexicographic(key, Largest(grandparents[grandparentIndex]));
        if seenKey {
          OneMoreEnded(grandparents, from, grandparentIndex);
          overlappedBytes := overlappedBytes + grandparents[grandparentIndex].size;
        }
        grandparentIndex := grandparentIndex + 1;
      }
      if grandparentIndex < |grandparents| { CompareIsLexicographic(key, Largest(grandparents[grandparentIndex])); }
      if !seenKey { from := grandparentIndex; }
      assert grandparents[grandparentIndex..grandparentIndex] == [];
      seenKey := true;
      reached := Some(key);
      if overlappedBytes > maxOverlap {
        overlappedBytes := 0;
        from := grandparentIndex;
        stop := true;
      } else {
        stop := false;
      }
    }
  }

  lemma StillEnded(files: seq<File>, reached: Option<InternalKey>, key: InternalKey, n: nat)
    requires reached.Some? ==> EndBefore(files, reached.value, n) && AtMost(reached.value, key)
    requires reached.None? ==> n == 0
    ensures forall i :: 0 <= i < n ==> Less(Largest(files[i]), key)
  {
  }

  lemma OneMoreEnded(files: seq<File>, from: nat, n: nat)
    requires from <= n < |files|
    ensures TotalFileSize(files[from..n + 1]) == TotalFileSize(files[from..n]) + files[n].size
  {
    assert files[from..n + 1] == files[from..n] + [files[n]];
    TotalSnoc(files[from..n], files[n]);
  }

  /** For every key asked for, whether it stops the output, and the grandparents
      that had ended when the output it is for began. */
  ghost predicate StopsAt(input: seq<Entry>, grandparents: seq<File>, limit: nat, stops: seq<bool>, froms: seq<nat>) {
    && |stops| == |froms| <= |input|
    && forall i :: 0 <= i < |stops| ==> StopsRight(input, grandparents, limit, stops, froms, i)
  }

  ghost predicate StopsRight(input: seq<Entry>, grandparents: seq<File>, limit: nat, stops: seq<bool>, froms: seq<nat>,
      i: nat)
    requires i < |stops| == |froms| <= |input|
  {
    exists n: nat ::
      && EndBefore(grandparents, input[i].key, n)
      && (if i == 0 then !stops[i]
          else froms[i - 1] <= n && (stops[i] <==> TotalFileSize(grandparents[froms[i - 1]..n]) > limit))
      && froms[i] == if i == 0 || stops[i] then n else froms[i - 1]
  }

  /** Some key after input[a] and up to input[b] stops the output. */
  ghost predicate StopIn(stops: seq<bool>, a: nat, b: int) {
    exists m :: a < m <= b && m < |stops| && stops[m]
  }

  /** Entries of one output, numbers `at` of the input: it was not full, and
      nothing stopped it, before the last of them. */
  ghost predicate Uncut(es: seq<Entry>, at: seq<nat>, input: seq<Entry>, full: seq<Entry> -> bool, stops: seq<bool>) {
    && |at| == |es| && (forall n :: 0 <= n < |es| ==> at[n] < |input| && es[n] == input[at[n]])
    && forall n :: 0 < n < |es| ==> at[n - 1] < at[n] && !full(es[..n]) && !StopIn(stops, at[n - 1], at[n])
  }

  /** It ends before number b for a reason. */
  ghost predicate EndsFor(es: seq<Entry>, at: seq<nat>, full: seq<Entry> -> bool, stops: seq<bool>, b: int) {
    es != [] && |at| == |es| && (full(es) || StopIn(stops, at[|at| - 1], b))
  }

  /** The outputs are cut where they must be, and nowhere else. */
  ghost predicate CutWell(outputs: seq<seq<Entry>>, at: seq<seq<nat>>, input: seq<Entry>, full: seq<Entry> -> bool,
      stops: seq<bool>)
  {
    && |at| == |outputs|
    && (forall k :: 0 <= k < |outputs| ==> outputs[k] != [] && Uncut(outputs[k], at[k], input, full, stops))
    && forall k :: 0 < k < |outputs| && at[k] != [] ==> EndsFor(outputs[k - 1], at[k - 1], full, stops, at[k][0])
  }

  /** The loop of DBImpl::DoCompactionWork.  `full` tells of the builder's entries
      whether it has reached MaxOutputFileSize.  The outputs hold exactly the
      surviving entries, in order, cut exactly where an output is full or a key
      comes that ShouldStopBefore stops at. */
  method DropObsolete(v: Version, level: nat, input: seq<Entry>, smallestSnapshot: SequenceNumber,
                      grandparents: seq<File>, maxOverlap: nat, full: seq<Entry> -> bool)
    returns (outputs: seq<seq<Entry>>, ghost at: seq<seq<nat>>, ghost stops: seq<bool>, ghost froms: seq<nat>)
    requires WellShaped(v) && level + 1 < NUM_LEVELS && OneVersionEach(input)
    requires smallestSnapshot < MAX_SEQUENCE_NUMBER
    ensures forall e :: e in Flatten(outputs) <==> Survives(v, level, input, smallestSnapshot, e)
    ensures OneVersionEach(Flatten(outputs))
    ensures forall k :: 0 <= k < |outputs| ==> outputs[k] != []
    ensures |stops| == |input| && StopsAt(input, grandparents, maxOverlap, stops, froms)
    ensures CutWell(outputs, at, input, full, stops)
  {
    hide LevelSorted, BaseLevel, Survives, KeptSoFar, Flatten, StopsAt, CutWell, CutSoFar, StopperAt;
    FlattenEmpty();
    NothingKept(v, level, input, smallestSnapshot);
    var cursor := new BaseLevelCursor(v, level);
    var stopper := new GrandparentCursor(grandparents, maxOverlap);
    assert StopperAt(stopper, input, grandparents, maxOverlap, [], 0) by { AtTheStart(stopper, input); }
    outputs := [];
    var builder: seq<Entry> := [];   // empty: no output file is open
    ghost var builderAt: seq<nat> := [];
    at, stops, froms := [], [], [];
    NothingStopped(input, grandparents, maxOverlap);
    NothingCut(input, full, stops);
    var hasCurrentUserKey := false;
    var currentUserKey: UserKey := 0.0;
    var lastSequenceForKey: SequenceNumber := MAX_SEQUENCE_NUMBER;
    var i := 0;
    ghost var kept: seq<Entry> := [];
    while i < |input|
      invariant 0 <= i <= |input|
      invariant cursor.Valid() && fresh(cursor) && fresh(cursor.levelPtrs) && cursor.version == v
          && cursor.level == level
      invariant i > 0 && cursor.reached.Some? ==> cursor.reached.value <= input[i - 1].key.user
      invariant i == 0 ==> cursor.reached.None?
      invariant StopperAt(stopper, input, grandparents, maxOverlap, froms, i) && fresh(stopper)
      invariant |stops| == |froms| == i && StopsAt(input, grandparents, maxOverlap, stops, froms)
      invariant hasCurrentUserKey <==> i > 0
      invariant i > 0 ==> currentUserKey == input[i - 1].key.user && lastSequenceForKey == input[i - 1].key.sqn
      invariant kept == Flatten(outputs) + builder
      invariant KeptSoFar(v, level, input, smallestSnapshot, i, kept)
      invariant CutSoFar(outputs, at, builder, builderAt, input, full, stops, i)
    {
      var e := input[i];
      var stop;
      stop, stops, froms := AskStop(stopper, input, i, stops, froms);
      CutAsked(outputs, at, builder, builderAt, input, full, stops, i);
      if stop && builder != [] {
        FlattenSnoc(outputs, builder);
        outputs, builder := outputs + [builder], [];
        at, builderAt := at + [builderAt], [];
      }
      if !hasCurrentUserKey || e.key.user != currentUserKey {
        currentUserKey := e.key.user;
        hasCurrentUserKey := true;
        lastSequenceForKey := MAX_SEQUENCE_NUMBER;
      }
      var drop := Drops(cursor, input, i, smallestSnapshot, lastSequenceForKey);
      lastSequenceForKey := e.key.sqn;
      KeepNext(v, level, input, smallestSnapshot, i, kept, drop);
      if !drop {
        CutAdded(outputs, at, builder, builderAt, input, full, stops, i);
        builder, builderAt := builder + [e], builderAt + [i];
        kept := kept + [e];
        if full(builder) {
          FlattenSnoc(outputs, builder);
          outputs, builder := outputs + [builder], [];
          at, builderAt := at + [builderAt], [];
        }
      }
      i := i + 1;
    }
    CutAtEnd(outputs, at, builder, builderAt, input, full, stops);
    if builder != [] {
      FlattenSnoc(outputs, builder);
      outputs, builder := outputs + [builder], [];
      at := at + [builderAt];
    }
    assert kept == Flatten(outputs);
    AllKept(v, level, input, smallestSnapshot, kept);
    CutParts(outputs, at, input, full, stops);
  }

  /** Whether the loop drops input[i]: rules (A) and (B) of DoCompactionWork. */
  method Drops(cursor: BaseLevelCursor, input: seq<Entry>, i: nat, smallestSnapshot: SequenceNumber,
      lastSequenceForKey: SequenceNumber) returns (drop: bool)
    requires cursor.Valid() && OneVersionEach(input) && i < |input| && smallestSnapshot < MAX_SEQUENCE_NUMBER
    requires cursor.reached.Some? ==> cursor.reached.value <= input[i].key.user
    requires lastSequenceForKey ==
        if i > 0 && input[i - 1].key.user == input[i].key.user then input[i - 1].key.sqn else MAX_SEQUENCE_NUMBER
    modifies cursor, cursor.levelPtrs
    ensures cursor.Valid() && (cursor.reached == old(cursor.reached) || cursor.reached == Some(input[i].key.user))
    ensures drop <==> !Survives(cursor.version, cursor.level, input, smallestSnapshot, input[i])
  {
    hide BaseLevel, Hidden, LevelSorted;
    var e := input[i];
    HiddenByPrevious(input, i, smallestSnapshot);
    drop := false;
    if lastSequenceForKey <= smallestSnapshot {
      drop := true;
    } else if e.key.kind.TypeDeletion? && e.key.sqn <= smallestSnapshot {
      drop := cursor.IsBaseLevelForKey(e.key.user);
    }
    assert e in input;
  }

  /** How the cursor over the grandparents stands before input[i]. */
  ghost predicate StopperAt(stopper: GrandparentCursor, input: seq<Entry>, grandparents: seq<File>, limit: nat,
      froms: seq<nat>, i: nat)
    reads stopper
  {
    && i <= |input| && |froms| == i
    && stopper.Valid() && stopper.grandparents == grandparents && stopper.maxOverlap == limit
    && (if i == 0 then stopper.reached.None? else stopper.reached == Some(input[i - 1].key))
    && (i > 0 ==> stopper.from == froms[i - 1])
  }

  lemma AtTheStart(stopper: GrandparentCursor, input: seq<Entry>)
    requires stopper.Valid() && stopper.reached.None?
    ensures StopperAt(stopper, input, stopper.grandparents, stopper.maxOverlap, [], 0)
  {
  }

  method AskStop(stopper: GrandparentCursor, input: seq<Entry>, i: nat, ghost stops: seq<bool>, ghost froms: seq<nat>)
    returns (stop: bool, ghost stops2: seq<bool>, ghost froms2: seq<nat>)
    requires OneVersionEach(input) && i < |input| && |stops| == i
    requires StopperAt(stopper, input, stopper.grandparents, stopper.maxOverlap, froms, i)
    requires StopsAt(input, stopper.grandparents, stopper.maxOverlap, stops, froms)
    modifies stopper
    ensures stops2 == stops + [stop] && |froms2| == i + 1
    ensures StopperAt(stopper, input, stopper.grandparents, stopper.maxOverlap, froms2, i + 1)
    ensures StopsAt(input, stopper.grandparents, stopper.maxOverlap, stops2, froms2)
  {
    hide EndBefore, TotalFileSize;
    stop := stopper.ShouldStopBefore(input[i].key);
    stops2, froms2 := stops + [stop], froms + [stopper.from];
    forall k | 0 <= k < i ensures StopsRight(input, stopper.grandparents, stopper.maxOverlap, stops2, froms2, k) {
      assert StopsRight(input, stopper.grandparents, stopper.maxOverlap, stops, froms, k);
    }
    assert EndBefore(stopper.grandparents, input[i].key, stopper.grandparentIndex);
    assert StopsRight(input, stopper.grandparents, stopper.maxOverlap, stops2, froms2, i);
  }

  lemma NothingStopped(input: seq<Entry>, grandparents: seq<File>, limit: nat)
    ensures StopsAt(input, grandparents, limit, [], [])
  {
  }

  /** The same in the middle of the loop: `builder` is the output that is open,
      all entries have numbers below i, and nothing has stopped it so far. */
  ghost predicate CutSoFar(outputs: seq<seq<Entry>>, at: seq<seq<nat>>, builder: seq<Entry>, builderAt: seq<nat>,
      input: seq<Entry>, full: seq<Entry> -> bool, stops: seq<bool>, i: nat)
  {
    && CutWell(outputs, at, input, full, stops) && Uncut(builder, builderAt, input, full, stops)
    && (forall n :: 0 <= n < |builderAt| ==> builderAt[n] < i)
    && (forall k, n :: 0 <= k < |at| && 0 <= n < |at[k]| ==> at[k][n] < i)
    && (builder != [] ==> !full(builder) && !StopIn(stops, builderAt[|builderAt| - 1], |stops| - 1))
    && (outputs != [] ==> EndsFor(outputs[|outputs| - 1], at[|outputs| - 1], full, stops,
          if builder != [] then builderAt[0] else |stops| - 1))
  }

  lemma NothingCut(input: seq<Entry>, full: seq<Entry> -> bool, stops: seq<bool>)
    ensures CutSoFar([], [], [], [], input, full, stops, 0)
  {
  }

  /** One more stop known leaves what was said of earlier numbers. */
  lemma StopsLater(stops: seq<bool>, stop: bool, a: nat, b: int)
    ensures StopIn(stops, a, b) ==> StopIn(stops + [stop], a, b)
    ensures b < |stops| && StopIn(stops + [stop], a, b) ==> StopIn(stops, a, b)
    ensures !stop && StopIn(stops + [stop], a, b) ==> StopIn(stops, a, |stops| - 1)
    ensures stop && a < |stops| ==> StopIn(stops + [stop], a, |stops|)
  {
    if StopIn(stops, a, b) {
      var m :| a < m <= b && m < |stops| && stops[m];
      assert (stops + [stop])[m];
    }
    if StopIn(stops + [stop], a, b) {
      var m :| a < m <= b && m < |stops + [stop]| && (stops + [stop])[m];
      assert m < |stops| ==> stops[m];
    }
    if stop && a < |stops| { assert (stops + [stop])[|stops|]; }
  }

  lemma UncutLater(es: seq<Entry>, at: seq<nat>, input: seq<Entry>, full: seq<Entry> -> bool, stops: seq<bool>,
      stop: bool)
    requires Uncut(es, at, input, full, stops) && forall n :: 0 <= n < |at| ==> at[n] < |stops|
    ensures Uncut(es, at, input, full, stops + [stop])
  {
    hide StopIn;
    forall n | 0 < n < |es| ensures !StopIn(stops + [stop], at[n - 1], at[n]) {
      StopsLater(stops, stop, at[n - 1], at[n]);
    }
  }

  lemma EndsLater(es: seq<Entry>, at: seq<nat>, full: seq<Entry> -> bool, stops: seq<bool>, stop: bool, b: int, c: int)
    requires EndsFor(es, at, full, stops, b) && b <= c
    ensures EndsFor(es, at, full, stops + [stop], c)
  {
    StopsLater(stops, stop, at[|at| - 1], b);
  }

  lemma CutLater(outputs: seq<seq<Entry>>, at: seq<seq<nat>>, input: seq<Entry>, full: seq<Entry> -> bool,
      stops: seq<bool>, stop: bool)
    requires CutWell(outputs, at, input, full, stops)
    requires forall k, n :: 0 <= k < |at| && 0 <= n < |at[k]| ==> at[k][n] < |stops|
    ensures CutWell(outputs, at, input, full, stops + [stop])
  {
    hide Uncut, EndsFor;
    forall k | 0 <= k < |outputs| ensures Uncut(outputs[k], at[k], input, full, stops + [stop]) {
      UncutLater(outputs[k], at[k], input, full, stops, stop);
    }
    forall k | 0 < k < |outputs| && at[k] != []
      ensures EndsFor(outputs[k - 1], at[k - 1], full, stops + [stop], at[k][0])
    {
      EndsLater(outputs[k - 1], at[k - 1], full, stops, stop, at[k][0], at[k][0]);
    }
  }

  /** An output closed for a reason joins those before it. */
  lemma CutClosed(outputs: seq<seq<Entry>>, at: seq<seq<nat>>, es: seq<Entry>, esAt: seq<nat>, input: seq<Entry>,
      full: seq<Entry> -> bool, stops: seq<bool>)
    requires CutWell(outputs, at, input, full, stops) && Uncut(es, esAt, input, full, stops) && es != []
    requires outputs != [] ==> EndsFor(outputs[|outputs| - 1], at[|outputs| - 1], full, stops, esAt[0])
    ensures CutWell(outputs + [es], at + [esAt], input, full, stops)
  {
    hide EndsFor, StopIn;
  }

  /** ShouldStopBefore has been asked about input[i]. */
  lemma CutAsked(outputs: seq<seq<Entry>>, at: seq<seq<nat>>, builder: seq<Entry>, builderAt: seq<nat>,
      input: seq<Entry>, full: seq<Entry> -> bool, stops: seq<bool>, i: nat)
    requires |stops| == i + 1 && CutSoFar(outputs, at, builder, builderAt, input, full, stops[..i], i)
    ensures stops[i] && builder != [] ==>
      CutSoFar(outputs + [builder], at + [builderAt], [], [], input, full, stops, i)
      && CutSoFar(outputs + [builder], at + [builderAt], [], [], input, full, stops, i + 1)
    ensures !(stops[i] && builder != []) ==>
      CutSoFar(outputs, at, builder, builderAt, input, full, stops, i)
      && CutSoFar(outputs, at, builder, builderAt, input, full, stops, i + 1)
  {
    hide CutWell, Uncut, EndsFor, StopIn;
    assert stops == stops[..i] + [stops[i]];
    CutLater(outputs, at, input, full, stops[..i], stops[i]);
    UncutLater(builder, builderAt, input, full, stops[..i], stops[i]);
    assert |builderAt| == |builder| && |at| == |outputs| by {
      SameLengths(outputs, at, builder, builderAt, input, full, stops);
    }
    if outputs != [] {
      var b := if builder != [] then builderAt[0] else i - 1;
      EndsLater(outputs[|outputs| - 1], at[|outputs| - 1], full, stops[..i], stops[i], b,
          if builder != [] then b else i);
    }
    if builder != [] {
      StopsLater(stops[..i], stops[i], builderAt[|builderAt| - 1], i);
      if stops[i] {
        CutClosed(outputs, at, builder, builderAt, input, full, stops);
        assert EndsFor(builder, builderAt, full, stops, i) by { EndsHere(builder, builderAt, full, stops, i); }
        NothingOpen(input, full, stops);
      }
    }
  }

  lemma EndsHere(es: seq<Entry>, at: seq<nat>, full: seq<Entry> -> bool, stops: seq<bool>, b: int)
    requires es != [] && |at| == |es| && (full(es) || StopIn(stops, at[|at| - 1], b))
    ensures EndsFor(es, at, full, stops, b)
  {
  }

  lemma NothingOpen(input: seq<Entry>, full: seq<Entry> -> bool, stops: seq<bool>)
    ensures Uncut([], [], input, full, stops)
  {
  }

  lemma SameLengths(outputs: seq<seq<Entry>>, at: seq<seq<nat>>, builder: seq<Entry>, builderAt: seq<nat>,
      input: seq<Entry>, full: seq<Entry> -> bool, stops: seq<bool>)
    requires CutWell(outputs, at, input, full, stops) && Uncut(builder, builderAt, input, full, stops)
    ensures |builderAt| == |builder| && |at| == |outputs|
  {
  }

  /** input[i] goes to the open output, which is closed if that fills it. */
  lemma CutAdded(outputs: seq<seq<Entry>>, at: seq<seq<nat>>, builder: seq<Entry>, builderAt: seq<nat>,
      input: seq<Entry>, full: seq<Entry> -> bool, stops: seq<bool>, i: nat)
    requires |stops| == i + 1 <= |input| && CutSoFar(outputs, at, builder, builderAt, input, full, stops, i)
    ensures var es, esAt := builder + [input[i]], builderAt + [i];
      if full(es) then CutSoFar(outputs + [es], at + [esAt], [], [], input, full, stops, i + 1)
      else CutSoFar(outputs, at, es, esAt, input, full, stops, i + 1)
  {
    hide CutWell, EndsFor;
    var es, esAt := builder + [input[i]], builderAt + [i];
    assert !StopIn(stops, i, i);
    forall n | 0 < n < |es| ensures esAt[n - 1] < esAt[n] && !full(es[..n]) && !StopIn(stops, esAt[n - 1], esAt[n]) {
      if n < |builder| {
        assert es[..n] == builder[..n];
      } else {
        assert es[..n] == builder;
      }
    }
    assert Uncut(es, esAt, input, full, stops);
    hide Uncut, StopIn;
    assert |at| == |outputs| by { SameLengths(outputs, at, builder, builderAt, input, full, stops); }
    if full(es) {
      CutClosed(outputs, at, es, esAt, input, full, stops);
      EndsHere(es, esAt, full, stops, i);
      NothingOpen(input, full, stops);
    }
  }

  lemma CutAtEnd(outputs: seq<seq<Entry>>, at: seq<seq<nat>>, builder: seq<Entry>, builderAt: seq<nat>,
      input: seq<Entry>, full: seq<Entry> -> bool, stops: seq<bool>)
    requires CutSoFar(outputs, at, builder, builderAt, input, full, stops, |input|)
    ensures if builder == [] then CutWell(outputs, at, input, full, stops)
        else CutWell(outputs + [builder], at + [builderAt], input, full, stops)
  {
    hide CutWell, Uncut, EndsFor, StopIn;
    if builder != [] {
      CutClosed(outputs, at, builder, builderAt, input, full, stops);
    }
  }

  lemma CutParts(outputs: seq<seq<Entry>>, at: seq<seq<nat>>, input: seq<Entry>, full: seq<Entry> -> bool,
      stops: seq<bool>)
    requires CutWell(outputs, at, input, full, stops)
    ensures forall k :: 0 <= k < |outputs| ==> outputs[k] != []
  {
    hide Uncut, EndsFor;
  }

  lemma NothingKept(v: Version, level: nat, input: seq<Entry>, smallestSnapshot: SequenceNumber)
    ensures KeptSoFar(v, level, input, smallestSnapshot, 0, [])
  {
  }

  lemma AllKept(v: Version, level: nat, input: seq<Entry>, smallestSnapshot: SequenceNumber, kept: seq<Entry>)
    requires KeptSoFar(v, level, input, smallestSnapshot, |input|, kept)
    ensures forall e :: e in kept <==> Survives(v, level, input, smallestSnapshot, e)
    ensures OneVersionEach(kept)
  {
    assert input[..|input|] == input;
  }

  lemma FlattenEmpty()
    ensures Flatten([]) == []
  {
  }

  ghost predicate KeptSoFar(v: Version, level: nat, input: seq<Entry>, smallestSnapshot: SequenceNumber, n: nat,
      kept: seq<Entry>)
    requires n <= |input|
  {
    && (forall e :: e in kept <==> e in input[..n] && Survives(v, level, input, smallestSnapshot, e))
    && OneVersionEach(kept)
  }

  lemma KeepNext(v: Version, level: nat, input: seq<Entry>, smallestSnapshot: SequenceNumber, n: nat, kept: seq<Entry>,
      drop: bool)
    requires OneVersionEach(input) && n < |input|
    requires KeptSoFar(v, level, input, smallestSnapshot, n, kept)
    requires drop <==> !Survives(v, level, input, smallestSnapshot, input[n])
    ensures KeptSoFar(v, level, input, smallestSnapshot, n + 1, if drop then kept else kept + [input[n]])
  {
    hide Survives;
    assert input[..n + 1] == input[..n] + [input[n]];
    var next := if drop then kept else kept + [input[n]];
    forall i, j | 0 <= i < j < |next|
      ensures next[i].key.user < next[j].key.user
          || (next[i].key.user == next[j].key.user && next[i].key.sqn > next[j].key.sqn)
    {
      if j == |kept| {
        assert next[i] == kept[i] && kept[i] in kept;
        var k :| 0 <= k < n && input[k] == kept[i];
      }
    }
  }

  lemma FlattenSnoc(outputs: seq<seq<Entry>>, last: seq<Entry>)
    ensures Flatten(outputs + [last]) == Flatten(outputs) + last
  {
    assert (outputs + [last])[..|outputs|] == outputs;
  }

  /** Rule (A) looks only at the entry just before; since versions arrive newest
      first, that decides whether any newer version is old enough. */
  lemma HiddenByPrevious(input: seq<Entry>, i: nat, smallestSnapshot: SequenceNumber)
    requires OneVersionEach(input) && i < |input|
    ensures Hidden(input, input[i], smallestSnapshot) <==>
            i > 0 && input[i - 1].key.user == input[i].key.user && input[i - 1].key.sqn <= smallestSnapshot
  {
    if Hidden(input, input[i], smallestSnapshot) {
      var p :| p in input && p.key.user == input[i].key.user && input[i].key.sqn < p.key.sqn <= smallestSnapshot;
      var j :| 0 <= j < |input| && input[j] == p;
      assert j < i;
    }
    if i > 0 && input[i - 1].key.user == input[i].key.user && input[i - 1].key.sqn <= smallestSnapshot {
      assert input[i - 1] in input;
    }
  }
}
