/** Flushing and compacting keep the newest-first order of a version. */
module LsmOrder {
  import opened InternalKeys
  import opened Versions
  import opened InputSelection
  import opened CompactionSetup
  import opened VersionEdits
  import opened ManifestReplay
  import opened LsmState
  import opened LsmVersions

  ghost predicate FileAt(v: Version, p: Place, g: File) {
    match p
    case Level0(n) => g in v.files[0] && g.number == n
    case Level(l) => 0 < l < NUM_LEVELS && g in v.files[l]
  }

  function PlaceOf(level: nat, g: File): Place {
    if level == 0 then Level0(g.number) else Level(level)
  }

  lemma AtMeansFile(v: Version, p: Place, e: Entry)
    ensures At(v, p, e) <==> exists g :: FileAt(v, p, g) && e in g.entries
  {
  }

  lemma FilePlace(v: Version, level: nat, g: File, e: Entry)
    requires level < NUM_LEVELS && g in v.files[level] && e in g.entries
    ensures At(v, PlaceOf(level, g), e)
    ensures InVersion(v, e) && LevelOf(PlaceOf(level, g)) == level
  {
    var p := PlaceOf(level, g);
    assert FileAt(v, p, g);
    assert At(v, p, e);
  }

  lemma StoredSomewhere(v: Version, e: Entry) returns (level: nat, g: File)
    requires InVersion(v, e)
    ensures level < NUM_LEVELS && g in v.files[level] && e in g.entries
  {
    var p :| At(v, p, e);
    AtMeansFile(v, p, e);
    g :| FileAt(v, p, g) && e in g.entries;
    level := LevelOf(p);
  }

  // ---- flush ----

  /** The condition PickLevelForMemTableOutput establishes. */
  ghost predicate MaySkipTo(v: Version, level: nat, f: File) {
    level < NUM_LEVELS && (level > 0 ==> forall l :: 0 <= l <= level ==> ClearOf(v.files[l], f))
  }

  lemma ClearMeansNoCommonKey(f: File, g: File, e: Entry, h: Entry)
    requires !RangesOverlap(g, f) && e in f.entries && h in g.entries
    ensures e.key.user != h.key.user
  {
    EntriesInRange(f, e);
    EntriesInRange(g, h);
  }

  lemma FlushOrder(v: Version, level: nat, f: File, next: nat)
    requires VersionOk(v, next) && NewestFirst(v) && f.number >= next && level < NUM_LEVELS && MaySkipTo(v, level, f)
    requires NewerSets((iset e | e in f.entries), Stored(v))
    ensures var w := ApplyEdit(v, FlushEdit(level, f));
      && NewestFirst(w)
      && forall e :: InVersion(w, e) <==> InVersion(v, e) || e in f.entries
  {
    hide ApplyEdit, VersionOk, MaySkipTo;
    var w := ApplyEdit(v, FlushEdit(level, f));
    FlushedFiles(v, level, f, next);
    forall p, q, e, h | At(w, p, e) && At(w, q, h) && Newer(p, q) && e.key.user == h.key.user
      ensures e.key.sqn > h.key.sqn
    {
      AtMeansFile(w, p, e);
      AtMeansFile(w, q, h);
      var a :| FileAt(w, p, a) && e in a.entries;
      var b :| FileAt(w, q, b) && h in b.entries;
      FlushPair(v, level, f, next, p, q, a, b, e, h);
    }
    forall e ensures InVersion(w, e) <==> InVersion(v, e) || e in f.entries {
      if InVersion(w, e) {
        var l, g := StoredSomewhere(w, e);
        if g in v.files[l] { FilePlace(v, l, g, e); }
      }
      if InVersion(v, e) {
        var l, g := StoredSomewhere(v, e);
        FilePlace(w, l, g, e);
      }
      if e in f.entries {
        FilePlace(w, level, f, e);
      }
    }
  }

  lemma FlushPair(v: Version, level: nat, f: File, next: nat, p: Place, q: Place, a: File, b: File, e: Entry, h: Entry)
    requires VersionOk(v, next) && NewestFirst(v) && f.number >= next && MaySkipTo(v, level, f)
    requires NewerSets((iset e | e in f.entries), Stored(v))
    requires FileAt(v, p, a) || (a == f && p == PlaceOf(level, f))
    requires FileAt(v, q, b) || (b == f && q == PlaceOf(level, f))
    requires e in a.entries && h in b.entries && Newer(p, q) && e.key.user == h.key.user
    ensures e.key.sqn > h.key.sqn
  {
    hide WellShaped, FilesSorted, RangesOverlap;
    if FileAt(v, p, a) {
      FilePlace(v, LevelOf(p), a, e);
      if FileAt(v, q, b) {
        FilePlace(v, LevelOf(q), b, h);
      } else {
        assert level > 0 && LevelOf(p) <= level;
        ClearMeansNoCommonKey(f, a, h, e);
      }
    } else {
      FilePlace(v, LevelOf(q), b, h);
    }
  }

  // ---- compaction ----

  lemma NoEntryTwice(v: Version, next: nat, level: nat, g: File, h: File, e: Entry, d: Entry)
    requires VersionOk(v, next) && NewestFirst(v) && DistinctVersions(v)
    requires level < NUM_LEVELS && g in v.files[level] && h in v.files[level] && g != h
    requires e in g.entries && d in h.entries && e.key.user == d.key.user
    ensures e.key.sqn != d.key.sqn
  {
    if level > 0 {
      NoKeyTwice(v.files[level], g, h, e, d);
      FilePlace(v, level, g, e);
      FilePlace(v, level, h, d);
    } else {
      assert g.number != h.number by {
        hide WellShaped, FilesSorted, NewestFirst, DistinctVersions;
      }
      hide VersionOk;
      FilePlace(v, 0, g, e);
      FilePlace(v, 0, h, d);
      assert Newer(PlaceOf(0, g), PlaceOf(0, h)) || Newer(PlaceOf(0, h), PlaceOf(0, g));
    }
  }

  lemma NoKeyTwice(files: seq<File>, g: File, h: File, e: Entry, d: Entry)
    requires LevelSorted(files) && g in files && h in files && g != h
    requires e in g.entries && d in h.entries
    ensures e != d
  {
    LevelIsSeparated(files, g, h);
    EntriesInRange(g, e);
    EntriesInRange(h, d);
  }

  /** An entry of the output level's inputs or of the upper inputs is older than
      everything of its key that is stored above the output level and stays. */
  lemma StaysAboveNewer(v: Version, next: nat, c: Compaction, p: Place, g: File, e: Entry, d: Entry)
    requires VersionOk(v, next) && NewestFirst(v) && DistinctVersions(v) && Replaceable(v, c)
    requires FileAt(v, p, g) && Stays(c, LevelOf(p), g) && LevelOf(p) <= c.level && e in g.entries
    requires InInputs(c, d) && e.key.user == d.key.user
    ensures e.key.sqn > d.key.sqn
  {
    hide VersionOk, Bystander;
    FilePlace(v, LevelOf(p), g, e);
    if InFiles(c.inputs0, d) {
      var h :| h in c.inputs0 && d in h.entries;
      FilePlace(v, c.level, h, d);
      if LevelOf(p) == c.level {
        assert NewerWhereShared(g, h);
        NoEntryTwice(v, next, c.level, g, h, e, d);
      } else {
        assert Newer(p, PlaceOf(c.level, h));
      }
    } else {
      var h :| h in c.inputs1 && d in h.entries;
      FilePlace(v, c.level + 1, h, d);
      assert Newer(p, Level(c.level + 1));
    }
  }

  lemma StaysBelowOlder(v: Version, c: Compaction, q: Place, g: File, e: Entry, d: Entry)
    requires NewestFirst(v) && InputsPresent(v, c)
    requires FileAt(v, q, g) && LevelOf(q) > c.level + 1 && e in g.entries
    requires InInputs(c, d) && e.key.user == d.key.user
    ensures d.key.sqn > e.key.sqn
  {
    FilePlace(v, LevelOf(q), g, e);
    if InFiles(c.inputs0, d) {
      var h :| h in c.inputs0 && d in h.entries;
      FilePlace(v, c.level, h, d);
      assert Newer(PlaceOf(c.level, h), q);
    } else {
      var h :| h in c.inputs1 && d in h.entries;
      FilePlace(v, c.level + 1, h, d);
      assert Newer(Level(c.level + 1), q);
    }
  }

  lemma ReplaceOrder(v: Version, c: Compaction, outputs: seq<File>, before: nat, next: nat)
    requires VersionOk(v, before) && NewestFirst(v) && DistinctVersions(v)
    requires Replaceable(v, c) && FreshOutputs(v, c, outputs, next) && OutputsFromInputs(c, outputs)
    ensures NewestFirst(ApplyEdit(v, CompactionEdit(c, outputs)))
  {
    hide ApplyEdit, VersionOk, Replaceable, FreshOutputs, OutputsFromInputs, DistinctVersions;
    var w := ApplyEdit(v, CompactionEdit(c, outputs));
    ReplaceableHasInputs(v, c);
    ReplacedFiles(v, c, outputs, before, next);
    forall p, q, e, h | At(w, p, e) && At(w, q, h) && Newer(p, q) && e.key.user == h.key.user
      ensures e.key.sqn > h.key.sqn
    {
      AtMeansFile(w, p, e);
      AtMeansFile(w, q, h);
      var a :| FileAt(w, p, a) && e in a.entries;
      var b :| FileAt(w, q, b) && h in b.entries;
      ReplacePair(v, c, outputs, before, p, q, a, b, e, h);
    }
  }

  lemma ReplaceableHasInputs(v: Version, c: Compaction)
    ensures Replaceable(v, c) ==> InputsPresent(v, c)
  {
  }

  lemma ReplacePair(v: Version, c: Compaction, outputs: seq<File>, next: nat, p: Place, q: Place, a: File, b: File,
      e: Entry, h: Entry)
    requires VersionOk(v, next) && NewestFirst(v) && DistinctVersions(v)
    requires Replaceable(v, c) && OutputsFromInputs(c, outputs)
    requires (FileAt(v, p, a) && Stays(c, LevelOf(p), a)) || (p == Level(c.level + 1) && a in outputs)
    requires (FileAt(v, q, b) && Stays(c, LevelOf(q), b)) || (q == Level(c.level + 1) && b in outputs)
    requires e in a.entries && h in b.entries && Newer(p, q) && e.key.user == h.key.user
    ensures e.key.sqn > h.key.sqn
  {
    hide VersionOk, LeavesNothingOlder, Bystander, InInputs;
    if p == Level(c.level + 1) && a in outputs {
      StaysBelowOlder(v, c, q, b, h, e);
    } else if q == Level(c.level + 1) && b in outputs {
      StaysAboveNewer(v, next, c, p, a, e, h);
    } else {
      FilePlace(v, LevelOf(p), a, e);
      FilePlace(v, LevelOf(q), b, h);
    }
  }

  /** What a version holds once the inputs are replaced. */
  lemma ReplacedContents(v: Version, c: Compaction, outputs: seq<File>, before: nat, next: nat, e: Entry)
    requires VersionOk(v, before) && InputsPresent(v, c) && FreshOutputs(v, c, outputs, next)
    ensures InVersion(ApplyEdit(v, CompactionEdit(c, outputs)), e) <==>
              InFiles(outputs, e) || exists l, g ::
                  0 <= l < NUM_LEVELS && g in v.files[l] && Stays(c, l, g) && e in g.entries
  {
    hide ApplyEdit, VersionOk, FreshOutputs, Stays;
    var w := ApplyEdit(v, CompactionEdit(c, outputs));
    ReplacedFiles(v, c, outputs, before, next);
    if InVersion(w, e) {
      var l, g := StoredSomewhere(w, e);
    }
    if InFiles(outputs, e) {
      var o :| o in outputs && e in o.entries;
      FilePlace(w, c.level + 1, o, e);
    }
    forall l, g | 0 <= l < NUM_LEVELS && g in v.files[l] && Stays(c, l, g) && e in g.entries ensures InVersion(w, e) {
      FilePlace(w, l, g, e);
    }
  }
}
