/** What the edits made by a flush and by a compaction do to a version. */
module LsmVersions {
  import opened Versions
  import opened InputSelection
  import opened CompactionSetup
  import opened VersionEdits
  import opened ManifestReplay
  import opened LsmState

  /** The edit of CompactMemTable. */
  function FlushEdit(level: nat, f: File): VersionEdit {
    VersionEdit({}, [(level, f)])
  }

  /** AddInputDeletions and the outputs of a compaction or trivial move. */
  function CompactionEdit(c: Compaction, outputs: seq<File>): VersionEdit {
    VersionEdit(
      (set f | f in c.inputs0 :: (c.level, f.number)) + (set f | f in c.inputs1 :: (c.level + 1, f.number)),
      AtLevel(c.level + 1, outputs))
  }

  function AtLevel(level: nat, files: seq<File>): seq<(nat, File)> {
    if files == [] then [] else [(level, files[0])] + AtLevel(level, files[1..])
  }

  lemma AddedBack(level: nat, files: seq<File>, l: nat)
    ensures AddedAt(AtLevel(level, files), l) == if l == level then files else []
  {
    if files != [] {
      AddedBack(level, files[1..], l);
      assert AtLevel(level, files)[1..] == AtLevel(level, files[1..]);
    }
  }

  /** f keeps clear of the user keys of every file of the levels it passes. */
  ghost predicate ClearOf(files: seq<File>, f: File) {
    forall g :: g in files ==> !RangesOverlap(g, f)
  }

  lemma FlushedFiles(v: Version, level: nat, f: File, next: nat)
    requires VersionOk(v, next) && f.number >= next && level < NUM_LEVELS
    ensures var w := ApplyEdit(v, FlushEdit(level, f));
      forall l :: 0 <= l < NUM_LEVELS ==>
        && FilesSorted(w.files[l])
        && (forall g :: g in w.files[l] <==> g in v.files[l] || (l == level && g == f))
  {
    hide InstallOne, FilesSorted;
    var edit := FlushEdit(level, f);
    forall l | 0 <= l < NUM_LEVELS
      ensures FilesSorted(InstallOne(v.files[l], LevelPart(edit, l)))
      ensures forall g :: g in InstallOne(v.files[l], LevelPart(edit, l)) <==> g in v.files[l] || (l == level && g == f)
    {
      assert edit.added == AtLevel(level, [f]);
      AddedBack(level, [f], l);
      assert LevelPart(edit, l).deleted == {};
      EditedLevel(v.files[l], LevelPart(edit, l));
    }
  }

  lemma ClearIsSeparated(f: File, g: File)
    requires !RangesOverlap(g, f)
    ensures Separated(f, g) && Separated(g, f)
  {
    EntriesInRange(f, f.entries[0]);
  }

  lemma PairwiseLevel(files: seq<File>)
    requires FilesSorted(files)
    requires forall f, g :: f in files && g in files && f != g ==> Separated(f, g)
    ensures LevelSorted(files)
  {
    forall i, j | 0 <= i < j < |files| ensures Separated(files[i], files[j]) {
      assert FileBefore(files[i], files[j]);
      assert files[i] in files && files[j] in files;
    }
    SeparatedIsLevel(files);
  }

  lemma LevelIsSeparated(files: seq<File>, f: File, g: File)
    requires LevelSorted(files) && f in files && g in files && f != g
    ensures Separated(f, g)
  {
  }

  lemma FlushKeepsVersionOk(v: Version, level: nat, f: File, next: nat)
    requires VersionOk(v, next) && f.number >= next && level < NUM_LEVELS
    requires level > 0 ==> ClearOf(v.files[level], f)
    ensures VersionOk(ApplyEdit(v, FlushEdit(level, f)), f.number + 1)
  {
    hide FilesSorted, LevelSorted, Separated, ApplyEdit, RangesOverlap, NumbersOk;
    var w := ApplyEdit(v, FlushEdit(level, f));
    FlushedFiles(v, level, f, next);
    forall l | 0 < l < NUM_LEVELS ensures LevelSorted(w.files[l]) {
      forall g, h | g in w.files[l] && h in w.files[l] && g != h ensures Separated(g, h) {
        if g == f && l == level {
          ClearIsSeparated(f, h);
        } else if h == f && l == level {
          ClearIsSeparated(f, g);
        } else {
          LevelIsSeparated(v.files[l], g, h);
        }
      }
      PairwiseLevel(w.files[l]);
    }
    FlushKeepsNumbers(v, level, f, next);
    UniqueNumbers(w, f.number + 1);
  }

  lemma FlushKeepsNumbers(v: Version, level: nat, f: File, next: nat)
    requires VersionOk(v, next) && f.number >= next && level < NUM_LEVELS
    ensures NumbersOk(ApplyEdit(v, FlushEdit(level, f)), f.number + 1)
  {
    hide FilesSorted, WellShaped, ApplyEdit;
    FlushedFiles(v, level, f, next);
  }

  lemma UniqueNumbers(v: Version, next: nat)
    requires NumbersOk(v, next) && FilesSorted(v.files[0])
    ensures forall i, j :: 0 <= i < j < |v.files[0]| ==> v.files[0][i].number != v.files[0][j].number
  {
    var files := v.files[0];
    forall i, j | 0 <= i < j < |files| ensures files[i].number != files[j].number {
      assert FileBefore(files[i], files[j]);
      assert files[i] in files && files[j] in files;
    }
  }

  /** New files for the output level: distinct numbers that no file of the
      version has, except that a moved file keeps its own. */
  ghost predicate FreshOutputs(v: Version, c: Compaction, outputs: seq<File>, next: nat) {
    && DistinctNumbers(outputs)
    && (forall o :: o in outputs ==> o.number < next)
    && forall o, l, g :: o in outputs && 0 <= l < NUM_LEVELS && g in v.files[l] && g.number == o.number
        ==> l == c.level && g in c.inputs0
  }

  lemma ReplacedFiles(v: Version, c: Compaction, outputs: seq<File>, before: nat, next: nat)
    requires VersionOk(v, before) && InputsPresent(v, c) && FreshOutputs(v, c, outputs, next)
    ensures var w := ApplyEdit(v, CompactionEdit(c, outputs));
      forall l :: 0 <= l < NUM_LEVELS ==>
        && FilesSorted(w.files[l])
        && (forall g :: g in w.files[l] <==> (g in v.files[l] && Stays(c, l, g)) || (l == c.level + 1 && g in outputs))
  {
    hide InstallOne, FilesSorted, DistinctNumbers, VersionOk, InputsPresent, FreshOutputs, Stays;
    forall l | 0 <= l < NUM_LEVELS
      ensures var files := InstallOne(v.files[l], LevelPart(CompactionEdit(c, outputs), l));
        FilesSorted(files) && forall g ::
            g in files <==> (g in v.files[l] && Stays(c, l, g)) || (l == c.level + 1 && g in outputs)
    {
      ReplacedLevel(v, c, outputs, before, next, l);
    }
  }

  lemma ReplacedLevel(v: Version, c: Compaction, outputs: seq<File>, before: nat, next: nat, l: nat)
    requires VersionOk(v, before) && InputsPresent(v, c) && FreshOutputs(v, c, outputs, next) && l < NUM_LEVELS
    ensures var files := InstallOne(v.files[l], LevelPart(CompactionEdit(c, outputs), l));
      && FilesSorted(files)
      && forall g :: g in files <==> (g in v.files[l] && Stays(c, l, g)) || (l == c.level + 1 && g in outputs)
  {
    hide InstallOne, FilesSorted, DistinctNumbers, NumbersOk, WellShaped;
    var part := LevelPart(CompactionEdit(c, outputs), l);
    AddedBack(c.level + 1, outputs, l);
    NoneIsDistinct();
    forall f, g | f in v.files[l] && g in part.added ensures f.number != g.number {
      NotTaken(v, c, outputs, next, l, f, g);
    }
    EditedLevel(v.files[l], part);
    forall g | g in v.files[l] ensures g.number in part.deleted <==> !Stays(c, l, g) {
      DeletedNumber(v, before, c, outputs, l, g);
    }
  }

  lemma NotTaken(v: Version, c: Compaction, outputs: seq<File>, next: nat, l: nat, f: File, g: File)
    requires FreshOutputs(v, c, outputs, next)
    requires l < NUM_LEVELS && f in v.files[l] && g in AddedAt(AtLevel(c.level + 1, outputs), l)
    ensures f.number != g.number
  {
    hide DistinctNumbers, AddedAt, AtLevel;
    AddedBack(c.level + 1, outputs, l);
  }

  /** g is not an input of the compaction. */
  predicate Stays(c: Compaction, l: nat, g: File) {
    !(l == c.level && g in c.inputs0) && !(l == c.level + 1 && g in c.inputs1)
  }

  lemma NoneIsDistinct()
    ensures DistinctNumbers([])
  {
  }

  lemma DeletedNumber(v: Version, next: nat, c: Compaction, outputs: seq<File>, l: nat, g: File)
    requires VersionOk(v, next) && InputsPresent(v, c)
    requires l < NUM_LEVELS && g in v.files[l]
    ensures g.number in LevelPart(CompactionEdit(c, outputs), l).deleted <==> !Stays(c, l, g)
  {
    hide FilesSorted, WellShaped;
    var edit := CompactionEdit(c, outputs);
    if !Stays(c, l, g) {
      assert (l, g.number) in edit.deleted;
    }
    if g.number in LevelPart(edit, l).deleted {
      assert (l, g.number) in edit.deleted;
      if l == c.level {
        var f :| f in c.inputs0 && (c.level, f.number) == (l, g.number);
      } else {
        var f :| f in c.inputs1 && (c.level + 1, f.number) == (l, g.number);
      }
    }
  }

  ghost predicate Around(o: File, g: File) {
    Smallest(o).user < Smallest(g).user && Largest(g).user < Largest(o).user
  }

  ghost predicate NoneAround(v: Version, c: Compaction, outputs: seq<File>) {
    c.level + 1 < NUM_LEVELS && forall g, o ::
        g in v.files[c.level + 1] && g !in c.inputs1 && o in outputs ==> !Around(o, g)
  }

  lemma BystanderIsSeparated(g: File, c: Compaction, o: File)
    requires Bystander(g, c) && !Around(o, g)
    requires forall e :: e in o.entries ==> InInputs(c, e)
    ensures Separated(g, o) && Separated(o, g)
  {
    assert InInputs(c, o.entries[0]) && InInputs(c, o.entries[|o.entries| - 1]);
  }

  ghost predicate OutputsFromInputs(c: Compaction, outputs: seq<File>) {
    forall o, e :: o in outputs && e in o.entries ==> InInputs(c, e)
  }

  lemma ReplaceKeepsVersionOk(v: Version, c: Compaction, outputs: seq<File>, before: nat, next: nat)
    requires VersionOk(v, before) && Replaceable(v, c) && FreshOutputs(v, c, outputs, next) && before <= next
    requires LevelSorted(outputs) && OutputsFromInputs(c, outputs) && NoneAround(v, c, outputs)
    ensures VersionOk(ApplyEdit(v, CompactionEdit(c, outputs)), next)
  {
    hide FilesSorted, LevelSorted, Separated, ApplyEdit, Bystander, DistinctNumbers, Stays, NumbersOk,
        OutputsFromInputs, FreshOutputs,
         LeavesNothingOlder, NoneAround;
    var w := ApplyEdit(v, CompactionEdit(c, outputs));
    ReplacedFiles(v, c, outputs, before, next);
    forall l | 0 < l < NUM_LEVELS ensures LevelSorted(w.files[l]) {
      forall g, h | g in w.files[l] && h in w.files[l] && g != h ensures Separated(g, h) {
        ReplacedSeparated(v, c, outputs, l, g, h);
      }
      PairwiseLevel(w.files[l]);
    }
    ReplaceKeepsNumbers(v, c, outputs, before, next);
    UniqueNumbers(w, next);
  }

  lemma ReplaceKeepsNumbers(v: Version, c: Compaction, outputs: seq<File>, before: nat, next: nat)
    requires VersionOk(v, before) && InputsPresent(v, c) && FreshOutputs(v, c, outputs, next) && before <= next
    ensures NumbersOk(ApplyEdit(v, CompactionEdit(c, outputs)), next)
  {
    hide FilesSorted, WellShaped, ApplyEdit, DistinctNumbers, Stays, InputsPresent;
    var w := ApplyEdit(v, CompactionEdit(c, outputs));
    ReplacedFiles(v, c, outputs, before, next);
    forall l, f | 0 <= l < NUM_LEVELS && f in w.files[l] ensures f.number < next {
      NumberBound(v, c, outputs, before, next, l, f);
    }
    hide NumbersOk, FreshOutputs;
    forall l, m, f, g | 0 <= l < NUM_LEVELS && 0 <= m < NUM_LEVELS && f in w.files[l] && g in w.files[m]
        && f.number == g.number
      ensures l == m && f == g
    {
      SameNumberSameFile(v, c, outputs, before, next, l, m, f, g);
    }
  }

  ghost predicate InReplaced(v: Version, c: Compaction, outputs: seq<File>, l: nat, g: File)
    requires l < NUM_LEVELS
  {
    (g in v.files[l] && Stays(c, l, g)) || (l == c.level + 1 && g in outputs)
  }

  lemma NumberBound(v: Version, c: Compaction, outputs: seq<File>, before: nat, next: nat, l: nat, f: File)
    requires NumbersOk(v, before) && FreshOutputs(v, c, outputs, next) && before <= next && l < NUM_LEVELS
    requires InReplaced(v, c, outputs, l, f)
    ensures f.number < next
  {
    hide DistinctNumbers, Stays;
  }

  lemma SameNumberSameFile(v: Version, c: Compaction, outputs: seq<File>, before: nat, next: nat, l: nat, m: nat,
      f: File, g: File)
    requires NumbersOk(v, before) && FreshOutputs(v, c, outputs, next) && l < NUM_LEVELS && m < NUM_LEVELS
    requires InReplaced(v, c, outputs, l, f) && InReplaced(v, c, outputs, m, g) && f.number == g.number
    ensures l == m && f == g
  {
    hide DistinctNumbers;
    DistinctOutputs(outputs);
  }

  lemma DistinctOutputs(outputs: seq<File>)
    requires DistinctNumbers(outputs)
    ensures forall f, g :: f in outputs && g in outputs && f.number == g.number ==> f == g
  {
  }

  lemma ReplacedSeparated(v: Version, c: Compaction, outputs: seq<File>, l: nat, g: File, h: File)
    requires Replaceable(v, c) && LevelSorted(outputs) && OutputsFromInputs(c, outputs) && NoneAround(v, c, outputs)
    requires 0 < l < NUM_LEVELS && LevelSorted(v.files[l]) && g != h
    requires (g in v.files[l] && Stays(c, l, g)) || (l == c.level + 1 && g in outputs)
    requires (h in v.files[l] && Stays(c, l, h)) || (l == c.level + 1 && h in outputs)
    ensures Separated(g, h)
  {
    hide LevelSorted, Separated, Bystander, Around;
    if g in v.files[l] && Stays(c, l, g) {
      if h in v.files[l] && Stays(c, l, h) {
        LevelIsSeparated(v.files[l], g, h);
      } else {
        BystanderIsSeparated(g, c, h);
      }
    } else if h in v.files[l] && Stays(c, l, h) {
      BystanderIsSeparated(h, c, g);
    } else {
      LevelIsSeparated(outputs, g, h);
    }
  }
}
