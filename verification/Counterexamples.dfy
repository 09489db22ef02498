/** Inputs on which the engine loses what it promises: the failing halves of the exact conditions
    proved in PickingCorrect and Flushing. */
module Counterexamples {
  import opened Wrappers
  import opened InternalKeys
  import opened MultiVersion
  import opened Version
  import opened Compaction
  import opened CompactionCorrect
  import opened Picking
  import opened MemTableOutput
  import opened Engine

  lemma CompactsInto(levels: Levels, job: Job, input: seq<Entry>, o: File)
    requires TakesInputs(levels, job) && job.outputs == [o] && o.NonEmpty()
    requires IsMerge(input, job)
    requires o.entries == Kept(input, |input|, job.smallestSnapshot, levels, job.level)
    ensures Compacts(levels, job)
  {
    assert job.outputs[..0] == [];
    assert Flatten(job.outputs) == o.entries;
  }

  /** A version, an older one that it hides, and an obsolete tombstone. */
  lemma FirstIsKept(x: Entry, y: Entry, z: Entry, s: nat, levels: Levels, level: nat)
    requires x.key.kind.Value? && x.key.user == y.key.user && x.key.sequence <= s && Obsolete(z, s, levels, level)
    ensures Kept([x, y, z], 3, s, levels, level) == [x]
  {
    var input := [x, y, z];
    assert !Dropped(input, 0, s, levels, level) && Dropped(input, 1, s, levels, level)
        && Dropped(input, 2, s, levels, level);
    assert Kept(input, 0, s, levels, level) == [];
    assert Kept(input, 1, s, levels, level) == [x];
    assert Kept(input, 2, s, levels, level) == [x];
  }

  /** Two values of different user keys. */
  lemma BothAreKept(x: Entry, y: Entry, s: nat, levels: Levels, level: nat)
    requires x.key.kind.Value? && y.key.kind.Value? && x.key.user != y.key.user
    ensures Kept([x, y], 2, s, levels, level) == [x, y]
  {
    var input := [x, y];
    assert !Dropped(input, 0, s, levels, level) && !Dropped(input, 1, s, levels, level);
    assert Kept(input, 0, s, levels, level) == [];
    assert Kept(input, 1, s, levels, level) == [x];
  }

  /** The files of one level only. */
  lemma LevelOneTree(f: File, g: File)
    requires SortedLevel([f, g]) && Distinct(All([[], [f, g], [], [], [], [], []]))
    ensures Tree([[], [f, g], [], [], [], [], []])
  {
    var levels: Levels := [[], [f, g], [], [], [], [], []];
    forall l | 1 <= l < NUM_LEVELS ensures SortedLevel(levels[l]) {
      assert levels[l] == [f, g] || levels[l] == [];
    }
    forall l, m | 0 <= l < m < NUM_LEVELS ensures levels[l] == [] || levels[m] == [] {}
  }

  lemma LevelOneContents(f: File, g: File)
    ensures forall e :: e in All([[], [f, g], [], [], [], [], []]) <==> e in f.entries || e in g.entries
    ensures forall e :: e in EntriesOf([f, g]) <==> e in f.entries || e in g.entries
  {
    var levels: Levels := [[], [f, g], [], [], [], [], []];
    assert f in [f, g] && g in [f, g];
    forall e ensures e in All(levels) <==> e in f.entries || e in g.entries {
      if e in f.entries { InAll(levels, 1, f, e); }
      if e in g.entries { InAll(levels, 1, g, e); }
      if e in All(levels) {
        var l, x := AllIn(levels, e);
        assert x == f || x == g;
      }
    }
  }

  /** The compaction takes all there is in its two levels. */
  ghost predicate TakesWholeLevels(levels: Levels, job: Job) {
    job.level + 1 < |levels| && levels[job.level] == job.inputs0 && levels[job.level + 1] == job.inputs1
  }

  lemma WholeLevelsAreReady(levels: Levels, job: Job)
    requires TakesInputs(levels, job) && TakesWholeLevels(levels, job)
    requires Compacts(levels, job) && UnmasksNothing(levels, job)
    ensures JobReady(levels, job)
  {
    assert forall f :: f in levels[job.level] ==> f in job.inputs0;
    assert forall f :: f in levels[job.level + 1] ==> f in job.inputs1;
  }

  lemma ReplacedByOne(levels: Levels, job: Job, after: Levels, o: File)
    requires Tree(levels) && TakesInputs(levels, job) && Replaced(levels, job, after)
    requires job.outputs == [o] && |o.entries| == 1
    ensures All(after) == All(levels) - InputEntries(job) + {o.entries[0]}
  {
    ContentsAfter(levels, job, after);
    OneEntryContents(o);
  }

  lemma OneEntryContents(f: File)
    requires |f.entries| == 1
    ensures EntriesOf([f]) == {f.entries[0]}
  {
    assert f in [f] && f.entries[0] in f.entries;
  }

  /** A table left in the output level with an output across it. */
  lemma AcrossBreaksTree(levels: Levels, job: Job, f: File, o: File, flushed: Levels, after: Levels)
    requires WithTable(levels, job.level + 1, f, flushed) && TakesInputs(flushed, job) && Replaced(flushed, job, after)
    requires f !in job.inputs1 && o in job.outputs && f != o && !Before(f, o) && !Before(o, f)
    ensures !Tree(after)
  {
    var files := after[job.level + 1];
    assert f in files && o in files;
    if SortedLevel(files) { SortedLevelSeparates(files, f, o); }
  }

  // ------------------------------------------- a tombstone above its value

  function Put(user: UserKey, sequence: nat, value: string): Entry {
    Entry(InternalKey(user, sequence, Value), value)
  }

  function Delete(user: UserKey, sequence: nat): Entry {
    Entry(InternalKey(user, sequence, Deletion), "")
  }

  function NewFile(): File { File(10, 100, [Put(1, 7, "new")]) }
  function TombstoneFile(): File { File(11, 100, [Put(1, 2, "stale"), Delete(5, 6)]) }
  function OldFile(): File { File(12, 100, [Put(5, 3, "old")]) }

  /** Level 2 was cut between the tombstone of key 5 and the value the tombstone hides. */
  function CutLevels(): Levels {
    [[], [NewFile()], [TombstoneFile(), OldFile()], [], [], [], []]
  }

  function CutOutput(): File { File(13, 100, [Put(1, 7, "new")]) }

  function CutJob(): Job {
    Job(1, [NewFile()], [TombstoneFile()], [CutOutput()], 7)
  }

  lemma CutContents()
    ensures All(CutLevels()) == {Put(1, 7, "new"), Put(1, 2, "stale"), Delete(5, 6), Put(5, 3, "old")}
    ensures InputEntries(CutJob()) == {Put(1, 7, "new"), Put(1, 2, "stale"), Delete(5, 6)}
  {
    ThreeFileContents(NewFile(), TombstoneFile(), OldFile());
    assert forall e :: e in NewFile().entries <==> e in {Put(1, 7, "new")};
    assert forall e :: e in TombstoneFile().entries <==> e in {Put(1, 2, "stale"), Delete(5, 6)};
    assert forall e :: e in OldFile().entries <==> e in {Put(5, 3, "old")};
  }

  lemma ThreeFileContents(f: File, g: File, h: File)
    ensures forall e :: e in All([[], [f], [g, h], [], [], [], []])
              <==> e in f.entries || e in g.entries || e in h.entries
    ensures forall e :: e in EntriesOf([f]) + EntriesOf([g]) <==> e in f.entries || e in g.entries
  {
    var levels: Levels := [[], [f], [g, h], [], [], [], []];
    forall e ensures e in All(levels) <==> e in f.entries || e in g.entries || e in h.entries {
      if e in f.entries { InAll(levels, 1, f, e); }
      if e in g.entries { InAll(levels, 2, g, e); }
      if e in h.entries { InAll(levels, 2, h, e); }
      if e in All(levels) {
        var l, x := AllIn(levels, e);
        assert x == f || x == g || x == h;
      }
    }
    assert f in [f] && g in [g];
  }

  lemma ThreeFileTree(f: File, g: File, h: File)
    requires WellFormed(f) && SortedLevel([g, h]) && Above(f.entries, g.entries) && Above(f.entries, h.entries)
    requires Distinct(All([[], [f], [g, h], [], [], [], []]))
    ensures Tree([[], [f], [g, h], [], [], [], []])
  {
    var levels: Levels := [[], [f], [g, h], [], [], [], []];
    forall l | 1 <= l < NUM_LEVELS ensures SortedLevel(levels[l]) {
      assert levels[l] == [f] || levels[l] == [g, h] || levels[l] == [];
    }
    forall l, m, x: File, y: File | 0 <= l < m < NUM_LEVELS && x in levels[l] && y in levels[m]
      ensures Above(x.entries, y.entries)
    {
      assert l == 1 && m == 2 && x == f;
    }
  }

  lemma CutFiles()
    ensures WellFormed(NewFile()) && SortedLevel([TombstoneFile(), OldFile()])
    ensures Above(NewFile().entries, TombstoneFile().entries) && Above(NewFile().entries, OldFile().entries)
  {
    assert Before(TombstoneFile(), OldFile());
  }

  lemma CutIsTree()
    ensures Tree(CutLevels())
  {
    assert Distinct(All(CutLevels())) by { CutContents(); }
    CutFiles();
    ThreeFileTree(NewFile(), TombstoneFile(), OldFile());
  }

  lemma CutIsPicked()
    ensures Picked(CutLevels(), 1, CutJob().inputs0, CutJob().inputs1)
  {
    var levels := CutLevels();
    var f, g, h := NewFile(), TombstoneFile(), OldFile();
    assert IsRange([f], 1, 1) by { assert f in [f]; }
    assert [g][..0] == [] && [g, h][..1] == [g];
    assert Meeting([g], Some(1), Some(1)) == [g];
    assert Meeting([g, h], Some(1), Some(1)) == [g];
  }

  lemma CutMerges()
    ensures IsMerge([Put(1, 7, "new"), Put(1, 2, "stale"), Delete(5, 6)], CutJob())
  {
    CutContents();
  }

  lemma CutIsBase()
    ensures Obsolete(Delete(5, 6), 7, CutLevels(), 1)
  {
  }

  lemma CutCompacts()
    ensures TakesInputs(CutLevels(), CutJob()) && Compacts(CutLevels(), CutJob())
  {
    CutMerges();
    CutIsBase();
    FirstIsKept(Put(1, 7, "new"), Put(1, 2, "stale"), Delete(5, 6), 7, CutLevels(), 1);
    CompactsInto(CutLevels(), CutJob(), [Put(1, 7, "new"), Put(1, 2, "stale"), Delete(5, 6)], CutOutput());
  }

  lemma CutAfter(after: Levels)
    requires Tree(CutLevels()) && TakesInputs(CutLevels(), CutJob()) && Replaced(CutLevels(), CutJob(), after)
    ensures All(after) == {Put(5, 3, "old"), Put(1, 7, "new")}
  {
    ReplacedByOne(CutLevels(), CutJob(), after, CutOutput());
    CutContents();
    CutSets(All(CutLevels()), InputEntries(CutJob()));
  }

  lemma CutSets(S: set<Entry>, inputs: set<Entry>)
    requires S == {Put(1, 7, "new"), Put(1, 2, "stale"), Delete(5, 6), Put(5, 3, "old")}
    requires inputs == {Put(1, 7, "new"), Put(1, 2, "stale"), Delete(5, 6)}
    ensures S - inputs + {Put(1, 7, "new")} == {Put(5, 3, "old"), Put(1, 7, "new")}
  {
    assert S - inputs == {Put(5, 3, "old")};
  }

  lemma CutReads(S: set<Entry>, T: set<Entry>)
    requires S == {Put(1, 7, "new"), Put(1, 2, "stale"), Delete(5, 6), Put(5, 3, "old")}
    requires T == {Put(5, 3, "old"), Put(1, 7, "new")}
    ensures Meaning(Read(S, 5, 7)) == None && Meaning(Read(T, 5, 7)) == Some("old")
  {
    assert IsNewest(S, 5, 7, Delete(5, 6));
    ReadSome(S, 5, 7, Delete(5, 6));
    assert IsNewest(T, 5, 7, Put(5, 3, "old"));
    ReadSome(T, 5, 7, Put(5, 3, "old"));
  }

  /** A deleted key comes back: compacting level 1 picks only the file with the tombstone, which is
      dropped because nothing lies deeper, and the value left behind becomes visible. */
  lemma DeletedKeyComesBack(after: Levels)
    requires TakesInputs(CutLevels(), CutJob()) && Replaced(CutLevels(), CutJob(), after)
    ensures Tree(CutLevels()) && Picked(CutLevels(), 1, CutJob().inputs0, CutJob().inputs1)
    ensures Compacts(CutLevels(), CutJob())
    ensures Meaning(Read(All(CutLevels()), 5, 7)) == None && Meaning(Read(All(after), 5, 7)) == Some("old")
  {
    CutIsTree();
    CutIsPicked();
    CutCompacts();
    CutAfter(after);
    assert All(CutLevels())
        == {Put(1, 7, "new"), Put(1, 2, "stale"), Delete(5, 6), Put(5, 3, "old")} by { CutContents(); }
    CutReads(All(CutLevels()), All(after));
  }

  // -------------------------------------------- a table across an output

  function GapLeft(): File { File(10, 100, [Put(1, 1, "a")]) }
  function GapRight(): File { File(11, 100, [Put(9, 2, "b")]) }
  function GapOutput(): File { File(12, 100, [Put(1, 1, "a"), Put(9, 2, "b")]) }
  function GapTable(): File { File(13, 100, [Put(5, 3, "c")]) }

  /** Two files of level 1 with room between them. */
  function GapLevels(): Levels {
    [[], [GapLeft(), GapRight()], [], [], [], [], []]
  }

  /** The compaction of all of level 1. */
  function GapJob(): Job {
    Job(1, [GapLeft(), GapRight()], [], [GapOutput()], 2)
  }

  lemma GapContents()
    ensures All(GapLevels()) == {Put(1, 1, "a"), Put(9, 2, "b")} == InputEntries(GapJob())
  {
    LevelOneContents(GapLeft(), GapRight());
    assert forall e :: e in GapLeft().entries <==> e == Put(1, 1, "a");
    assert forall e :: e in GapRight().entries <==> e == Put(9, 2, "b");
    assert EntriesOf([]) == {};
  }

  lemma GapIsTree()
    ensures Tree(GapLevels())
  {
    GapContents();
    assert Before(GapLeft(), GapRight());
    LevelOneTree(GapLeft(), GapRight());
  }

  lemma GapIsPicked()
    ensures Picked(GapLevels(), 1, GapJob().inputs0, GapJob().inputs1)
  {
    var in0 := GapJob().inputs0;
    assert GapLeft() in in0 && GapRight() in in0;
    assert IsRange(in0, 1, 9);
    assert Meeting([], Some(1), Some(9)) == [];
  }

  lemma GapMerges()
    ensures IsMerge([Put(1, 1, "a"), Put(9, 2, "b")], GapJob())
  {
    GapContents();
  }

  lemma GapCompacts()
    ensures TakesInputs(GapLevels(), GapJob()) && Compacts(GapLevels(), GapJob())
  {
    GapMerges();
    BothAreKept(Put(1, 1, "a"), Put(9, 2, "b"), 2, GapLevels(), 1);
    CompactsInto(GapLevels(), GapJob(), [Put(1, 1, "a"), Put(9, 2, "b")], GapOutput());
  }

  lemma GapUnmasksNothing()
    ensures UnmasksNothing(GapLevels(), GapJob())
  {
    GapContents();
  }

  lemma GapTakesAll()
    ensures TakesWholeLevels(GapLevels(), GapJob())
  {
  }

  lemma GapIsReady()
    ensures JobReady(GapLevels(), GapJob())
  {
    GapTakesAll();
    GapCompacts();
    GapUnmasksNothing();
    WholeLevelsAreReady(GapLevels(), GapJob());
  }

  lemma GapTableLands()
    ensures MayLandAt(GapLevels(), 2, 5, 5) && !GapFree(GapJob().inputs0 + GapJob().inputs1)
  {
    var inputs := GapJob().inputs0 + GapJob().inputs1;
    assert GapLeft() in inputs && GapRight() in inputs;
    assert Within(inputs, 5) && !CoveredBy(inputs, 5);
  }

  lemma GapTableIsAcross()
    ensures GapTable() != GapOutput() && !Before(GapTable(), GapOutput()) && !Before(GapOutput(), GapTable())
    ensures GapOutput() in GapJob().outputs && GapTable() !in GapJob().inputs1
  {
  }

  lemma GapBreaks(flushed: Levels, after: Levels)
    requires WithTable(GapLevels(), 2, GapTable(), flushed)
    requires TakesInputs(flushed, GapJob()) && Replaced(flushed, GapJob(), after)
    ensures !Tree(after)
  {
    GapTableIsAcross();
    AcrossBreaksTree(GapLevels(), GapJob(), GapTable(), GapOutput(), flushed, after);
  }

  /** A flush breaks the order of a level: while level 1 is compacted as a range, a table of the key
      between its two files may land in level 2, where the output of the compaction then lies across it. */
  lemma FlushIntoGapBreaksTree(flushed: Levels, after: Levels)
    requires WithTable(GapLevels(), 2, GapTable(), flushed)
    requires TakesInputs(flushed, GapJob()) && Replaced(flushed, GapJob(), after)
    ensures Tree(GapLevels()) && Picked(GapLevels(), 1, GapJob().inputs0, GapJob().inputs1)
    ensures JobReady(GapLevels(), GapJob()) && MayLandAt(GapLevels(), 2, 5, 5)
    ensures !Tree(after)
  {
    GapIsTree();
    GapIsPicked();
    GapIsReady();
    GapTableLands();
    GapBreaks(flushed, after);
  }
}
