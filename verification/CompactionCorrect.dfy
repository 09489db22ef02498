/** Replacing a compaction's inputs by its outputs keeps the invariant of the version and the meaning
    of every read a snapshot can still ask for. */
module CompactionCorrect {
  import opened InternalKeys
  import opened MultiVersion
  import opened Version
  import opened Builder
  import opened Compaction

  /** What a compaction reads and writes. */
  datatype Job = Job(level: nat, inputs0: seq<File>, inputs1: seq<File>, outputs: seq<File>, smallestSnapshot: nat)

  ghost predicate TakesInputs(levels: Levels, job: Job) {
    && |levels| == NUM_LEVELS && job.level + 1 < NUM_LEVELS
    && (forall f :: f in job.inputs0 ==> f in levels[job.level])
    && (forall f :: f in job.inputs1 ==> f in levels[job.level + 1])
  }

  ghost function InputEntries(job: Job): set<Entry> {
    EntriesOf(job.inputs0) + EntriesOf(job.inputs1)
  }

  /** The files of a level that were not chosen hold nothing older than what is in `inputs`. */
  ghost predicate LeavesNothingOlder(files: seq<File>, chosen: seq<File>, inputs: seq<File>) {
    forall f, g :: f in inputs && g in files && g !in chosen ==> Above(g.entries, f.entries)
  }

  /** User-key closure: a file left behind in one of the two levels holds no version older than one
      that is compacted. */
  ghost predicate Closed(levels: Levels, job: Job)
    requires TakesInputs(levels, job)
  {
    && LeavesNothingOlder(levels[job.level], job.inputs0, job.inputs0)
    && LeavesNothingOlder(levels[job.level + 1], job.inputs1, job.inputs0)
    && LeavesNothingOlder(levels[job.level + 1], job.inputs1, job.inputs1)
  }

  ghost predicate PrecedesInputs(g: File, job: Job) {
    forall f :: f in job.inputs0 || f in job.inputs1 ==> Before(g, f)
  }

  ghost predicate FollowsInputs(g: File, job: Job) {
    forall f :: f in job.inputs0 || f in job.inputs1 ==> Before(f, g)
  }

  /** The files left behind in the output level lie to one side of all inputs. */
  ghost predicate Apart(levels: Levels, job: Job)
    requires TakesInputs(levels, job)
  {
    forall g :: g in levels[job.level + 1] && g !in job.inputs1 ==> PrecedesInputs(g, job) || FollowsInputs(g, job)
  }

  /** The file lies to one side of each of the others. */
  ghost predicate Beside(g: File, files: seq<File>) {
    forall o :: o in files ==> Before(g, o) || Before(o, g)
  }

  /** The files left behind in the output level lie to one side of every output. */
  ghost predicate OutputsApart(levels: Levels, job: Job)
    requires TakesInputs(levels, job)
  {
    forall g :: g in levels[job.level + 1] && g !in job.inputs1 ==> Beside(g, job.outputs)
  }

  /** A compacted entry that some newer compacted entry hides from every snapshot. */
  ghost predicate HiddenIn(inputs: set<Entry>, e: Entry, smallestSnapshot: nat) {
    exists x :: x in inputs && x.key.user == e.key.user && e.key.sequence < x.key.sequence <= smallestSnapshot
  }

  /** The drop rules read as a property of the set of input entries. */
  ghost function Survivors(levels: Levels, job: Job): set<Entry> {
    set e | e in InputEntries(job) && !HiddenIn(InputEntries(job), e, job.smallestSnapshot)
            && !Obsolete(e, job.smallestSnapshot, levels, job.level)
  }

  /** The outputs are well-formed tables made of what survives of the merged inputs. */
  ghost predicate Compacts(levels: Levels, job: Job)
    requires TakesInputs(levels, job)
  {
    && (forall o :: o in job.outputs ==> o.NonEmpty())
    && exists input :: IsMerge(input, job)
         && Flatten(job.outputs) == Kept(input, |input|, job.smallestSnapshot, levels, job.level)
  }

  /** `input` lists the input entries in internal key order. */
  ghost predicate IsMerge(input: seq<Entry>, job: Job) {
    && Sorted(input)
    && forall e :: e in input <==> e in InputEntries(job)
  }

  /** Looking one entry back in the merge finds a hiding version exactly when there is one. */
  lemma HiddenIsLocal(job: Job, input: seq<Entry>, i: nat)
    requires IsMerge(input, job) && Distinct(InputEntries(job)) && i < |input|
    ensures Hidden(input, i, job.smallestSnapshot) <==> HiddenIn(InputEntries(job), input[i], job.smallestSnapshot)
  {
    var e := input[i];
    assert e in input;
    if i > 0 {
      var p := input[i - 1];
      assert p in input && Precedes(p.key, e.key);
      assert p.key.user == e.key.user ==> p.key.sequence > e.key.sequence;
    }
    if x :| x in InputEntries(job) && x.key.user == e.key.user
            && e.key.sequence < x.key.sequence <= job.smallestSnapshot {
      NewerComesBefore(input, i, x);
    }
  }

  /** In a sorted run every newer version comes before, and the one just before is the next newer. */
  lemma NewerComesBefore(input: seq<Entry>, i: nat, x: Entry)
    requires Sorted(input) && i < |input| && x in input
    requires x.key.user == input[i].key.user && x.key.sequence > input[i].key.sequence
    ensures i > 0 && input[i - 1].key.user == x.key.user && input[i - 1].key.sequence <= x.key.sequence
  {
    var j :| 0 <= j < |input| && input[j] == x;
    assert j < i;
    if j < i - 1 { assert Precedes(x.key, input[i - 1].key); }
    assert Precedes(input[i - 1].key, input[i].key);
  }

  lemma InputsAreEntries(levels: Levels, job: Job)
    requires TakesInputs(levels, job)
    ensures InputEntries(job) <= All(levels)
  {
    forall e | e in InputEntries(job) ensures e in All(levels) {
      if e in EntriesOf(job.inputs0) {
        var f :| f in job.inputs0 && e in f.entries;
        InAll(levels, job.level, f, e);
      } else {
        var f :| f in job.inputs1 && e in f.entries;
        InAll(levels, job.level + 1, f, e);
      }
    }
  }

  /** The outputs hold exactly the survivors. */
  lemma OutputsAreSurvivors(levels: Levels, job: Job)
    requires Tree(levels) && TakesInputs(levels, job) && Compacts(levels, job)
    ensures forall e :: e in Flatten(job.outputs) <==> e in Survivors(levels, job)
    ensures Sorted(Flatten(job.outputs))
  {
    var input :| IsMerge(input, job)
      && Flatten(job.outputs) == Kept(input, |input|, job.smallestSnapshot, levels, job.level);
    InputsAreEntries(levels, job);
    KeptIsSorted(input, |input|, job.smallestSnapshot, levels, job.level);
    KeptContents(input, |input|, job.smallestSnapshot, levels, job.level);
    forall i | 0 <= i < |input|
      ensures Dropped(input, i, job.smallestSnapshot, levels, job.level) <==> input[i] !in Survivors(levels, job)
    {
      HiddenIsLocal(job, input, i);
      assert input[i] in input;
    }
    forall e | e in Survivors(levels, job) ensures e in Flatten(job.outputs) {
      assert e in input;
      var i :| 0 <= i < |input| && input[i] == e;
    }
  }

  /** With nothing beneath the compaction, all older versions are compacted too. */
  lemma OlderVersionIsInput(levels: Levels, job: Job, e: Entry, x: Entry)
    requires Tree(levels) && TakesInputs(levels, job) && Closed(levels, job)
    requires e in InputEntries(job) && IsBase(levels, job.level, e.key.user)
    requires x in All(levels) && x.key.user == e.key.user && x.key.sequence < e.key.sequence
    ensures x in InputEntries(job)
  {
    var l, g := AllIn(levels, x);
    var k, f := InputFile(levels, job, e);
    assert !Above(g.entries, f.entries);
    OlderFileIsInput(levels, job, k, f, l, g);
    if l > job.level + 1 {
      HoldersCover(levels, l, g, x);
    }
  }

  lemma HoldersCover(levels: Levels, l: nat, g: File, x: Entry)
    requires Tree(levels) && 0 < l < NUM_LEVELS && g in levels[l] && x in g.entries
    ensures Covers(g, x.key.user)
  {
    assert SortedLevel(levels[l]);
    assert WellFormed(g);
    EntriesInRange(g);
  }

  /** A file that is not entirely newer than an input is itself an input, or lies deeper. */
  lemma OlderFileIsInput(levels: Levels, job: Job, k: nat, f: File, l: nat, g: File)
    requires Tree(levels) && TakesInputs(levels, job) && Closed(levels, job)
    requires (k == job.level && f in job.inputs0) || (k == job.level + 1 && f in job.inputs1)
    requires l < NUM_LEVELS && g in levels[l] && !Above(g.entries, f.entries)
    ensures l > job.level + 1 || (l == job.level && g in job.inputs0) || (l == job.level + 1 && g in job.inputs1)
  {
    assert f in levels[k];
  }

  lemma InputFile(levels: Levels, job: Job, e: Entry) returns (l: nat, f: File)
    requires TakesInputs(levels, job) && e in InputEntries(job)
    ensures (l == job.level && f in job.inputs0) || (l == job.level + 1 && f in job.inputs1)
    ensures f in levels[l] && e in f.entries
  {
    if e in EntriesOf(job.inputs0) {
      f :| f in job.inputs0 && e in f.entries;
      l := job.level;
    } else {
      f :| f in job.inputs1 && e in f.entries;
      l := job.level + 1;
    }
  }

  /** An obsolete tombstone that readers at the smallest snapshot rely on, and a value it would stop
      hiding: the newest version left behind below the tombstone. */
  ghost predicate Unmasks(levels: Levels, job: Job, e: Entry) {
    && e in InputEntries(job) && Obsolete(e, job.smallestSnapshot, levels, job.level)
    && IsNewest(All(levels), e.key.user, job.smallestSnapshot, e)
    && Meaning(Read(All(levels) - InputEntries(job), e.key.user, e.key.sequence)).Some?
  }

  /** No dropped tombstone was hiding a value that is left behind. */
  ghost predicate UnmasksNothing(levels: Levels, job: Job) {
    forall e :: !Unmasks(levels, job, e)
  }

  /** The exact condition under which dropping is invisible, whatever the inputs: reads at every
      snapshot from the smallest one on are unchanged if and only if no dropped tombstone was hiding
      a value that is left behind. */
  lemma MeaningKeptExactlyWhen(levels: Levels, job: Job)
    requires Distinct(All(levels)) && InputEntries(job) <= All(levels)
    ensures SameFrom(job.smallestSnapshot, All(levels), All(levels) - InputEntries(job) + Survivors(levels, job))
       <==> UnmasksNothing(levels, job)
  {
    var S := All(levels);
    var T := S - InputEntries(job) + Survivors(levels, job);
    if UnmasksNothing(levels, job) {
      forall u, s: nat | job.smallestSnapshot <= s
        ensures Meaning(Read(S, u, s)) == Meaning(Read(T, u, s))
      {
        ReadNone(S, u, s);
        ReadNone(T, u, s);
        if Read(S, u, s).Some? {
          var e := Read(S, u, s).value;
          if e in T {
            ReadSome(T, u, s, e);
          } else {
            DroppedReads(levels, job, u, s, e);
            assert !Unmasks(levels, job, e);
          }
        }
      }
    } else {
      var e :| Unmasks(levels, job, e);
      var s := job.smallestSnapshot;
      ReadSome(S, e.key.user, s, e);
      DroppedReads(levels, job, e.key.user, s, e);
      assert Meaning(Read(S, e.key.user, s)) != Meaning(Read(T, e.key.user, s));
    }
  }

  /** Where the newest version was dropped, a read falls through to what is left behind. */
  lemma DroppedReads(levels: Levels, job: Job, u: UserKey, s: nat, e: Entry)
    requires Distinct(All(levels)) && InputEntries(job) <= All(levels) && job.smallestSnapshot <= s
    requires IsNewest(All(levels), u, s, e) && e in InputEntries(job) && e !in Survivors(levels, job)
    ensures Obsolete(e, job.smallestSnapshot, levels, job.level)
    ensures IsNewest(All(levels), u, job.smallestSnapshot, e)
    ensures Read(All(levels) - InputEntries(job) + Survivors(levels, job), u, s)
         == Read(All(levels) - InputEntries(job), u, e.key.sequence)
  {
    var rest := All(levels) - InputEntries(job);
    var T := rest + Survivors(levels, job);
    assert !HiddenIn(InputEntries(job), e, job.smallestSnapshot);
    forall x | x in T && Sees(x, u, s) ensures x in rest && Sees(x, u, e.key.sequence) {
      assert x in InputEntries(job) ==> HiddenIn(InputEntries(job), x, job.smallestSnapshot);
    }
    ReadNone(T, u, s);
    ReadNone(rest, u, e.key.sequence);
    if Read(rest, u, e.key.sequence).Some? {
      ReadSome(T, u, s, Read(rest, u, e.key.sequence).value);
    }
  }

  /** User-key closure leaves nothing behind that a dropped tombstone was hiding. */
  lemma ClosedUnmasksNothing(levels: Levels, job: Job)
    requires Tree(levels) && TakesInputs(levels, job) && Closed(levels, job)
    ensures UnmasksNothing(levels, job)
  {
    forall e ensures !Unmasks(levels, job, e) {
      if e in InputEntries(job) && IsBase(levels, job.level, e.key.user) { NothingOlderIsLeft(levels, job, e); }
    }
  }

  lemma NothingOlderIsLeft(levels: Levels, job: Job, e: Entry)
    requires Tree(levels) && TakesInputs(levels, job) && Closed(levels, job)
    requires e in InputEntries(job) && IsBase(levels, job.level, e.key.user)
    ensures Read(All(levels) - InputEntries(job), e.key.user, e.key.sequence).None?
  {
    InputsAreEntries(levels, job);
    forall x | x in All(levels) - InputEntries(job) ensures !Sees(x, e.key.user, e.key.sequence) {
      if Sees(x, e.key.user, e.key.sequence) {
        assert x.key.sequence < e.key.sequence by { assert Distinct(All(levels)) && e in All(levels); }
        OlderVersionIsInput(levels, job, e, x);
      }
    }
    ReadNone(All(levels) - InputEntries(job), e.key.user, e.key.sequence);
  }

  /** Compaction preserves meaning: at every snapshot from the smallest one on, each user key reads
      the same after the inputs have been replaced by their survivors. */
  lemma CompactionPreservesMeaning(levels: Levels, job: Job)
    requires Tree(levels) && TakesInputs(levels, job) && Closed(levels, job)
    ensures SameFrom(job.smallestSnapshot, All(levels), All(levels) - InputEntries(job) + Survivors(levels, job))
  {
    InputsAreEntries(levels, job);
    ClosedUnmasksNothing(levels, job);
    MeaningKeptExactlyWhen(levels, job);
  }

  /** The files of each level once the job has been installed. */
  ghost predicate Replaced(levels: Levels, job: Job, after: Levels)
    requires TakesInputs(levels, job)
  {
    && |after| == NUM_LEVELS
    && (forall l :: 0 <= l < NUM_LEVELS && l != job.level && l != job.level + 1 ==> after[l] == levels[l])
    && (forall f :: f in after[job.level] <==> f in levels[job.level] && f !in job.inputs0)
    && (forall f :: f in after[job.level + 1]
          <==> (f in levels[job.level + 1] && f !in job.inputs1) || f in job.outputs)
  }

  /** The output files are a sorted level drawn from the input entries. */
  ghost predicate DrawnFromInputs(job: Job) {
    && SortedLevel(job.outputs)
    && forall o, e :: o in job.outputs && e in o.entries ==> e in InputEntries(job)
  }

  /** An ordered list of well-formed, pairwise separated files is a sorted level. */
  lemma OrderedAndSeparated(files: seq<File>)
    requires Ordered(files) && forall f :: f in files ==> WellFormed(f)
    requires forall f, g :: f in files && g in files && f != g ==> Before(f, g) || Before(g, f)
    ensures SortedLevel(files)
  {
    forall i, j | 0 <= i < j < |files| ensures Before(files[i], files[j]) {
      var f, g := files[i], files[j];
      assert f in files && g in files;
      assert Less(f, g);
      assert g.entries[0] in g.entries;
      EntriesInRange(g);
    }
  }

  lemma SortedLevelSeparates(files: seq<File>, f: File, g: File)
    requires SortedLevel(files) && f in files && g in files && f != g
    ensures Before(f, g) || Before(g, f)
  {
  }

  /** A table drawn from the inputs lies on the same side of a file as they do. */
  lemma OutputStaysApart(levels: Levels, job: Job, g: File, o: File)
    requires TakesInputs(levels, job) && DrawnFromInputs(job) && (PrecedesInputs(g, job) || FollowsInputs(g, job))
    requires forall f :: f in job.inputs0 || f in job.inputs1 ==> WellFormed(f)
    requires WellFormed(g) && o in job.outputs
    ensures Before(g, o) || Before(o, g)
  {
    assert WellFormed(o);
    var first, last := o.entries[0], o.entries[|o.entries| - 1];
    assert first in o.entries && last in o.entries;
    var k, f := InputFile(levels, job, first);
    var m, h := InputFile(levels, job, last);
    EntriesInRange(f);
    EntriesInRange(h);
  }

  lemma ApartOutputs(levels: Levels, job: Job)
    requires Tree(levels) && TakesInputs(levels, job) && Apart(levels, job) && DrawnFromInputs(job)
    ensures OutputsApart(levels, job)
  {
    InputsAreWellFormed(levels, job);
    assert SortedLevel(levels[job.level + 1]);
    forall g, o | g in levels[job.level + 1] && g !in job.inputs1 && o in job.outputs
      ensures Before(g, o) || Before(o, g)
    {
      OutputStaysApart(levels, job, g, o);
    }
  }

  lemma OutputLevelIsSorted(levels: Levels, job: Job, after: Levels)
    requires Tree(levels) && TakesInputs(levels, job) && OutputsApart(levels, job) && DrawnFromInputs(job)
    requires Replaced(levels, job, after) && Ordered(after[job.level + 1])
    ensures SortedLevel(after[job.level + 1])
  {
    var files := after[job.level + 1];
    assert SortedLevel(levels[job.level + 1]);
    forall f | f in files ensures WellFormed(f) {
      assert f in job.outputs || f in levels[job.level + 1];
    }
    forall f, g | f in files && g in files && f != g ensures Before(f, g) || Before(g, f) {
      if f in job.outputs && g in job.outputs {
        SortedLevelSeparates(job.outputs, f, g);
      } else if f !in job.outputs && g !in job.outputs {
        SortedLevelSeparates(levels[job.level + 1], f, g);
      } else {
        assert if f in job.outputs then Beside(g, job.outputs) else Beside(f, job.outputs);
      }
    }
    OrderedAndSeparated(files);
  }

  lemma InputsAreWellFormed(levels: Levels, job: Job)
    requires Tree(levels) && TakesInputs(levels, job)
    ensures forall f :: f in job.inputs0 || f in job.inputs1 ==> WellFormed(f)
  {
    forall f | f in job.inputs0 || f in job.inputs1 ensures WellFormed(f) {
      var l := if f in job.inputs0 then job.level else job.level + 1;
      assert f in levels[l];
      assert l > 0 ==> SortedLevel(levels[l]);
    }
  }

  lemma InputLevelKeepsShape(levels: Levels, job: Job, after: Levels)
    requires Tree(levels) && TakesInputs(levels, job)
    requires Replaced(levels, job, after) && Ordered(after[job.level])
    ensures if job.level == 0 then LevelZero(after[0]) else SortedLevel(after[job.level])
  {
    var files := after[job.level];
    if job.level > 0 {
      assert SortedLevel(levels[job.level]);
      forall f, g | f in files && g in files && f != g ensures Before(f, g) || Before(g, f) {
        SortedLevelSeparates(levels[job.level], f, g);
      }
      OrderedAndSeparated(files);
    }
  }

  /** Nothing left behind in the compacted level is older than an output. */
  ghost predicate OutputsAreOlder(levels: Levels, job: Job)
    requires TakesInputs(levels, job)
  {
    forall f, o :: f in levels[job.level] && f !in job.inputs0 && o in job.outputs ==> Above(f.entries, o.entries)
  }

  lemma ClosedOutputsAreOlder(levels: Levels, job: Job)
    requires Tree(levels) && TakesInputs(levels, job) && Closed(levels, job) && DrawnFromInputs(job)
    ensures OutputsAreOlder(levels, job)
  {
    forall f, o, x, y | f in levels[job.level] && f !in job.inputs0 && o in job.outputs
                        && x in f.entries && y in o.entries && x.key.user == y.key.user
      ensures x.key.sequence > y.key.sequence
    {
      var k, h := InputFile(levels, job, y);
      assert Above(f.entries, h.entries);
    }
  }

  /** A file above every input is above every table drawn from the inputs, and dually below. */
  lemma AboveOutput(levels: Levels, job: Job, l: nat, f: File, o: File)
    requires Tree(levels) && TakesInputs(levels, job) && DrawnFromInputs(job)
    requires o in job.outputs && l < job.level && f in levels[l]
    ensures Above(f.entries, o.entries)
  {
    forall x, y | x in f.entries && y in o.entries && x.key.user == y.key.user
      ensures x.key.sequence > y.key.sequence
    {
      var k, h := InputFile(levels, job, y);
      assert Above(f.entries, h.entries);
    }
  }

  lemma BelowOutput(levels: Levels, job: Job, l: nat, f: File, o: File)
    requires Tree(levels) && TakesInputs(levels, job) && DrawnFromInputs(job)
    requires o in job.outputs && job.level + 1 < l < NUM_LEVELS && f in levels[l]
    ensures Above(o.entries, f.entries)
  {
    forall x, y | x in o.entries && y in f.entries && x.key.user == y.key.user
      ensures x.key.sequence > y.key.sequence
    {
      var k, h := InputFile(levels, job, x);
      assert Above(h.entries, f.entries);
    }
  }

  lemma ReplacedAbove(levels: Levels, job: Job, after: Levels, l: nat, m: nat, f: File, g: File)
    requires Tree(levels) && TakesInputs(levels, job) && OutputsAreOlder(levels, job) && DrawnFromInputs(job)
    requires Replaced(levels, job, after) && l < m < NUM_LEVELS && f in after[l] && g in after[m]
    ensures Above(f.entries, g.entries)
  {
    if m == job.level + 1 && g in job.outputs {
      if l < job.level { AboveOutput(levels, job, l, f, g); }
    } else if l == job.level + 1 && f in job.outputs {
      BelowOutput(levels, job, m, g, f);
    } else {
      assert f in levels[l] && g in levels[m];
    }
  }

  lemma ReplacedContents(levels: Levels, job: Job, after: Levels)
    requires TakesInputs(levels, job) && DrawnFromInputs(job) && Replaced(levels, job, after)
    ensures All(after) <= All(levels)
  {
    InputsAreEntries(levels, job);
    forall e | e in All(after) ensures e in All(levels) {
      var l, f := AllIn(after, e);
      if f in levels[l] { InAll(levels, l, f, e); }
    }
  }

  /** An entry is stored in one file only. */
  lemma OneHome(levels: Levels, l: nat, f: File, m: nat, g: File, e: Entry)
    requires Tree(levels) && l <= m < NUM_LEVELS && f in levels[l] && g in levels[m]
    requires e in f.entries && e in g.entries
    ensures l == m && f == g
  {
    assert !Above(f.entries, g.entries) && !Above(g.entries, f.entries);
    if l == m && f != g && l > 0 {
      assert SortedLevel(levels[l]);
      SortedLevelSeparates(levels[l], f, g);
      assert WellFormed(f) && WellFormed(g);
      EntriesInRange(f);
      EntriesInRange(g);
    }
  }

  /** A file that is not an input shares no entry with the inputs. */
  lemma NotAnInput(levels: Levels, job: Job, l: nat, f: File, e: Entry)
    requires Tree(levels) && TakesInputs(levels, job)
    requires l < NUM_LEVELS && f in levels[l] && e in f.entries
    requires !(l == job.level && f in job.inputs0) && !(l == job.level + 1 && f in job.inputs1)
    ensures e !in InputEntries(job)
  {
    if e in InputEntries(job) {
      var k, h := InputFile(levels, job, e);
      if l <= k { OneHome(levels, l, f, k, h, e); } else { OneHome(levels, k, h, l, f, e); }
    }
  }

  /** Installing a job keeps the invariant of the version if and only if nothing left behind in the
      compacted level is older than an output, and nothing left behind in the output level lies across one. */
  lemma ReplacingKeepsTree(levels: Levels, job: Job, after: Levels)
    requires Tree(levels) && TakesInputs(levels, job)
    requires DrawnFromInputs(job) && Replaced(levels, job, after)
    requires Ordered(after[job.level]) && Ordered(after[job.level + 1])
    ensures Tree(after) <==> OutputsAreOlder(levels, job) && OutputsApart(levels, job)
  {
    if OutputsAreOlder(levels, job) && OutputsApart(levels, job) {
      InputLevelKeepsShape(levels, job, after);
      OutputLevelIsSorted(levels, job, after);
      ReplacedContents(levels, job, after);
      forall l, m, f, g | 0 <= l < m < NUM_LEVELS && f in after[l] && g in after[m]
        ensures Above(f.entries, g.entries)
      {
        ReplacedAbove(levels, job, after, l, m, f, g);
      }
    } else if Tree(after) {
      TreeSeparatesOutputs(levels, job, after);
    }
  }

  lemma TreeSeparatesOutputs(levels: Levels, job: Job, after: Levels)
    requires Tree(levels) && TakesInputs(levels, job) && DrawnFromInputs(job) && Replaced(levels, job, after)
          && Tree(after)
    ensures OutputsAreOlder(levels, job) && OutputsApart(levels, job)
  {
    forall f, o | f in levels[job.level] && f !in job.inputs0 && o in job.outputs ensures Above(f.entries, o.entries) {
      assert f in after[job.level] && o in after[job.level + 1];
    }
    assert SortedLevel(after[job.level + 1]) && SortedLevel(levels[job.level + 1]);
    forall g, o | g in levels[job.level + 1] && g !in job.inputs1 && o in job.outputs
      ensures Before(g, o) || Before(o, g)
    {
      assert WellFormed(g) && g.entries[0] in g.entries;
      NotAnInput(levels, job, job.level + 1, g, g.entries[0]);
      SortedLevelSeparates(after[job.level + 1], g, o);
    }
  }

  lemma NothingElseAppears(levels: Levels, job: Job, after: Levels, e: Entry)
    requires Tree(levels) && TakesInputs(levels, job) && Replaced(levels, job, after)
    requires e in All(after)
    ensures e in All(levels) - InputEntries(job) || e in EntriesOf(job.outputs)
  {
    var l, f := AllIn(after, e);
    if !(l == job.level + 1 && f in job.outputs) {
      assert f in levels[l];
      InAll(levels, l, f, e);
      NotAnInput(levels, job, l, f, e);
    }
  }

  lemma NothingElseVanishes(levels: Levels, job: Job, after: Levels, e: Entry)
    requires TakesInputs(levels, job) && Replaced(levels, job, after)
    requires e in All(levels) - InputEntries(job) || e in EntriesOf(job.outputs)
    ensures e in All(after)
  {
    if e in EntriesOf(job.outputs) {
      var o :| o in job.outputs && e in o.entries;
      InAll(after, job.level + 1, o, e);
    } else {
      var l, f := AllIn(levels, e);
      assert f in job.inputs0 ==> e in EntriesOf(job.inputs0);
      assert f in job.inputs1 ==> e in EntriesOf(job.inputs1);
      assert f in after[l];
      InAll(after, l, f, e);
    }
  }

  /** Installing a job exchanges the input entries for the output entries and touches nothing else. */
  lemma ContentsAfter(levels: Levels, job: Job, after: Levels)
    requires Tree(levels) && TakesInputs(levels, job) && Replaced(levels, job, after)
    ensures All(after) == All(levels) - InputEntries(job) + EntriesOf(job.outputs)
  {
    forall e ensures e in All(after) <==> e in All(levels) - InputEntries(job) + EntriesOf(job.outputs) {
      if e in All(after) {
        NothingElseAppears(levels, job, after, e);
      } else if e in All(levels) - InputEntries(job) + EntriesOf(job.outputs) {
        NothingElseVanishes(levels, job, after, e);
      }
    }
  }

  lemma {:induction false} FlattenContents(files: seq<File>)
    ensures forall e :: e in Flatten(files) <==> e in EntriesOf(files)
  {
    if files != [] {
      var init, last := files[..|files| - 1], files[|files| - 1];
      FlattenContents(init);
      assert files == init + [last];
      assert forall e :: e in EntriesOf(files) <==> e in EntriesOf(init) || e in last.entries;
    }
  }

  /** Cutting a sorted run anywhere gives a sorted level. */
  lemma {:induction false} FlattenSorted(files: seq<File>)
    requires Sorted(Flatten(files)) && forall f :: f in files ==> f.NonEmpty()
    ensures SortedLevel(files)
  {
    if files != [] {
      var init, last := files[..|files| - 1], files[|files| - 1];
      var run, before := Flatten(files), Flatten(init);
      assert before == run[..|before|] && last.entries == run[|before|..];
      assert forall i :: 0 <= i < |before| ==> before[i] == run[i];
      assert forall i :: 0 <= i < |last.entries| ==> last.entries[i] == run[|before| + i];
      FlattenSorted(init);
      FlattenContents(init);
      assert last in files;
      forall i | 0 <= i < |init| ensures Before(init[i], last) {
        assert init[i] in init && WellFormed(init[i]);
        var x := init[i].entries[|init[i].entries| - 1];
        assert x in init[i].entries && x in EntriesOf(init);
        var j :| 0 <= j < |before| && before[j] == x;
        assert Precedes(run[j].key, run[|before|].key);
      }
      forall i | 0 <= i < |files| ensures WellFormed(files[i]) {
        assert i < |init| ==> files[i] == init[i];
      }
      forall i, j | 0 <= i < j < |files| ensures Before(files[i], files[j]) {
        assert files[i] == init[i];
        assert j < |init| ==> files[j] == init[j];
      }
    }
  }

  /** A finished compaction only writes entries it has read, in order. */
  lemma CompactedOutputs(levels: Levels, job: Job)
    requires Tree(levels) && TakesInputs(levels, job) && Compacts(levels, job)
    ensures DrawnFromInputs(job) && EntriesOf(job.outputs) == Survivors(levels, job)
  {
    OutputsAreSurvivors(levels, job);
    FlattenContents(job.outputs);
    FlattenSorted(job.outputs);
    forall o, e | o in job.outputs && e in o.entries ensures e in InputEntries(job) {
      assert e in EntriesOf(job.outputs);
    }
  }

  /** Installing a finished compaction keeps the tree and every read at a snapshot from the smallest one
      on if and only if nothing left behind is older than an output or lies across one, and no dropped
      tombstone was hiding a value left behind. */
  lemma InvisibleExactlyWhen(levels: Levels, job: Job, after: Levels)
    requires Tree(levels) && TakesInputs(levels, job) && Compacts(levels, job) && Replaced(levels, job, after)
    requires Ordered(after[job.level]) && Ordered(after[job.level + 1])
    ensures Tree(after) <==> OutputsAreOlder(levels, job) && OutputsApart(levels, job)
    ensures SameFrom(job.smallestSnapshot, All(levels), All(after)) <==> UnmasksNothing(levels, job)
    ensures All(after) <= All(levels)
  {
    CompactedOutputs(levels, job);
    ReplacingKeepsTree(levels, job, after);
    ReplacedContents(levels, job, after);
    ContentsAfter(levels, job, after);
    InputsAreEntries(levels, job);
    MeaningKeptExactlyWhen(levels, job);
  }

  /** Compaction is invisible when its inputs are closed: the tree is kept and every read at a snapshot
      from the smallest one on gives what it gave before. */
  lemma CompactionIsInvisible(levels: Levels, job: Job, after: Levels)
    requires Tree(levels) && TakesInputs(levels, job) && Closed(levels, job) && OutputsApart(levels, job)
    requires Compacts(levels, job) && Replaced(levels, job, after)
    requires Ordered(after[job.level]) && Ordered(after[job.level + 1])
    ensures Tree(after) && All(after) <= All(levels)
    ensures SameFrom(job.smallestSnapshot, All(levels), All(after))
  {
    CompactedOutputs(levels, job);
    ClosedOutputsAreOlder(levels, job);
    ClosedUnmasksNothing(levels, job);
    InvisibleExactlyWhen(levels, job, after);
  }
}
