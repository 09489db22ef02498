/** A memtable flushed while a compaction runs (db/db_impl.cc, DoCompactionWork calls CompactMemTable). */
module Flushing {
  import opened Wrappers
  import opened InternalKeys
  import opened MultiVersion
  import opened Version
  import opened Builder
  import opened Compaction
  import opened CompactionCorrect
  import opened Picking
  import opened PickingCorrect
  import opened MemTableOutput
  import opened Engine

  /** A table that may land below a compaction's levels holds none of its user keys. */
  lemma LandedTableIsForeign(levels: Levels, job: Job, level: nat, f: File, e: Entry)
    requires Tree(levels) && TakesInputs(levels, job) && e in InputEntries(job)
    requires job.level + 2 <= level < NUM_LEVELS && f.NonEmpty()
    requires MayLandAt(levels, level, f.Smallest().user, f.Largest().user)
    ensures !Covers(f, e.key.user)
  {
    var k, h := InputFile(levels, job, e);
    TreeIsRanged(levels, k);
    MissedFileIsForeign(levels[k], f, h, e);
  }

  lemma MissedFileIsForeign(files: seq<File>, f: File, h: File, e: Entry)
    requires f.NonEmpty() && h in files && WellFormed(h) && e in h.entries
    requires Misses(files, f.Smallest().user, f.Largest().user)
    ensures !Covers(f, e.key.user)
  {
    EntriesInRange(h);
  }

  lemma BaseSurvivesFlush(levels: Levels, jobLevel: nat, level: nat, f: File, after: Levels, user: UserKey)
    requires WithTable(levels, level, f, after) && (level >= jobLevel + 2 ==> !Covers(f, user))
    ensures IsBase(after, jobLevel, user) <==> IsBase(levels, jobLevel, user)
  {
    if l, g :| jobLevel + 2 <= l < |levels| && g in levels[l] && Covers(g, user) {
      assert g in after[l];
    }
  }

  lemma {:induction false} KeptSurvivesFlush(levels: Levels, job: Job, after: Levels, input: seq<Entry>, n: nat)
    requires n <= |input|
    requires forall e :: e in input ==>
               (IsBase(after, job.level, e.key.user) <==> IsBase(levels, job.level, e.key.user))
    ensures Kept(input, n, job.smallestSnapshot, after, job.level)
         == Kept(input, n, job.smallestSnapshot, levels, job.level)
  {
    if n > 0 {
      KeptSurvivesFlush(levels, job, after, input, n - 1);
      assert input[n - 1] in input;
    }
  }

  lemma InputsSurviveFlush(levels: Levels, job: Job, level: nat, f: File, after: Levels)
    requires TakesInputs(levels, job) && WithTable(levels, level, f, after)
    ensures TakesInputs(after, job)
  {
  }

  /** A flush leaves the base levels of the input keys as they are. */
  lemma BasesSurviveFlush(levels: Levels, job: Job, level: nat, f: File, after: Levels)
    requires f.NonEmpty() && WithTable(levels, level, f, after)
    requires level > 0 ==> MayLandAt(levels, level, f.Smallest().user, f.Largest().user)
    requires Tree(levels) && TakesInputs(levels, job)
    ensures SameBases(levels, job, after)
  {
    forall e | e in InputEntries(job)
      ensures IsBase(after, job.level, e.key.user) <==> IsBase(levels, job.level, e.key.user)
    {
      if level >= job.level + 2 { LandedTableIsForeign(levels, job, level, f, e); }
      BaseSurvivesFlush(levels, job.level, level, f, after, e.key.user);
    }
  }

  ghost predicate SameBases(levels: Levels, job: Job, after: Levels) {
    forall e :: e in InputEntries(job) ==>
      (IsBase(after, job.level, e.key.user) <==> IsBase(levels, job.level, e.key.user))
  }

  lemma CompactsSurvivesFlush(levels: Levels, job: Job, after: Levels)
    requires TakesInputs(levels, job) && Compacts(levels, job) && TakesInputs(after, job)
    requires SameBases(levels, job, after)
    ensures Compacts(after, job)
  {
    var input: seq<Entry> :| IsMerge(input, job)
      && Flatten(job.outputs) == Kept(input, |input|, job.smallestSnapshot, levels, job.level);
    KeptSurvivesFlush(levels, job, after, input, |input|);
  }

  /** A flushed entry is newer than every older entry of its user key. */
  lemma NewerThanLevels(levels: Levels, f: File, x: Entry, y: Entry)
    requires forall l, g :: 0 <= l < |levels| && g in levels[l] ==> Above(f.entries, g.entries)
    requires x in f.entries && y in All(levels) && x.key.user == y.key.user
    ensures x.key.sequence > y.key.sequence
  {
    var l, g := AllIn(levels, y);
    assert Above(f.entries, g.entries);
  }

  /** Newer entries do not show to a reader of an older one. */
  lemma ReadIgnoresNewer(S: set<Entry>, T: set<Entry>, u: UserKey, s: nat)
    requires S <= T && Distinct(T) && forall x :: x in T && Sees(x, u, s) ==> x in S
    ensures Read(T, u, s) == Read(S, u, s)
  {
    ReadNone(S, u, s);
    ReadNone(T, u, s);
    if Read(S, u, s).Some? { ReadSome(T, u, s, Read(S, u, s).value); }
  }

  lemma UnmaskedBefore(levels: Levels, job: Job, f: File, after: Levels, e: Entry)
    requires TakesInputs(levels, job) && All(after) == All(levels) + Contents(f.entries) && Distinct(All(after))
    requires forall l, g :: 0 <= l < |levels| && g in levels[l] ==> Above(f.entries, g.entries)
    requires SameBases(levels, job, after) && Unmasks(after, job, e)
    ensures Unmasks(levels, job, e)
  {
    InputsAreEntries(levels, job);
    var rest := All(levels) - InputEntries(job);
    forall x | x in All(after) - InputEntries(job) && Sees(x, e.key.user, e.key.sequence) ensures x in rest {
      if x in f.entries { NewerThanLevels(levels, f, x, e); }
    }
    ReadIgnoresNewer(rest, All(after) - InputEntries(job), e.key.user, e.key.sequence);
  }

  lemma NothingUnmaskedByFlush(levels: Levels, job: Job, f: File, after: Levels)
    requires TakesInputs(levels, job) && All(after) == All(levels) + Contents(f.entries) && Distinct(All(after))
    requires forall l, g :: 0 <= l < |levels| && g in levels[l] ==> Above(f.entries, g.entries)
    requires SameBases(levels, job, after) && UnmasksNothing(levels, job)
    ensures UnmasksNothing(after, job)
  {
    forall e ensures !Unmasks(after, job, e) {
      if Unmasks(after, job, e) { UnmaskedBefore(levels, job, f, after, e); }
    }
  }

  lemma OrderSurvivesFlush(levels: Levels, job: Job, level: nat, f: File, after: Levels)
    requires TakesInputs(levels, job) && OutputsAreOlder(levels, job) && DrawnFromInputs(job)
    requires WithTable(levels, level, f, after)
    requires forall l, g :: 0 <= l < |levels| && g in levels[l] ==> Above(f.entries, g.entries)
    ensures OutputsAreOlder(after, job)
  {
    forall o | o in job.outputs ensures Above(f.entries, o.entries) {
      forall x, y | x in f.entries && y in o.entries && x.key.user == y.key.user
        ensures x.key.sequence > y.key.sequence
      {
        var k, h := InputFile(levels, job, y);
        assert Above(f.entries, h.entries);
      }
    }
  }

  lemma ApartSurvivesFlush(levels: Levels, job: Job, level: nat, f: File, after: Levels)
    requires TakesInputs(levels, job) && TakesInputs(after, job) && WithTable(levels, level, f, after)
    requires OutputsApart(levels, job) && (level == job.level + 1 ==> Beside(f, job.outputs))
    ensures OutputsApart(after, job)
  {
  }

  /** A compaction in progress stays installable when the memtable is flushed meanwhile, if the table does
      not land in the output level across an output. */
  lemma JobSurvivesFlush(levels: Levels, job: Job, level: nat, f: File, after: Levels)
    requires Tree(levels) && JobReady(levels, job) && WellFormed(f) && WithTable(levels, level, f, after)
    requires level > 0 ==> MayLandAt(levels, level, f.Smallest().user, f.Largest().user)
    requires level == job.level + 1 ==> Beside(f, job.outputs)
    requires forall l, g :: 0 <= l < |levels| && g in levels[l] ==> Above(f.entries, g.entries)
    requires Distinct(All(after))
    ensures JobReady(after, job)
  {
    CompactedOutputs(levels, job);
    AddedContents(levels, level, f, after);
    InputsSurviveFlush(levels, job, level, f, after);
    BasesSurviveFlush(levels, job, level, f, after);
    CompactsSurvivesFlush(levels, job, after);
    OrderSurvivesFlush(levels, job, level, f, after);
    NothingUnmaskedByFlush(levels, job, f, after);
    ApartSurvivesFlush(levels, job, level, f, after);
  }

  lemma TableIsRanged(f: File)
    requires WellFormed(f)
    ensures f.NonEmpty() && f.Smallest().user <= f.Largest().user
  {
    EntriesInRange(f);
    assert f.entries[0] in f.entries;
  }

  /** The files lie to one side of the user keys of `f`: each of them below or each of them above. */
  ghost predicate OneSided(files: seq<File>, f: File) {
    f.NonEmpty() && (EndBefore(files, f.Smallest().user) || StartAfter(files, f.Largest().user))
  }

  /** Gap-free files that miss a range lie to one side of it. */
  lemma GapFreeIsOneSided(files: seq<File>, f: File)
    requires GapFree(files) && Ranged(files) && f.NonEmpty() && f.Smallest().user <= f.Largest().user
    requires Misses(files, f.Smallest().user, f.Largest().user)
    ensures OneSided(files, f)
  {
    forall g | g in files ensures !Covers(g, f.Smallest().user) {
      assert !Meets(g, Some(f.Smallest().user), Some(f.Largest().user));
    }
    assert !Within(files, f.Smallest().user);
    assert EndBefore(files, f.Smallest().user) || StartAfter(files, f.Largest().user);
  }

  /** A table that no input meets lies to one side of gap-free inputs. */
  lemma LandsToOneSide(levels: Levels, job: Job, f: File)
    requires Tree(levels) && TakesInputs(levels, job) && WellFormed(f)
    requires GapFree(job.inputs0 + job.inputs1)
    requires MayLandAt(levels, job.level + 1, f.Smallest().user, f.Largest().user)
    ensures PrecedesInputs(f, job) || FollowsInputs(f, job)
  {
    TreeIsRanged(levels, job.level);
    TreeIsRanged(levels, job.level + 1);
    TableIsRanged(f);
    assert Misses(levels[job.level], f.Smallest().user, f.Largest().user);
    assert Misses(levels[job.level + 1], f.Smallest().user, f.Largest().user);
    GapFreeIsOneSided(job.inputs0 + job.inputs1, f);
    OneSidedOrders(job, f);
  }

  lemma OneSidedOrders(job: Job, f: File)
    requires OneSided(job.inputs0 + job.inputs1, f) && Ranged(job.inputs0 + job.inputs1)
    ensures PrecedesInputs(f, job) || FollowsInputs(f, job)
  {
    forall g | g in job.inputs0 || g in job.inputs1 ensures g in job.inputs0 + job.inputs1 {}
  }

  /** Beside gap-free inputs means beside their outputs. */
  lemma LandsBeside(levels: Levels, job: Job, f: File)
    requires Tree(levels) && JobReady(levels, job) && WellFormed(f) && GapFree(job.inputs0 + job.inputs1)
    requires MayLandAt(levels, job.level + 1, f.Smallest().user, f.Largest().user)
    ensures Beside(f, job.outputs)
  {
    CompactedOutputs(levels, job);
    InputsAreWellFormed(levels, job);
    LandsToOneSide(levels, job, f);
    forall o | o in job.outputs ensures Before(f, o) || Before(o, f) {
      OutputStaysApart(levels, job, f, o);
    }
  }

  lemma NewerIsAnother(f: File, g: File)
    requires f.NonEmpty() && Above(f.entries, g.entries)
    ensures f != g
  {
    assert f.entries[0] in f.entries;
  }

  lemma FlushedApartExactlyWhen(levels: Levels, job: Job, f: File, flushed: Levels)
    requires TakesInputs(levels, job) && OutputsApart(levels, job) && f.NonEmpty()
    requires WithTable(levels, job.level + 1, f, flushed)
    requires forall l, g :: 0 <= l < |levels| && g in levels[l] ==> Above(f.entries, g.entries)
    ensures TakesInputs(flushed, job)
    ensures OutputsApart(flushed, job) <==> Beside(f, job.outputs)
  {
    forall g | g in job.inputs1 ensures g != f {
      NewerIsAnother(f, g);
    }
  }

  lemma FlushedReplacedExactlyWhen(levels: Levels, job: Job, f: File, flushed: Levels, after: Levels)
    requires TakesInputs(levels, job) && OutputsAreOlder(levels, job) && OutputsApart(levels, job)
          && DrawnFromInputs(job)
    requires f.NonEmpty() && WithTable(levels, job.level + 1, f, flushed) && Tree(flushed)
    requires forall l, g :: 0 <= l < |levels| && g in levels[l] ==> Above(f.entries, g.entries)
    requires TakesInputs(flushed, job)
    requires Replaced(flushed, job, after) && Ordered(after[job.level]) && Ordered(after[job.level + 1])
    ensures Tree(after) <==> Beside(f, job.outputs)
  {
    OrderSurvivesFlush(levels, job, job.level + 1, f, flushed);
    FlushedApartExactlyWhen(levels, job, f, flushed);
    ReplacingKeepsTree(flushed, job, after);
  }

  /** When a memtable has been flushed into the output level of a running compaction, installing the
      compaction keeps the tree if and only if the new table lies to one side of every output. */
  lemma FlushedJobKeepsTreeExactlyWhen(levels: Levels, job: Job, f: File, flushed: Levels, after: Levels)
    requires Tree(levels) && JobReady(levels, job) && WellFormed(f)
    requires WithTable(levels, job.level + 1, f, flushed) && Ordered(flushed[job.level + 1])
    requires MayLandAt(levels, job.level + 1, f.Smallest().user, f.Largest().user)
    requires forall l, g :: 0 <= l < |levels| && g in levels[l] ==> Above(f.entries, g.entries)
    requires Distinct(All(levels) + Contents(f.entries)) && TakesInputs(flushed, job)
    requires Replaced(flushed, job, after) && Ordered(after[job.level]) && Ordered(after[job.level + 1])
    ensures Tree(after) <==> Beside(f, job.outputs)
  {
    AddingTableKeepsTree(levels, job.level + 1, f, flushed);
    CompactedOutputs(levels, job);
    FlushedReplacedExactlyWhen(levels, job, f, flushed, after);
  }
}
