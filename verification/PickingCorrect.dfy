/** What picking does and does not guarantee to a compaction. */
module PickingCorrect {
  import opened Wrappers
  import opened InternalKeys
  import opened MultiVersion
  import opened Version
  import opened Builder
  import opened CompactionCorrect
  import opened Picking

  lemma TreeIsRanged(levels: Levels, l: nat)
    requires Tree(levels) && l < NUM_LEVELS
    ensures Ranged(levels[l]) && forall f :: f in levels[l] ==> WellFormed(f)
  {
    assert l > 0 ==> SortedLevel(levels[l]);
    forall f | f in levels[l] ensures f.NonEmpty() && f.Smallest().user <= f.Largest().user {
      EntriesInRange(f);
      assert f.entries[0] in f.entries;
    }
  }

  /** The file comes before all the others, or after all of them. */
  ghost predicate OnSide(files: seq<File>, g: File, before: bool) {
    forall f :: f in files ==> if before then Before(g, f) else Before(f, g)
  }

  lemma SideOfRange(files: seq<File>, g: File, lo: UserKey, hi: UserKey)
    requires IsRange(files, lo, hi) && g.NonEmpty() && !Meets(g, Some(lo), Some(hi))
    ensures OnSide(files, g, g.Largest().user < lo)
  {
  }

  lemma SideOfSiblings(files: seq<File>, chosen: seq<File>, g: File, lo: UserKey, hi: UserKey)
    requires SortedLevel(files) && lo <= hi
    requires forall f :: f in chosen ==> f in files && f.NonEmpty() && Meets(f, Some(lo), Some(hi))
    requires g in files && g.NonEmpty() && !Meets(g, Some(lo), Some(hi))
    ensures OnSide(chosen, g, g.Largest().user < lo)
  {
    forall f | f in chosen ensures if g.Largest().user < lo then Before(g, f) else Before(f, g) {
      SideOfSibling(files, f, g, lo, hi);
    }
  }

  lemma SideOfInputs(job: Job, g: File, before: bool)
    requires OnSide(job.inputs0, g, before) && OnSide(job.inputs1, g, before)
    ensures PrecedesInputs(g, job) || FollowsInputs(g, job)
  {
    assert if before then PrecedesInputs(g, job) else FollowsInputs(g, job);
  }

  /** A file of the next level that misses the range of the inputs lies to one side of all inputs. */
  lemma MissingFileIsApart(files: seq<File>, job: Job, g: File, lo: UserKey, hi: UserKey)
    requires SortedLevel(files) && IsRange(job.inputs0, lo, hi) && lo <= hi
    requires forall f :: f in job.inputs1 ==> f in files && f.NonEmpty() && Meets(f, Some(lo), Some(hi))
    requires g in files && g.NonEmpty() && !Meets(g, Some(lo), Some(hi))
    ensures PrecedesInputs(g, job) || FollowsInputs(g, job)
  {
    SideOfSiblings(files, job.inputs1, g, lo, hi);
    SideOfRange(job.inputs0, g, lo, hi);
    SideOfInputs(job, g, g.Largest().user < lo);
  }

  lemma SideOfSibling(files: seq<File>, f: File, g: File, lo: UserKey, hi: UserKey)
    requires SortedLevel(files) && f in files && g in files && f.NonEmpty() && g.NonEmpty()
    requires Meets(f, Some(lo), Some(hi)) && !Meets(g, Some(lo), Some(hi)) && lo <= hi
    ensures if g.Largest().user < lo then Before(g, f) else Before(f, g)
  {
    SortedLevelSeparates(files, f, g);
    assert WellFormed(f) && WellFormed(g);
    EntriesInRange(f);
    EntriesInRange(g);
    assert f.entries[0] in f.entries && g.entries[0] in g.entries;
  }

  lemma RangeIsOrdered(levels: Levels, l: nat, files: seq<File>, lo: UserKey, hi: UserKey)
    requires Tree(levels) && l < NUM_LEVELS && IsRange(files, lo, hi)
    requires forall f :: f in files ==> f in levels[l]
    ensures lo <= hi
  {
    TreeIsRanged(levels, l);
  }

  /** The range of the inputs, which the output level's inputs meet and its other files miss. */
  lemma PickedRange(levels: Levels, job: Job) returns (lo: UserKey, hi: UserKey)
    requires TakesInputs(levels, job) && Picked(levels, job.level, job.inputs0, job.inputs1)
    ensures IsRange(job.inputs0, lo, hi)
    ensures forall f :: f in job.inputs1 ==> f.NonEmpty() && Meets(f, Some(lo), Some(hi))
    ensures forall g :: g in levels[job.level + 1] && g !in job.inputs1 ==>
              g.NonEmpty() && !Meets(g, Some(lo), Some(hi))
  {
    lo, hi :| IsRange(job.inputs0, lo, hi)
      && job.inputs1 == Meeting(levels[job.level + 1], Some(lo), Some(hi));
  }

  lemma RangeIsApart(levels: Levels, job: Job, lo: UserKey, hi: UserKey)
    requires Tree(levels) && TakesInputs(levels, job) && IsRange(job.inputs0, lo, hi)
    requires forall f :: f in job.inputs1 ==> f.NonEmpty() && Meets(f, Some(lo), Some(hi))
    requires forall g :: g in levels[job.level + 1] && g !in job.inputs1 ==>
               g.NonEmpty() && !Meets(g, Some(lo), Some(hi))
    ensures Apart(levels, job)
  {
    RangeIsOrdered(levels, job.level, job.inputs0, lo, hi);
    forall g | g in levels[job.level + 1] && g !in job.inputs1
      ensures PrecedesInputs(g, job) || FollowsInputs(g, job)
    {
      MissingFileIsApart(levels[job.level + 1], job, g, lo, hi);
    }
  }

  /** Whatever is picked, the rest of the output level lies to one side of it. */
  lemma PickedIsApart(levels: Levels, job: Job)
    requires Tree(levels) && TakesInputs(levels, job) && Picked(levels, job.level, job.inputs0, job.inputs1)
    ensures Apart(levels, job)
  {
    var lo, hi := PickedRange(levels, job);
    RangeIsApart(levels, job, lo, hi);
  }

  /** The file `g` continues the last user key of `f`. */
  ghost predicate Continues(f: File, g: File) {
    Before(f, g) && f.Largest().user == g.Smallest().user
  }

  /** No chosen file is continued by a file that was not chosen. */
  ghost predicate BoundaryClosed(files: seq<File>, chosen: seq<File>) {
    forall f, g :: f in chosen && g in files && g !in chosen ==> !Continues(f, g)
  }

  lemma SeparatedShare(f: File, g: File)
    requires WellFormed(f) && WellFormed(g) && (Before(f, g) || Before(g, f))
    requires Distinct((set e | e in f.entries) + (set e | e in g.entries))
    ensures Above(g.entries, f.entries) <==> !Continues(f, g)
  {
    EntriesInRange(f);
    EntriesInRange(g);
    var last, first := f.entries[|f.entries| - 1], g.entries[0];
    assert last in f.entries && first in g.entries;
    if Continues(f, g) {
      assert first.key.sequence <= last.key.sequence;
      assert !Above(g.entries, f.entries);
    } else {
      forall x, y | x in g.entries && y in f.entries && x.key.user == y.key.user
        ensures x.key.sequence > y.key.sequence
      {
        assert Before(g, f);
      }
    }
  }

  lemma DistinctPair(levels: Levels, l: nat, f: File, g: File)
    requires |levels| == NUM_LEVELS && l < NUM_LEVELS && Distinct(All(levels)) && f in levels[l] && g in levels[l]
    ensures Distinct((set e | e in f.entries) + (set e | e in g.entries))
  {
    forall e | e in f.entries || e in g.entries ensures e in All(levels) {
      InAll(levels, l, if e in f.entries then f else g, e);
    }
  }

  /** Below level 0, a left-behind file keeps the order exactly when it does not continue an input. */
  lemma ClosedSiblings(levels: Levels, l: nat, chosen: seq<File>)
    requires Tree(levels) && 0 < l < NUM_LEVELS && forall f :: f in chosen ==> f in levels[l]
    ensures LeavesNothingOlder(levels[l], chosen, chosen) <==> BoundaryClosed(levels[l], chosen)
  {
    assert SortedLevel(levels[l]);
    forall f, g | f in chosen && g in levels[l] && g !in chosen
      ensures Above(g.entries, f.entries) <==> !Continues(f, g)
    {
      SortedLevelSeparates(levels[l], f, g);
      DistinctPair(levels, l, f, g);
      SeparatedShare(f, g);
    }
  }

  lemma NoOverlapNoShare(f: File, g: File)
    requires WellFormed(f) && WellFormed(g) && !Overlap(f, g)
    ensures Above(g.entries, f.entries)
  {
    EntriesInRange(f);
    EntriesInRange(g);
  }

  /** Files of level 0 that do not overlap the chosen ones share no user key with them. */
  lemma LevelZeroIsClosed(levels: Levels, chosen: seq<File>)
    requires Tree(levels) && TakesOverlaps(levels[0], chosen) && forall f :: f in chosen ==> f in levels[0]
    ensures LeavesNothingOlder(levels[0], chosen, chosen)
  {
    TreeIsRanged(levels, 0);
    forall f, g | f in chosen && g in levels[0] && g !in chosen ensures Above(g.entries, f.entries) {
      NoOverlapNoShare(f, g);
    }
  }

  lemma NextLevelIsClosed(levels: Levels, job: Job)
    requires TakesInputs(levels, job) && Picked(levels, job.level, job.inputs0, job.inputs1)
    requires forall f :: f in levels[job.level] || f in levels[job.level + 1] ==> WellFormed(f)
    ensures LeavesNothingOlder(levels[job.level + 1], job.inputs1, job.inputs0)
  {
    forall f, g | f in job.inputs0 && g in levels[job.level + 1] && g !in job.inputs1
      ensures Above(g.entries, f.entries)
    {
      InputsMissLeftBehind(levels, job, f, g);
      NoOverlapNoShare(f, g);
    }
  }

  /** Range picking is user-key closed if and only if no input file of a sorted level is continued by a
      file left behind in that level.  (Level 0 is always closed: overlapping files are taken along.) */
  lemma PickedClosedExactlyWhen(levels: Levels, job: Job)
    requires Tree(levels) && TakesInputs(levels, job) && Picked(levels, job.level, job.inputs0, job.inputs1)
    ensures Closed(levels, job) <==>
            && (job.level > 0 ==> BoundaryClosed(levels[job.level], job.inputs0))
            && BoundaryClosed(levels[job.level + 1], job.inputs1)
  {
    PickedLeavesNothingOlder(levels, job);
    PickedClosedByLevels(levels, job);
  }

  lemma PickedLeavesNothingOlder(levels: Levels, job: Job)
    requires Tree(levels) && TakesInputs(levels, job) && Picked(levels, job.level, job.inputs0, job.inputs1)
    ensures LeavesNothingOlder(levels[job.level + 1], job.inputs1, job.inputs0)
  {
    TreeIsRanged(levels, job.level);
    TreeIsRanged(levels, job.level + 1);
    NextLevelIsClosed(levels, job);
  }

  lemma PickedClosedByLevels(levels: Levels, job: Job)
    requires Tree(levels) && TakesInputs(levels, job) && (job.level == 0 ==> TakesOverlaps(levels[0], job.inputs0))
    requires LeavesNothingOlder(levels[job.level + 1], job.inputs1, job.inputs0)
    ensures Closed(levels, job) <==>
            && (job.level > 0 ==> BoundaryClosed(levels[job.level], job.inputs0))
            && BoundaryClosed(levels[job.level + 1], job.inputs1)
  {
    InputLevelIsClosedExactlyWhen(levels, job);
    ClosedSiblings(levels, job.level + 1, job.inputs1);
    ClosedByParts(levels, job);
  }

  lemma ClosedByParts(levels: Levels, job: Job)
    requires TakesInputs(levels, job) && LeavesNothingOlder(levels[job.level + 1], job.inputs1, job.inputs0)
    requires LeavesNothingOlder(levels[job.level], job.inputs0, job.inputs0)
        <==> (job.level > 0 ==> BoundaryClosed(levels[job.level], job.inputs0))
    requires LeavesNothingOlder(levels[job.level + 1], job.inputs1, job.inputs1)
        <==> BoundaryClosed(levels[job.level + 1], job.inputs1)
    ensures Closed(levels, job) <==>
            && (job.level > 0 ==> BoundaryClosed(levels[job.level], job.inputs0))
            && BoundaryClosed(levels[job.level + 1], job.inputs1)
  {
  }

  lemma InputLevelIsClosedExactlyWhen(levels: Levels, job: Job)
    requires Tree(levels) && TakesInputs(levels, job) && (job.level == 0 ==> TakesOverlaps(levels[0], job.inputs0))
    ensures LeavesNothingOlder(levels[job.level], job.inputs0, job.inputs0)
       <==> (job.level > 0 ==> BoundaryClosed(levels[job.level], job.inputs0))
  {
    if job.level > 0 {
      ClosedSiblings(levels, job.level, job.inputs0);
    } else {
      LevelZeroIsClosed(levels, job.inputs0);
    }
  }

  lemma InputsMissLeftBehind(levels: Levels, job: Job, f: File, g: File)
    requires TakesInputs(levels, job) && Picked(levels, job.level, job.inputs0, job.inputs1)
    requires f in job.inputs0 && g in levels[job.level + 1] && g !in job.inputs1
    ensures !Overlap(f, g)
  {
    var lo, hi := PickedRange(levels, job);
  }

  /** Some version of the user key outlives the compaction. */
  ghost predicate Survives(levels: Levels, job: Job, user: UserKey) {
    exists e :: e in Survivors(levels, job) && e.key.user == user
  }

  /** No input of a sorted level is continued by a file left behind in that level with a version of the
      shared user key surviving below it. */
  ghost predicate BoundaryKeysDie(levels: Levels, job: Job)
    requires TakesInputs(levels, job)
  {
    job.level > 0 ==>
      forall f, g :: f in job.inputs0 && g in levels[job.level] && g !in job.inputs0 && Continues(f, g) ==>
        !Survives(levels, job, g.Smallest().user)
  }

  /** If any version of a user key survives, so does the newest one. */
  lemma NewestSurvives(levels: Levels, job: Job, y: Entry, z: Entry)
    requires Distinct(InputEntries(job)) && y in Survivors(levels, job)
    requires z in InputEntries(job) && z.key.user == y.key.user
    ensures exists e :: e in Survivors(levels, job) && e.key.user == y.key.user && e.key.sequence >= z.key.sequence
  {
    var bound := MaxSequence(InputEntries(job));
    var x := if y.key.sequence > z.key.sequence then y else z;
    NewestExists(InputEntries(job), y.key.user, bound, x);
    var e :| IsNewest(InputEntries(job), y.key.user, bound, e);
    assert Sees(y, y.key.user, bound) && Sees(z, y.key.user, bound);
    assert e != y ==> y.key.sequence < e.key.sequence;
    assert e != y && e.key.sequence <= job.smallestSnapshot ==> HiddenIn(InputEntries(job), y, job.smallestSnapshot);
    assert !HiddenIn(InputEntries(job), e, job.smallestSnapshot);
  }

  ghost function MaxSequence(S: set<Entry>): (m: nat)
    ensures forall e :: e in S ==> e.key.sequence <= m
  {
    if S == {} then 0 else
      var e :| e in S;
      var m := MaxSequence(S - {e});
      if e.key.sequence > m then e.key.sequence else m
  }

  /** An output below a continuing file breaks the order as soon as the shared key survives. */
  lemma SurvivorBreaksOrder(levels: Levels, job: Job, f: File, g: File)
    requires TakesInputs(levels, job) && Distinct(All(levels)) && EntriesOf(job.outputs) == Survivors(levels, job)
    requires f in job.inputs0 && g in levels[job.level] && g !in job.inputs0
    requires Continues(f, g) && Survives(levels, job, g.Smallest().user)
    ensures !OutputsAreOlder(levels, job)
  {
    InputsAreEntries(levels, job);
    var first, last := g.entries[0], f.entries[|f.entries| - 1];
    assert last in f.entries && last in EntriesOf(job.inputs0);
    var y :| y in Survivors(levels, job) && y.key.user == g.Smallest().user;
    NewestSurvives(levels, job, y, last);
    var e :| e in Survivors(levels, job) && e.key.user == y.key.user && e.key.sequence >= last.key.sequence;
    var o :| o in job.outputs && e in o.entries;
    NotAbove(g, o, first, e);
  }

  lemma NotAbove(g: File, o: File, x: Entry, y: Entry)
    requires x in g.entries && y in o.entries && x.key.user == y.key.user && x.key.sequence <= y.key.sequence
    ensures !Above(g.entries, o.entries)
  {
  }

  /** Of two separated files, the one that is not continued holds the newer versions. */
  lemma SiblingIsNewer(files: seq<File>, f: File, h: File, x: Entry, y: Entry)
    requires SortedLevel(files) && f in files && h in files && f != h && !Continues(h, f)
    requires x in f.entries && y in h.entries && x.key.user == y.key.user
    requires x.key.sequence == y.key.sequence ==> x == y
    ensures x.key.sequence > y.key.sequence
  {
    SortedLevelSeparates(files, f, h);
    assert WellFormed(f) && WellFormed(h);
    EntriesInRange(f);
    EntriesInRange(h);
  }

  /** A surviving version from the compacted level is older than what a sibling left behind holds. */
  lemma SurvivorIsOlder(levels: Levels, job: Job, f: File, x: Entry, y: Entry, h: File)
    requires Tree(levels) && TakesInputs(levels, job) && job.level > 0 && BoundaryKeysDie(levels, job)
    requires f in levels[job.level] && f !in job.inputs0 && h in job.inputs0
    requires x in f.entries && y in h.entries && y in Survivors(levels, job) && x.key.user == y.key.user
    ensures x.key.sequence > y.key.sequence
  {
    InAll(levels, job.level, f, x);
    InAll(levels, job.level, h, y);
    assert Survives(levels, job, y.key.user);
    if Continues(h, f) {
      TreeIsRanged(levels, job.level);
      SharedKeyIsBoundary(h, f, y, x);
    }
    SiblingIsNewer(levels[job.level], f, h, x, y);
  }

  lemma SharedKeyIsBoundary(h: File, f: File, y: Entry, x: Entry)
    requires WellFormed(h) && WellFormed(f) && Before(h, f)
    requires y in h.entries && x in f.entries && x.key.user == y.key.user
    ensures x.key.user == f.Smallest().user
  {
    EntriesInRange(f);
    EntriesInRange(h);
  }

  /** Installing a picked compaction keeps the tree invariant if and only if, at every place where a file
      left behind continues an input, every version of the shared user key is dropped. */
  lemma OrderKeptExactlyWhen(levels: Levels, job: Job, after: Levels)
    requires Tree(levels) && TakesInputs(levels, job) && Picked(levels, job.level, job.inputs0, job.inputs1)
    requires Compacts(levels, job) && Replaced(levels, job, after)
    requires Ordered(after[job.level]) && Ordered(after[job.level + 1])
    ensures Tree(after) <==> BoundaryKeysDie(levels, job)
  {
    CompactedOutputs(levels, job);
    PickedIsApart(levels, job);
    ApartOutputs(levels, job);
    ReplacingKeepsTree(levels, job, after);
    OlderExactlyWhen(levels, job);
  }

  lemma OlderExactlyWhen(levels: Levels, job: Job)
    requires Tree(levels) && TakesInputs(levels, job) && Compacts(levels, job) && DrawnFromInputs(job)
    requires job.level == 0 ==> TakesOverlaps(levels[0], job.inputs0)
    ensures OutputsAreOlder(levels, job) <==> BoundaryKeysDie(levels, job)
  {
    TreeIsRanged(levels, job.level);
    if BoundaryKeysDie(levels, job) {
      if job.level == 0 { LevelZeroIsClosed(levels, job.inputs0); }
      CompactedOutputs(levels, job);
      forall f, o, x, y | f in levels[job.level] && f !in job.inputs0 && o in job.outputs
                          && x in f.entries && y in o.entries && x.key.user == y.key.user
        ensures x.key.sequence > y.key.sequence
      {
        OutputOlderThan(levels, job, f, o, x, y);
      }
    } else {
      var f, g :| f in job.inputs0 && g in levels[job.level] && g !in job.inputs0 && Continues(f, g)
        && Survives(levels, job, g.Smallest().user);
      CompactedOutputs(levels, job);
      SurvivorBreaksOrder(levels, job, f, g);
    }
  }

  lemma OutputOlderThan(levels: Levels, job: Job, f: File, o: File, x: Entry, y: Entry)
    requires Tree(levels) && TakesInputs(levels, job) && BoundaryKeysDie(levels, job)
    requires EntriesOf(job.outputs) == Survivors(levels, job)
    requires job.level == 0 ==> LeavesNothingOlder(levels[0], job.inputs0, job.inputs0)
    requires f in levels[job.level] && f !in job.inputs0 && o in job.outputs
    requires x in f.entries && y in o.entries && x.key.user == y.key.user
    ensures x.key.sequence > y.key.sequence
  {
    assert y in EntriesOf(job.outputs);
    var k, h := InputFile(levels, job, y);
    if h in job.inputs0 && k == job.level {
      if job.level > 0 {
        SurvivorIsOlder(levels, job, f, x, y, h);
      } else {
        assert Above(f.entries, h.entries);
      }
    } else {
      assert Above(f.entries, h.entries);
    }
  }

  /** A picked compaction is invisible when no input is continued by a file left behind. */
  lemma BoundaryClosedCompactionIsInvisible(levels: Levels, job: Job, after: Levels)
    requires Tree(levels) && TakesInputs(levels, job) && Picked(levels, job.level, job.inputs0, job.inputs1)
    requires job.level > 0 ==> BoundaryClosed(levels[job.level], job.inputs0)
    requires BoundaryClosed(levels[job.level + 1], job.inputs1)
    requires Compacts(levels, job) && Replaced(levels, job, after)
    requires Ordered(after[job.level]) && Ordered(after[job.level + 1])
    ensures Tree(after) && All(after) <= All(levels)
    ensures SameFrom(job.smallestSnapshot, All(levels), All(after))
  {
    PickedClosedExactlyWhen(levels, job);
    PickedIsApart(levels, job);
    CompactedOutputs(levels, job);
    ApartOutputs(levels, job);
    CompactionIsInvisible(levels, job, after);
  }
}
