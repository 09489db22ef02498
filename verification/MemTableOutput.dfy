/** Where a flushed memtable goes, and why it may go there (db/version_set.cc,
    Version::PickLevelForMemTableOutput). */
module MemTableOutput {
  import opened Wrappers
  import opened InternalKeys
  import opened MultiVersion
  import opened Version
  import opened Builder
  import opened CompactionCorrect
  import opened Picking
  import opened PickingCorrect

  const MAX_MEM_COMPACT_LEVEL: nat := 2

  ghost predicate SequencesFit(files: seq<File>) {
    forall f :: f in files ==> f.NonEmpty() && f.Largest().sequence <= MAX_SEQUENCE
  }

  /** Whether some file meets the user-key range; binary search when the files are sorted. */
  method SomeFileOverlapsRange(disjointSortedFiles: bool, files: seq<File>,
                               smallest: Option<UserKey>, largest: Option<UserKey>) returns (r: bool)
    requires Ranged(files) && SequencesFit(files)
    requires disjointSortedFiles ==> SortedLevel(files)
    requires smallest.Some? && largest.Some? ==> smallest.value <= largest.value
    ensures r <==> exists f :: f in files && Meets(f, smallest, largest)
  {
    if !disjointSortedFiles {
      for i := 0 to |files|
        invariant forall f :: f in files[..i] ==> !Meets(f, smallest, largest)
      {
        var f := files[i];
        if (smallest.Some? && smallest.value > f.Largest().user)
            || (largest.Some? && largest.value < f.Smallest().user) {
        } else {
          assert f in files && Meets(f, smallest, largest);
          return true;
        }
      }
      assert files[..|files|] == files;
      return false;
    }
    var index := 0;
    if smallest.Some? {
      index := FindFile(files, InternalKey(smallest.value, MAX_SEQUENCE, KIND_FOR_SEEK));
    }
    FirstCandidateDecides(files, smallest, largest, index);
    if index >= |files| {
      return false;
    }
    return !(largest.Some? && largest.value < files[index].Smallest().user);
  }

  /** In a sorted level the first file not wholly before the range decides. */
  lemma FirstCandidateDecides(files: seq<File>, smallest: Option<UserKey>, largest: Option<UserKey>, index: nat)
    requires SortedLevel(files) && Ranged(files) && SequencesFit(files) && index <= |files|
    requires smallest.None? ==> index == 0
    requires smallest.Some? ==>
               var k := InternalKey(smallest.value, MAX_SEQUENCE, KIND_FOR_SEEK);
               && (forall i :: 0 <= i < index ==> Precedes(files[i].Largest(), k))
               && (forall i :: index <= i < |files| ==> !Precedes(files[i].Largest(), k))
    requires smallest.Some? && largest.Some? ==> smallest.value <= largest.value
    ensures (exists f :: f in files && Meets(f, smallest, largest))
       <==> index < |files| && (largest.None? || largest.value >= files[index].Smallest().user)
  {
    forall i | 0 <= i < |files| && Meets(files[i], smallest, largest)
      ensures index < |files| && (largest.None? || largest.value >= files[index].Smallest().user)
    {
      assert files[i] in files;
      assert index <= i;
      if index < i {
        assert Before(files[index], files[i]);
        assert files[index] in files;
      }
    }
    if index < |files| { assert files[index] in files; }
  }

  ghost predicate Misses(files: seq<File>, lo: UserKey, hi: UserKey) {
    forall f :: f in files && f.NonEmpty() ==> !Meets(f, Some(lo), Some(hi))
  }

  /** The table may be put at this level: nothing at or above it meets its user-key range. */
  ghost predicate MayLandAt(levels: Levels, level: nat, lo: UserKey, hi: UserKey)
    requires level < |levels|
  {
    forall l :: 0 <= l <= level ==> Misses(levels[l], lo, hi)
  }

  ghost predicate Searchable(levels: Levels) {
    && |levels| == NUM_LEVELS
    && forall l :: 0 <= l < NUM_LEVELS ==>
         Ranged(levels[l]) && SequencesFit(levels[l]) && (l > 0 ==> SortedLevel(levels[l]))
  }

  /** The table may go one level deeper: nothing there meets it, and a later compaction from there would
      not have too much of the level below to merge with. */
  ghost predicate MaySink(levels: Levels, level: nat, lo: UserKey, hi: UserKey, maxFileSize: nat)
    requires Searchable(levels) && level + 2 < NUM_LEVELS
  {
    && Misses(levels[level + 1], lo, hi)
    && TotalFileSize(Meeting(levels[level + 2], Some(lo), Some(hi))) <= 10 * maxFileSize
  }

  /** The table sinks from level 0 as far as it may, unless level 0 meets it, and by two levels at most. */
  method PickLevelForMemTableOutput(levels: Levels, lo: UserKey, hi: UserKey, maxFileSize: nat) returns (level: nat)
    requires Searchable(levels) && lo <= hi
    ensures level <= MAX_MEM_COMPACT_LEVEL
    ensures level > 0 ==> MayLandAt(levels, level, lo, hi)
    ensures !Misses(levels[0], lo, hi) ==> level == 0
    ensures forall l :: 0 <= l < level ==> MaySink(levels, l, lo, hi, maxFileSize)
    ensures Misses(levels[0], lo, hi) && level < MAX_MEM_COMPACT_LEVEL ==> !MaySink(levels, level, lo, hi, maxFileSize)
  {
    level := 0;
    var overlap := SomeFileOverlapsRange(false, levels[0], Some(lo), Some(hi));
    if !overlap {
      while level < MAX_MEM_COMPACT_LEVEL
        invariant level <= MAX_MEM_COMPACT_LEVEL
        invariant MayLandAt(levels, level, lo, hi)
        invariant forall l :: 0 <= l < level ==> MaySink(levels, l, lo, hi, maxFileSize)
      {
        overlap := SomeFileOverlapsRange(true, levels[level + 1], Some(lo), Some(hi));
        if overlap { break; }
        if level + 2 < NUM_LEVELS {
          var overlaps := GetOverlappingInputs(levels, level + 2, Some(lo), Some(hi));
          if TotalFileSize(overlaps) > 10 * maxFileSize { break; }
        }
        level := level + 1;
      }
    }
  }

  /** The version with one more table. */
  ghost predicate WithTable(levels: Levels, level: nat, f: File, after: Levels) {
    && |levels| == |after| == NUM_LEVELS && level < NUM_LEVELS
    && (forall l :: 0 <= l < NUM_LEVELS && l != level ==> after[l] == levels[l])
    && forall g :: g in after[level] <==> g in levels[level] || g == f
  }

  /** A table newer than the whole version can be added at level 0 with the highest number, or deeper
      where nothing at or above its level meets it. */
  lemma AddingTableKeepsTree(levels: Levels, level: nat, f: File, after: Levels)
    requires Tree(levels) && WellFormed(f) && WithTable(levels, level, f, after) && Ordered(after[level])
    requires forall l, g :: 0 <= l < NUM_LEVELS && g in levels[l] ==> Above(f.entries, g.entries)
    requires Distinct(All(levels) + (set e | e in f.entries))
    requires if level == 0 then forall g :: g in levels[0] ==> g.number < f.number
             else MayLandAt(levels, level, f.Smallest().user, f.Largest().user)
    ensures Tree(after)
    ensures All(after) == All(levels) + (set e | e in f.entries)
  {
    AddedContents(levels, level, f, after);
    AddedLevelShape(levels, level, f, after);
    forall l, m, g, h | 0 <= l < m < NUM_LEVELS && g in after[l] && h in after[m]
      ensures Above(g.entries, h.entries)
    {
      AddedTableFits(levels, level, f, after, l, m, g, h);
    }
  }

  lemma AddedTableFits(levels: Levels, level: nat, f: File, after: Levels, l: nat, m: nat, g: File, h: File)
    requires Tree(levels) && WellFormed(f) && WithTable(levels, level, f, after)
    requires forall l, g :: 0 <= l < NUM_LEVELS && g in levels[l] ==> Above(f.entries, g.entries)
    requires level > 0 ==> MayLandAt(levels, level, f.Smallest().user, f.Largest().user)
    requires l < m < NUM_LEVELS && g in after[l] && h in after[m]
    ensures Above(g.entries, h.entries)
  {
    if m == level && h == f {
      ShallowerIsAbove(levels, level, f, l, g);
    } else if l == level && g == f {
      assert h in levels[m];
    } else {
      assert g in levels[l] && h in levels[m];
    }
  }

  lemma ShallowerIsAbove(levels: Levels, level: nat, f: File, l: nat, g: File)
    requires Tree(levels) && WellFormed(f) && 0 <= l < level < NUM_LEVELS && g in levels[l]
    requires MayLandAt(levels, level, f.Smallest().user, f.Largest().user)
    ensures Above(g.entries, f.entries)
  {
    TreeIsRanged(levels, l);
    assert Misses(levels[l], f.Smallest().user, f.Largest().user);
    NoOverlapNoShare(f, g);
  }

  lemma AddedLevelShape(levels: Levels, level: nat, f: File, after: Levels)
    requires Tree(levels) && WellFormed(f) && WithTable(levels, level, f, after) && Ordered(after[level])
    requires forall g :: g in levels[level] ==> Above(f.entries, g.entries)
    requires if level == 0 then forall g :: g in levels[0] ==> g.number < f.number
             else MayLandAt(levels, level, f.Smallest().user, f.Largest().user)
    ensures if level == 0 then LevelZero(after[0]) else SortedLevel(after[level])
  {
    if level > 0 {
      TreeIsRanged(levels, level);
      AddedLevelIsSorted(levels[level], f, after[level]);
    }
  }

  lemma AddedLevelIsSorted(files: seq<File>, f: File, after: seq<File>)
    requires SortedLevel(files) && Ranged(files) && WellFormed(f) && Ordered(after)
    requires forall g :: g in after <==> g in files || g == f
    requires Misses(files, f.Smallest().user, f.Largest().user)
    ensures SortedLevel(after)
  {
    EntriesInRange(f);
    assert f.entries[0] in f.entries;
    forall g, h | g in after && h in after && g != h ensures Before(g, h) || Before(h, g) {
      if g in files && h in files { SortedLevelSeparates(files, g, h); }
    }
    OrderedAndSeparated(after);
  }

  lemma AddedContents(levels: Levels, level: nat, f: File, after: Levels)
    requires WithTable(levels, level, f, after)
    ensures All(after) == All(levels) + (set e | e in f.entries)
  {
    forall e | e in All(after) ensures e in All(levels) || e in f.entries {
      var l, g := AllIn(after, e);
      if g != f { InAll(levels, l, g, e); }
    }
    forall e | e in All(levels) || e in f.entries ensures e in All(after) {
      if e in f.entries {
        InAll(after, level, f, e);
      } else {
        var l, g := AllIn(levels, e);
        InAll(after, l, g, e);
      }
    }
  }
}
