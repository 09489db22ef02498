/** Choosing what to compact and where to put a flushed table (db/version_set.cc). */
module Picking {
  import opened Wrappers
  import opened InternalKeys
  import opened Version

  /** The file's user-key range meets [begin, end]; a missing bound is infinite. */
  predicate Meets(f: File, begin: Option<UserKey>, end: Option<UserKey>)
    requires f.NonEmpty()
  {
    && (begin.None? || f.Largest().user >= begin.value)
    && (end.None? || f.Smallest().user <= end.value)
  }

  predicate Overlap(f: File, g: File) {
    && f.NonEmpty() && g.NonEmpty()
    && f.Smallest().user <= g.Largest().user && g.Smallest().user <= f.Largest().user
  }

  ghost predicate Ranged(files: seq<File>) {
    forall f :: f in files ==> f.NonEmpty() && f.Smallest().user <= f.Largest().user
  }

  /** The files of `files` that meet the range, in order. */
  function Meeting(files: seq<File>, begin: Option<UserKey>, end: Option<UserKey>): (r: seq<File>)
    requires forall f :: f in files ==> f.NonEmpty()
    ensures forall f :: f in r <==> f in files && Meets(f, begin, end)
    ensures |r| <= |files|
  {
    if files == [] then [] else
      var last := files[|files| - 1];
      Meeting(files[..|files| - 1], begin, end) + if Meets(last, begin, end) then [last] else []
  }

  /** A set of level-0 files that holds every file meeting the range and every file overlapping one
      of its own. */
  ghost predicate OverlapClosed(files: seq<File>, Q: set<File>, begin: Option<UserKey>, end: Option<UserKey>)
    requires forall f :: f in files ==> f.NonEmpty()
  {
    && (forall f :: f in files && Meets(f, begin, end) ==> f in Q)
    && (forall f, g :: f in files && f in Q && g in files && Overlap(f, g) ==> g in Q)
  }

  function CountStartsBelow(files: seq<File>, k: Option<UserKey>): nat
    requires forall f :: f in files ==> f.NonEmpty()
  {
    if files == [] then 0 else
      CountStartsBelow(files[1..], k) + if k.Some? && files[0].Smallest().user < k.value then 1 else 0
  }

  function CountLimitsAbove(files: seq<File>, k: Option<UserKey>): nat
    requires forall f :: f in files ==> f.NonEmpty()
  {
    if files == [] then 0 else
      CountLimitsAbove(files[1..], k) + if k.Some? && files[0].Largest().user > k.value then 1 else 0
  }

  lemma {:induction false} FewerStartsBelow(files: seq<File>, f: File, k: UserKey)
    requires forall g :: g in files ==> g.NonEmpty()
    requires f.NonEmpty() && f.Smallest().user < k
    ensures CountStartsBelow(files, Some(f.Smallest().user)) <= CountStartsBelow(files, Some(k))
    ensures f in files ==> CountStartsBelow(files, Some(f.Smallest().user)) < CountStartsBelow(files, Some(k))
  {
    if files != [] { FewerStartsBelow(files[1..], f, k); }
  }

  lemma {:induction false} FewerLimitsAbove(files: seq<File>, f: File, k: UserKey)
    requires forall g :: g in files ==> g.NonEmpty()
    requires f.NonEmpty() && f.Largest().user > k
    ensures CountLimitsAbove(files, Some(f.Largest().user)) <= CountLimitsAbove(files, Some(k))
    ensures f in files ==> CountLimitsAbove(files, Some(f.Largest().user)) < CountLimitsAbove(files, Some(k))
  {
    if files != [] { FewerLimitsAbove(files[1..], f, k); }
  }

  /** Every overlap-closed set holds the files that meet the widened range. */
  ghost predicate Forced(files: seq<File>, begin: Option<UserKey>, end: Option<UserKey>,
                         b: Option<UserKey>, e: Option<UserKey>)
    requires forall f :: f in files ==> f.NonEmpty()
  {
    && (b.None? <==> begin.None?) && (b.Some? ==> b.value <= begin.value)
    && (e.None? <==> end.None?) && (e.Some? ==> e.value >= end.value)
    && forall Q :: OverlapClosed(files, Q, begin, end) ==> forall f :: f in files && Meets(f, b, e) ==> f in Q
  }

  /** The files lie inside the range. */
  ghost predicate Inside(files: seq<File>, b: Option<UserKey>, e: Option<UserKey>) {
    forall f :: f in files ==>
      f.NonEmpty() && (b.Some? ==> f.Smallest().user >= b.value) && (e.Some? ==> f.Largest().user <= e.value)
  }

  /** All files of a level that overlap [begin, end].  In level 0 the range may have been widened;
      the result is then the least overlap-closed set. */
  method GetOverlappingInputs(levels: Levels, level: nat, begin: Option<UserKey>, end: Option<UserKey>)
    returns (inputs: seq<File>)
    requires level < |levels| && Ranged(levels[level])
    ensures level > 0 ==> inputs == Meeting(levels[level], begin, end)
    ensures forall f :: f in inputs ==> f in levels[level]
    ensures level == 0 ==> OverlapClosed(levels[0], FileSet(inputs), begin, end)
    ensures level == 0 ==> forall Q :: OverlapClosed(levels[0], Q, begin, end) ==> FileSet(inputs) <= Q
  {
    ghost var b, e;
    inputs, b, e := SearchOverlapping(levels[level], level, begin, end);
    if level == 0 { MeetingIsLeastClosed(levels[0], begin, end, b, e); }
  }

  /** The search loop, which starts over whenever an added level-0 file widens the range. */
  method SearchOverlapping(files: seq<File>, level: nat, begin: Option<UserKey>, end: Option<UserKey>)
    returns (inputs: seq<File>, ghost b: Option<UserKey>, ghost e: Option<UserKey>)
    requires Ranged(files)
    ensures Forced(files, begin, end, b, e) && inputs == Meeting(files, b, e)
    ensures if level == 0 then Inside(inputs, b, e) else b == begin && e == end
  {
    inputs := [];
    var userBegin, userEnd := begin, end;
    var i := 0;
    SearchStarts(files, level, begin, end, begin, end);
    while i < |files|
      invariant Searching(files, level, begin, end, inputs, i, userBegin, userEnd)
      decreases Width(files, userBegin, userEnd), |files| - i
    {
      var f := files[i];
      i := i + 1;
      if Meets(f, userBegin, userEnd) {
        if level == 0 {
          var wider;
          userBegin, userEnd, wider := Widen(files, f, begin, end, userBegin, userEnd);
          if wider {
            inputs := [];
            i := 0;
            SearchStarts(files, level, begin, end, userBegin, userEnd);
          } else {
            SearchAdds(files, level, begin, end, inputs, i, userBegin, userEnd);
            inputs := inputs + [f];
          }
        } else {
          SearchAdds(files, level, begin, end, inputs, i, userBegin, userEnd);
          inputs := inputs + [f];
        }
      } else {
        SearchSkips(files, level, begin, end, inputs, i, userBegin, userEnd);
      }
    }
    assert files[..|files|] == files;
    b, e := userBegin, userEnd;
  }

  /** The inputs are the files met among the first `i`. */
  ghost predicate Searching(files: seq<File>, level: nat, begin: Option<UserKey>, end: Option<UserKey>,
                            inputs: seq<File>, i: nat, b: Option<UserKey>, e: Option<UserKey>)
    requires Ranged(files)
  {
    && i <= |files| && inputs == Meeting(files[..i], b, e) && Forced(files, begin, end, b, e)
    && if level == 0 then Inside(inputs, b, e) else b == begin && e == end
  }

  lemma SearchStarts(files: seq<File>, level: nat, begin: Option<UserKey>, end: Option<UserKey>,
                     b: Option<UserKey>, e: Option<UserKey>)
    requires Ranged(files) && Forced(files, begin, end, b, e) && (level == 0 || (b == begin && e == end))
    ensures Searching(files, level, begin, end, [], 0, b, e)
  {
    assert files[..0] == [];
  }

  lemma SearchAdds(files: seq<File>, level: nat, begin: Option<UserKey>, end: Option<UserKey>,
                   inputs: seq<File>, i: nat, b: Option<UserKey>, e: Option<UserKey>)
    requires Ranged(files) && 0 < i <= |files| && Searching(files, level, begin, end, inputs, i - 1, b, e)
    requires Meets(files[i - 1], b, e) && (level == 0 ==> Inside([files[i - 1]], b, e))
    ensures Searching(files, level, begin, end, inputs + [files[i - 1]], i, b, e)
  {
    MeetingStep(files, i - 1, b, e);
    if level == 0 {
      InsideAppend(inputs, files[i - 1], b, e);
    }
  }

  lemma SearchSkips(files: seq<File>, level: nat, begin: Option<UserKey>, end: Option<UserKey>,
                    inputs: seq<File>, i: nat, b: Option<UserKey>, e: Option<UserKey>)
    requires Ranged(files) && 0 < i <= |files| && Searching(files, level, begin, end, inputs, i - 1, b, e)
    requires !Meets(files[i - 1], b, e)
    ensures Searching(files, level, begin, end, inputs, i, b, e)
  {
    MeetingStep(files, i - 1, b, e);
  }

  /** Widens the range to a file that sticks out of it, at the start first. */
  method Widen(files: seq<File>, f: File, ghost begin: Option<UserKey>, ghost end: Option<UserKey>,
               b: Option<UserKey>, e: Option<UserKey>)
    returns (b': Option<UserKey>, e': Option<UserKey>, wider: bool)
    requires Ranged(files) && f in files && Meets(f, b, e) && Forced(files, begin, end, b, e)
    ensures Forced(files, begin, end, b', e')
    ensures wider ==> Width(files, b', e') < Width(files, b, e)
    ensures !wider ==> b' == b && e' == e && Inside([f], b, e)
  {
    b', e', wider := b, e, true;
    if b.Some? && f.Smallest().user < b.value {
      b' := Some(f.Smallest().user);
      WideningIsForced(files, f, begin, end, b, e, b', e');
    } else if e.Some? && f.Largest().user > e.value {
      e' := Some(f.Largest().user);
      WideningIsForced(files, f, begin, end, b, e, b', e');
    } else {
      wider := false;
    }
  }

  lemma InsideAppend(files: seq<File>, f: File, b: Option<UserKey>, e: Option<UserKey>)
    requires Inside(files, b, e) && Inside([f], b, e)
    ensures Inside(files + [f], b, e)
  {
    assert f in [f];
  }

  lemma MeetingStep(files: seq<File>, i: nat, b: Option<UserKey>, e: Option<UserKey>)
    requires Ranged(files) && i < |files|
    ensures Meeting(files[..i + 1], b, e)
         == Meeting(files[..i], b, e) + (if Meets(files[i], b, e) then [files[i]] else [])
    ensures forall b', e' :: Meeting(files[..0], b', e') == []
  {
    assert files[..i + 1][..i] == files[..i];
  }

  /** How many file bounds still stick out of the range. */
  ghost function Width(files: seq<File>, b: Option<UserKey>, e: Option<UserKey>): nat
    requires Ranged(files)
  {
    CountStartsBelow(files, b) + CountLimitsAbove(files, e)
  }

  ghost function FileSet(files: seq<File>): set<File> {
    set f | f in files
  }

  lemma MeetingIsLeastClosed(files: seq<File>, begin: Option<UserKey>, end: Option<UserKey>,
                             b: Option<UserKey>, e: Option<UserKey>)
    requires Ranged(files) && Forced(files, begin, end, b, e) && Inside(Meeting(files, b, e), b, e)
    ensures OverlapClosed(files, FileSet(Meeting(files, b, e)), begin, end)
    ensures forall Q :: OverlapClosed(files, Q, begin, end) ==> FileSet(Meeting(files, b, e)) <= Q
  {
  }

  /** Widening the range to a file that meets it adds only files every closed set already holds. */
  lemma WideningIsForced(files: seq<File>, f: File, begin: Option<UserKey>, end: Option<UserKey>,
                         b: Option<UserKey>, e: Option<UserKey>, b': Option<UserKey>, e': Option<UserKey>)
    requires Ranged(files) && f in files && Meets(f, b, e) && Forced(files, begin, end, b, e)
    requires (b' == b && e.Some? && e' == Some(f.Largest().user) && e'.value > e.value)
          || (e' == e && b.Some? && b' == Some(f.Smallest().user) && b'.value < b.value)
    ensures Forced(files, begin, end, b', e') && Width(files, b', e') < Width(files, b, e)
  {
    if b' == b { FewerLimitsAbove(files, f, e.value); } else { FewerStartsBelow(files, f, b.value); }
    forall Q, g | OverlapClosed(files, Q, begin, end) && g in files && Meets(g, b', e') ensures g in Q {
      assert f in Q;
      if !Meets(g, b, e) { assert Overlap(f, g); }
    }
  }

  function TotalFileSize(files: seq<File>): nat {
    if files == [] then 0 else TotalFileSize(files[..|files| - 1]) + files[|files| - 1].size
  }

  /** `smallest` and `largest` bound the files and are attained. */
  ghost predicate IsRange(files: seq<File>, smallest: UserKey, largest: UserKey) {
    && (forall f :: f in files ==> f.NonEmpty() && smallest <= f.Smallest().user && f.Largest().user <= largest)
    && (exists f :: f in files && f.NonEmpty() && f.Smallest().user == smallest)
    && (exists f :: f in files && f.NonEmpty() && f.Largest().user == largest)
  }

  /** The least and the greatest internal key of the files. */
  ghost predicate Bounds(files: seq<File>, smallest: InternalKey, largest: InternalKey) {
    && (forall f :: f in files ==> f.NonEmpty() && !Precedes(f.Smallest(), smallest) && !Precedes(largest, f.Largest()))
    && (exists f :: f in files && f.NonEmpty() && f.Smallest() == smallest)
    && (exists f :: f in files && f.NonEmpty() && f.Largest() == largest)
  }

  lemma BoundsAreRange(files: seq<File>, smallest: InternalKey, largest: InternalKey)
    requires Bounds(files, smallest, largest)
    ensures IsRange(files, smallest.user, largest.user)
  {
  }

  function Lesser(a: InternalKey, b: InternalKey): InternalKey {
    if Precedes(b, a) then b else a
  }

  function Greater(a: InternalKey, b: InternalKey): InternalKey {
    if Precedes(a, b) then b else a
  }

  lemma BoundsGrow(files: seq<File>, f: File, smallest: InternalKey, largest: InternalKey)
    requires Bounds(files, smallest, largest) && f.NonEmpty()
    ensures Bounds(files + [f], Lesser(smallest, f.Smallest()), Greater(largest, f.Largest()))
  {
    var g :| g in files && g.NonEmpty() && g.Smallest() == smallest;
    var h :| h in files && h.NonEmpty() && h.Largest() == largest;
    var all := files + [f];
    assert g in all && h in all && f in all;
  }

  /** The minimal range that covers the files. */
  method GetRange(inputs: seq<File>) returns (smallest: InternalKey, largest: InternalKey)
    requires inputs != [] && forall f :: f in inputs ==> f.NonEmpty()
    ensures IsRange(inputs, smallest.user, largest.user) && Bounds(inputs, smallest, largest)
  {
    smallest, largest := inputs[0].Smallest(), inputs[0].Largest();
    for i := 1 to |inputs|
      invariant Bounds(inputs[..i], smallest, largest)
    {
      var f := inputs[i];
      assert inputs[..i + 1] == inputs[..i] + [f];
      BoundsGrow(inputs[..i], f, smallest, largest);
      if Precedes(f.Smallest(), smallest) { smallest := f.Smallest(); }
      if Precedes(largest, f.Largest()) { largest := f.Largest(); }
    }
    assert inputs[..|inputs|] == inputs;
    BoundsAreRange(inputs, smallest, largest);
  }

  /** Widening a range that selects as many files as before selects the same files. */
  lemma {:induction false} SameSizeSameFiles(files: seq<File>, b: UserKey, e: UserKey, b': UserKey, e': UserKey)
    requires forall f :: f in files ==> f.NonEmpty()
    requires b' <= b && e <= e'
    ensures |Meeting(files, Some(b), Some(e))| <= |Meeting(files, Some(b'), Some(e'))|
    ensures |Meeting(files, Some(b), Some(e))| == |Meeting(files, Some(b'), Some(e'))| ==>
              Meeting(files, Some(b), Some(e)) == Meeting(files, Some(b'), Some(e'))
  {
    if files != [] { SameSizeSameFiles(files[..|files| - 1], b, e, b', e'); }
  }

  /** The level-0 files chosen take along every file that overlaps one of them. */
  ghost predicate TakesOverlaps(files: seq<File>, chosen: seq<File>) {
    forall f, g :: f in chosen && g in files && Overlap(f, g) ==> g in chosen
  }

  /** The inputs of the output level are exactly the files meeting the range of the level's inputs. */
  ghost predicate MeetsRangeOf(levels: Levels, level: nat, in0: seq<File>, in1: seq<File>)
    requires level + 1 < |levels| && forall f :: f in levels[level + 1] ==> f.NonEmpty()
  {
    exists lo, hi :: IsRange(in0, lo, hi) && in1 == Meeting(levels[level + 1], Some(lo), Some(hi))
  }

  /** The choice a picked compaction makes. */
  ghost predicate Picked(levels: Levels, level: nat, in0: seq<File>, in1: seq<File>) {
    && level + 1 < |levels| && Ranged(levels[level]) && Ranged(levels[level + 1])
    && in0 != [] && (forall f :: f in in0 ==> f in levels[level])
    && MeetsRangeOf(levels, level, in0, in1)
    && (level == 0 ==> TakesOverlaps(levels[0], in0))
  }

  // -------------------------------------------------------------------- gaps

  predicate CoveredBy(files: seq<File>, u: UserKey) {
    exists f :: f in files && Covers(f, u)
  }

  /** The key lies between two keys of the files. */
  predicate Within(files: seq<File>, u: UserKey) {
    && (exists f :: f in files && f.NonEmpty() && f.Smallest().user <= u)
    && (exists f :: f in files && f.NonEmpty() && u <= f.Largest().user)
  }

  /** The files cover every user key between any two of theirs. */
  ghost predicate GapFree(files: seq<File>) {
    forall u: UserKey :: Within(files, u) ==> CoveredBy(files, u)
  }

  /** Beyond a key outside [a, b] that none of the files covers, there is none of them. */
  ghost predicate GrowsFrom(files: seq<File>, a: UserKey, b: UserKey) {
    && (forall u: UserKey :: u > b && !CoveredBy(files, u) ==> EndBefore(files, u))
    && (forall u: UserKey :: u < a && !CoveredBy(files, u) ==> StartAfter(files, u))
  }

  ghost predicate EndBefore(files: seq<File>, u: UserKey) {
    forall f :: f in files && f.NonEmpty() ==> f.Largest().user < u
  }

  ghost predicate StartAfter(files: seq<File>, u: UserKey) {
    forall f :: f in files && f.NonEmpty() ==> u < f.Smallest().user
  }

  lemma SingleIsGapFree(f: File)
    ensures GapFree([f])
  {
    forall u: UserKey | Within([f], u) ensures CoveredBy([f], u) {
      assert f in [f];
    }
  }

  lemma SameFilesSameGaps(files: seq<File>, others: seq<File>)
    requires GapFree(files) && forall f :: f in files <==> f in others
    ensures GapFree(others)
  {
    forall u: UserKey | Within(others, u) ensures CoveredBy(others, u) {
      assert Within(files, u) && CoveredBy(files, u);
    }
  }

  /** Files that meet a range grow from it. */
  lemma MeetingGrows(files: seq<File>, a: UserKey, b: UserKey)
    requires Ranged(files) && a <= b
    ensures GrowsFrom(Meeting(files, Some(a), Some(b)), a, b)
  {
    var chosen := Meeting(files, Some(a), Some(b));
    forall u: UserKey, f | u > b && !CoveredBy(chosen, u) && f in chosen && f.NonEmpty() ensures f.Largest().user < u {
      assert !Covers(f, u);
    }
    forall u: UserKey, f | u < a && !CoveredBy(chosen, u) && f in chosen && f.NonEmpty() ensures u < f.Smallest().user {
      assert !Covers(f, u);
    }
  }

  ghost function LowerPart(files: seq<File>, u: UserKey): set<File> {
    set f | f in files && f.NonEmpty() && f.Largest().user < u
  }

  ghost function UpperPart(files: seq<File>, u: UserKey): set<File> {
    set f | f in files && f.NonEmpty() && u < f.Smallest().user
  }

  /** So does the least overlap-closed set around a range. */
  lemma LeastClosedGrows(files: seq<File>, chosen: seq<File>, a: UserKey, b: UserKey)
    requires Ranged(files) && a <= b && forall f :: f in chosen ==> f in files
    requires OverlapClosed(files, FileSet(chosen), Some(a), Some(b))
    requires forall Q :: OverlapClosed(files, Q, Some(a), Some(b)) ==> FileSet(chosen) <= Q
    ensures GrowsFrom(chosen, a, b)
  {
    forall u: UserKey | u > b && !CoveredBy(chosen, u) ensures EndBefore(chosen, u) {
      LowerPartIsClosed(files, chosen, a, b, u);
      var Q := LowerPart(chosen, u);
      assert FileSet(chosen) <= Q;
      assert forall f :: f in chosen ==> f in FileSet(chosen);
    }
    forall u: UserKey | u < a && !CoveredBy(chosen, u) ensures StartAfter(chosen, u) {
      UpperPartIsClosed(files, chosen, a, b, u);
      var Q := UpperPart(chosen, u);
      assert FileSet(chosen) <= Q;
      assert forall f :: f in chosen ==> f in FileSet(chosen);
    }
  }

  lemma LowerPartIsClosed(files: seq<File>, chosen: seq<File>, a: UserKey, b: UserKey, u: UserKey)
    requires Ranged(files) && a <= b < u && !CoveredBy(chosen, u)
    requires OverlapClosed(files, FileSet(chosen), Some(a), Some(b))
    ensures OverlapClosed(files, LowerPart(chosen, u), Some(a), Some(b))
  {
    var Q := LowerPart(chosen, u);
    forall f | f in files && Meets(f, Some(a), Some(b)) ensures f in Q {
      assert f in FileSet(chosen) && !Covers(f, u);
    }
    forall f, g | f in files && f in Q && g in files && Overlap(f, g) ensures g in Q {
      assert f in FileSet(chosen) && g in FileSet(chosen) && !Covers(g, u);
    }
  }

  lemma UpperPartIsClosed(files: seq<File>, chosen: seq<File>, a: UserKey, b: UserKey, u: UserKey)
    requires Ranged(files) && u < a <= b && !CoveredBy(chosen, u)
    requires OverlapClosed(files, FileSet(chosen), Some(a), Some(b))
    ensures OverlapClosed(files, UpperPart(chosen, u), Some(a), Some(b))
  {
    var Q := UpperPart(chosen, u);
    forall f | f in files && Meets(f, Some(a), Some(b)) ensures f in Q {
      assert f in FileSet(chosen) && !Covers(f, u);
    }
    forall f, g | f in files && f in Q && g in files && Overlap(f, g) ensures g in Q {
      assert f in FileSet(chosen) && g in FileSet(chosen) && !Covers(g, u);
    }
  }

  /** Growing from the range of gap-free files leaves no gap. */
  lemma GrownIsGapFree(core: seq<File>, chosen: seq<File>, a: UserKey, b: UserKey)
    requires GapFree(core) && IsRange(core, a, b) && GrowsFrom(chosen, a, b)
    ensures GapFree(core + chosen)
  {
    var all := core + chosen;
    forall u: UserKey | Within(all, u) ensures CoveredBy(all, u) {
      if CoveredBy(chosen, u) {
        var f :| f in chosen && Covers(f, u);
        assert f in all;
      } else {
        NotBeyond(core, chosen, a, b, u);
        assert Within(core, u);
        var f :| f in core && Covers(f, u);
        assert f in all;
      }
    }
  }

  lemma NotBeyond(core: seq<File>, chosen: seq<File>, a: UserKey, b: UserKey, u: UserKey)
    requires IsRange(core, a, b) && GrowsFrom(chosen, a, b) && Within(core + chosen, u) && !CoveredBy(chosen, u)
    ensures a <= u <= b
  {
    assert u > b ==> EndBefore(chosen, u);
    assert u < a ==> StartAfter(chosen, u);
  }

  // ------------------------------------------------------------------ picking

  /** The files of the level in the range of all inputs; in level 0, with all that they overlap. */
  ghost predicate Expands(levels: Levels, level: nat, in0: seq<File>, in1: seq<File>, expanded0: seq<File>)
    requires level < |levels| && Ranged(levels[level])
  {
    exists lo, hi :: IsRange(in0 + in1, lo, hi) && IsOverlapping(levels, level, lo, hi, expanded0)
  }

  ghost predicate IsOverlapping(levels: Levels, level: nat, lo: UserKey, hi: UserKey, files: seq<File>)
    requires level < |levels| && Ranged(levels[level])
  {
    && (forall f :: f in files ==> f in levels[level])
    && (level > 0 ==> files == Meeting(levels[level], Some(lo), Some(hi)))
    && (level == 0 ==> OverlapClosed(levels[0], FileSet(files), Some(lo), Some(hi)))
    && (level == 0 ==> forall Q :: OverlapClosed(levels[0], Q, Some(lo), Some(hi)) ==> FileSet(files) <= Q)
  }

  /** More files of the level are taken: if there are more, if that costs no further file of the next level,
      and if all inputs together stay below 25 times the size of a file. */
  ghost predicate MayExpand(levels: Levels, level: nat, in0: seq<File>, in1: seq<File>, expanded0: seq<File>,
                            maxFileSize: nat)
    requires level + 1 < |levels| && Ranged(levels[level + 1])
  {
    && |expanded0| > |in0| && TotalFileSize(in1) + TotalFileSize(expanded0) < 25 * maxFileSize
    && exists lo, hi :: IsRange(expanded0, lo, hi) && |Meeting(levels[level + 1], Some(lo), Some(hi))| == |in1|
  }

  lemma RangeIsUnique(files: seq<File>, a: UserKey, b: UserKey, c: UserKey, d: UserKey)
    requires IsRange(files, a, b) && IsRange(files, c, d)
    ensures a == c && b == d
  {
  }

  /** Whether the inputs grow, and into what. */
  ghost predicate GrownInputs(levels: Levels, level: nat, inputs0: seq<File>, in0: seq<File>, in1: seq<File>,
                              maxFileSize: nat)
    requires level + 1 < |levels| && Ranged(levels[level]) && Ranged(levels[level + 1])
  {
    exists expanded0 :: Expands(levels, level, inputs0, in1, expanded0)
      && in0 == if MayExpand(levels, level, inputs0, in1, expanded0, maxFileSize) then expanded0 else inputs0
  }

  /** Completes the inputs of one level by those of the next, then takes more files of the first
      level if that costs no further file of the second and stays below the size limit. */
  method SetupOtherInputs(levels: Levels, level: nat, inputs0: seq<File>, maxFileSize: nat)
    returns (in0: seq<File>, in1: seq<File>)
    requires level + 1 < |levels| && Ranged(levels[level]) && Ranged(levels[level + 1])
    requires inputs0 != [] && forall f :: f in inputs0 ==> f in levels[level]
    requires level == 0 ==> TakesOverlaps(levels[0], inputs0)
    ensures Picked(levels, level, in0, in1)
    ensures forall f :: f in inputs0 ==> f in in0
    ensures MeetsRangeOf(levels, level, inputs0, in1)
    ensures if in1 == [] then in0 == inputs0 else GrownInputs(levels, level, inputs0, in0, in1, maxFileSize)
    ensures GapFree(inputs0) ==> GapFree(in0 + in1)
  {
    in0 := inputs0;
    var smallest, largest := GetRange(in0);
    in1 := GetOverlappingInputs(levels, level + 1, Some(smallest.user), Some(largest.user));
    assert MeetsRangeOf(levels, level, in0, in1);
    if GapFree(inputs0) { NextLevelLeavesNoGap(levels[level], levels[level + 1], in0, smallest.user, largest.user); }
    assert in0 + [] == in0;
    if in1 != [] {
      in0, in1 := GrowInputs(levels, level, in0, in1, smallest.user, largest.user, maxFileSize);
    }
  }

  method GrowInputs(levels: Levels, level: nat, inputs0: seq<File>, inputs1: seq<File>,
                    smallest: UserKey, largest: UserKey, maxFileSize: nat)
    returns (in0: seq<File>, in1: seq<File>)
    requires Picked(levels, level, inputs0, inputs1) && IsRange(inputs0, smallest, largest)
    requires inputs1 == Meeting(levels[level + 1], Some(smallest), Some(largest))
    ensures Picked(levels, level, in0, in1) && in1 == inputs1
    ensures forall f :: f in inputs0 ==> f in in0
    ensures GrownInputs(levels, level, inputs0, in0, in1, maxFileSize)
    ensures GapFree(inputs0 + inputs1) ==> GapFree(in0 + in1)
  {
    in0, in1 := inputs0, inputs1;
    var allStart, allLimit := GetRange(in0 + in1);
    forall f | f in in0 ensures allStart.user <= f.Smallest().user && f.Largest().user <= allLimit.user {
      assert f in in0 + in1;
    }
    var expanded0 := GetOverlappingInputs(levels, level, Some(allStart.user), Some(allLimit.user));
    ExpansionKeepsInputs(levels, level, in0, expanded0, allStart.user, allLimit.user);
    if GapFree(in0 + in1) {
      ExpansionLeavesNoGap(levels, level, in0, in1, expanded0, allStart.user, allLimit.user);
    }
    assert IsOverlapping(levels, level, allStart.user, allLimit.user, expanded0);
    assert Expands(levels, level, inputs0, inputs1, expanded0);
    if |expanded0| > |in0| && TotalFileSize(in1) + TotalFileSize(expanded0) < 25 * maxFileSize {
      in0, in1 := TryExpansion(levels, level, in0, in1, expanded0, smallest, largest, maxFileSize);
    }
  }

  /** Takes the expanded inputs if they meet as many files of the next level as before. */
  method TryExpansion(levels: Levels, level: nat, inputs0: seq<File>, inputs1: seq<File>, expanded0: seq<File>,
                      smallest: UserKey, largest: UserKey, ghost maxFileSize: nat)
    returns (in0: seq<File>, in1: seq<File>)
    requires |expanded0| > |inputs0| && TotalFileSize(inputs1) + TotalFileSize(expanded0) < 25 * maxFileSize
    requires Picked(levels, level, inputs0, inputs1) && IsRange(inputs0, smallest, largest)
    requires inputs1 == Meeting(levels[level + 1], Some(smallest), Some(largest))
    requires forall f :: f in inputs0 ==> f in expanded0
    requires forall f :: f in expanded0 ==> f in levels[level]
    requires expanded0 != [] && (level == 0 ==> TakesOverlaps(levels[0], expanded0))
    ensures Picked(levels, level, in0, in1) && in1 == inputs1
    ensures (forall f :: f in inputs0 ==> f in in0)
    ensures in0 == if MayExpand(levels, level, inputs0, inputs1, expanded0, maxFileSize) then expanded0 else inputs0
  {
    in0, in1 := inputs0, inputs1;
    var newStart, newLimit := GetRange(expanded0);
    var expanded1 := GetOverlappingInputs(levels, level + 1, Some(newStart.user), Some(newLimit.user));
    ExpansionIsDecided(levels, level, inputs0, inputs1, expanded0, newStart.user, newLimit.user, maxFileSize);
    if |expanded1| == |in1| {
      SameSizeSameFiles(levels[level + 1], smallest, largest, newStart.user, newLimit.user);
      assert MeetsRangeOf(levels, level, expanded0, expanded1);
      in0, in1 := expanded0, expanded1;
    }
  }

  lemma ExpansionIsDecided(levels: Levels, level: nat, in0: seq<File>, in1: seq<File>, expanded0: seq<File>,
                           lo: UserKey, hi: UserKey, maxFileSize: nat)
    requires level + 1 < |levels| && Ranged(levels[level + 1]) && IsRange(expanded0, lo, hi)
    requires |expanded0| > |in0| && TotalFileSize(in1) + TotalFileSize(expanded0) < 25 * maxFileSize
    ensures MayExpand(levels, level, in0, in1, expanded0, maxFileSize)
       <==> |Meeting(levels[level + 1], Some(lo), Some(hi))| == |in1|
  {
    forall a, b | IsRange(expanded0, a, b) ensures a == lo && b == hi {
      RangeIsUnique(expanded0, a, b, lo, hi);
    }
  }

  lemma RangeIsNotEmpty(files: seq<File>, chosen: seq<File>, a: UserKey, b: UserKey)
    requires Ranged(files) && IsRange(chosen, a, b) && forall f :: f in chosen ==> f in files
    ensures a <= b
  {
  }

  lemma NextLevelLeavesNoGap(files: seq<File>, next: seq<File>, in0: seq<File>, a: UserKey, b: UserKey)
    requires Ranged(files) && Ranged(next) && GapFree(in0) && IsRange(in0, a, b) && forall f :: f in in0 ==> f in files
    ensures GapFree(in0 + Meeting(next, Some(a), Some(b)))
  {
    RangeIsNotEmpty(files, in0, a, b);
    MeetingGrows(next, a, b);
    GrownIsGapFree(in0, Meeting(next, Some(a), Some(b)), a, b);
  }

  lemma ExpansionLeavesNoGap(levels: Levels, level: nat, in0: seq<File>, in1: seq<File>, expanded0: seq<File>,
                             a: UserKey, b: UserKey)
    requires level < |levels| && Ranged(levels[level]) && GapFree(in0 + in1) && IsRange(in0 + in1, a, b) && a <= b
    requires forall f :: f in in0 ==> f in expanded0
    requires forall f :: f in expanded0 ==> f in levels[level]
    requires level > 0 ==> expanded0 == Meeting(levels[level], Some(a), Some(b))
    requires level == 0 ==> OverlapClosed(levels[0], FileSet(expanded0), Some(a), Some(b))
    requires level == 0 ==> forall Q :: OverlapClosed(levels[0], Q, Some(a), Some(b)) ==> FileSet(expanded0) <= Q
    ensures GapFree(expanded0 + in1)
  {
    if level > 0 {
      MeetingGrows(levels[level], a, b);
    } else {
      LeastClosedGrows(levels[0], expanded0, a, b);
    }
    GrownIsGapFree(in0 + in1, expanded0, a, b);
    SameFilesSameGaps(in0 + in1 + expanded0, expanded0 + in1);
  }

  lemma ExpansionKeepsInputs(levels: Levels, level: nat, in0: seq<File>, expanded0: seq<File>, b: UserKey, e: UserKey)
    requires level < |levels| && Ranged(levels[level]) && in0 != []
    requires forall f :: f in in0 ==> f in levels[level] && b <= f.Smallest().user && f.Largest().user <= e
    requires forall f :: f in expanded0 ==> f in levels[level]
    requires level > 0 ==> expanded0 == Meeting(levels[level], Some(b), Some(e))
    requires level == 0 ==> OverlapClosed(levels[0], FileSet(expanded0), Some(b), Some(e))
    ensures forall f :: f in in0 ==> f in expanded0
    ensures expanded0 != []
    ensures level == 0 ==> TakesOverlaps(levels[0], expanded0)
  {
    assert in0[0] in in0;
    forall f | f in in0 ensures f in expanded0 {
      assert Meets(f, Some(b), Some(e));
      if level == 0 { assert f in FileSet(expanded0); }
    }
    if level == 0 {
      forall f, g | f in expanded0 && g in levels[0] && Overlap(f, g) ensures g in expanded0 {
        assert f in FileSet(expanded0) && g in FileSet(expanded0);
      }
    }
  }

  /** The first file that ends past the compaction pointer, or the first of all. */
  function FirstPast(files: seq<File>, pointer: Option<InternalKey>, from: nat): (i: nat)
    requires files != [] && from <= |files| && forall f :: f in files ==> f.NonEmpty()
    ensures i < |files|
    ensures if i >= from && (pointer.Some? ==> Precedes(pointer.value, files[i].Largest()))
            then forall j :: from <= j < i ==> pointer.Some? && !Precedes(pointer.value, files[j].Largest())
            else i == 0 && forall j :: from <= j < |files| ==>
              pointer.Some? && !Precedes(pointer.value, files[j].Largest())
    decreases |files| - from
  {
    if from == |files| then 0
    else if pointer.None? || Precedes(pointer.value, files[from].Largest()) then from
    else FirstPast(files, pointer, from + 1)
  }

  /** Size-triggered picking: the first file of the level past the compaction pointer, or the first
      file of all; in level 0 together with everything it overlaps. */
  method PickCompaction(levels: Levels, level: nat, compactPointer: Option<InternalKey>, maxFileSize: nat)
    returns (in0: seq<File>, in1: seq<File>)
    requires level + 1 < |levels| && Ranged(levels[level]) && Ranged(levels[level + 1])
    requires levels[level] != []
    ensures Picked(levels, level, in0, in1) && GapFree(in0 + in1)
    ensures levels[level][FirstPast(levels[level], compactPointer, 0)] in in0
  {
    var files := levels[level];
    var inputs := [];
    for i := 0 to |files|
      invariant inputs == [] && FirstPast(files, compactPointer, 0) == FirstPast(files, compactPointer, i)
    {
      assert files[i] in files;
      if compactPointer.None? || Precedes(compactPointer.value, files[i].Largest()) {
        inputs := [files[i]];
        break;
      }
    }
    if inputs == [] { inputs := [files[0]]; }
    assert inputs == [files[FirstPast(files, compactPointer, 0)]];
    in0, in1 := PickAround(levels, level, inputs[0], maxFileSize);
  }

  /** The inputs around one file, however it was chosen: by size or by seeks. */
  method PickAround(levels: Levels, level: nat, seed: File, maxFileSize: nat) returns (in0: seq<File>, in1: seq<File>)
    requires level + 1 < |levels| && Ranged(levels[level]) && Ranged(levels[level + 1]) && seed in levels[level]
    ensures Picked(levels, level, in0, in1) && GapFree(in0 + in1) && seed in in0
  {
    var inputs := [seed];
    SingleIsGapFree(seed);
    if level == 0 { inputs := TakeLevelZeroOverlaps(levels, inputs); }
    in0, in1 := SetupOtherInputs(levels, level, inputs, maxFileSize);
  }

  method TakeLevelZeroOverlaps(levels: Levels, inputs: seq<File>) returns (r: seq<File>)
    requires 0 < |levels| && Ranged(levels[0]) && inputs != [] && forall f :: f in inputs ==> f in levels[0]
    ensures r != [] && (forall f :: f in r ==> f in levels[0]) && TakesOverlaps(levels[0], r)
    ensures forall f :: f in inputs ==> f in r
    ensures GapFree(inputs) ==> GapFree(r)
  {
    var smallest, largest := GetRange(inputs);
    r := GetOverlappingInputs(levels, 0, Some(smallest.user), Some(largest.user));
    ExpansionKeepsInputs(levels, 0, inputs, r, smallest.user, largest.user);
    if GapFree(inputs) {
      RangeIsNotEmpty(levels[0], inputs, smallest.user, largest.user);
      assert inputs + [] == inputs && r + [] == r;
      ExpansionLeavesNoGap(levels, 0, inputs, [], r, smallest.user, largest.user);
    }
  }

  /** The first `n` of the files: as few as reach the limit, or all of them. */
  ghost predicate CutOff(files: seq<File>, n: nat, limit: nat) {
    && 0 < n <= |files| && (forall k :: 0 < k < n ==> TotalFileSize(files[..k]) < limit)
    && (n < |files| ==> TotalFileSize(files[..n]) >= limit)
  }

  /** Manual compaction of a key range; below level 0 the inputs are cut off once they are large.
      Nothing is picked exactly when nothing meets the range. */
  method CompactRange(levels: Levels, level: nat, begin: Option<UserKey>, end: Option<UserKey>, maxFileSize: nat)
    returns (in0: seq<File>, in1: seq<File>)
    requires level + 1 < |levels| && Ranged(levels[level]) && Ranged(levels[level + 1])
    ensures in0 == [] <==> Meeting(levels[level], begin, end) == []
    ensures in0 != [] ==> Picked(levels, level, in0, in1)
    ensures level == 0 ==> forall f :: f in Meeting(levels[0], begin, end) ==> f in in0
    ensures in0 != [] && level > 0 ==>
              var all := Meeting(levels[level], begin, end);
              exists n: nat :: CutOff(all, n, maxFileSize) && MeetsRangeOf(levels, level, all[..n], in1)
                          && forall f :: f in all[..n] ==> f in in0
  {
    var inputs := GetOverlappingInputs(levels, level, begin, end);
    ghost var all := Meeting(levels[level], begin, end);
    RangeInputsAreAll(levels, level, begin, end, inputs);
    if inputs == [] { return [], []; }
    if level > 0 {
      inputs := CutInputs(inputs, maxFileSize);
    } else {
      ClosedTakesOverlaps(levels[0], inputs, begin, end);
    }
    in0, in1 := SetupOtherInputs(levels, level, inputs, maxFileSize);
    assert inputs[0] in inputs;
  }

  method CutInputs(inputs: seq<File>, limit: nat) returns (r: seq<File>)
    requires inputs != []
    ensures CutOff(inputs, |r|, limit) && r == inputs[..|r|]
  {
    var total := 0;
    for i := 0 to |inputs|
      invariant total == TotalFileSize(inputs[..i]) && forall k :: 0 < k <= i ==> TotalFileSize(inputs[..k]) < limit
    {
      assert inputs[..i + 1][..i] == inputs[..i];
      total := total + inputs[i].size;
      if total >= limit {
        return inputs[..i + 1];
      }
    }
    return inputs;
  }

  lemma FirstIsInSet(files: seq<File>)
    ensures files != [] ==> FileSet(files) != {}
  {
    if files != [] {
      assert files[0] in FileSet(files);
    }
  }

  lemma RangeInputsAreAll(levels: Levels, level: nat, begin: Option<UserKey>, end: Option<UserKey>, inputs: seq<File>)
    requires level < |levels| && Ranged(levels[level]) && forall f :: f in inputs ==> f in levels[level]
    requires level > 0 ==> inputs == Meeting(levels[level], begin, end)
    requires level == 0 ==> OverlapClosed(levels[0], FileSet(inputs), begin, end)
    requires level == 0 ==> forall Q :: OverlapClosed(levels[0], Q, begin, end) ==> FileSet(inputs) <= Q
    ensures inputs == [] <==> Meeting(levels[level], begin, end) == []
    ensures forall f :: f in Meeting(levels[level], begin, end) ==> f in inputs
  {
    var all := Meeting(levels[level], begin, end);
    if level == 0 {
      forall f | f in all ensures f in inputs {
        assert f in FileSet(inputs);
      }
      if all == [] {
        assert forall f :: f in levels[0] ==> f !in all;
        assert OverlapClosed(levels[0], {}, begin, end);
        assert FileSet(inputs) <= {};
        FirstIsInSet(inputs);
      }
    }
    assert all != [] ==> all[0] in all;
  }

  lemma ClosedTakesOverlaps(files: seq<File>, chosen: seq<File>, begin: Option<UserKey>, end: Option<UserKey>)
    requires Ranged(files) && OverlapClosed(files, FileSet(chosen), begin, end)
    requires forall f :: f in chosen ==> f in files
    ensures TakesOverlaps(files, chosen)
  {
    forall f, g | f in chosen && g in files && Overlap(f, g) ensures g in chosen {
      assert f in FileSet(chosen) && g in FileSet(chosen);
    }
  }
}
