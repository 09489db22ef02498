/** Replaying the manifest (db/version_set.cc: VersionSet::Builder, LogAndApply, Recover, WriteSnapshot).

    Recovery folds all edits of the manifest into one builder and saves once; the running engine saved
    after every edit.  The two agree when no file number is added to a level twice. */
module Manifest {
  import opened Wrappers
  import opened InternalKeys
  import opened Version
  import opened Builder

  ghost predicate AllValid(edits: seq<Edit>) {
    forall i :: 0 <= i < |edits| ==> ValidEdit(edits[i])
  }

  /** All additions of a list of edits, in order. */
  ghost function AllAdds(edits: seq<Edit>): seq<Addition> {
    if edits == [] then [] else AllAdds(edits[..|edits| - 1]) + edits[|edits| - 1].added
  }

  /** Many edits folded into the state of one level. */
  ghost function Folded(edits: seq<Edit>, level: nat): (st: LevelState)
    requires AllValid(edits)
    ensures Ordered(st.added)
  {
    if edits == [] then EMPTY
    else ApplyToLevel(Folded(edits[..|edits| - 1], level), edits[|edits| - 1], level)
  }

  /** The level after the edits, saved after each of them. */
  ghost function OneByOne(base: seq<File>, edits: seq<Edit>, level: nat): (r: seq<File>)
    requires AllNonEmpty(base) && AllValid(edits)
    ensures AllNonEmpty(r)
  {
    if edits == [] then base
    else InstallLevel(OneByOne(base, edits[..|edits| - 1], level), edits[|edits| - 1], level)
  }

  ghost predicate AllNonEmpty(files: seq<File>) {
    forall f :: f in files ==> f.NonEmpty()
  }

  ghost function Numbers(files: seq<File>): set<nat> {
    set f | f in files :: f.number
  }

  /** What saving a builder keeps. */
  ghost predicate Survives(base: seq<File>, st: LevelState, f: File) {
    (f in base || f in st.added) && f.number !in st.deleted
  }

  /** Folding in one more edit has on the saved files the effect that the edit has by itself. */
  lemma FoldStep(base: seq<File>, st: LevelState, edit: Edit, level: nat, f: File)
    requires Ordered(st.added) && ValidEdit(edit)
    requires FreshNumbers(Numbers(base) + Numbers(st.added), edit.added, level)
    ensures Survives(base, ApplyToLevel(st, edit, level), f)
        <==> (Survives(base, st, f) && (level, f.number) !in edit.deleted) || f in FilesAdded(edit.added, level)
  {
    var gone := set d | d in edit.deleted && d.0 == level :: d.1;
    assert f.number in gone <==> (level, f.number) in edit.deleted;
    AddFilesContents(LevelState(st.deleted + gone, st.added), edit.added, level, Numbers(base) + Numbers(st.added));
    if f in base || f in st.added {
      assert f.number in Numbers(base) + Numbers(st.added);
      forall g | g in FilesAdded(edit.added, level) ensures g.number != f.number {
        var a :| a in edit.added && a.level == level && a.file == g;
      }
    }
  }

  lemma {:induction false} OrderedUnique(a: seq<File>, b: seq<File>)
    requires Ordered(a) && Ordered(b) && forall f :: f in a <==> f in b
    ensures a == b
  {
    assert b == [] || b[0] in a;
    if a != [] {
      assert a[0] in b;
      HeadIsLeast(a, b[0]);
      HeadIsLeast(b, a[0]);
      assert a[0] == b[0];
      forall f ensures f in a[1..] <==> f in b[1..] {
        Tail(a, f);
        Tail(b, f);
      }
      OrderedUnique(a[1..], b[1..]);
    }
  }

  lemma Tail(files: seq<File>, f: File)
    requires Ordered(files) && files != []
    ensures f in files[1..] <==> f in files && f != files[0]
  {
    if f in files && f != files[0] {
      var i :| 0 <= i < |files| && files[i] == f;
      assert files[1..][i - 1] == f;
    }
  }

  ghost function NumbersAdded(adds: seq<Addition>, level: nat): set<nat> {
    set a | a in adds && a.level == level :: a.file.number
  }

  lemma FreshParts(used: set<nat>, first: seq<Addition>, second: seq<Addition>, level: nat)
    requires FreshNumbers(used, first + second, level)
    ensures FreshNumbers(used, first, level)
    ensures FreshNumbers(used + NumbersAdded(first, level), second, level)
  {
    var all := first + second;
    forall i, j | 0 <= i < j < |first| && first[i].level == level && first[j].level == level
      ensures first[i].file.number != first[j].file.number
    {
      assert all[i] == first[i] && all[j] == first[j];
    }
    forall i, j | 0 <= i < j < |second| && second[i].level == level && second[j].level == level
      ensures second[i].file.number != second[j].file.number
    {
      assert all[|first| + i] == second[i] && all[|first| + j] == second[j];
    }
    forall a | a in second && a.level == level ensures a.file.number !in used + NumbersAdded(first, level) {
      assert a in all;
      var j :| 0 <= j < |second| && second[j] == a;
      forall b | b in first && b.level == level ensures b.file.number != a.file.number {
        var i :| 0 <= i < |first| && first[i] == b;
        assert all[i] == b && all[|first| + j] == a;
      }
    }
  }

  /** A builder over `base` and a list of saved files agree, when `adds` were added so far. */
  ghost predicate Agree(base: seq<File>, adds: seq<Addition>, st: LevelState, saved: seq<File>, level: nat) {
    && Ordered(st.added) && Ordered(saved)
    && (forall f :: f in st.added ==> f in FilesAdded(adds, level))
    && (forall f :: f in saved ==> f in base || f in FilesAdded(adds, level))
    && (forall f :: f in saved <==> Survives(base, st, f))
  }

  lemma SeenNumbers(files: seq<File>, base: seq<File>, adds: seq<Addition>, level: nat, used: set<nat>)
    requires Numbers(base) <= used && forall f :: f in files ==> f in base || f in FilesAdded(adds, level)
    ensures Numbers(files) <= used + NumbersAdded(adds, level)
  {
    forall f | f in files ensures f.number in used + NumbersAdded(adds, level) {
      if f in base {
        assert f.number in Numbers(base);
      } else {
        var a :| a in adds && a.level == level && a.file == f;
      }
    }
  }

  lemma FewerUsed(fewer: set<nat>, used: set<nat>, adds: seq<Addition>, level: nat)
    requires fewer <= used && FreshNumbers(used, adds, level)
    ensures FreshNumbers(fewer, adds, level)
  {
  }

  /** One more edit keeps the agreement. */
  lemma AgreeStep(base: seq<File>, adds: seq<Addition>, st: LevelState, saved: seq<File>, level: nat, edit: Edit,
                  used: set<nat>)
    requires Agree(base, adds, st, saved, level) && ValidEdit(edit) && Numbers(base) <= used
    requires FreshNumbers(used + NumbersAdded(adds, level), edit.added, level)
    ensures Agree(base, adds + edit.added, ApplyToLevel(st, edit, level), InstallLevel(saved, edit, level), level)
  {
    SeenNumbers(saved, base, adds, level, used);
    SeenNumbers(st.added, base, adds, level, used);
    FewerUsed(Numbers(saved), used + NumbersAdded(adds, level), edit.added, level);
    FewerUsed(Numbers(base) + Numbers(st.added), used + NumbersAdded(adds, level), edit.added, level);
    InstallContents(saved, edit, level);
    AppliedFiles(st, edit, level, Numbers(st.added));
    forall f ensures f in InstallLevel(saved, edit, level) <==> Survives(base, ApplyToLevel(st, edit, level), f) {
      FoldStep(base, st, edit, level, f);
    }
    assert forall f :: f in FilesAdded(adds + edit.added, level)
                  <==> f in FilesAdded(adds, level) || f in FilesAdded(edit.added, level);
  }

  lemma AppliedFiles(st: LevelState, edit: Edit, level: nat, used: set<nat>)
    requires Ordered(st.added) && ValidEdit(edit) && Numbers(st.added) <= used
    requires FreshNumbers(used, edit.added, level)
    ensures forall f :: f in ApplyToLevel(st, edit, level).added ==> f in st.added || f in FilesAdded(edit.added, level)
  {
    var gone := set d | d in edit.deleted && d.0 == level :: d.1;
    AddFilesContents(LevelState(st.deleted + gone, st.added), edit.added, level, used);
  }

  lemma {:induction false} FoldingAgrees(base: seq<File>, edits: seq<Edit>, level: nat, used: set<nat>)
    requires Ordered(base) && AllNonEmpty(base) && AllValid(edits) && Numbers(base) <= used
    requires FreshNumbers(used, AllAdds(edits), level)
    ensures Agree(base, AllAdds(edits), Folded(edits, level), OneByOne(base, edits, level), level)
  {
    if edits != [] {
      var init, last := edits[..|edits| - 1], edits[|edits| - 1];
      FreshParts(used, AllAdds(init), last.added, level);
      FoldingAgrees(base, init, level, used);
      AgreeStep(base, AllAdds(init), Folded(init, level), OneByOne(base, init, level), level, last, used);
    }
  }

  /** Saving once gives the list that saving after every edit gives. */
  lemma SavingOnceIsEnough(base: seq<File>, edits: seq<Edit>, level: nat)
    requires Ordered(base) && AllNonEmpty(base) && AllValid(edits)
    requires FreshNumbers(Numbers(base), AllAdds(edits), level)
    ensures SaveLevel(base, Folded(edits, level)) == OneByOne(base, edits, level)
  {
    var st := Folded(edits, level);
    FoldingAgrees(base, edits, level, Numbers(base));
    forall f, g | f in base && g in st.added ensures f.number != g.number {
      assert f.number in Numbers(base);
      var a :| a in AllAdds(edits) && a.level == level && a.file == g;
    }
    MergeIsOrdered(base, st.added, st.deleted);
    OrderedUnique(SaveLevel(base, st), OneByOne(base, edits, level));
  }

  // ------------------------------------------------------------ whole manifests

  /** One record of the manifest. */
  datatype VersionEdit = VersionEdit(logNumber: Option<nat>, nextFile: Option<nat>, lastSequence: Option<nat>,
                                     files: Edit)

  ghost function Files(manifest: seq<VersionEdit>): (r: seq<Edit>)
    ensures ValidManifest(manifest) ==> AllValid(r)
  {
    seq(|manifest|, i requires 0 <= i < |manifest| => manifest[i].files)
  }

  ghost predicate ValidManifest(manifest: seq<VersionEdit>) {
    forall i :: 0 <= i < |manifest| ==> ValidEdit(manifest[i].files)
  }

  /** No file number is added twice to one level. */
  ghost predicate NeverReused(manifest: seq<VersionEdit>) {
    forall l :: 0 <= l < NUM_LEVELS ==> FreshNumbers({}, AllAdds(Files(manifest)), l)
  }

  function Latest(manifest: seq<VersionEdit>, field: VersionEdit -> Option<nat>): Option<nat> {
    if manifest == [] then None
    else if field(manifest[|manifest| - 1]).Some? then field(manifest[|manifest| - 1])
    else Latest(manifest[..|manifest| - 1], field)
  }

  /** What recovery makes of a manifest: a version saved once, and the latest value of each number. */
  ghost function Replay(manifest: seq<VersionEdit>): Option<Catalog>
    requires ValidManifest(manifest)
  {
    var logNumber := Latest(manifest, (e: VersionEdit) => e.logNumber);
    var nextFile := Latest(manifest, (e: VersionEdit) => e.nextFile);
    var lastSequence := Latest(manifest, (e: VersionEdit) => e.lastSequence);
    if nextFile == None || logNumber == None || lastSequence == None then None
    else Some(Catalog(seq(NUM_LEVELS, l requires 0 <= l < NUM_LEVELS => SaveLevel([], Folded(Files(manifest), l))),
                      logNumber.value, nextFile.value, lastSequence.value))
  }

  /** The latest value is that of the last record that has one. */
  lemma {:induction false} LatestIs(manifest: seq<VersionEdit>, field: VersionEdit -> Option<nat>)
    ensures match Latest(manifest, field)
            case None => forall i :: 0 <= i < |manifest| ==> field(manifest[i]) == None
            case Some(v) => exists i :: 0 <= i < |manifest| && field(manifest[i]) == Some(v)
                                 && forall j :: i < j < |manifest| ==> field(manifest[j]) == None
  {
    if manifest != [] && field(manifest[|manifest| - 1]) == None {
      LatestIs(manifest[..|manifest| - 1], field);
    }
  }

  /** Recovery succeeds if and only if the manifest has a log number, a next file number and a last sequence
      number. */
  lemma ReplaysExactlyWhen(manifest: seq<VersionEdit>)
    requires ValidManifest(manifest)
    ensures Replay(manifest).Some? <==>
            && (exists e :: e in manifest && e.logNumber.Some?)
            && (exists e :: e in manifest && e.nextFile.Some?)
            && (exists e :: e in manifest && e.lastSequence.Some?)
  {
    LatestIs(manifest, (e: VersionEdit) => e.logNumber);
    LatestIs(manifest, (e: VersionEdit) => e.nextFile);
    LatestIs(manifest, (e: VersionEdit) => e.lastSequence);
  }

  /** The running engine logs every number with every edit. */
  ghost predicate Complete(edits: seq<VersionEdit>) {
    forall i :: 0 <= i < |edits| ==> edits[i].logNumber.Some? && edits[i].nextFile.Some? && edits[i].lastSequence.Some?
  }

  ghost predicate Wellformed(levels: Levels) {
    |levels| == NUM_LEVELS && forall l :: 0 <= l < NUM_LEVELS ==> AllNonEmpty(levels[l])
  }

  /** The state of the running engine after logging and applying the edits one at a time. */
  ghost function Live(c: Catalog, edits: seq<VersionEdit>): (r: Catalog)
    requires Wellformed(c.levels) && ValidManifest(edits) && Complete(edits)
    ensures Wellformed(r.levels)
    decreases |edits|
  {
    if edits == [] then c else
      var init, last := edits[..|edits| - 1], edits[|edits| - 1];
      LevelsNonEmpty(Live(c, init).levels);
      var levels := InstallEdit(Live(c, init).levels, last.files);
      Catalog(levels, last.logNumber.value, last.nextFile.value, last.lastSequence.value)
  }

  lemma LevelsNonEmpty(levels: Levels)
    requires Wellformed(levels)
    ensures forall l, f :: 0 <= l < NUM_LEVELS && f in levels[l] ==> f.NonEmpty()
  {
  }

  lemma {:induction false} LiveLevel(c: Catalog, edits: seq<VersionEdit>, l: nat)
    requires Wellformed(c.levels) && ValidManifest(edits) && Complete(edits) && l < NUM_LEVELS
    ensures Live(c, edits).levels[l] == OneByOne(c.levels[l], Files(edits), l)
  {
    if edits != [] {
      LiveLevel(c, edits[..|edits| - 1], l);
      assert Files(edits)[..|edits| - 1] == Files(edits[..|edits| - 1]);
    }
  }

  lemma {:induction false} OneByOneStarts(base: seq<File>, first: Edit, edits: seq<Edit>, level: nat)
    requires AllNonEmpty(base) && ValidEdit(first) && AllValid(edits) && AllValid([first] + edits)
    ensures OneByOne(base, [first] + edits, level) == OneByOne(InstallLevel(base, first, level), edits, level)
  {
    var all := [first] + edits;
    if edits == [] {
      assert all[..|all| - 1] == [] && all[|all| - 1] == first;
    } else {
      assert all[..|all| - 1] == [first] + edits[..|edits| - 1];
      OneByOneStarts(base, first, edits[..|edits| - 1], level);
    }
  }

  // ---------------------------------------------------------------- snapshots

  /** The additions WriteSnapshot writes: all files, level by level. */
  function Listing(levels: Levels, n: nat): (r: seq<Addition>)
    requires n <= |levels|
    ensures forall a :: a in r <==> a.level < n && a.file in levels[a.level]
  {
    if n == 0 then [] else
      Listing(levels, n - 1) + LevelListing(n - 1, levels[n - 1])
  }

  function LevelListing(level: nat, files: seq<File>): (r: seq<Addition>)
    ensures forall a :: a in r <==> a.level == level && a.file in files
  {
    if files == [] then [] else [Addition(level, files[0])] + LevelListing(level, files[1..])
  }

  function Snapshot(levels: Levels): VersionEdit
    requires |levels| == NUM_LEVELS
  {
    VersionEdit(None, None, None, Edit({}, Listing(levels, NUM_LEVELS)))
  }

  /** A snapshot rebuilds every level of the version it was taken of. */
  lemma SnapshotRebuilds(levels: Levels, l: nat)
    requires Wellformed(levels) && l < NUM_LEVELS && Ordered(levels[l])
    requires FreshNumbers({}, Snapshot(levels).files.added, l)
    ensures InstallLevel([], Snapshot(levels).files, l) == levels[l]
  {
    var edit := Snapshot(levels).files;
    assert Numbers([]) == {};
    InstallContents([], edit, l);
    forall f ensures f in InstallLevel([], edit, l) <==> f in levels[l] {
      if f in levels[l] { assert Addition(l, f) in edit.added; }
    }
    OrderedUnique(InstallLevel([], edit, l), levels[l]);
  }

  lemma {:induction false} AllAddsStarts(first: Edit, edits: seq<Edit>)
    ensures AllAdds([first] + edits) == first.added + AllAdds(edits)
  {
    var all := [first] + edits;
    if edits == [] {
      assert all == [first] && all[..|all| - 1] == [] && AllAdds(all[..|all| - 1]) == [];
    } else {
      AllAddsStarts(first, edits[..|edits| - 1]);
      assert all[..|all| - 1] == [first] + edits[..|edits| - 1] && all[|all| - 1] == edits[|edits| - 1];
    }
  }

  lemma {:induction false} LatestIsLast(first: VersionEdit, edits: seq<VersionEdit>, field: VersionEdit -> Option<nat>)
    requires edits != [] && field(edits[|edits| - 1]).Some?
    ensures Latest([first] + edits, field) == field(edits[|edits| - 1])
  {
  }

  lemma SnapshotIsValid(levels: Levels)
    requires Wellformed(levels)
    ensures ValidEdit(Snapshot(levels).files)
  {
  }

  /** One level of a manifest that starts with a snapshot replays to the level of the running engine. */
  lemma LevelReplays(c: Catalog, edits: seq<VersionEdit>, l: nat)
    requires Wellformed(c.levels) && ValidManifest(edits) && Complete(edits) && AllOrdered(c.levels) && l < NUM_LEVELS
    requires FreshNumbers({}, AllAdds([Snapshot(c.levels).files] + Files(edits)), l)
    requires AllValid([Snapshot(c.levels).files] + Files(edits))
    ensures SaveLevel([], Folded([Snapshot(c.levels).files] + Files(edits), l)) == Live(c, edits).levels[l]
  {
    var first := Snapshot(c.levels).files;
    AllAddsStarts(first, Files(edits));
    FreshParts({}, first.added, AllAdds(Files(edits)), l);
    SnapshotRebuilds(c.levels, l);
    assert Numbers([]) == {};
    SavingOnceIsEnough([], [first] + Files(edits), l);
    SnapshotIsValid(c.levels);
    OneByOneStarts([], first, Files(edits), l);
    LiveLevel(c, edits, l);
  }

  /** Replaying a snapshot and the edits logged since gives the state of the running engine. */
  lemma ManifestReplays(c: Catalog, edits: seq<VersionEdit>)
    requires Wellformed(c.levels) && AllOrdered(c.levels) && ValidManifest(edits) && Complete(edits) && edits != []
    requires NeverReused([Snapshot(c.levels)] + edits)
    ensures ValidManifest([Snapshot(c.levels)] + edits)
    ensures Replay([Snapshot(c.levels)] + edits) == Some(Live(c, edits))
  {
    var manifest := [Snapshot(c.levels)] + edits;
    SnapshotIsValid(c.levels);
    assert Files(manifest) == [Snapshot(c.levels).files] + Files(edits);
    LatestIsLast(Snapshot(c.levels), edits, (e: VersionEdit) => e.logNumber);
    LatestIsLast(Snapshot(c.levels), edits, (e: VersionEdit) => e.nextFile);
    LatestIsLast(Snapshot(c.levels), edits, (e: VersionEdit) => e.lastSequence);
    forall l | 0 <= l < NUM_LEVELS
      ensures Replay(manifest).value.levels[l] == Live(c, edits).levels[l]
    {
      LevelReplays(c, edits, l);
    }
    assert Replay(manifest).value.levels == Live(c, edits).levels;
  }

  // ----------------------------------------------------- growing manifests

  /** The record carries the numbers of the catalog. */
  ghost predicate EndsAt(edit: VersionEdit, c: Catalog) {
    edit.logNumber == Some(c.logNumber) && edit.nextFile == Some(c.nextFile)
      && edit.lastSequence == Some(c.lastSequence)
  }

  /** Folding the manifest and saving after every edit agree on one level. */
  ghost predicate LevelDescribed(manifest: seq<VersionEdit>, files: seq<File>, l: nat)
    requires ValidManifest(manifest)
  {
    Agree([], AllAdds(Files(manifest)), Folded(Files(manifest), l), files, l)
  }

  /** The manifest stands for the version, whatever is logged next under new numbers. */
  ghost predicate DescribesLevels(manifest: seq<VersionEdit>, levels: Levels) {
    && ValidManifest(manifest) && NeverReused(manifest) && Wellformed(levels)
    && forall l :: 0 <= l < NUM_LEVELS ==> LevelDescribed(manifest, levels[l], l)
  }

  ghost predicate Describes(manifest: seq<VersionEdit>, c: Catalog) {
    DescribesLevels(manifest, c.levels) && manifest != [] && EndsAt(manifest[|manifest| - 1], c)
  }

  lemma DescribedLevelReplays(manifest: seq<VersionEdit>, files: seq<File>, l: nat)
    requires ValidManifest(manifest) && LevelDescribed(manifest, files, l)
    ensures SaveLevel([], Folded(Files(manifest), l)) == files
  {
    var st := Folded(Files(manifest), l);
    MergeIsOrdered([], st.added, st.deleted);
    OrderedUnique(SaveLevel([], st), files);
  }

  /** A manifest that describes a catalog replays to it. */
  lemma DescribedIsReplayed(manifest: seq<VersionEdit>, c: Catalog)
    requires Describes(manifest, c)
    ensures Replay(manifest) == Some(c)
  {
    forall l | 0 <= l < NUM_LEVELS ensures SaveLevel([], Folded(Files(manifest), l)) == c.levels[l] {
      DescribedLevelReplays(manifest, c.levels[l], l);
    }
    assert Replay(manifest).value.levels == c.levels;
  }

  /** Additions under numbers not used before keep all numbers fresh. */
  lemma FreshJoin(adds: seq<Addition>, more: seq<Addition>, l: nat)
    requires FreshNumbers({}, adds, l) && FreshNumbers(NumbersAdded(adds, l), more, l)
    ensures FreshNumbers({}, adds + more, l)
  {
    var all := adds + more;
    forall i, j | 0 <= i < j < |all| && all[i].level == l && all[j].level == l
      ensures all[i].file.number != all[j].file.number
    {
      if j >= |adds| {
        assert all[j] == more[j - |adds|] && more[j - |adds|] in more;
        if i < |adds| {
          assert all[i] in adds && all[i].file.number in NumbersAdded(adds, l);
        } else {
          assert all[i] == more[i - |adds|];
        }
      }
    }
  }

  lemma FilesAppend(manifest: seq<VersionEdit>, edit: VersionEdit)
    ensures Files(manifest + [edit]) == Files(manifest) + [edit.files]
    ensures AllAdds(Files(manifest + [edit])) == AllAdds(Files(manifest)) + edit.files.added
  {
    var all := Files(manifest + [edit]);
    assert all[..|all| - 1] == Files(manifest);
  }

  lemma LevelDescribedAppends(manifest: seq<VersionEdit>, files: seq<File>, edit: VersionEdit, l: nat)
    requires ValidManifest(manifest) && LevelDescribed(manifest, files, l) && ValidEdit(edit.files)
    requires FreshNumbers(NumbersAdded(AllAdds(Files(manifest)), l), edit.files.added, l)
    ensures ValidManifest(manifest + [edit])
    ensures LevelDescribed(manifest + [edit], InstallLevel(files, edit.files, l), l)
  {
    FilesAppend(manifest, edit);
    FoldedAppends(Files(manifest), edit.files, l);
    EditAgrees(AllAdds(Files(manifest)), Folded(Files(manifest), l), files, edit.files, l);
  }

  lemma FoldedAppends(edits: seq<Edit>, edit: Edit, l: nat)
    requires AllValid(edits) && ValidEdit(edit)
    ensures AllValid(edits + [edit])
    ensures Folded(edits + [edit], l) == ApplyToLevel(Folded(edits, l), edit, l)
  {
    assert (edits + [edit])[..|edits|] == edits;
  }

  lemma EditAgrees(adds: seq<Addition>, st: LevelState, saved: seq<File>, edit: Edit, l: nat)
    requires Agree([], adds, st, saved, l) && ValidEdit(edit) && FreshNumbers(NumbersAdded(adds, l), edit.added, l)
    ensures Agree([], adds + edit.added, ApplyToLevel(st, edit, l), InstallLevel(saved, edit, l), l)
  {
    assert {} + NumbersAdded(adds, l) == NumbersAdded(adds, l);
    AgreeStep([], adds, st, saved, l, edit, {});
  }

  /** The edit adds no number that the manifest has added to the same level. */
  ghost predicate AddsNewNumbers(manifest: seq<VersionEdit>, edit: Edit) {
    forall l :: 0 <= l < NUM_LEVELS ==> FreshNumbers(NumbersAdded(AllAdds(Files(manifest)), l), edit.added, l)
  }

  /** The levels that the edit makes of others. */
  ghost predicate Installs(levels: Levels, edit: Edit, after: Levels)
    requires Wellformed(levels) && ValidEdit(edit)
  {
    && |after| == NUM_LEVELS
    && forall l :: 0 <= l < NUM_LEVELS ==> after[l] == InstallLevel(levels[l], edit, l)
  }

  lemma NeverReusedAppends(manifest: seq<VersionEdit>, edit: VersionEdit)
    requires NeverReused(manifest) && AddsNewNumbers(manifest, edit.files)
    ensures NeverReused(manifest + [edit])
  {
    FilesAppend(manifest, edit);
    forall l | 0 <= l < NUM_LEVELS ensures FreshNumbers({}, AllAdds(Files(manifest + [edit])), l) {
      FreshJoin(AllAdds(Files(manifest)), edit.files.added, l);
    }
  }

  /** Logging one more edit and applying it keeps the description. */
  lemma DescribesAppends(manifest: seq<VersionEdit>, levels: Levels, edit: VersionEdit, after: Catalog)
    requires DescribesLevels(manifest, levels) && ValidEdit(edit.files) && EndsAt(edit, after)
    requires AddsNewNumbers(manifest, edit.files) && Installs(levels, edit.files, after.levels)
    ensures Describes(manifest + [edit], after)
  {
    NeverReusedAppends(manifest, edit);
    forall l | 0 <= l < NUM_LEVELS
      ensures LevelDescribed(manifest + [edit], after.levels[l], l) && AllNonEmpty(after.levels[l])
    {
      LevelDescribedAppends(manifest, levels[l], edit, l);
    }
  }

  /** The files of a level carry different numbers. */
  ghost predicate NumbersDiffer(files: seq<File>) {
    forall i, j :: 0 <= i < j < |files| ==> files[i].number != files[j].number
  }

  lemma {:induction false} LevelListingIsFresh(level: nat, files: seq<File>)
    requires NumbersDiffer(files)
    ensures FreshNumbers({}, LevelListing(level, files), level)
  {
    if files != [] {
      LevelListingIsFresh(level, files[1..]);
      forall a | a in LevelListing(level, files[1..]) ensures a.file.number != files[0].number {
        var k :| 0 <= k < |files[1..]| && files[1..][k] == a.file;
        assert files[k + 1] == a.file;
      }
    }
  }

  lemma {:induction false} ListingIsFresh(levels: Levels, n: nat, l: nat)
    requires n <= |levels| && l < |levels| && NumbersDiffer(levels[l])
    ensures FreshNumbers({}, Listing(levels, n), l)
  {
    if n > 0 {
      ListingIsFresh(levels, n - 1, l);
      if l == n - 1 { LevelListingIsFresh(l, levels[l]); }
      assert n - 1 != l ==> NumbersAdded(LevelListing(n - 1, levels[n - 1]), l) == {};
      assert NumbersAdded(Listing(levels, n - 1), n - 1) == {};
      FreshJoin(Listing(levels, n - 1), LevelListing(n - 1, levels[n - 1]), l);
    }
  }

  /** A new manifest describes the version its snapshot was taken of. */
  lemma SnapshotLevelDescribed(levels: Levels, l: nat)
    requires Wellformed(levels) && l < NUM_LEVELS && Ordered(levels[l]) && NumbersDiffer(levels[l])
    ensures ValidManifest([Snapshot(levels)]) && LevelDescribed([Snapshot(levels)], levels[l], l)
    ensures FreshNumbers({}, AllAdds(Files([Snapshot(levels)])), l)
  {
    var edit := Snapshot(levels);
    SnapshotIsValid(levels);
    ListingIsFresh(levels, NUM_LEVELS, l);
    SnapshotRebuilds(levels, l);
    FilesAppend([], edit);
    assert [] + [edit] == [edit] && AllAdds(Files([])) == [];
    assert NumbersAdded([], l) == {};
    assert Folded(Files([]), l) == EMPTY;
    LevelDescribedAppends([], [], edit, l);
  }

  lemma SnapshotAdds(levels: Levels)
    requires |levels| == NUM_LEVELS
    ensures AllAdds(Files([Snapshot(levels)])) == Listing(levels, NUM_LEVELS)
    ensures forall l :: 0 <= l < NUM_LEVELS ==> NumbersAdded(Listing(levels, NUM_LEVELS), l) == Numbers(levels[l])
  {
    FilesAppend([], Snapshot(levels));
    assert [] + [Snapshot(levels)] == [Snapshot(levels)] && AllAdds(Files([])) == [];
    forall l | 0 <= l < NUM_LEVELS ensures NumbersAdded(Listing(levels, NUM_LEVELS), l) == Numbers(levels[l]) {
      forall f | f in levels[l] ensures f.number in NumbersAdded(Listing(levels, NUM_LEVELS), l) {
        assert Addition(l, f) in Listing(levels, NUM_LEVELS);
      }
    }
  }

  /** Opening writes a new manifest: a snapshot of the version recovered and the edit of the recovery. */
  lemma OpenedDescribes(levels: Levels, edit: VersionEdit, after: Catalog)
    requires Wellformed(levels) && AllOrdered(levels) && ValidEdit(edit.files) && EndsAt(edit, after)
    requires forall l :: 0 <= l < NUM_LEVELS ==> NumbersDiffer(levels[l])
    requires forall l :: 0 <= l < NUM_LEVELS ==> FreshNumbers(Numbers(levels[l]), edit.files.added, l)
    requires Installs(levels, edit.files, after.levels)
    ensures Describes([Snapshot(levels), edit], after)
  {
    var first := [Snapshot(levels)];
    forall l | 0 <= l < NUM_LEVELS
      ensures ValidManifest(first) && LevelDescribed(first, levels[l], l) && FreshNumbers({}, AllAdds(Files(first)), l)
    {
      SnapshotLevelDescribed(levels, l);
    }
    SnapshotAdds(levels);
    assert first + [edit] == [Snapshot(levels), edit];
    DescribesAppends(first, levels, edit, after);
  }

  // ---------------------------------------------------------- reused numbers

  /** A file of one entry. */
  function OneEntryFile(number: nat, user: int, sequence: nat): (f: File)
    ensures f.NonEmpty()
  {
    File(number, 1, [Entry(InternalKey(user, sequence, Value), "")])
  }

  function AddOne(level: nat, f: File): Edit { Edit({}, [Addition(level, f)]) }

  function DeleteOne(level: nat, number: nat): Edit { Edit({(level, number)}, []) }

  lemma AddOneApplies(st: LevelState, level: nat, f: File)
    requires Ordered(st.added) && f.NonEmpty()
    ensures ApplyToLevel(st, AddOne(level, f), level) == AddFile(st, f)
  {
    var gone := set d | d in AddOne(level, f).deleted && d.0 == level :: d.1;
    assert LevelState(st.deleted + gone, st.added) == st;
    var adds := AddOne(level, f).added;
    assert adds[..|adds| - 1] == [] && adds[|adds| - 1] == Addition(level, f);
    assert AddFiles(st, [], level) == st;
  }

  lemma DeleteOneApplies(st: LevelState, level: nat, number: nat)
    requires Ordered(st.added)
    ensures ApplyToLevel(st, DeleteOne(level, number), level) == LevelState(st.deleted + {number}, st.added)
  {
    var gone := set d | d in DeleteOne(level, number).deleted && d.0 == level :: d.1;
    assert (level, number) in DeleteOne(level, number).deleted;
    assert gone == {number};
  }

  /** Without fresh numbers the two differ: a number added, deleted and added again brings back the
      first file when the edits are folded into one builder. */
  lemma ReusedNumberComesBack(f: File, g: File)
    requires f == OneEntryFile(7, 1, 5) && g == OneEntryFile(7, 2, 6)
    ensures var edits := [AddOne(1, f), DeleteOne(1, 7), AddOne(1, g)];
            && AllValid(edits) && f in SaveLevel([], Folded(edits, 1)) && f !in OneByOne([], edits, 1)
  {
    var edits := [AddOne(1, f), DeleteOne(1, 7), AddOne(1, g)];
    assert edits[..2] == [AddOne(1, f), DeleteOne(1, 7)];
    assert Folded(edits[..2], 1) == LevelState({7}, [f]) by {
      FoldedTwo(f, edits[..2]);
    }
    AddOneApplies(LevelState({7}, [f]), 1, g);
    DeletedOne(f, edits[..2]);
    InstallContents(OneByOne([], edits[..2], 1), AddOne(1, g), 1);
  }

  lemma FoldedTwo(f: File, edits: seq<Edit>)
    requires f.NonEmpty() && f.number == 7 && edits == [AddOne(1, f), DeleteOne(1, 7)]
    ensures AllValid(edits) && Folded(edits, 1) == LevelState({7}, [f])
  {
    assert edits[..1] == [AddOne(1, f)] && edits[..1][..0] == [];
    AddOneApplies(EMPTY, 1, f);
    assert Folded(edits[..1], 1) == LevelState({}, [f]);
    DeleteOneApplies(LevelState({}, [f]), 1, 7);
  }

  lemma DeletedOne(f: File, edits: seq<Edit>)
    requires f.NonEmpty() && f.number == 7 && edits == [AddOne(1, f), DeleteOne(1, 7)]
    ensures forall h :: h in OneByOne([], edits, 1) ==> h.number != 7
  {
    assert edits[..1] == [AddOne(1, f)];
    var before := OneByOne([], edits[..1], 1);
    InstallContents(before, DeleteOne(1, 7), 1);
  }
}
