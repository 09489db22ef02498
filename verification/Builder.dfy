/** Version edits and the builder that folds them into a new version
    (db/version_set.cc, VersionSet::Builder). */
module Builder {
  import opened InternalKeys
  import opened Version

  /** A table added to a level. */
  datatype Addition = Addition(level: nat, file: File)

  /** The part of a version edit that changes files. */
  datatype Edit = Edit(deleted: set<(nat, nat)>, added: seq<Addition>)

  ghost predicate ValidEdit(edit: Edit) {
    && (forall d :: d in edit.deleted ==> d.0 < NUM_LEVELS)
    && (forall a :: a in edit.added ==> a.level < NUM_LEVELS && a.file.NonEmpty())
  }

  /** Files ordered by smallest key, ties broken by file number. */
  predicate Less(f: File, g: File) requires f.NonEmpty() && g.NonEmpty() {
    Precedes(f.Smallest(), g.Smallest()) || (f.Smallest() == g.Smallest() && f.number < g.number)
  }

  ghost predicate Ordered(files: seq<File>) {
    && (forall i :: 0 <= i < |files| ==> files[i].NonEmpty())
    && forall i, j :: 0 <= i < j < |files| ==> Less(files[i], files[j])
  }

  ghost predicate AllOrdered(levels: Levels) {
    |levels| == NUM_LEVELS && forall l :: 0 <= l < NUM_LEVELS ==> Ordered(levels[l])
  }

  lemma PrependIsOrdered(head: File, rest: seq<File>)
    requires head.NonEmpty() && Ordered(rest)
    requires forall f :: f in rest ==> Less(head, f)
    ensures Ordered([head] + rest)
  {
    var r := [head] + rest;
    forall j | 0 < j < |r| ensures Less(head, r[j]) {
      assert r[j] in rest;
    }
  }

  /** An ordered list starts with its least file. */
  lemma HeadIsLeast(files: seq<File>, f: File)
    requires Ordered(files) && f in files
    ensures f == files[0] || Less(files[0], f)
  {
  }

  /** Insertion into the ordered set of added files; an equivalent element is left as it is. */
  function Insert(files: seq<File>, f: File): (r: seq<File>)
    requires Ordered(files) && f.NonEmpty()
    ensures forall g :: g in files ==> g in r
    ensures forall g :: g in r ==> g in files || g == f
    ensures forall g :: g in r ==> g.NonEmpty()
  {
    if files == [] then [f]
    else if Less(files[0], f) then [files[0]] + Insert(files[1..], f)
    else if Less(f, files[0]) then [f] + files
    else files
  }

  /** Insertion keeps the order, and afterwards some file has the key and number inserted. */
  lemma {:induction false} InsertIsOrdered(files: seq<File>, f: File)
    requires Ordered(files) && f.NonEmpty()
    ensures Ordered(Insert(files, f))
    ensures exists g :: g in Insert(files, f) && g.number == f.number && g.Smallest() == f.Smallest()
  {
    if files == [] {
      assert f in Insert(files, f);
    } else if Less(files[0], f) {
      InsertIsOrdered(files[1..], f);
      var rest := Insert(files[1..], f);
      forall g | g in rest ensures Less(files[0], g) {
        if g != f { HeadIsLeast(files, g); }
      }
      PrependIsOrdered(files[0], rest);
      var g :| g in rest && g.number == f.number && g.Smallest() == f.Smallest();
      assert g in Insert(files, f);
    } else if Less(f, files[0]) {
      forall g | g in files ensures Less(f, g) { HeadIsLeast(files, g); }
      PrependIsOrdered(f, files);
      assert f in Insert(files, f);
    } else {
      assert files[0] in Insert(files, f);
    }
  }

  function Filter(files: seq<File>, deleted: set<nat>): (r: seq<File>)
    ensures forall f :: f in r <==> f in files && f.number !in deleted
  {
    if files == [] then [] else
      (if files[0].number in deleted then [] else [files[0]]) + Filter(files[1..], deleted)
  }

  /** The ordered merge of a level's old files with its added ones, leaving out deleted numbers. */
  function MergeLevel(base: seq<File>, added: seq<File>, deleted: set<nat>): (r: seq<File>)
    requires forall f :: f in base ==> f.NonEmpty()
    requires forall f :: f in added ==> f.NonEmpty()
    ensures forall f :: f in r <==> (f in base || f in added) && f.number !in deleted
    decreases |base| + |added|
  {
    if added == [] then Filter(base, deleted)
    else if base != [] && !Less(added[0], base[0]) then
      Filter([base[0]], deleted) + MergeLevel(base[1..], added, deleted)
    else
      Filter([added[0]], deleted) + MergeLevel(base, added[1..], deleted)
  }

  /** Files that survive in both lists carry different numbers. */
  ghost predicate NoCommonNumber(base: seq<File>, added: seq<File>, deleted: set<nat>) {
    forall f, g :: f in base && g in added && f.number !in deleted && g.number !in deleted ==> f.number != g.number
  }

  /** The merge of two ordered lists is ordered when they share no file. */
  lemma {:induction false} MergeIsOrdered(base: seq<File>, added: seq<File>, deleted: set<nat>)
    requires Ordered(base) && Ordered(added) && NoCommonNumber(base, added, deleted)
    ensures Ordered(MergeLevel(base, added, deleted))
    decreases |base| + |added|
  {
    if added == [] {
      FilterIsOrdered(base, deleted);
    } else if base != [] && !Less(added[0], base[0]) {
      MergeIsOrdered(base[1..], added, deleted);
      StepIsOrdered(base[0], base[1..], added, deleted, base, added);
    } else {
      MergeIsOrdered(base, added[1..], deleted);
      StepIsOrdered(added[0], base, added[1..], deleted, base, added);
    }
  }

  lemma StepIsOrdered(head: File, base': seq<File>, added': seq<File>, deleted: set<nat>, base: seq<File>,
                      added: seq<File>)
    requires Ordered(base) && Ordered(added) && added != [] && NoCommonNumber(base, added, deleted)
    requires if base != [] && !Less(added[0], base[0]) then
               head == base[0] && base' == base[1..] && added' == added
             else
               head == added[0] && base' == base && added' == added[1..]
    requires Ordered(MergeLevel(base', added', deleted))
    ensures Ordered(Filter([head], deleted) + MergeLevel(base', added', deleted))
  {
    var rest := MergeLevel(base', added', deleted);
    if head.number in deleted {
      assert Filter([head], deleted) + rest == rest;
    } else {
      forall f | f in rest ensures Less(head, f) {
        if f in base' { HeadIsLeast(base, f); } else { HeadIsLeast(added, f); }
      }
      PrependIsOrdered(head, rest);
      assert Filter([head], deleted) == [head];
    }
  }

  lemma {:induction false} FilterIsOrdered(files: seq<File>, deleted: set<nat>)
    requires Ordered(files)
    ensures Ordered(Filter(files, deleted))
  {
    if files != [] {
      FilterIsOrdered(files[1..], deleted);
      var rest := Filter(files[1..], deleted);
      forall f | f in rest ensures Less(files[0], f) { HeadIsLeast(files, f); }
      PrependIsOrdered(files[0], rest);
    }
  }

  /** What the builder remembers about one level. */
  datatype LevelState = LevelState(deleted: set<nat>, added: seq<File>)

  const EMPTY: LevelState := LevelState({}, [])

  function AddFile(st: LevelState, f: File): (r: LevelState)
    requires Ordered(st.added) && f.NonEmpty()
    ensures Ordered(r.added)
  {
    InsertIsOrdered(st.added, f);
    LevelState(st.deleted - {f.number}, Insert(st.added, f))
  }

  function AddFiles(st: LevelState, adds: seq<Addition>, level: nat): (r: LevelState)
    requires Ordered(st.added) && forall a :: a in adds ==> a.file.NonEmpty()
    ensures Ordered(r.added)
  {
    if adds == [] then st else
      var a := adds[|adds| - 1];
      var before := AddFiles(st, adds[..|adds| - 1], level);
      if a.level == level then AddFile(before, a.file) else before
  }

  /** One edit folded into the state of one level: deletions first, additions second. */
  function ApplyToLevel(st: LevelState, edit: Edit, level: nat): (r: LevelState)
    requires Ordered(st.added) && forall a :: a in edit.added ==> a.file.NonEmpty()
    ensures Ordered(r.added)
  {
    var gone := set d | d in edit.deleted && d.0 == level :: d.1;
    AddFiles(LevelState(st.deleted + gone, st.added), edit.added, level)
  }

  function SaveLevel(base: seq<File>, st: LevelState): seq<File>
    requires forall f :: f in base ==> f.NonEmpty()
    requires Ordered(st.added)
  {
    MergeLevel(base, st.added, st.deleted)
  }

  /** The level after one edit, as a version set applies it. */
  function InstallLevel(base: seq<File>, edit: Edit, level: nat): seq<File>
    requires forall f :: f in base ==> f.NonEmpty()
    requires forall a :: a in edit.added ==> a.file.NonEmpty()
  {
    SaveLevel(base, ApplyToLevel(EMPTY, edit, level))
  }

  ghost function FilesAdded(adds: seq<Addition>, level: nat): set<File> {
    set a | a in adds && a.level == level :: a.file
  }

  /** The numbers of the additions to one level are new to it. */
  ghost predicate FreshNumbers(used: set<nat>, adds: seq<Addition>, level: nat) {
    && (forall a :: a in adds && a.level == level ==> a.file.number !in used)
    && (forall i, j :: 0 <= i < j < |adds| && adds[i].level == level && adds[j].level == level
          ==> adds[i].file.number != adds[j].file.number)
  }

  lemma {:induction false} AddFilesContents(st: LevelState, adds: seq<Addition>, level: nat, used: set<nat>)
    requires Ordered(st.added) && forall a :: a in adds ==> a.file.NonEmpty()
    requires forall f :: f in st.added ==> f.number in used
    requires FreshNumbers(used, adds, level)
    ensures var r := AddFiles(st, adds, level);
            && (forall f :: f in r.added <==> f in st.added || f in FilesAdded(adds, level))
            && (forall n :: n in r.deleted
                  <==> n in st.deleted && forall f :: f in FilesAdded(adds, level) ==> f.number != n)
  {
    if adds != [] {
      var init, a := adds[..|adds| - 1], adds[|adds| - 1];
      assert adds == init + [a];
      AddFilesContents(st, init, level, used);
      var before := AddFiles(st, init, level);
      assert forall f :: f in FilesAdded(adds, level)
               <==> f in FilesAdded(init, level) || (a.level == level && f == a.file);
      if a.level == level {
        assert forall f :: f in before.added ==> f.number != a.file.number;
        assert a.file in FilesAdded(adds, level);
        var r := AddFile(before, a.file);
        InsertIsOrdered(before.added, a.file);
        var g :| g in r.added && g.number == a.file.number && g.Smallest() == a.file.Smallest();
        assert g == a.file;
      }
    }
  }

  /** The files of a level after an edit, as a set: survivors and additions. */
  lemma InstallContents(base: seq<File>, edit: Edit, level: nat)
    requires forall f :: f in base ==> f.NonEmpty()
    requires forall a :: a in edit.added ==> a.file.NonEmpty()
    requires FreshNumbers(set f | f in base :: f.number, edit.added, level)
    ensures forall f :: f in InstallLevel(base, edit, level)
              <==> (f in base && (level, f.number) !in edit.deleted) || f in FilesAdded(edit.added, level)
    ensures Ordered(base) ==> Ordered(InstallLevel(base, edit, level))
  {
    var gone := set d | d in edit.deleted && d.0 == level :: d.1;
    assert forall n :: n in gone <==> (level, n) in edit.deleted;
    AddFilesContents(LevelState({} + gone, []), edit.added, level, set f | f in base :: f.number);
    var st := ApplyToLevel(EMPTY, edit, level);
    forall f | f in FilesAdded(edit.added, level) ensures f.number !in st.deleted && f !in base {
      var a :| a in edit.added && a.level == level && a.file == f;
    }
    if Ordered(base) { MergeIsOrdered(base, st.added, st.deleted); }
  }

  lemma {:induction false} FilterNothing(files: seq<File>)
    ensures Filter(files, {}) == files
  {
    if files != [] { FilterNothing(files[1..]); }
  }

  lemma {:induction false} AddNothing(st: LevelState, adds: seq<Addition>, level: nat)
    requires Ordered(st.added) && forall a :: a in adds ==> a.file.NonEmpty() && a.level != level
    ensures AddFiles(st, adds, level) == st
  {
    if adds != [] { AddNothing(st, adds[..|adds| - 1], level); }
  }

  /** A level the edit does not mention stays as it is. */
  lemma UntouchedLevel(base: seq<File>, edit: Edit, level: nat)
    requires forall f :: f in base ==> f.NonEmpty()
    requires forall a :: a in edit.added ==> a.file.NonEmpty() && a.level != level
    requires forall d :: d in edit.deleted ==> d.0 != level
    ensures InstallLevel(base, edit, level) == base
  {
    var gone := set d | d in edit.deleted && d.0 == level :: d.1;
    assert EMPTY.deleted + gone == {};
    AddNothing(LevelState({}, []), edit.added, level);
    FilterNothing(base);
  }

  /** The version after one edit. */
  function InstallEdit(levels: Levels, edit: Edit): Levels
    requires |levels| == NUM_LEVELS
    requires forall l, f :: 0 <= l < NUM_LEVELS && f in levels[l] ==> f.NonEmpty()
    requires forall a :: a in edit.added ==> a.file.NonEmpty()
  {
    seq(NUM_LEVELS, l requires 0 <= l < NUM_LEVELS => InstallLevel(levels[l], edit, l))
  }

  /** What the manifest records: the files, the oldest log still needed, and two counters. */
  datatype Catalog = Catalog(levels: Levels, logNumber: nat, nextFile: nat, lastSequence: nat)
}
