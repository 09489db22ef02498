/** The builder and the version set as they change in place (db/version_set.cc, VersionSet::Builder,
    VersionSet::LogAndApply, VersionSet::Recover). */
module VersionSets {
  import opened Wrappers
  import opened Version
  import opened Builder
  import opened Manifest

  class VersionBuilder {
    const base: Levels
    const levels: array<LevelState>

    ghost predicate Valid()
      reads levels
    {
      && Wellformed(base) && levels.Length == NUM_LEVELS
      && forall l :: 0 <= l < NUM_LEVELS ==> Ordered(levels[l].added)
    }

    constructor (base: Levels)
      requires Wellformed(base)
      ensures Valid() && fresh(levels) && this.base == base
      ensures forall l :: 0 <= l < NUM_LEVELS ==> levels[l] == EMPTY
    {
      this.base := base;
      levels := new LevelState[NUM_LEVELS](_ => EMPTY);
    }

    /** Folds one edit into every level. */
    method Apply(edit: Edit)
      requires Valid() && ValidEdit(edit)
      modifies levels
      ensures Valid()
      ensures forall l :: 0 <= l < NUM_LEVELS ==> levels[l] == ApplyToLevel(old(levels[l]), edit, l)
    {
      DeleteFiles(edit.deleted);
      AddNewFiles(edit.added);
    }

    method DeleteFiles(deleted: set<(nat, nat)>)
      requires Valid() && forall d :: d in deleted ==> d.0 < NUM_LEVELS
      modifies levels
      ensures Valid()
      ensures forall l :: 0 <= l < NUM_LEVELS ==>
                levels[l] == LevelState(old(levels[l]).deleted + (set d | d in deleted && d.0 == l :: d.1),
                                        old(levels[l]).added)
    {
      var rest := deleted;
      while rest != {}
        invariant Valid() && rest <= deleted
        invariant forall l :: 0 <= l < NUM_LEVELS ==>
                    levels[l] == LevelState(old(levels[l]).deleted + (set d | d in deleted - rest && d.0 == l :: d.1),
                                            old(levels[l]).added)
        decreases rest
      {
        var d :| d in rest;
        ghost var before := levels[..];
        levels[d.0] := levels[d.0].(deleted := levels[d.0].deleted + {d.1});
        rest := rest - {d};
        forall l | 0 <= l < NUM_LEVELS
          ensures levels[l] == LevelState(old(levels[l]).deleted + (set e | e in deleted - rest && e.0 == l :: e.1),
                                          old(levels[l]).added)
        {
          OneMoreDeleted(deleted, rest, d, l);
        }
      }
    }

    method AddNewFiles(added: seq<Addition>)
      requires Valid() && forall a :: a in added ==> a.level < NUM_LEVELS && a.file.NonEmpty()
      modifies levels
      ensures Valid()
      ensures forall l :: 0 <= l < NUM_LEVELS ==> levels[l] == AddFiles(old(levels[l]), added, l)
    {
      var i := 0;
      assert added[..|added|] == added;
      while i < |added|
        invariant Valid() && i <= |added|
        invariant forall l :: 0 <= l < NUM_LEVELS ==> levels[l] == AddFiles(old(levels[l]), added[..i], l)
      {
        var a := added[i];
        assert added[..i + 1][..i] == added[..i];
        levels[a.level] := AddFile(levels[a.level], a.file);
        i := i + 1;
      }
    }

    /** The version that the folded edits give. */
    method SaveTo() returns (v: Levels)
      requires Valid()
      ensures Wellformed(v)
      ensures forall l :: 0 <= l < NUM_LEVELS ==> v[l] == SaveLevel(base[l], levels[l])
    {
      v := [];
      while |v| < NUM_LEVELS
        invariant |v| <= NUM_LEVELS
        invariant forall l :: 0 <= l < |v| ==> v[l] == SaveLevel(base[l], levels[l])
      {
        var files := MergeFiles(base[|v|], levels[|v|]);
        v := v + [files];
      }
    }

    /** Merges the added files into the base files; both are consumed from the front. */
    static method MergeFiles(base: seq<File>, st: LevelState) returns (files: seq<File>)
      requires AllNonEmpty(base) && Ordered(st.added)
      ensures files == SaveLevel(base, st)
    {
      files := [];
      var b, a := base, st.added;
      ghost var goal := SaveLevel(base, st);
      while a != []
        invariant AllNonEmpty(b) && AllNonEmpty(a)
        invariant files + MergeLevel(b, a, st.deleted) == goal
        decreases |a|
      {
        files, b := AddSmaller(files, b, a, st.deleted);
        TakesAdded(b, a, st.deleted);
        files := MaybeAddFile(files, a[0], st.deleted, MergeLevel(b, a[1..], st.deleted));
        a := a[1..];
      }
      files := AddRemaining(files, b, st.deleted);
    }

    static method AddRemaining(files: seq<File>, base: seq<File>, deleted: set<nat>) returns (r: seq<File>)
      ensures r == files + Filter(base, deleted)
    {
      r := files;
      var b := base;
      while b != []
        invariant r + Filter(b, deleted) == files + Filter(base, deleted)
        decreases |b|
      {
        r := MaybeAddFile(r, b[0], deleted, Filter(b[1..], deleted));
        b := b[1..];
      }
    }

    /** Adds the base files that do not come after the next added file. */
    static method AddSmaller(files: seq<File>, base: seq<File>, a: seq<File>, deleted: set<nat>)
      returns (r: seq<File>, b: seq<File>)
      requires AllNonEmpty(base) && AllNonEmpty(a) && a != []
      ensures AllNonEmpty(b) && (b == [] || Less(a[0], b[0]))
      ensures r + MergeLevel(b, a, deleted) == files + MergeLevel(base, a, deleted)
    {
      r, b := files, base;
      while b != [] && !Less(a[0], b[0])
        invariant AllNonEmpty(b) && r + MergeLevel(b, a, deleted) == files + MergeLevel(base, a, deleted)
        decreases |b|
      {
        r := MaybeAddFile(r, b[0], deleted, MergeLevel(b[1..], a, deleted));
        b := b[1..];
      }
    }

    /** Adds a file unless it was deleted; `rest` is what follows it. */
    static method MaybeAddFile(files: seq<File>, f: File, deleted: set<nat>, ghost rest: seq<File>)
      returns (r: seq<File>)
      ensures r == files + Filter([f], deleted)
      ensures r + rest == files + (Filter([f], deleted) + rest)
    {
      r := if f.number in deleted then files else files + [f];
      assert Filter([f], deleted) == if f.number in deleted then [] else [f];
    }
  }

  lemma TakesAdded(b: seq<File>, a: seq<File>, deleted: set<nat>)
    requires AllNonEmpty(b) && AllNonEmpty(a) && a != [] && (b == [] || Less(a[0], b[0]))
    ensures MergeLevel(b, a, deleted) == Filter([a[0]], deleted) + MergeLevel(b, a[1..], deleted)
  {
  }

  lemma OneMoreDeleted(deleted: set<(nat, nat)>, rest: set<(nat, nat)>, d: (nat, nat), l: nat)
    requires d in deleted && d !in rest
    ensures (set e | e in deleted - rest && e.0 == l :: e.1)
         == (set e | e in deleted - (rest + {d}) && e.0 == l :: e.1) + (if d.0 == l then {d.1} else {})
  {
    var more := set e | e in deleted - rest && e.0 == l :: e.1;
    var fewer := set e | e in deleted - (rest + {d}) && e.0 == l :: e.1;
    forall n | n in more ensures n in fewer + (if d.0 == l then {d.1} else {}) {
      assert (l, n) in deleted - rest;
      if (l, n) != d { assert (l, n) in deleted - (rest + {d}); }
    }
    if d.0 == l { assert d in deleted - rest && d.1 in more; }
  }

  class VersionSet {
    var current: Levels
    var logNumber: nat
    var nextFile: nat
    var lastSequence: nat
    var manifest: seq<VersionEdit>    // the records of the current manifest file

    ghost predicate Valid()
      reads this
    {
      Wellformed(current) && AllOrdered(current) && ValidManifest(manifest)
    }

    ghost function Catalog(): Catalog
      reads this
    {
      Builder.Catalog(current, logNumber, nextFile, lastSequence)
    }

    constructor (levels: Levels, logNumber: nat, nextFile: nat, lastSequence: nat)
      requires Wellformed(levels) && AllOrdered(levels)
      ensures Valid() && manifest == [] && Catalog() == Builder.Catalog(levels, logNumber, nextFile, lastSequence)
    {
      current := levels;
      this.logNumber, this.nextFile, this.lastSequence := logNumber, nextFile, lastSequence;
      manifest := [];
    }

    /** Logs an edit and makes the new version current; the first edit after opening starts a manifest
        with a snapshot.  When the record cannot be written or synced, nothing changes but possibly the
        manifest, and a manifest just started is given up. */
    method LogAndApply(files: Edit, log: Option<nat>, written: bool) returns (ok: bool)
      requires Valid() && ValidEdit(files)
      requires forall l :: 0 <= l < NUM_LEVELS ==> FreshNumbers(Numbers(current[l]), files.added, l)
      modifies this`current, this`logNumber, this`manifest
      ensures Valid() && ok == written
      ensures current == if ok then InstallEdit(old(current), files) else old(current)
      ensures logNumber == if ok then log.GetOr(old(logNumber)) else old(logNumber)
      ensures var edit := VersionEdit(Some(log.GetOr(old(logNumber))), Some(nextFile), Some(lastSequence), files);
              var begun := if old(manifest) == [] then [Snapshot(old(current))] else old(manifest);
              if ok then manifest == begun + [edit]
              else manifest == old(manifest) || (old(manifest) != [] && manifest == old(manifest) + [edit])
    {
      var edit := VersionEdit(Some(log.GetOr(logNumber)), Some(nextFile), Some(lastSequence), files);
      var v := NextVersion(edit.files);
      var reached: bool := *;
      ok := written;
      if ok {
        SnapshotIsValid(current);
        manifest := (if manifest == [] then [Snapshot(current)] else manifest) + [edit];
        current := v;
        logNumber := edit.logNumber.value;
      } else if reached && manifest != [] {
        manifest := manifest + [edit];
      }
    }

    /** The version that the edit makes of the current one. */
    method NextVersion(files: Edit) returns (v: Levels)
      requires Valid() && ValidEdit(files)
      requires forall l :: 0 <= l < NUM_LEVELS ==> FreshNumbers(Numbers(current[l]), files.added, l)
      ensures Wellformed(v) && AllOrdered(v) && v == InstallEdit(current, files)
    {
      var builder := new VersionBuilder(current);
      builder.Apply(files);
      v := builder.SaveTo();
      forall l | 0 <= l < NUM_LEVELS ensures v[l] == InstallLevel(current[l], files, l) && Ordered(v[l]) {
        InstallContents(current[l], files, l);
      }
      assert v == InstallEdit(current, files);
    }
  }

  /** A record of a manifest as it is read: an edit, or bytes that are none, or an edit made under another
      comparator. */
  datatype ReadRecord = Good(edit: VersionEdit) | Undecodable | OtherComparator

  ghost predicate AllGood(records: seq<ReadRecord>) {
    forall i :: 0 <= i < |records| ==> records[i].Good?
  }

  function EditsOf(records: seq<ReadRecord>): (r: seq<VersionEdit>)
    requires AllGood(records)
    ensures |r| == |records|
  {
    seq(|records|, i requires 0 <= i < |records| => records[i].edit)
  }

  /** The records of a manifest that is whole. */
  function Intact(manifest: seq<VersionEdit>): (r: seq<ReadRecord>)
    ensures AllGood(r) && EditsOf(r) == manifest
  {
    seq(|manifest|, i requires 0 <= i < |manifest| => Good(manifest[i]))
  }

  ghost predicate ValidRecords(records: seq<ReadRecord>) {
    forall i :: 0 <= i < |records| && records[i].Good? ==> ValidEdit(records[i].edit.files)
  }

  /** Rebuilds the state from the records of a manifest, folding all edits into one builder; one record
      that is not good makes it fail. */
  method Recover(records: seq<ReadRecord>) returns (r: Option<Catalog>)
    requires ValidRecords(records)
    ensures r == if AllGood(records) then Replay(EditsOf(records)) else None
  {
    var nextFile: Option<nat>, logNumber: Option<nat>, lastSequence: Option<nat> := None, None, None;
    var base: Levels := seq(NUM_LEVELS, _ => []);
    var builder := new VersionBuilder(base);
    ghost var edits := [];
    var i := 0;
    while i < |records|
      invariant builder.Valid() && i <= |records| && fresh(builder.levels) && builder.base == base
      invariant AllGood(records[..i]) && edits == EditsOf(records[..i])
      invariant ValidManifest(edits) && forall l :: 0 <= l < NUM_LEVELS ==> builder.levels[l] == Folded(Files(edits), l)
      invariant logNumber == Latest(edits, (e: VersionEdit) => e.logNumber)
      invariant nextFile == Latest(edits, (e: VersionEdit) => e.nextFile)
      invariant lastSequence == Latest(edits, (e: VersionEdit) => e.lastSequence)
    {
      if !records[i].Good? {
        return None;
      }
      var edit := records[i].edit;
      assert (edits + [edit])[..|edits|] == edits && Files(edits + [edit])[..|edits|] == Files(edits);
      builder.Apply(edit.files);
      if edit.logNumber.Some? { logNumber := edit.logNumber; }
      if edit.nextFile.Some? { nextFile := edit.nextFile; }
      if edit.lastSequence.Some? { lastSequence := edit.lastSequence; }
      edits := edits + [edit];
      i := i + 1;
    }
    assert records[..i] == records;
    if nextFile == None || logNumber == None || lastSequence == None {
      return None;
    }
    var v := builder.SaveTo();
    assert v == seq(NUM_LEVELS, l requires 0 <= l < NUM_LEVELS => SaveLevel([], Folded(Files(edits), l)));
    return Some(Catalog(v, logNumber.value, nextFile.value, lastSequence.value));
  }
}
