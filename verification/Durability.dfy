/** What a run keeps on disk for a recovery to rely on: the manifest replays to the current version, and
    every live log holds write groups with consecutive sequence numbers. */
module Durability {
  import opened Wrappers
  import opened Version
  import opened Builder
  import opened CompactionCorrect
  import opened Manifest
  import opened Engine
  import opened EngineSteps

  /** All additions recorded in the manifest. */
  ghost function Added(s: State): seq<Addition> {
    AllAdds(Files(s.disk.manifest))
  }

  ghost predicate Unlisted(adds: seq<Addition>, n: nat) {
    forall a :: a in adds ==> a.file.number != n
  }

  /** A file is never found above a level to which it was added. */
  ghost predicate OnlyDown(adds: seq<Addition>, levels: Levels) {
    forall a, l, f :: a in adds && 0 <= l < |levels| && f in levels[l] && a.file.number == f.number ==> a.level <= l
  }

  ghost predicate JobUnlisted(s: State) {
    s.job.Some? ==> forall o :: o in s.job.value.outputs ==> Unlisted(Added(s), o.number)
  }

  /** The manifest describes the catalog, and the numbers of files not yet in it are new to it. */
  ghost predicate ManifestInv(s: State) {
    && Describes(s.disk.manifest, s.disk.catalog)
    && (forall a :: a in Added(s) ==> a.file.number < s.nextFile)
    && OnlyDown(Added(s), s.Levels())
    && (s.building.Some? ==> Unlisted(Added(s), s.building.value.number))
    && JobUnlisted(s)
  }

  /** The entries of a write group carry consecutive sequence numbers. */
  ghost predicate Consecutive(record: Record) {
    forall i :: 0 <= i < |record| ==> record[i].key.sequence == record[0].key.sequence + i
  }

  ghost predicate RecordsInv(disk: Disk) {
    forall n, i :: n in disk.logs && n >= disk.catalog.logNumber && 0 <= i < |disk.logs[n]| ==>
      Consecutive(disk.logs[n][i])
  }

  ghost predicate Durable(s: State) {
    ManifestInv(s) && RecordsInv(s.disk)
  }

  // ---------------------------------------------------- logging an edit

  /** Every added file was so far added only above. */
  ghost predicate GoesDown(adds: seq<Addition>, more: seq<Addition>) {
    forall a, b :: a in adds && b in more && a.file.number == b.file.number ==> a.level < b.level
  }

  ghost predicate NumbersOnce(adds: seq<Addition>) {
    forall i, j :: 0 <= i < j < |adds| ==> adds[i].file.number != adds[j].file.number
  }

  lemma GoingDownIsNew(manifest: seq<VersionEdit>, edit: Edit)
    requires GoesDown(AllAdds(Files(manifest)), edit.added) && NumbersOnce(edit.added)
    ensures AddsNewNumbers(manifest, edit)
  {
  }

  /** What the edit leaves and adds in a level. */
  lemma InstalledFiles(manifest: seq<VersionEdit>, files: seq<File>, edit: Edit, l: nat)
    requires ValidManifest(manifest) && LevelDescribed(manifest, files, l) && l < NUM_LEVELS
    requires ValidEdit(edit) && AddsNewNumbers(manifest, edit)
    ensures forall f :: f in InstallLevel(files, edit, l) ==> f in files || Addition(l, f) in edit.added
    ensures forall f :: Addition(l, f) in edit.added ==> f in InstallLevel(files, edit, l)
  {
    SeenNumbers(files, [], AllAdds(Files(manifest)), l, {});
    FewerUsed(Numbers(files), NumbersAdded(AllAdds(Files(manifest)), l), edit.added, l);
    InstallContents(files, edit, l);
  }

  lemma LoggedOnlyDown(adds: seq<Addition>, more: seq<Addition>, levels: Levels, after: Levels, nextFile: nat)
    requires OnlyDown(adds, levels) && GoesDown(adds, more) && |after| == |levels| && NumbersIdentify(after, nextFile)
    requires forall l, f :: 0 <= l < |after| && f in after[l] ==> f in levels[l] || Addition(l, f) in more
    requires forall a :: a in more ==> a.level < |after| && a.file in after[a.level]
    ensures OnlyDown(adds + more, after)
  {
    forall a, l, f | a in adds + more && 0 <= l < |after| && f in after[l] && a.file.number == f.number
      ensures a.level <= l
    {
      if a in adds && f !in levels[l] { assert Addition(l, f) in more; }
    }
  }

  /** An edit that moves files down or adds them under new numbers. */
  ghost predicate Loggable(s: State, edit: Edit) {
    && ValidEdit(edit) && GoesDown(Added(s), edit.added) && NumbersOnce(edit.added)
    && forall a :: a in edit.added ==> a.file.number < s.nextFile
  }

  /** The state after an edit has been logged and applied. */
  ghost predicate Logged(s: State, edit: Edit, logNumber: nat, t: State)
    requires Tree(s.Levels()) && ValidEdit(edit)
  {
    TreeFilesNonEmpty(s.Levels());
    && t.disk == LogAndApply(s, edit, logNumber) && t.nextFile == s.nextFile
    && t.building.None?
    && (t.job.None? || (t.job == s.job && forall o, a :: o in s.job.value.outputs && a in edit.added ==>
                                            o.number != a.file.number))
  }

  lemma LoggedDescribes(s: State, edit: Edit, logNumber: nat, t: State)
    requires Tree(s.Levels()) && Describes(s.disk.manifest, s.disk.catalog) && Loggable(s, edit)
    requires Logged(s, edit, logNumber, t)
    ensures Describes(t.disk.manifest, t.disk.catalog)
    ensures Added(t) == Added(s) + edit.added && AddsNewNumbers(s.disk.manifest, edit)
  {
    GoingDownIsNew(s.disk.manifest, edit);
    FilesAppend(s.disk.manifest, LoggedRecord(s, edit, logNumber));
    DescribesAppends(s.disk.manifest, s.Levels(), LoggedRecord(s, edit, logNumber), t.disk.catalog);
  }

  lemma LoggedLevels(s: State, edit: Edit, logNumber: nat, t: State)
    requires Tree(s.Levels()) && Describes(s.disk.manifest, s.disk.catalog) && ValidEdit(edit)
    requires AddsNewNumbers(s.disk.manifest, edit) && Logged(s, edit, logNumber, t)
    ensures forall l, f :: 0 <= l < NUM_LEVELS && f in t.Levels()[l] ==>
              f in s.Levels()[l] || Addition(l, f) in edit.added
    ensures forall a :: a in edit.added ==> a.level < NUM_LEVELS && a.file in t.Levels()[a.level]
  {
    forall l | 0 <= l < NUM_LEVELS
      ensures forall f :: f in t.Levels()[l] ==> f in s.Levels()[l] || Addition(l, f) in edit.added
      ensures forall f :: Addition(l, f) in edit.added ==> f in t.Levels()[l]
    {
      InstalledFiles(s.disk.manifest, s.Levels()[l], edit, l);
    }
    forall a | a in edit.added ensures a.file in t.Levels()[a.level] {
      assert a == Addition(a.level, a.file);
    }
  }

  lemma LoggedKeepsManifest(s: State, edit: Edit, logNumber: nat, t: State)
    requires Tree(s.Levels()) && ManifestInv(s) && Loggable(s, edit) && Logged(s, edit, logNumber, t)
    requires NumbersIdentify(t.Levels(), t.nextFile)
    ensures ManifestInv(t)
  {
    LoggedDescribes(s, edit, logNumber, t);
    LoggedLevels(s, edit, logNumber, t);
    LoggedOnlyDown(Added(s), edit.added, s.Levels(), t.Levels(), t.nextFile);
  }

  // ------------------------------------------------------------- the steps

  /** Steps that log nothing, with new numbers for new files. */
  lemma ManifestFrame(s: State, t: State)
    requires ManifestInv(s) && t.disk.manifest == s.disk.manifest && t.disk.catalog == s.disk.catalog
    requires s.nextFile <= t.nextFile
    requires t.building.None? || t.building == s.building || t.building.value.number >= s.nextFile
    requires t.job.None? || t.job == s.job || forall o :: o in t.job.value.outputs ==> o.number >= s.nextFile
    ensures ManifestInv(t)
  {
  }

  lemma InvIdentifies(t: State)
    requires Inv(t)
    ensures Tree(t.Levels()) && NumbersIdentify(t.Levels(), t.nextFile)
  {
    NumbersStayBelow(t.Levels(), t.disk.catalog.nextFile, t.nextFile);
  }

  lemma InstallTableKeepsManifest(s: State, level: nat)
    requires Inv(s) && Enabled(s, InstallTable(level)) && ManifestInv(s)
    ensures ManifestInv(Step(s, InstallTable(level)))
  {
    var t := Step(s, InstallTable(level));
    StepKeepsInv(s, InstallTable(level));
    InvIdentifies(t);
    BuiltTableIsLogged(s, level, t);
    LoggedKeepsManifest(s, AddTable(level, s.building.value), s.logFile, t);
  }

  lemma BuiltTableIsLogged(s: State, level: nat, t: State)
    requires Tree(s.Levels()) && BuildingInv(s) && JobInv(s) && ManifestInv(s) && s.building.Some? && level < NUM_LEVELS
    requires t == InstallTableStep(s, level)
    ensures Loggable(s, AddTable(level, s.building.value))
    ensures Logged(s, AddTable(level, s.building.value), s.logFile, t)
  {
  }

  lemma InstallEmptyKeepsManifest(s: State)
    requires Inv(s) && Enabled(s, InstallEmpty) && ManifestInv(s)
    ensures ManifestInv(Step(s, InstallEmpty))
  {
    var t := Step(s, InstallEmpty);
    StepKeepsInv(s, InstallEmpty);
    InvIdentifies(t);
    EmptyIsLogged(s, t);
    LoggedKeepsManifest(s, Edit({}, []), s.logFile, t);
  }

  lemma EmptyIsLogged(s: State, t: State)
    requires Tree(s.Levels()) && s.building.None? && t == Install(s, Edit({}, []), s.logFile).(imm := None)
    ensures Loggable(s, Edit({}, [])) && Logged(s, Edit({}, []), s.logFile, t)
  {
  }

  lemma TrivialMoveKeepsManifest(s: State, level: nat, f: File)
    requires Inv(s) && Enabled(s, TrivialMove(level, f)) && ManifestInv(s)
    ensures ManifestInv(Step(s, TrivialMove(level, f)))
  {
    var t := Step(s, TrivialMove(level, f));
    StepKeepsInv(s, TrivialMove(level, f));
    InvIdentifies(t);
    InvIdentifies(s);
    assert f in [f];
    TreeFilesNonEmpty(s.Levels());
    MovedFileIsLogged(s, level, f);
    LoggedKeepsManifest(s, JobEdit(MoveJob(level, f)), s.disk.catalog.logNumber, t);
  }

  lemma MovedFileIsLogged(s: State, level: nat, f: File)
    requires ManifestInv(s) && level + 1 < NUM_LEVELS && f in s.Levels()[level] && f.NonEmpty() && f.number < s.nextFile
    ensures Loggable(s, JobEdit(MoveJob(level, f)))
  {
    JobEditMembers(MoveJob(level, f));
  }

  lemma InstallCompactionKeepsManifest(s: State)
    requires Inv(s) && Enabled(s, InstallCompaction) && ManifestInv(s)
    ensures ManifestInv(Step(s, InstallCompaction))
  {
    var t := Step(s, InstallCompaction);
    StepKeepsInv(s, InstallCompaction);
    InvIdentifies(t);
    OutputsAreLogged(s);
    LoggedKeepsManifest(s, JobEdit(s.job.value), s.disk.catalog.logNumber, t);
  }

  lemma OutputsAreLogged(s: State)
    requires JobInv(s) && ManifestInv(s) && s.job.Some?
    ensures Loggable(s, JobEdit(s.job.value))
  {
    var job := s.job.value;
    JobEditMembers(job);
    OutputsAreLoggable(s, job);
  }

  lemma OutputsAreLoggable(s: State, job: Job)
    requires OutputNumbers(s.Levels(), job, s.nextFile) && job.level + 1 < NUM_LEVELS
    requires forall o :: o in job.outputs ==> Unlisted(Added(s), o.number) && o.NonEmpty()
    requires forall d :: d in JobEdit(job).deleted ==> d.0 < NUM_LEVELS
    ensures Loggable(s, JobEdit(job))
  {
    JobEditMembers(job);
  }

  lemma StartCompactionKeepsManifest(s: State, job: Job)
    requires Inv(s) && Enabled(s, StartCompaction(job)) && ManifestInv(s)
    ensures ManifestInv(Step(s, StartCompaction(job)))
  {
    forall o | o in job.outputs ensures o.number >= s.nextFile {
      var k :| 0 <= k < |job.outputs| && job.outputs[k] == o;
    }
    ManifestFrame(s, Step(s, StartCompaction(job)));
  }

  lemma StepKeepsManifest(s: State, a: Action)
    requires Inv(s) && Enabled(s, a) && ManifestInv(s)
    ensures ManifestInv(Step(s, a))
  {
    if a.InstallTable? {
      InstallTableKeepsManifest(s, a.level);
    } else if a.InstallEmpty? {
      InstallEmptyKeepsManifest(s);
    } else if a.TrivialMove? {
      TrivialMoveKeepsManifest(s, a.level, a.file);
    } else if a.InstallCompaction? {
      InstallCompactionKeepsManifest(s);
    } else if a.StartCompaction? {
      StartCompactionKeepsManifest(s, a.job);
    } else {
      ManifestFrame(s, Step(s, a));
    }
  }

  // ---------------------------------------------------------- the logs

  lemma StampedIsConsecutive(record: Record, first: nat)
    requires Stamped(record, first)
    ensures Consecutive(record)
  {
  }

  lemma AppendKeepsRecords(s: State, record: Record)
    requires RecordsInv(s.disk) && s.logFile in s.disk.logs && Consecutive(record)
    ensures RecordsInv(AppendStep(s, record).disk)
  {
  }

  lemma RecordsFrame(disk: Disk, after: Disk)
    requires RecordsInv(disk) && disk.catalog.logNumber <= after.catalog.logNumber
    requires forall n :: n in after.logs && n >= after.catalog.logNumber ==>
               after.logs[n] == [] || (n in disk.logs && after.logs[n] == disk.logs[n])
    ensures RecordsInv(after)
  {
  }

  lemma StepKeepsRecords(s: State, a: Action)
    requires Inv(s) && Enabled(s, a) && RecordsInv(s.disk)
    ensures RecordsInv(Step(s, a).disk)
  {
    if a.Append? {
      StampedIsConsecutive(a.record, s.lastSequence + 1);
      AppendKeepsRecords(s, a.record);
    } else {
      RecordsFrame(s.disk, Step(s, a).disk);
    }
  }

  /** Every action keeps the promise to recovery. */
  lemma StepKeepsDurable(s: State, a: Action)
    requires Inv(s) && Enabled(s, a) && Durable(s)
    ensures Durable(Step(s, a))
  {
    StepKeepsManifest(s, a);
    StepKeepsRecords(s, a);
  }

  /** In every such state the manifest replays to the current catalog, numbers and all. */
  lemma ManifestReplaysToCatalog(s: State)
    requires Durable(s)
    ensures ValidManifest(s.disk.manifest) && NeverReused(s.disk.manifest)
    ensures Replay(s.disk.manifest) == Some(s.disk.catalog)
  {
    DescribedIsReplayed(s.disk.manifest, s.disk.catalog);
  }
}
