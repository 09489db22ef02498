/** Crash and recovery (db/db_impl.cc, DBImpl::Recover and RecoverLogFile; DB::Open). */
module Recovery {
  import opened Wrappers
  import opened InternalKeys
  import opened MultiVersion
  import opened Version
  import opened Builder
  import opened Manifest
  import opened Engine
  import opened EngineSteps
  import opened Durability

  /** The logs a reader finds after a crash: a torn last record is not there. */
  ghost function SurvivingLogs(s: State, torn: bool): map<nat, seq<Record>>
    requires MemoryInv(s) && (torn ==> s.inFlight != [])
  {
    var records := s.disk.logs[s.logFile];
    if torn then s.disk.logs[s.logFile := records[..|records| - 1]] else s.disk.logs
  }

  /** What a process crash can leave on disk.  The manifest is whole, and the catalog is what replaying it
      gives; the tables it names are intact, other table files and obsolete logs are arbitrary, and only a
      record that was not yet acknowledged can be torn. */
  ghost predicate Crashed(s: State, torn: bool, d: Disk)
    requires MemoryInv(s)
  {
    && (torn ==> s.inFlight != [])
    && d.manifest == s.disk.manifest && ValidManifest(d.manifest) && Replay(d.manifest) == Some(d.catalog)
    && Present(d.catalog.levels, d.tables)
    && forall n :: n >= d.catalog.logNumber ==>
         && (n in d.logs <==> n in SurvivingLogs(s, torn))
         && (n in d.logs ==> d.logs[n] == SurvivingLogs(s, torn)[n])
  }

  /** The disk after a crash with the catalog that was current. */
  ghost predicate Left(s: State, torn: bool, d: Disk)
    requires MemoryInv(s)
  {
    Crashed(s, torn, d) && d.catalog == s.disk.catalog
  }

  /** Replaying the manifest brings back the current catalog. */
  lemma CatalogSurvives(s: State, torn: bool, d: Disk)
    requires MemoryInv(s) && Durable(s) && Crashed(s, torn, d)
    ensures Left(s, torn, d)
  {
    ManifestReplaysToCatalog(s);
  }

  ghost function LiveLogEntries(d: Disk): set<Entry> {
    set n, e | n in d.logs && n >= d.catalog.logNumber && e in LogEntries(d, n) :: e
  }

  /** Tables with ascending numbers from `first` on, each later than the ones before. */
  ghost predicate Written(files: seq<File>, first: nat) {
    && (forall i :: 0 <= i < |files| ==> WellFormed(files[i]) && files[i].number >= first)
    && (forall i, j :: 0 <= i < j < |files| ==> files[i].number < files[j].number)
    && forall i, j :: 0 <= i < j < |files| ==> Later(Contents(files[j].entries), Contents(files[i].entries))
  }

  ghost predicate NumberedBelow(files: seq<File>, n: nat) {
    forall f :: f in files ==> f.number < n
  }

  /** The level-0 tables that replaying the live logs writes, oldest first. */
  ghost predicate ReplayedTables(d: Disk, files: seq<File>) {
    Written(files, d.catalog.nextFile) && EntriesOf(files) == LiveLogEntries(d)
  }

  function AddTablesAtZero(files: seq<File>): (edit: Edit)
    ensures forall a :: a in edit.added ==> a.level == 0 && a.file in files
  {
    Edit({}, seq(|files|, i requires 0 <= i < |files| => Addition(0, files[i])))
  }

  /** Everything that was acknowledged, and an unacknowledged record that reached the log whole. */
  ghost function RecoveredHistory(s: State, torn: bool): set<Entry> {
    if torn then s.acked else s.acked + Contents(s.inFlight)
  }

  /** The first two records of the manifest that opening starts. */
  function OpenedManifest(levels: Levels, files: seq<File>, logFile: nat, nextFile: nat, last: nat): seq<VersionEdit>
    requires |levels| == NUM_LEVELS
  {
    [Snapshot(levels), VersionEdit(Some(logFile), Some(nextFile), Some(last), AddTablesAtZero(files))]
  }

  /** The state in which the database opens: the replayed tables are part of the version, and a new log is
      the only one needed. */
  ghost function OpenedState(s: State, torn: bool, d: Disk, files: seq<File>, logFile: nat, nextFile: nat,
                             last: nat): State
    requires |d.catalog.levels| == NUM_LEVELS
    requires forall l, f :: 0 <= l < NUM_LEVELS && f in d.catalog.levels[l] ==> f.NonEmpty()
    requires forall f :: f in files ==> f.NonEmpty()
  {
    State(
      Disk(Catalog(InstallEdit(d.catalog.levels, AddTablesAtZero(files)), logFile, nextFile, last),
           OpenedManifest(d.catalog.levels, files, logFile, nextFile, last),
           AddTables(d.tables, files), d.logs[logFile := []]),
      {}, None, logFile, last, nextFile, [], [], None, None, [],
      RecoveredHistory(s, torn), s.floor)
  }

  /** Recovery finds the state of the manifest and the logs, and numbering continues above everything
      found. */
  ghost predicate Recovered(s: State, torn: bool, d: Disk, files: seq<File>, r: State)
    requires MemoryInv(s) && Crashed(s, torn, d)
  {
    && ReplayedTables(d, files) && NumberedBelow(files, r.logFile)
    && d.catalog.nextFile <= r.logFile < r.nextFile && (forall n :: n in d.logs ==> n < r.logFile)
    && TopSequence(d, r.lastSequence)
    && (forall l, f :: 0 <= l < |d.catalog.levels| && f in d.catalog.levels[l] ==> f.NonEmpty())
    && r == OpenedState(s, torn, d, files, r.logFile, r.nextFile, r.lastSequence)
  }

  /** The recovered sequence number: the manifest's, or the largest in the logs. */
  ghost predicate TopSequence(d: Disk, last: nat) {
    && d.catalog.lastSequence <= last && AtMost(LiveLogEntries(d), last)
    && (last == d.catalog.lastSequence || exists e :: e in LiveLogEntries(d) && e.key.sequence == last)
  }

  lemma TornRecordWasInFlight(s: State)
    requires MemoryInv(s) && SequenceInv(s) && s.inFlight != [] && Ascending(s.disk, s.logFile)
    ensures var records := s.disk.logs[s.logFile];
            (set r, e | r in records[..|records| - 1] && e in r :: e) == s.mem
  {
    var records := s.disk.logs[s.logFile];
    var init := records[..|records| - 1];
    InFlightIsLater(s);
    assert records == init + [s.inFlight] && records[|init|] == s.inFlight;
    forall r, e | r in init && e in r ensures e in s.mem {
      var i :| 0 <= i < |init| && init[i] == r;
      assert records[i] == r && r in records;
      assert e in LogEntries(s.disk, s.logFile);
    }
    forall e | e in s.mem ensures exists r :: r in init && e in r {
      assert e in LogEntries(s.disk, s.logFile);
      var r :| r in records && e in r;
      assert r in init || r == s.inFlight;
    }
  }

  /** The live logs hold exactly the memtables, and the record in flight unless it was torn. */
  lemma LogsHoldMemory(s: State, torn: bool, d: Disk)
    requires Inv(s) && Left(s, torn, d)
    ensures LiveLogEntries(d) == s.Imm() + s.mem + (if torn then {} else Contents(s.inFlight))
  {
    var last := s.mem + if torn then {} else Contents(s.inFlight);
    assert LogEntries(d, s.logFile) == last by {
      if torn { TornRecordWasInFlight(s); }
    }
    forall n | n >= d.catalog.logNumber && n != s.logFile ensures LogEntries(d, n) == LogEntries(s.disk, n) {}
    forall e | e in LiveLogEntries(d) ensures e in s.Imm() + last {
      var n :| n in d.logs && n >= d.catalog.logNumber && e in LogEntries(d, n);
      assert n < s.logFile ==> e in OlderLogEntries(s.disk, s.logFile);
    }
    forall e | e in s.Imm() + last ensures e in LiveLogEntries(d) {
      if e in last {
        assert s.logFile in d.logs;
      } else {
        var n :| n in s.disk.logs && s.disk.catalog.logNumber <= n < s.logFile && e in LogEntries(s.disk, n);
        assert n in d.logs && e in LogEntries(d, n);
      }
    }
  }

  // ------------------------------------------------ the recovered state

  lemma ReplayedFilesFollow(files: seq<File>, first: nat)
    requires Written(files, first)
    ensures forall f, g :: f in files && g in files && f.number > g.number ==> Above(f.entries, g.entries)
    ensures forall f, g :: f in files && g in files && f.number == g.number ==> f == g
    ensures forall f :: f in files ==> WellFormed(f) && first <= f.number
  {
    forall f, g | f in files && g in files && f.number > g.number ensures Above(f.entries, g.entries) {
      var i :| 0 <= i < |files| && files[i] == f;
      var j :| 0 <= j < |files| && files[j] == g;
      assert j < i;
      assert Later(Contents(files[i].entries), Contents(files[j].entries));
    }
  }

  /** The version with the replayed tables in level 0. */
  ghost predicate WithTables(levels: Levels, files: seq<File>, after: Levels) {
    && |levels| == |after| == NUM_LEVELS
    && (forall l :: 1 <= l < NUM_LEVELS ==> after[l] == levels[l])
    && forall f :: f in after[0] <==> f in levels[0] || f in files
  }

  lemma AddTablesMembers(files: seq<File>)
    ensures forall f :: f in FilesAdded(AddTablesAtZero(files).added, 0) <==> f in files
  {
    forall f | f in files ensures f in FilesAdded(AddTablesAtZero(files).added, 0) {
      var i :| 0 <= i < |files| && files[i] == f;
      assert AddTablesAtZero(files).added[i] == Addition(0, f);
    }
  }

  lemma TablesInstallOrdered(levels: Levels, files: seq<File>, first: nat)
    requires AllOrdered(levels) && NumbersIdentify(levels, first)
    requires Written(files, first) && forall f :: f in files ==> f.NonEmpty()
    ensures AllOrdered(InstallEdit(levels, AddTablesAtZero(files)))
  {
    var edit := AddTablesAtZero(files);
    var after := InstallEdit(levels, edit);
    InstallContents(levels[0], edit, 0);
    forall l | 0 <= l < NUM_LEVELS ensures Ordered(after[l]) {
      assert Ordered(levels[l]);
      if l > 0 {
        UntouchedLevel(levels[l], edit, l);
      }
    }
  }

  lemma TablesInstall(levels: Levels, files: seq<File>, first: nat)
    requires AllOrdered(levels) && NumbersIdentify(levels, first)
    requires Written(files, first) && forall f :: f in files ==> f.NonEmpty()
    ensures var after := InstallEdit(levels, AddTablesAtZero(files));
            WithTables(levels, files, after) && AllOrdered(after)
  {
    var edit := AddTablesAtZero(files);
    var after := InstallEdit(levels, edit);
    AddTablesMembers(files);
    InstallContents(levels[0], edit, 0);
    forall l | 1 <= l < NUM_LEVELS ensures after[l] == levels[l] {
      UntouchedLevel(levels[l], edit, l);
    }
    TablesInstallOrdered(levels, files, first);
  }

  lemma WithTablesContents(levels: Levels, files: seq<File>, after: Levels)
    requires WithTables(levels, files, after)
    ensures All(after) == All(levels) + EntriesOf(files)
  {
    forall e | e in All(after) ensures e in All(levels) + EntriesOf(files) {
      var l, f := AllIn(after, e);
      if f !in files || l > 0 { InAll(levels, l, f, e); }
    }
    forall e | e in All(levels) + EntriesOf(files) ensures e in All(after) {
      if e in EntriesOf(files) {
        var f :| f in files && e in f.entries;
        InAll(after, 0, f, e);
      } else {
        var l, f := AllIn(levels, e);
        InAll(after, l, f, e);
      }
    }
  }

  /** Tables replayed from the logs are above the whole version. */
  lemma ReplayedAbove(levels: Levels, files: seq<File>, f: File, l: nat, g: File)
    requires Later(EntriesOf(files), All(levels)) && f in files && l < |levels| && g in levels[l]
    ensures Above(f.entries, g.entries)
  {
    forall x, y | x in f.entries && y in g.entries ensures x.key.sequence > y.key.sequence {
      InAll(levels, l, g, y);
    }
  }

  lemma WithTablesLevelZero(levels: Levels, files: seq<File>, first: nat, after: Levels)
    requires Tree(levels) && NumbersIdentify(levels, first) && WithTables(levels, files, after)
    requires forall f, g :: f in files && g in files && f.number > g.number ==> Above(f.entries, g.entries)
    requires forall f, g :: f in files && g in files && f.number == g.number ==> f == g
    requires forall f :: f in files ==> WellFormed(f) && first <= f.number
    requires Later(EntriesOf(files), All(levels))
    ensures LevelZero(after[0])
  {
    forall f, g | f in after[0] && g in after[0] && f.number > g.number ensures Above(f.entries, g.entries) {
      if f in files && g in levels[0] { ReplayedAbove(levels, files, f, 0, g); }
    }
  }

  lemma ReplayedOverOlder(levels: Levels, files: seq<File>, after: Levels, l: nat, m: nat, f: File, g: File)
    requires Tree(levels) && WithTables(levels, files, after) && Later(EntriesOf(files), All(levels))
    requires l < m < NUM_LEVELS && f in after[l] && g in after[m]
    ensures Above(f.entries, g.entries)
  {
    assert g in levels[m];
    if l == 0 && f in files {
      ReplayedAbove(levels, files, f, m, g);
    } else {
      assert f in levels[l];
    }
  }

  lemma WithTablesTree(levels: Levels, files: seq<File>, first: nat, after: Levels)
    requires Tree(levels) && NumbersIdentify(levels, first) && WithTables(levels, files, after)
    requires Written(files, first)
    requires Later(EntriesOf(files), All(levels)) && Distinct(All(levels) + EntriesOf(files))
    ensures Tree(after)
  {
    ReplayedFilesFollow(files, first);
    WithTablesContents(levels, files, after);
    WithTablesLevelZero(levels, files, first, after);
    forall l: nat, m: nat, f, g | l < m < NUM_LEVELS && f in after[l] && g in after[m]
      ensures Above(f.entries, g.entries)
    {
      ReplayedOverOlder(levels, files, after, l, m, f, g);
    }
  }

  lemma RecoveredNumbers(levels: Levels, files: seq<File>, first: nat, nextFile: nat, after: Levels)
    requires NumbersIdentify(levels, first) && WithTables(levels, files, after)
    requires forall f :: f in files ==> first <= f.number < nextFile
    requires forall f, g :: f in files && g in files && f.number == g.number ==> f == g
    requires first <= nextFile
    ensures NumbersIdentify(after, nextFile)
  {
    forall l, f | 0 <= l < |after| && f in after[l]
      ensures (l == 0 && f in files) || (f in levels[l] && f.number < first) {}
    forall l, m, f, g | 0 <= l < |after| && 0 <= m < |after| && f in after[l] && g in after[m] && f.number == g.number
      ensures l == m && f == g
    {
      assert (l == 0 && f in files) || f.number < first;
      assert (m == 0 && g in files) || g.number < first;
    }
  }

  lemma RecoveredPresent(levels: Levels, tables: map<nat, File>, files: seq<File>, first: nat, after: Levels)
    requires NumbersIdentify(levels, first) && Present(levels, tables) && WithTables(levels, files, after)
    requires Written(files, first)
    ensures Present(after, AddTables(tables, files))
  {
    AddedTables(tables, files, first);
    var added := AddTables(tables, files);
    forall l, f | 0 <= l < |after| && f in after[l] ensures f.number in added && added[f.number] == f {
      assert (l == 0 && f in files) || (f in levels[l] && f.number < first);
    }
  }

  /** What recovery can rely on about the logs it replays. */
  lemma LiveLogFacts(s: State, torn: bool, d: Disk)
    requires Inv(s) && Left(s, torn, d)
    ensures Later(LiveLogEntries(d), All(d.catalog.levels))
    ensures Distinct(All(d.catalog.levels) + LiveLogEntries(d))
    ensures All(d.catalog.levels) + LiveLogEntries(d) == Readable(s) + (if torn then {} else Contents(s.inFlight))
  {
    LogsHoldMemory(s, torn, d);
    InFlightIsLater(s);
  }

  lemma RecoveredHistoryFits(s: State, torn: bool, d: Disk, last: nat)
    requires Inv(s) && Left(s, torn, d) && TopSequence(d, last)
    ensures AtMost(RecoveredHistory(s, torn), last) && Distinct(RecoveredHistory(s, torn))
    ensures AtMost(All(d.catalog.levels) + LiveLogEntries(d), last)
    ensures All(d.catalog.levels) + LiveLogEntries(d) <= RecoveredHistory(s, torn)
    ensures SameFrom(s.floor, RecoveredHistory(s, torn), All(d.catalog.levels) + LiveLogEntries(d))
  {
    LogsHoldMemory(s, torn, d);
    LiveLogFacts(s, torn, d);
    InFlightIsLater(s);
    if !torn { SameFromLater(s.floor, s.acked, Readable(s), Contents(s.inFlight)); }
    assert Readable(s) + {} == Readable(s);
  }

  lemma RecoveredVersion(d: Disk, files: seq<File>, nextFile: nat)
    requires CatalogInv(d.catalog) && Present(d.catalog.levels, d.tables)
    requires ReplayedTables(d, files) && d.catalog.nextFile <= nextFile && NumberedBelow(files, nextFile)
    requires Later(LiveLogEntries(d), All(d.catalog.levels)) && Distinct(All(d.catalog.levels) + LiveLogEntries(d))
    ensures forall f :: f in files ==> f.NonEmpty()
    ensures var after := InstallEdit(d.catalog.levels, AddTablesAtZero(files));
            && Tree(after) && AllOrdered(after) && All(after) == All(d.catalog.levels) + LiveLogEntries(d)
            && NumbersIdentify(after, nextFile) && Present(after, AddTables(d.tables, files))
  {
    var levels, first := d.catalog.levels, d.catalog.nextFile;
    ReplayedFilesFollow(files, first);
    TablesInstall(levels, files, first);
    var after := InstallEdit(levels, AddTablesAtZero(files));
    WithTablesContents(levels, files, after);
    WithTablesTree(levels, files, first, after);
    RecoveredNumbers(levels, files, first, nextFile, after);
    RecoveredPresent(levels, d.tables, files, first, after);
  }

  lemma OpenedLogs(d: Disk, r: State)
    requires r.disk.logs == d.logs[r.logFile := []] && r.disk.catalog.logNumber == r.logFile < r.nextFile
    requires r.mem == {} && r.imm.None? && r.inFlight == [] && forall n :: n in d.logs ==> n < r.logFile
    ensures LogsInv(r.disk) && MemoryInv(r)
  {
    assert Contents(r.inFlight) == {};
    forall n | n >= r.logFile ensures LogEntries(r.disk, n) == {} && Ascending(r.disk, n) {}
  }

  /** Opening after a crash, at any moment, gives a state that satisfies the invariant again. */
  lemma RecoveryKeepsInv(s: State, torn: bool, d: Disk, files: seq<File>, r: State)
    requires Inv(s) && Durable(s) && Crashed(s, torn, d) && Recovered(s, torn, d, files, r)
    ensures Inv(r)
    ensures Readable(r) == All(d.catalog.levels) + LiveLogEntries(d)
  {
    CatalogSurvives(s, torn, d);
    OpenedFromLeft(s, torn, d, files, r);
  }

  lemma OpenedFromLeft(s: State, torn: bool, d: Disk, files: seq<File>, r: State)
    requires Inv(s) && Left(s, torn, d) && Recovered(s, torn, d, files, r)
    ensures Inv(r)
    ensures Readable(r) == All(d.catalog.levels) + LiveLogEntries(d)
  {
    RecoveredIsTree(s, torn, d, files, r);
    RecoveredHistoryFits(s, torn, d, r.lastSequence);
    OpenedLogs(d, r);
    OpenedKeepsInv(s, d, r);
  }

  lemma RecoveredIsTree(s: State, torn: bool, d: Disk, files: seq<File>, r: State)
    requires Inv(s) && Left(s, torn, d) && Recovered(s, torn, d, files, r)
    ensures Tree(r.Levels()) && AllOrdered(r.Levels()) && All(r.Levels()) == All(d.catalog.levels) + LiveLogEntries(d)
    ensures NumbersIdentify(r.Levels(), r.nextFile) && Present(r.Levels(), r.disk.tables)
  {
    LiveLogFacts(s, torn, d);
    assert NumberedBelow(files, r.nextFile);
    RecoveredVersion(d, files, r.nextFile);
  }

  lemma OpenedKeepsInv(s: State, d: Disk, r: State)
    requires ReadInv(s) && d.catalog == s.disk.catalog && TopSequence(d, r.lastSequence)
    requires Tree(r.Levels()) && AllOrdered(r.Levels()) && NumbersIdentify(r.Levels(), r.nextFile)
    requires Present(r.Levels(), r.disk.tables) && LogsInv(r.disk) && MemoryInv(r)
    requires r.mem == {} && r.imm.None? && r.inFlight == [] && r.snapshots == [] && r.held == []
    requires r.building.None? && r.job.None? && r.floor == s.floor
    requires r.disk.catalog.nextFile == r.nextFile && r.disk.catalog.lastSequence == r.lastSequence
    requires AtMost(r.acked, r.lastSequence) && Distinct(r.acked) && AtMost(All(r.Levels()), r.lastSequence)
    requires All(r.Levels()) <= r.acked && SameFrom(s.floor, r.acked, All(r.Levels()))
    ensures Inv(r) && Readable(r) == All(r.Levels())
  {
    assert Readable(r) == All(r.Levels());
    InvParts(r);
  }

  // ------------------------------------------------- the new manifest

  lemma NumbersDifferInLevels(levels: Levels, nextFile: nat)
    requires AllOrdered(levels) && NumbersIdentify(levels, nextFile)
    ensures forall l :: 0 <= l < NUM_LEVELS ==> NumbersDiffer(levels[l])
  {
    forall l, i, j | 0 <= l < NUM_LEVELS && 0 <= i < j < |levels[l]|
      ensures levels[l][i].number != levels[l][j].number
    {
      assert Less(levels[l][i], levels[l][j]);
    }
  }

  lemma RecoveredEditIsNew(levels: Levels, files: seq<File>, nextFile: nat)
    requires |levels| == NUM_LEVELS && NumbersIdentify(levels, nextFile) && Written(files, nextFile)
    ensures ValidEdit(AddTablesAtZero(files))
    ensures forall l :: 0 <= l < NUM_LEVELS ==> FreshNumbers(Numbers(levels[l]), AddTablesAtZero(files).added, l)
  {
    ReplayedFilesFollow(files, nextFile);
  }

  /** The manifest that opening starts describes the version recovered. */
  lemma OpenedManifestDescribes(d: Disk, files: seq<File>, r: State)
    requires CatalogInv(d.catalog) && Written(files, d.catalog.nextFile)
    requires forall l, f :: 0 <= l < |d.catalog.levels| && f in d.catalog.levels[l] ==> f.NonEmpty()
    requires forall f :: f in files ==> f.NonEmpty()
    requires r.disk.manifest == OpenedManifest(d.catalog.levels, files, r.logFile, r.nextFile, r.lastSequence)
    requires r.disk.catalog == Catalog(InstallEdit(d.catalog.levels, AddTablesAtZero(files)),
                                       r.logFile, r.nextFile, r.lastSequence)
    ensures Describes(r.disk.manifest, r.disk.catalog)
  {
    NumbersDifferInLevels(d.catalog.levels, d.catalog.nextFile);
    RecoveredEditIsNew(d.catalog.levels, files, d.catalog.nextFile);
    OpenedDescribes(d.catalog.levels, r.disk.manifest[1], r.disk.catalog);
  }

  lemma OpenedAdds(levels: Levels, files: seq<File>, logFile: nat, nextFile: nat, last: nat)
    requires |levels| == NUM_LEVELS
    ensures AllAdds(Files(OpenedManifest(levels, files, logFile, nextFile, last)))
         == Listing(levels, NUM_LEVELS) + AddTablesAtZero(files).added
  {
    var m := OpenedManifest(levels, files, logFile, nextFile, last);
    assert m == [Snapshot(levels)] + [m[1]];
    FilesAppend([Snapshot(levels)], m[1]);
    SnapshotAdds(levels);
  }

  /** Every addition in it is a file of the version. */
  lemma OpenedListsVersion(d: Disk, files: seq<File>, r: State, a: Addition)
    requires |d.catalog.levels| == NUM_LEVELS && WithTables(d.catalog.levels, files, r.Levels())
    requires r.disk.manifest == OpenedManifest(d.catalog.levels, files, r.logFile, r.nextFile, r.lastSequence)
    requires a in Added(r)
    ensures a.level < NUM_LEVELS && a.file in r.Levels()[a.level]
  {
    OpenedAdds(d.catalog.levels, files, r.logFile, r.nextFile, r.lastSequence);
  }

  lemma OpenedManifestInv(d: Disk, files: seq<File>, r: State)
    requires CatalogInv(d.catalog) && Written(files, d.catalog.nextFile)
    requires forall l, f :: 0 <= l < |d.catalog.levels| && f in d.catalog.levels[l] ==> f.NonEmpty()
    requires forall f :: f in files ==> f.NonEmpty()
    requires r.disk.manifest == OpenedManifest(d.catalog.levels, files, r.logFile, r.nextFile, r.lastSequence)
    requires r.disk.catalog == Catalog(InstallEdit(d.catalog.levels, AddTablesAtZero(files)),
                                       r.logFile, r.nextFile, r.lastSequence)
    requires NumbersIdentify(r.Levels(), r.nextFile) && r.building.None? && r.job.None?
    ensures ManifestInv(r)
  {
    OpenedManifestDescribes(d, files, r);
    TablesInstall(d.catalog.levels, files, d.catalog.nextFile);
    forall a | a in Added(r) ensures a.level < NUM_LEVELS && a.file in r.Levels()[a.level] {
      OpenedListsVersion(d, files, r, a);
    }
  }

  lemma RecoveredManifestInv(s: State, torn: bool, d: Disk, files: seq<File>, r: State)
    requires Inv(s) && Left(s, torn, d) && Recovered(s, torn, d, files, r)
    requires NumbersIdentify(r.Levels(), r.nextFile)
    ensures ManifestInv(r)
  {
    ReplayedFilesFollow(files, d.catalog.nextFile);
    OpenedManifestInv(d, files, r);
  }

  lemma RecoveredRecordsInv(s: State, torn: bool, d: Disk, files: seq<File>, r: State)
    requires MemoryInv(s) && Crashed(s, torn, d) && Recovered(s, torn, d, files, r)
    ensures RecordsInv(r.disk)
  {
  }

  /** Recovery keeps the promise to the next recovery. */
  lemma RecoveryKeepsDurable(s: State, torn: bool, d: Disk, files: seq<File>, r: State)
    requires Inv(s) && Durable(s) && Crashed(s, torn, d) && Recovered(s, torn, d, files, r)
    ensures Durable(r)
  {
    CatalogSurvives(s, torn, d);
    RecoveredIsTree(s, torn, d, files, r);
    RecoveredManifestInv(s, torn, d, files, r);
    RecoveredRecordsInv(s, torn, d, files, r);
  }

  /** Recovery loses nothing: every acknowledged write is in the recovered history, nothing appears that
      was not written, and every user key reads as that history says. */
  lemma RecoveryLosesNothing(s: State, torn: bool, d: Disk, files: seq<File>, r: State)
    requires Inv(s) && Durable(s) && Crashed(s, torn, d) && Recovered(s, torn, d, files, r)
    ensures s.acked <= r.acked <= s.acked + Contents(s.inFlight)
    ensures forall u :: Meaning(Read(Readable(r), u, r.lastSequence)) == Meaning(Read(r.acked, u, r.lastSequence))
    ensures AtMost(r.acked, r.lastSequence)
  {
    RecoveryKeepsInv(s, torn, d, files, r);
    CurrentReads(r);
  }

  /** Reads at the current sequence number give what the history says. */
  lemma CurrentReads(s: State)
    requires Inv(s)
    ensures forall u :: Meaning(Read(Readable(s), u, s.lastSequence)) == Meaning(Read(s.acked, u, s.lastSequence))
    ensures AtMost(s.acked, s.lastSequence)
  {
    assert s.floor <= s.lastSequence;
  }
}
