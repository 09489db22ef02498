/** Every action of the engine keeps the invariant. */
module EngineSteps {
  import opened Wrappers
  import opened InternalKeys
  import opened MultiVersion
  import opened Version
  import opened Builder
  import opened CompactionCorrect
  import opened Picking
  import opened PickingCorrect
  import opened MemTableOutput
  import opened Engine
  import opened Flushing

  lemma InvParts(s: State)
    requires DiskInv(s.disk) && MemoryInv(s) && SequenceInv(s) && ReadInv(s)
    requires BuildingInv(s) && JobInv(s) && HeldInv(s)
    ensures Inv(s)
  {
  }

  lemma PresentFrame(levels: Levels, tables: map<nat, File>, after: map<nat, File>, bound: nat)
    requires Present(levels, tables) && NewNumber(levels, bound)
    requires forall n :: n in tables && n < bound ==> n in after && after[n] == tables[n]
    ensures Present(levels, after)
  {
  }

  /** New table files take numbers from `bound` on. */
  ghost predicate KeepsTablesBelow(s: State, t: State, bound: nat) {
    forall n :: n in s.disk.tables && n < bound ==> n in t.disk.tables && t.disk.tables[n] == s.disk.tables[n]
  }

  lemma HeldFrame(s: State, t: State)
    requires HeldInv(s) && t.held == s.held && KeepsTablesBelow(s, t, s.nextFile) && s.nextFile <= t.nextFile
    ensures HeldInv(t)
  {
    forall i | 0 <= i < |t.held| ensures Present(t.held[i], t.disk.tables) {
      PresentFrame(s.held[i], s.disk.tables, t.disk.tables, s.nextFile);
    }
  }

  lemma OutputNumbersFrame(levels: Levels, job: Job, nextFile: nat, later: nat)
    requires OutputNumbers(levels, job, nextFile) && nextFile <= later
    ensures OutputNumbers(levels, job, later)
  {
  }

  lemma JobFrame(s: State, t: State)
    requires JobInv(s) && t.job == s.job && t.Levels() == s.Levels() && t.snapshots == s.snapshots
    requires t.lastSequence == s.lastSequence && t.floor == s.floor
    requires KeepsTablesBelow(s, t, s.nextFile) && s.nextFile <= t.nextFile
    requires t.building.Some? ==> t.building.value.number >= s.nextFile
    ensures JobInv(t)
  {
    if s.job.Some? {
      OutputNumbersFrame(s.Levels(), s.job.value, s.nextFile, t.nextFile);
      forall o | o in s.job.value.outputs
        ensures o.number < s.nextFile && o.number in t.disk.tables && t.disk.tables[o.number] == o {}
    }
  }

  /** Logging a record touches one log only. */
  lemma AppendedEntries(disk: Disk, n: nat, record: Record, after: Disk)
    requires n in disk.logs && after == disk.(logs := disk.logs[n := disk.logs[n] + [record]])
    ensures LogEntries(after, n) == LogEntries(disk, n) + Contents(record)
    ensures forall m :: m != n ==> LogEntries(after, m) == LogEntries(disk, m)
  {
    forall e | e in LogEntries(disk, n) + Contents(record) ensures e in LogEntries(after, n) {
      if e in Contents(record) {
        assert record in after.logs[n];
      } else {
        var r :| r in disk.logs[n] && e in r;
        assert r in after.logs[n];
      }
    }
  }

  /** What is in a live log is readable or in flight. */
  lemma LiveLogsAreReadable(s: State, n: nat, e: Entry)
    requires MemoryInv(s) && n >= s.disk.catalog.logNumber && e in LogEntries(s.disk, n)
    ensures n <= s.logFile && n in s.disk.logs
    ensures e in s.Imm() + s.mem + Contents(s.inFlight)
  {
    if n < s.logFile {
      assert e in OlderLogEntries(s.disk, s.logFile);
    }
  }

  lemma AppendKeepsInv(s: State, record: Record)
    requires Inv(s) && s.inFlight == [] && Stamped(record, s.lastSequence + 1)
    ensures Inv(AppendStep(s, record))
  {
    var t := AppendStep(s, record);
    assert Contents(s.inFlight) == {};
    forall n, e | n >= s.disk.catalog.logNumber && e in LogEntries(s.disk, n)
      ensures e.key.sequence <= s.lastSequence
    {
      LiveLogsAreReadable(s, n, e);
    }
    AppendKeepsLogs(s.disk, s.logFile, record, s.lastSequence);
    AppendKeepsMemory(s, record);
    AppendKeepsReads(s, record);
    InvParts(t);
  }

  lemma AppendKeepsMemory(s: State, record: Record)
    requires MemoryInv(s) && s.inFlight == []
    ensures MemoryInv(AppendStep(s, record))
  {
    var t := AppendStep(s, record);
    AppendedEntries(s.disk, s.logFile, record, t.disk);
    assert Contents(s.inFlight) == {};
    assert OlderLogEntries(t.disk, t.logFile) == OlderLogEntries(s.disk, s.logFile);
  }

  lemma AppendKeepsReads(s: State, record: Record)
    requires MemoryInv(s) && SequenceInv(s) && ReadInv(s) && Stamped(record, s.lastSequence + 1)
    ensures SequenceInv(AppendStep(s, record)) && ReadInv(AppendStep(s, record))
  {
    assert Readable(AppendStep(s, record)) == Readable(s);
  }

  lemma AppendKeepsLogs(disk: Disk, n: nat, record: Record, bound: nat)
    requires LogsInv(disk) && n in disk.logs && Stamped(record, bound + 1)
    requires forall m :: m in disk.logs ==> m <= n
    requires forall m, e :: m >= disk.catalog.logNumber && e in LogEntries(disk, m) ==> e.key.sequence <= bound
    requires AtMost(All(disk.catalog.levels), bound)
    ensures LogsInv(disk.(logs := disk.logs[n := disk.logs[n] + [record]]))
  {
    var after := disk.(logs := disk.logs[n := disk.logs[n] + [record]]);
    AppendedEntries(disk, n, record, after);
    forall k, m | after.catalog.logNumber <= k < m ensures Later(LogEntries(after, m), LogEntries(after, k)) {
      assert Later(LogEntries(disk, m), LogEntries(disk, k));
      if k == n { assert LogEntries(after, m) == {}; }
    }
    forall m | m >= after.catalog.logNumber ensures Ascending(after, m) {
      assert Ascending(disk, m);
      if m == n { AppendAscends(disk, n, record, bound, after); }
    }
  }

  lemma AppendAscends(disk: Disk, n: nat, record: Record, bound: nat, after: Disk)
    requires n in disk.logs && after == disk.(logs := disk.logs[n := disk.logs[n] + [record]])
    requires Ascending(disk, n) && Stamped(record, bound + 1)
    requires forall e :: e in LogEntries(disk, n) ==> e.key.sequence <= bound
    ensures Ascending(after, n)
  {
    var old_, new_ := disk.logs[n], after.logs[n];
    forall i, j, x: Entry, y: Entry | 0 <= i <= j < |new_| && x in new_[i] && y in new_[j]
      ensures if i == j then x == y || x.key.sequence != y.key.sequence else x.key.sequence < y.key.sequence
    {
      if j < |old_| {
        assert x in old_[i] && y in old_[j];
      } else if i < |old_| {
        assert old_[i] in old_ && x in LogEntries(disk, n);
      }
    }
  }

  /** The group's sequence numbers follow everything written before. */
  lemma InFlightIsLater(s: State)
    requires SequenceInv(s)
    ensures forall e :: e in Contents(s.inFlight) ==> s.lastSequence < e.key.sequence <= s.lastSequence + |s.inFlight|
    ensures Distinct(s.acked + Contents(s.inFlight))
  {
  }

  lemma ApplyKeepsSequences(s: State)
    requires SequenceInv(s)
    ensures SequenceInv(ApplyStep(s))
  {
    InFlightIsLater(s);
    assert Readable(ApplyStep(s)) == Readable(s) + Contents(s.inFlight);
  }

  lemma ApplyKeepsReads(s: State)
    requires SequenceInv(s) && ReadInv(s)
    ensures ReadInv(ApplyStep(s))
  {
    var M := Contents(s.inFlight);
    InFlightIsLater(s);
    assert Readable(ApplyStep(s)) == Readable(s) + M;
    assert Distinct(Readable(s) + M);
    SameFromLater(s.floor, s.acked, Readable(s), M);
  }

  lemma ApplyKeepsInv(s: State)
    requires Inv(s)
    ensures Inv(ApplyStep(s))
  {
    ApplyKeepsSequences(s);
    ApplyKeepsReads(s);
    assert Contents(ApplyStep(s).inFlight) == {};
  }

  lemma SwitchKeepsLogs(s: State, t: State)
    requires LogsInv(s.disk) && MemoryInv(s) && s.inFlight == [] && s.imm.None? && t == SwitchStep(s)
    ensures LogsInv(t.disk) && MemoryInv(t)
  {
    assert Contents(s.inFlight) == {};
    assert forall n :: n != s.nextFile ==> LogEntries(t.disk, n) == LogEntries(s.disk, n);
    assert LogEntries(t.disk, s.nextFile) == {} && LogEntries(s.disk, s.nextFile) == {};
    forall n | n >= t.disk.catalog.logNumber ensures Ascending(t.disk, n) {
      assert Ascending(s.disk, n);
    }
    assert OlderLogEntries(s.disk, s.logFile) == {};
    SwitchedOlderLogs(s, t);
  }

  lemma SwitchKeepsReads(s: State, t: State)
    requires SequenceInv(s) && ReadInv(s) && s.inFlight == [] && s.imm.None? && t == SwitchStep(s)
    ensures SequenceInv(t) && ReadInv(t)
  {
    assert Readable(t) == Readable(s);
  }

  lemma SwitchKeepsInv(s: State)
    requires Inv(s) && s.inFlight == [] && s.imm.None?
    ensures Inv(SwitchStep(s))
  {
    var t := SwitchStep(s);
    SwitchKeepsLogs(s, t);
    SwitchKeepsReads(s, t);
    JobFrame(s, t);
    HeldFrame(s, t);
    InvParts(t);
  }

  lemma SwitchedOlderLogs(s: State, t: State)
    requires MemoryInv(s) && s.inFlight == [] && s.imm.None? && t == SwitchStep(s)
    ensures OlderLogEntries(t.disk, t.logFile) == s.mem
  {
    assert Contents(s.inFlight) == {};
    assert LogEntries(t.disk, s.logFile) == LogEntries(s.disk, s.logFile) == s.mem;
    forall e | e in OlderLogEntries(t.disk, t.logFile) ensures e in s.mem {
      var n :| n in t.disk.logs && t.disk.catalog.logNumber <= n < t.logFile && e in LogEntries(t.disk, n);
      assert n in s.disk.logs;
      assert LogEntries(t.disk, n) == LogEntries(s.disk, n);
      assert n < s.logFile ==> e in OlderLogEntries(s.disk, s.logFile);
    }
    forall e | e in s.mem ensures e in OlderLogEntries(t.disk, t.logFile) {
      assert s.logFile in t.disk.logs;
    }
  }

  lemma TablesFrameLogs(disk: Disk, after: Disk)
    requires after == disk.(tables := after.tables)
    ensures LogsInv(disk) ==> LogsInv(after)
    ensures forall n :: LogEntries(after, n) == LogEntries(disk, n)
    ensures forall n :: OlderLogEntries(after, n) == OlderLogEntries(disk, n)
  {
    assert forall n :: LogEntries(after, n) == LogEntries(disk, n);
    assert forall n :: Ascending(disk, n) ==> Ascending(after, n);
    assert forall n :: OlderLogEntries(after, n) == OlderLogEntries(disk, n);
  }

  /** Steps that only write table files leave reads, logs and memory as they are. */
  lemma TablesFrame(s: State, t: State)
    requires DiskInv(s.disk) && MemoryInv(s) && SequenceInv(s) && ReadInv(s)
    requires t == s.(disk := s.disk.(tables := t.disk.tables), nextFile := t.nextFile, building := t.building,
                     job := t.job)
    requires Present(s.Levels(), t.disk.tables) && s.nextFile <= t.nextFile
    ensures DiskInv(t.disk) && MemoryInv(t) && SequenceInv(t) && ReadInv(t)
  {
    TablesFrameLogs(s.disk, t.disk);
    assert Readable(t) == Readable(s);
  }

  lemma BuildTableKeepsInv(s: State, f: File)
    requires Inv(s) && Enabled(s, BuildTable(f))
    ensures Inv(Step(s, BuildTable(f)))
  {
    var t := Step(s, BuildTable(f));
    PresentFrame(s.Levels(), s.disk.tables, t.disk.tables, s.nextFile);
    TablesFrame(s, t);
    HeldFrame(s, t);
    JobFrame(s, t);
  }

  // ------------------------------------------------- installing edits

  lemma AddTableInstalls(levels: Levels, level: nat, f: File)
    requires Tree(levels) && AllOrdered(levels) && level < NUM_LEVELS && f.NonEmpty() && NewNumber(levels, f.number)
    requires forall l, g :: 0 <= l < NUM_LEVELS && g in levels[l] ==> g.NonEmpty()
    ensures var after := InstallEdit(levels, AddTable(level, f));
            WithTable(levels, level, f, after) && AllOrdered(after)
  {
    var edit := AddTable(level, f);
    var after := InstallEdit(levels, edit);
    InstallContents(levels[level], edit, level);
    assert forall g :: g in FilesAdded(edit.added, level) <==> g == f by {
      assert Addition(level, f) in edit.added;
    }
    forall l | 0 <= l < NUM_LEVELS && l != level ensures after[l] == levels[l] {
      UntouchedLevel(levels[l], edit, l);
    }
  }

  /** The numbers of a version with one more table. */
  lemma AddTableNumbers(levels: Levels, level: nat, f: File, after: Levels, tables: map<nat, File>, nextFile: nat)
    requires NumbersIdentify(levels, nextFile) && Present(levels, tables) && WithTable(levels, level, f, after)
    requires NewNumber(levels, f.number) && f.number < nextFile && f.number in tables && tables[f.number] == f
    ensures NumbersIdentify(after, nextFile) && Present(after, tables) && NewNumber(after, f.number + 1)
  {
    forall l, g | 0 <= l < |after| && g in after[l]
      ensures (l == level && g == f) || (g in levels[l] && g.number < f.number) {}
    AddTableIdentifies(levels, level, f, after, nextFile);
  }

  lemma AddTableIdentifies(levels: Levels, level: nat, f: File, after: Levels, nextFile: nat)
    requires NumbersIdentify(levels, nextFile) && f.number < nextFile && |after| == |levels|
    requires forall l, g :: 0 <= l < |after| && g in after[l] ==>
               (l == level && g == f) || (g in levels[l] && g.number < f.number)
    ensures NumbersIdentify(after, nextFile)
  {
    forall l, m, g, h | 0 <= l < |after| && 0 <= m < |after| && g in after[l] && h in after[m] && g.number == h.number
      ensures l == m && g == h
    {
      assert (l == level && g == f) || g.number < f.number;
      assert (m == level && h == f) || h.number < f.number;
    }
  }

  /** The immutable memtable's table keeps the tree. */
  lemma InstalledTree(s: State, level: nat)
    requires Inv(s) && Enabled(s, InstallTable(level))
    ensures var f := s.building.value; var after := InstallTableStep(s, level).Levels();
            && WithTable(s.Levels(), level, f, after) && AllOrdered(after) && Tree(after)
            && All(after) == All(s.Levels()) + s.Imm()
  {
    var f := s.building.value;
    TreeFilesNonEmpty(s.Levels());
    AddTableInstalls(s.Levels(), level, f);
    var after := InstallEdit(s.Levels(), AddTable(level, f));
    forall l, g | 0 <= l < NUM_LEVELS && g in s.Levels()[l] ensures Above(f.entries, g.entries) {
      forall x, y | x in f.entries && y in g.entries ensures x.key.sequence > y.key.sequence {
        InAll(s.Levels(), l, g, y);
        assert x in s.Imm();
      }
    }
    AddingTableKeepsTree(s.Levels(), level, f, after);
  }

  /** The state after a flush: the immutable memtable has moved into the version and its log is no
      longer needed. */
  ghost predicate Flushed(s: State, t: State) {
    && t == s.(disk := t.disk, imm := None, building := None)
    && t.disk == s.disk.(catalog := t.disk.catalog, manifest := t.disk.manifest)
    && t.disk.catalog.logNumber == s.logFile && t.disk.catalog.nextFile == s.nextFile
    && t.disk.catalog.lastSequence == s.lastSequence
    && All(t.Levels()) == All(s.Levels()) + s.Imm()
  }

  lemma FlushedLogs(s: State, t: State)
    requires LogsInv(s.disk) && MemoryInv(s) && SequenceInv(s) && Flushed(s, t)
    ensures LogsInv(t.disk) && MemoryInv(t)
  {
    assert forall n :: LogEntries(t.disk, n) == LogEntries(s.disk, n);
    forall n | n >= s.logFile ensures Later(LogEntries(t.disk, n), All(t.Levels())) {
      FlushedLogIsLater(s, t, n);
    }
    forall n | n >= s.logFile ensures Ascending(t.disk, n) {
      assert Ascending(s.disk, n);
    }
    assert OlderLogEntries(t.disk, t.logFile) == {};
  }

  lemma FlushedLogIsLater(s: State, t: State, n: nat)
    requires LogsInv(s.disk) && MemoryInv(s) && SequenceInv(s) && Flushed(s, t) && n >= s.logFile
    ensures Later(LogEntries(s.disk, n), All(t.Levels()))
  {
    if n > s.logFile {
      assert LogEntries(s.disk, n) == {};
    } else {
      assert Later(LogEntries(s.disk, n), All(s.Levels()));
      forall x, y | x in LogEntries(s.disk, n) && y in s.Imm() ensures x.key.sequence > y.key.sequence {
        assert x in s.mem || x in Contents(s.inFlight);
      }
    }
  }

  lemma FlushedReads(s: State, t: State)
    requires SequenceInv(s) && ReadInv(s) && Flushed(s, t)
    ensures SequenceInv(t) && ReadInv(t)
  {
    assert Readable(t) == Readable(s);
  }

  lemma NewerThanVersion(s: State, f: File)
    requires SequenceInv(s) && Contents(f.entries) == s.Imm()
    ensures forall l, g :: 0 <= l < |s.Levels()| && g in s.Levels()[l] ==> Above(f.entries, g.entries)
  {
    forall l, g, x, y | 0 <= l < |s.Levels()| && g in s.Levels()[l] && x in f.entries && y in g.entries
      ensures x.key.sequence > y.key.sequence
    {
      InAll(s.Levels(), l, g, y);
      assert x in s.Imm();
    }
  }

  lemma FlushedNumbers(levels: Levels, job: Job, nextFile: nat, level: nat, f: File, after: Levels)
    requires OutputNumbers(levels, job, nextFile) && WithTable(levels, level, f, after)
    requires forall o :: o in job.outputs ==> o.number != f.number
    ensures OutputNumbers(after, job, nextFile)
  {
  }

  lemma FlushedJob(s: State, t: State, level: nat)
    requires JobInv(s) && s.building.Some? && Flushed(s, t)
    requires WithTable(s.Levels(), level, s.building.value, t.Levels())
    requires s.job.Some? ==> JobReady(t.Levels(), s.job.value)
    ensures JobInv(t)
  {
    if s.job.Some? {
      FlushedNumbers(s.Levels(), s.job.value, s.nextFile, level, s.building.value, t.Levels());
    }
  }

  lemma InstalledJobReady(s: State, level: nat, after: Levels)
    requires Tree(s.Levels()) && SequenceInv(s) && BuildingInv(s) && JobInv(s) && s.building.Some? && s.job.Some?
    requires WithTable(s.Levels(), level, s.building.value, after) && Distinct(All(after))
    requires LandsAt(s, level, s.building.value) && ClearsJob(s, level, s.building.value)
    ensures JobReady(after, s.job.value)
  {
    var f := s.building.value;
    NewerThanVersion(s, f);
    if level == s.job.value.level + 1 && !Beside(f, s.job.value.outputs) {
      LandsBeside(s.Levels(), s.job.value, f);
    }
    JobSurvivesFlush(s.Levels(), s.job.value, level, f, after);
  }

  lemma InstallTableKeepsInv(s: State, level: nat, t: State)
    requires Inv(s) && s.building.Some? && Flushed(s, t) && level < NUM_LEVELS
    requires LandsAt(s, level, s.building.value) && ClearsJob(s, level, s.building.value)
    requires WithTable(s.Levels(), level, s.building.value, t.Levels()) && AllOrdered(t.Levels()) && Tree(t.Levels())
    ensures Inv(t)
  {
    AddTableNumbers(s.Levels(), level, s.building.value, t.Levels(), t.disk.tables, s.nextFile);
    FlushedLogs(s, t);
    FlushedReads(s, t);
    if s.job.Some? { InstalledJobReady(s, level, t.Levels()); }
    FlushedJob(s, t, level);
    InvParts(t);
  }

  lemma InstallTableStepKeepsInv(s: State, level: nat)
    requires Inv(s) && Enabled(s, InstallTable(level))
    ensures Inv(InstallTableStep(s, level))
  {
    InstalledTree(s, level);
    InstallTableKeepsInv(s, level, InstallTableStep(s, level));
  }

  lemma EmptyEditInstalls(levels: Levels)
    requires AllOrdered(levels)
    ensures InstallEdit(levels, Edit({}, [])) == levels
  {
    forall l | 0 <= l < NUM_LEVELS ensures InstallEdit(levels, Edit({}, []))[l] == levels[l] {
      UntouchedLevel(levels[l], Edit({}, []), l);
    }
  }

  lemma InstallEmptyKeepsInv(s: State, t: State)
    requires Inv(s) && s.imm == Some({}) && s.building.None? && t.Levels() == s.Levels() && Flushed(s, t)
    ensures Inv(t)
  {
    FlushedLogs(s, t);
    FlushedReads(s, t);
    JobFrame(s, t);
    HeldFrame(s, t);
    InvParts(t);
  }

  lemma InstallEmptyStepKeepsInv(s: State)
    requires Inv(s) && s.imm == Some({}) && s.building.None?
    ensures Inv(Install(s, Edit({}, []), s.logFile).(imm := None))
  {
    EmptyEditInstalls(s.Levels());
    InstallEmptyKeepsInv(s, Install(s, Edit({}, []), s.logFile).(imm := None));
  }

  // --------------------------------------------- compaction and moves

  lemma JobEditMembers(job: Job)
    ensures forall l, n :: (l, n) in JobEdit(job).deleted <==>
              || (l == job.level && exists f :: f in job.inputs0 && f.number == n)
              || (l == job.level + 1 && exists f :: f in job.inputs1 && f.number == n)
    ensures forall o :: o in job.outputs <==> Addition(job.level + 1, o) in JobEdit(job).added
    ensures forall a :: a in JobEdit(job).added ==> a.level == job.level + 1 && a.file in job.outputs
    ensures |JobEdit(job).added| == |job.outputs|
    ensures forall i :: 0 <= i < |job.outputs| ==> JobEdit(job).added[i] == Addition(job.level + 1, job.outputs[i])
  {
    forall o | o in job.outputs ensures Addition(job.level + 1, o) in JobEdit(job).added {
      var i :| 0 <= i < |job.outputs| && job.outputs[i] == o;
      assert JobEdit(job).added[i] == Addition(job.level + 1, o);
    }
  }

  /** A number stands for one file of the level. */
  ghost predicate NumbersName(files: seq<File>) {
    forall f, g :: f in files && g in files && f.number == g.number ==> f == g
  }

  /** The outputs carry numbers that neither the level nor another output has. */
  ghost predicate OutputsAreNew(files: seq<File>, job: Job) {
    && (forall o :: o in job.outputs ==> o.NonEmpty())
    && (forall o, f :: o in job.outputs && f in files ==> o.number != f.number)
    && (forall i, j :: 0 <= i < j < |job.outputs| ==> job.outputs[i].number != job.outputs[j].number)
  }

  lemma JobInstallsInputs(levels: Levels, job: Job)
    requires TakesInputs(levels, job) && Ordered(levels[job.level]) && NumbersName(levels[job.level])
    requires forall o :: o in job.outputs ==> o.NonEmpty()
    ensures var files := InstallLevel(levels[job.level], JobEdit(job), job.level);
            Ordered(files) && forall f :: f in files <==> f in levels[job.level] && f !in job.inputs0
  {
    var edit := JobEdit(job);
    JobEditMembers(job);
    InstallContents(levels[job.level], edit, job.level);
    assert FilesAdded(edit.added, job.level) == {};
  }

  lemma JobAddsOutputs(job: Job)
    ensures forall f :: f in FilesAdded(JobEdit(job).added, job.level + 1) <==> f in job.outputs
  {
    JobEditMembers(job);
    forall f | f in job.outputs ensures f in FilesAdded(JobEdit(job).added, job.level + 1) {
      assert Addition(job.level + 1, f) in JobEdit(job).added;
    }
  }

  lemma JobOutputsAreFresh(files: seq<File>, job: Job)
    requires OutputsAreNew(files, job)
    ensures FreshNumbers(set f | f in files :: f.number, JobEdit(job).added, job.level + 1)
  {
    JobEditMembers(job);
  }

  lemma JobInstallsOutputs(levels: Levels, job: Job)
    requires TakesInputs(levels, job) && Ordered(levels[job.level + 1]) && NumbersName(levels[job.level + 1])
    requires OutputsAreNew(levels[job.level + 1], job)
    ensures var files := InstallLevel(levels[job.level + 1], JobEdit(job), job.level + 1);
            && Ordered(files)
            && forall f :: f in files <==> (f in levels[job.level + 1] && f !in job.inputs1) || f in job.outputs
  {
    JobOutputsAreFresh(levels[job.level + 1], job);
    InstallContents(levels[job.level + 1], JobEdit(job), job.level + 1);
    JobAddsOutputs(job);
    JobDeletesInputs(levels, job);
  }

  lemma JobDeletesInputs(levels: Levels, job: Job)
    requires TakesInputs(levels, job) && NumbersName(levels[job.level + 1])
    ensures forall f :: f in levels[job.level + 1] ==>
              ((job.level + 1, f.number) in JobEdit(job).deleted <==> f in job.inputs1)
  {
    JobEditMembers(job);
  }

  lemma JobLeavesOthers(levels: Levels, job: Job)
    requires AllOrdered(levels) && forall o :: o in job.outputs ==> o.NonEmpty()
    ensures forall l :: 0 <= l < NUM_LEVELS && l != job.level && l != job.level + 1 ==>
              InstallEdit(levels, JobEdit(job))[l] == levels[l]
  {
    JobEditMembers(job);
    forall l | 0 <= l < NUM_LEVELS && l != job.level && l != job.level + 1
      ensures InstallEdit(levels, JobEdit(job))[l] == levels[l]
    {
      UntouchedLevel(levels[l], JobEdit(job), l);
    }
  }

  /** Installing the edit of a job replaces its inputs by its outputs. */
  lemma JobInstalls(levels: Levels, job: Job, nextFile: nat)
    requires TakesInputs(levels, job) && AllOrdered(levels) && NumbersIdentify(levels, nextFile)
    requires OutputNumbers(levels, job, nextFile)
    requires forall o :: o in job.outputs ==> o.NonEmpty()
    ensures var after := InstallEdit(levels, JobEdit(job));
            Replaced(levels, job, after) && AllOrdered(after)
  {
    NumbersNameFiles(levels, job, nextFile);
    JobInstallsInputs(levels, job);
    JobInstallsOutputs(levels, job);
    JobLeavesOthers(levels, job);
    OrderedAround(levels, job.level, InstallEdit(levels, JobEdit(job)));
  }

  lemma NumbersNameFiles(levels: Levels, job: Job, nextFile: nat)
    requires TakesInputs(levels, job) && NumbersIdentify(levels, nextFile) && OutputNumbers(levels, job, nextFile)
    requires forall o :: o in job.outputs ==> o.NonEmpty()
    ensures NumbersName(levels[job.level]) && NumbersName(levels[job.level + 1])
    ensures OutputsAreNew(levels[job.level + 1], job)
  {
  }

  lemma OrderedAround(levels: Levels, level: nat, after: Levels)
    requires AllOrdered(levels) && |after| == NUM_LEVELS && level + 1 < NUM_LEVELS
    requires forall l :: 0 <= l < NUM_LEVELS && l != level && l != level + 1 ==> after[l] == levels[l]
    requires Ordered(after[level]) && Ordered(after[level + 1])
    ensures AllOrdered(after)
  {
    forall l | 0 <= l < NUM_LEVELS ensures Ordered(after[l]) {
      assert Ordered(levels[l]);
    }
  }

  lemma ReplacedFile(levels: Levels, job: Job, after: Levels, l: nat, f: File)
    requires TakesInputs(levels, job) && Replaced(levels, job, after) && l < NUM_LEVELS && f in after[l]
    ensures (l == job.level + 1 && f in job.outputs) || (f in levels[l] && !(l == job.level && f in job.inputs0))
  {
  }

  lemma ReplacedNumbersDiffer(levels: Levels, job: Job, after: Levels, nextFile: nat, l: nat, f: File, m: nat, g: File)
    requires TakesInputs(levels, job) && Replaced(levels, job, after) && OutputNumbers(levels, job, nextFile)
    requires NumbersIdentify(levels, nextFile)
    requires l < NUM_LEVELS && m < NUM_LEVELS && f in after[l] && g in after[m] && f.number == g.number
    ensures l == m && f == g
  {
    ReplacedFile(levels, job, after, l, f);
    ReplacedFile(levels, job, after, m, g);
  }

  lemma ReplacedNumbers(levels: Levels, job: Job, after: Levels, tables: map<nat, File>, nextFile: nat)
    requires TakesInputs(levels, job) && Replaced(levels, job, after) && OutputNumbers(levels, job, nextFile)
    requires NumbersIdentify(levels, nextFile) && Present(levels, tables)
    requires forall o :: o in job.outputs ==> o.number in tables && tables[o.number] == o
    ensures NumbersIdentify(after, nextFile) && Present(after, tables)
  {
    forall l, f | 0 <= l < |after| && f in after[l]
      ensures f.number < nextFile && f.number in tables && tables[f.number] == f
    {
      ReplacedFile(levels, job, after, l, f);
    }
    forall l, m, f, g | 0 <= l < |after| && 0 <= m < |after| && f in after[l] && g in after[m] && f.number == g.number
      ensures l == m && f == g
    {
      ReplacedNumbersDiffer(levels, job, after, nextFile, l, f, m, g);
    }
  }

  /** A new version is current, with the logs as they were. */
  ghost predicate Recataloged(s: State, t: State) {
    && t.disk == s.disk.(catalog := t.disk.catalog, manifest := t.disk.manifest)
    && t.disk.catalog == Catalog(t.Levels(), s.disk.catalog.logNumber, s.nextFile, s.lastSequence)
  }

  /** The state after a change of version that readers from `bound` on cannot see. */
  ghost predicate Revised(s: State, t: State, bound: nat) {
    && t == s.(disk := t.disk, job := None, floor := t.floor)
    && Recataloged(s, t)
    && All(t.Levels()) <= All(s.Levels()) && SameFrom(bound, All(s.Levels()), All(t.Levels()))
    && t.floor == (if s.floor < bound then bound else s.floor)
    && bound <= s.lastSequence && forall i :: 0 <= i < |s.snapshots| ==> bound <= s.snapshots[i]
  }

  lemma RevisedLogs(s: State, t: State, bound: nat)
    requires LogsInv(s.disk) && MemoryInv(s) && Revised(s, t, bound)
    ensures LogsInv(t.disk) && MemoryInv(t)
  {
    assert forall n :: LogEntries(t.disk, n) == LogEntries(s.disk, n);
    assert forall n :: Ascending(s.disk, n) ==> Ascending(t.disk, n);
    assert OlderLogEntries(t.disk, t.logFile) == OlderLogEntries(s.disk, s.logFile);
  }

  lemma RevisedReads(s: State, t: State, bound: nat)
    requires SequenceInv(s) && ReadInv(s) && Revised(s, t, bound)
    ensures SequenceInv(t) && ReadInv(t)
  {
    var M := s.Imm() + s.mem;
    assert Readable(s) == All(s.Levels()) + M && Readable(t) == All(t.Levels()) + M;
    assert Distinct(Readable(s)) && Distinct(Readable(t));
    SameFromLater(bound, All(s.Levels()), All(t.Levels()), M);
    SameFromTransitive(s.floor, bound, t.floor, s.acked, Readable(s), Readable(t));
  }

  lemma RevisedKeepsInv(s: State, t: State, bound: nat)
    requires Inv(s) && s.building.None? && Revised(s, t, bound)
    requires Tree(t.Levels()) && AllOrdered(t.Levels())
    requires NumbersIdentify(t.Levels(), s.nextFile) && Present(t.Levels(), t.disk.tables)
    ensures Inv(t)
  {
    RevisedLogs(s, t, bound);
    RevisedReads(s, t, bound);
    InvParts(t);
  }

  lemma InstalledVersion(levels: Levels, job: Job, after: Levels, tables: map<nat, File>, nextFile: nat)
    requires Tree(levels) && NumbersIdentify(levels, nextFile) && Present(levels, tables)
    requires JobReady(levels, job) && OutputNumbers(levels, job, nextFile)
    requires forall o :: o in job.outputs ==> o.number in tables && tables[o.number] == o
    requires Replaced(levels, job, after) && AllOrdered(after)
    ensures Tree(after) && NumbersIdentify(after, nextFile) && Present(after, tables)
    ensures All(after) <= All(levels) && SameFrom(job.smallestSnapshot, All(levels), All(after))
  {
    InvisibleExactlyWhen(levels, job, after);
    ReplacedNumbers(levels, job, after, tables, nextFile);
  }

  /** The state after the running job has been installed. */
  ghost predicate Compacted(s: State, job: Job, t: State) {
    && t == s.(disk := t.disk, job := None, floor := t.floor)
    && Recataloged(s, t)
    && t.floor == if s.floor < job.smallestSnapshot then job.smallestSnapshot else s.floor
  }

  lemma CompactedIsRevised(s: State, job: Job, t: State)
    requires JobInv(s) && s.job == Some(job) && Compacted(s, job, t)
    requires All(t.Levels()) <= All(s.Levels()) && SameFrom(job.smallestSnapshot, All(s.Levels()), All(t.Levels()))
    ensures Revised(s, t, job.smallestSnapshot)
  {
  }

  lemma InstallCompactionKeepsInv(s: State, job: Job, t: State)
    requires Inv(s) && s.job == Some(job) && s.building.None? && Compacted(s, job, t)
    requires Replaced(s.Levels(), job, t.Levels()) && AllOrdered(t.Levels())
    ensures Inv(t)
  {
    InstalledVersion(s.Levels(), job, t.Levels(), t.disk.tables, s.nextFile);
    CompactedIsRevised(s, job, t);
    RevisedKeepsInv(s, t, job.smallestSnapshot);
  }

  lemma InstallCompactionStepKeepsInv(s: State)
    requires Inv(s) && s.job.Some? && s.building.None?
    ensures Inv(InstallCompactionStep(s))
  {
    JobInstalls(s.Levels(), s.job.value, s.nextFile);
    InstallCompactionKeepsInv(s, s.job.value, InstallCompactionStep(s));
  }

  lemma MoveDraws(levels: Levels, level: nat, f: File)
    requires TakesInputs(levels, MoveJob(level, f)) && WellFormed(f)
    ensures InputEntries(MoveJob(level, f)) == EntriesOf([f]) && DrawnFromInputs(MoveJob(level, f))
  {
    assert f in [f];
    assert forall e :: e in f.entries ==> e in EntriesOf([f]);
  }

  /** A file picked on its own may be moved down when the next file does not continue it. */
  lemma MoveIsReady(levels: Levels, level: nat, f: File)
    requires Tree(levels) && TakesInputs(levels, MoveJob(level, f)) && Picked(levels, level, [f], [])
    requires level > 0 ==> BoundaryClosed(levels[level], [f])
    ensures Apart(levels, MoveJob(level, f)) && Closed(levels, MoveJob(level, f))
  {
    PickedIsApart(levels, MoveJob(level, f));
    PickedClosedExactlyWhen(levels, MoveJob(level, f));
  }

  lemma MoveKeepsTree(levels: Levels, job: Job, after: Levels)
    requires Tree(levels) && TakesInputs(levels, job) && Closed(levels, job) && Apart(levels, job)
    requires DrawnFromInputs(job) && InputEntries(job) == EntriesOf(job.outputs)
    requires Replaced(levels, job, after) && AllOrdered(after)
    ensures Tree(after) && All(after) == All(levels)
  {
    ApartOutputs(levels, job);
    ClosedOutputsAreOlder(levels, job);
    ReplacingKeepsTree(levels, job, after);
    ContentsAfter(levels, job, after);
    InputsAreEntries(levels, job);
  }

  lemma TrivialMoveKeepsInv(s: State, t: State)
    requires Inv(s) && s.job.None? && s.building.None?
    requires NumbersIdentify(t.Levels(), s.nextFile) && Present(t.Levels(), s.disk.tables)
    requires Tree(t.Levels()) && All(t.Levels()) == All(s.Levels()) && AllOrdered(t.Levels())
    requires t == s.(disk := t.disk) && Recataloged(s, t)
    ensures Inv(t)
  {
    MovedIsRevised(s, t);
    RevisedKeepsInv(s, t, 0);
  }

  lemma MovedIsRevised(s: State, t: State)
    requires s.job.None? && All(t.Levels()) == All(s.Levels())
    requires t == s.(disk := t.disk) && Recataloged(s, t)
    ensures Revised(s, t, 0)
  {
  }

  lemma MoveNumbers(levels: Levels, level: nat, f: File, tables: map<nat, File>, nextFile: nat)
    requires level < |levels| && f in levels[level] && NumbersIdentify(levels, nextFile) && Present(levels, tables)
    ensures OutputNumbers(levels, MoveJob(level, f), nextFile)
    ensures f.number in tables && tables[f.number] == f
  {
    assert f in [f];
  }

  lemma MoveInstalls(levels: Levels, level: nat, f: File, tables: map<nat, File>, nextFile: nat)
    requires Tree(levels) && AllOrdered(levels) && level + 1 < NUM_LEVELS && f in levels[level]
    requires NumbersIdentify(levels, nextFile) && Present(levels, tables)
    requires Picked(levels, level, [f], []) && (level > 0 ==> BoundaryClosed(levels[level], [f]))
    ensures f.NonEmpty()
    ensures var job := MoveJob(level, f); var after := InstallEdit(levels, JobEdit(job));
            && NumbersIdentify(after, nextFile) && Present(after, tables)
            && Tree(after) && All(after) == All(levels) && AllOrdered(after)
  {
    var job := MoveJob(level, f);
    TreeIsRanged(levels, level);
    MoveDraws(levels, level, f);
    MoveIsReady(levels, level, f);
    MoveNumbers(levels, level, f, tables, nextFile);
    JobInstalls(levels, job, nextFile);
    MoveKeepsTree(levels, job, InstallEdit(levels, JobEdit(job)));
    ReplacedNumbers(levels, job, InstallEdit(levels, JobEdit(job)), tables, nextFile);
  }

  lemma TrivialMoveStepKeepsInv(s: State, level: nat, f: File)
    requires Inv(s) && s.job.None? && s.building.None? && level + 1 < NUM_LEVELS && f in s.Levels()[level]
    requires Picked(s.Levels(), level, [f], []) && (level > 0 ==> BoundaryClosed(s.Levels()[level], [f]))
    ensures f.NonEmpty() && Inv(TrivialMoveStep(s, level, f))
  {
    NumbersStayBelow(s.Levels(), s.disk.catalog.nextFile, s.nextFile);
    MoveInstalls(s.Levels(), level, f, s.disk.tables, s.nextFile);
    TrivialMoveKeepsInv(s, TrivialMoveStep(s, level, f));
  }

  /** Moving a picked file down keeps the tree if and only if the next file of its level does not continue
      it. */
  lemma MoveKeepsTreeExactlyWhen(levels: Levels, level: nat, f: File, after: Levels)
    requires Tree(levels) && TakesInputs(levels, MoveJob(level, f)) && Picked(levels, level, [f], [])
    requires Replaced(levels, MoveJob(level, f), after) && Ordered(after[level]) && Ordered(after[level + 1])
    ensures Tree(after) <==> (level > 0 ==> BoundaryClosed(levels[level], [f]))
  {
    MovedFileIsApart(levels, level, f);
    MovedFileIsOlderExactlyWhen(levels, level, f);
    MovedFileInstalls(levels, level, f, after);
  }

  lemma MovedFileInstalls(levels: Levels, level: nat, f: File, after: Levels)
    requires Tree(levels) && TakesInputs(levels, MoveJob(level, f)) && Replaced(levels, MoveJob(level, f), after)
    requires Ordered(after[level]) && Ordered(after[level + 1])
    ensures Tree(after) <==> OutputsAreOlder(levels, MoveJob(level, f)) && OutputsApart(levels, MoveJob(level, f))
  {
    MovedFileDraws(levels, level, f);
    ReplacingKeepsTree(levels, MoveJob(level, f), after);
  }

  lemma MovedFileIsApart(levels: Levels, level: nat, f: File)
    requires Tree(levels) && TakesInputs(levels, MoveJob(level, f)) && Picked(levels, level, [f], [])
    ensures OutputsApart(levels, MoveJob(level, f))
  {
    MovedFileDraws(levels, level, f);
    PickedIsApart(levels, MoveJob(level, f));
    ApartOutputs(levels, MoveJob(level, f));
  }

  lemma MovedFileIsOlderExactlyWhen(levels: Levels, level: nat, f: File)
    requires Tree(levels) && TakesInputs(levels, MoveJob(level, f)) && (level == 0 ==> TakesOverlaps(levels[0], [f]))
    ensures OutputsAreOlder(levels, MoveJob(level, f)) <==> (level > 0 ==> BoundaryClosed(levels[level], [f]))
  {
    InputLevelIsClosedExactlyWhen(levels, MoveJob(level, f));
    MovedFileOrder(levels, level, f);
  }

  lemma MovedFileDraws(levels: Levels, level: nat, f: File)
    requires Tree(levels) && TakesInputs(levels, MoveJob(level, f))
    ensures DrawnFromInputs(MoveJob(level, f))
  {
    assert f in [f];
    TreeIsRanged(levels, level);
    MoveDraws(levels, level, f);
  }

  lemma MovedFileOrder(levels: Levels, level: nat, f: File)
    requires TakesInputs(levels, MoveJob(level, f))
    ensures OutputsAreOlder(levels, MoveJob(level, f)) <==> LeavesNothingOlder(levels[level], [f], [f])
  {
  }

  // ------------------------------------------------- the other actions

  lemma {:induction false} AddedTables(tables: map<nat, File>, files: seq<File>, first: nat)
    requires forall i :: 0 <= i < |files| ==> files[i].number >= first
    requires forall i, j :: 0 <= i < j < |files| ==> files[i].number < files[j].number
    ensures forall f :: f in files ==> f.number in AddTables(tables, files) && AddTables(tables, files)[f.number] == f
    ensures forall n :: n in tables && n < first ==>
              n in AddTables(tables, files) && AddTables(tables, files)[n] == tables[n]
  {
    if files != [] {
      var init, last := files[..|files| - 1], files[|files| - 1];
      AddedTables(tables, init, first);
      forall f | f in files ensures f.number in AddTables(tables, files) && AddTables(tables, files)[f.number] == f {
        var i :| 0 <= i < |files| && files[i] == f;
        if i < |init| { assert init[i] == f; }
      }
    }
  }

  lemma StartedNumbers(levels: Levels, job: Job, nextFile: nat)
    requires NumbersIdentify(levels, nextFile)
    requires forall k :: 0 <= k < |job.outputs| ==> job.outputs[k].number == nextFile + k
    ensures OutputNumbers(levels, job, nextFile + |job.outputs|)
    ensures forall o :: o in job.outputs ==> nextFile <= o.number
  {
    forall o | o in job.outputs ensures nextFile <= o.number < nextFile + |job.outputs| {
      var k :| 0 <= k < |job.outputs| && job.outputs[k] == o;
    }
  }

  /** A picked compaction whose inputs no file left behind continues may start. */
  lemma BoundaryClosedIsStartable(levels: Levels, job: Job)
    requires Tree(levels) && TakesInputs(levels, job) && Picked(levels, job.level, job.inputs0, job.inputs1)
    requires job.level > 0 ==> BoundaryClosed(levels[job.level], job.inputs0)
    requires BoundaryClosed(levels[job.level + 1], job.inputs1)
    requires Compacts(levels, job)
    ensures Startable(levels, job)
  {
    PickedClosedExactlyWhen(levels, job);
    ClosedUnmasksNothing(levels, job);
  }

  lemma StartedJob(levels: Levels, job: Job)
    requires Tree(levels) && Startable(levels, job)
    ensures JobReady(levels, job)
  {
    CompactedOutputs(levels, job);
    PickedIsApart(levels, job);
    ApartOutputs(levels, job);
    OlderExactlyWhen(levels, job);
  }

  lemma StartedJobInv(s: State, job: Job, t: State)
    requires JobReady(s.Levels(), job) && OutputNumbers(s.Levels(), job, t.nextFile) && s.building.None?
    requires SequenceInv(s) && ReadInv(s) && job.smallestSnapshot == SmallestSnapshot(s)
    requires t == s.(disk := t.disk, nextFile := t.nextFile, job := Some(job)) && t.Levels() == s.Levels()
    requires forall o :: o in job.outputs ==> o.number in t.disk.tables && t.disk.tables[o.number] == o
    ensures JobInv(t)
  {
  }

  lemma StartedTables(s: State, job: Job, t: State)
    requires forall k :: 0 <= k < |job.outputs| ==> job.outputs[k].number == s.nextFile + k
    requires t.disk.tables == AddTables(s.disk.tables, job.outputs)
    ensures KeepsTablesBelow(s, t, s.nextFile)
    ensures forall o :: o in job.outputs ==> o.number in t.disk.tables && t.disk.tables[o.number] == o
  {
    AddedTables(s.disk.tables, job.outputs, s.nextFile);
  }

  lemma StartedDisk(s: State, job: Job, t: State)
    requires DiskInv(s.disk) && MemoryInv(s) && SequenceInv(s) && ReadInv(s) && HeldInv(s)
    requires forall k :: 0 <= k < |job.outputs| ==> job.outputs[k].number == s.nextFile + k
    requires t == StartCompactionStep(s, job)
    ensures DiskInv(t.disk) && MemoryInv(t) && SequenceInv(t) && ReadInv(t) && HeldInv(t)
    ensures forall o :: o in job.outputs ==> o.number in t.disk.tables && t.disk.tables[o.number] == o
  {
    StartedTables(s, job, t);
    PresentFrame(s.Levels(), s.disk.tables, t.disk.tables, s.nextFile);
    TablesFrame(s, t);
    HeldFrame(s, t);
  }

  lemma StartedKeepsJobInv(s: State, job: Job, t: State)
    requires Tree(s.Levels()) && NumbersIdentify(s.Levels(), s.nextFile) && SequenceInv(s) && ReadInv(s)
    requires s.building.None? && Startable(s.Levels(), job) && job.smallestSnapshot == SmallestSnapshot(s)
    requires forall k :: 0 <= k < |job.outputs| ==> job.outputs[k].number == s.nextFile + k
    requires t == StartCompactionStep(s, job)
    requires forall o :: o in job.outputs ==> o.number in t.disk.tables && t.disk.tables[o.number] == o
    ensures JobInv(t)
  {
    StartedJob(s.Levels(), job);
    StartedNumbers(s.Levels(), job, s.nextFile);
    StartedJobInv(s, job, t);
  }

  lemma NumbersStayBelow(levels: Levels, nextFile: nat, later: nat)
    requires NumbersIdentify(levels, nextFile) && nextFile <= later
    ensures NumbersIdentify(levels, later)
  {
  }

  lemma StartCompactionStepKeepsInv(s: State, job: Job)
    requires Inv(s) && s.job.None? && s.building.None? && Startable(s.Levels(), job)
    requires job.smallestSnapshot == SmallestSnapshot(s)
    requires forall k :: 0 <= k < |job.outputs| ==> job.outputs[k].number == s.nextFile + k
    ensures Inv(StartCompactionStep(s, job))
  {
    var t := StartCompactionStep(s, job);
    StartedDisk(s, job, t);
    NumbersStayBelow(s.Levels(), s.disk.catalog.nextFile, s.nextFile);
    StartedKeepsJobInv(s, job, t);
    InvParts(t);
  }

  /** Garbage collection removes no table of a live version, no pending output and no needed log. */
  lemma CollectionIsSafe(s: State)
    requires Inv(s) && s.building.None?
    ensures var t := DeleteObsoleteFilesStep(s);
            && Present(t.Levels(), t.disk.tables) && HeldInv(t) && JobInv(t)
            && (forall n :: n >= s.disk.catalog.logNumber ==> LogEntries(t.disk, n) == LogEntries(s.disk, n))
  {
    var t := DeleteObsoleteFilesStep(s);
    forall l, f | 0 <= l < |s.Levels()| && f in s.Levels()[l] ensures f.number in t.disk.tables {
      assert s.Levels()[l] in s.Levels();
      assert f.number in TablesOf(s.Levels());
    }
    forall i, l, f | 0 <= i < |s.held| && 0 <= l < |s.held[i]| && f in s.held[i][l]
      ensures f.number in t.disk.tables && t.disk.tables[f.number] == f
    {
      assert Present(s.held[i], s.disk.tables);
      assert s.held[i][l] in s.held[i];
      assert f.number in TablesOf(s.held[i]);
    }
  }

  lemma DeleteObsoleteFilesKeepsInv(s: State)
    requires Inv(s) && s.building.None?
    ensures Inv(DeleteObsoleteFilesStep(s))
  {
    var t := DeleteObsoleteFilesStep(s);
    CollectionIsSafe(s);
    forall n | n >= s.disk.catalog.logNumber ensures Ascending(t.disk, n) {
      assert Ascending(s.disk, n);
    }
    assert OlderLogEntries(t.disk, t.logFile) == OlderLogEntries(s.disk, s.logFile);
    assert Readable(t) == Readable(s);
    InvParts(t);
  }

  /** Versions in use may change to older ones in use and the current one. */
  lemma HeldVersionsKeepInv(s: State, held: seq<Levels>)
    requires Inv(s) && forall i :: 0 <= i < |held| ==> held[i] in s.held || held[i] == s.Levels()
    ensures Inv(s.(held := held))
  {
    var t := s.(held := held);
    HeldFits(s, held);
    ReadersFrame(s, t);
    assert ReadInv(t) by { assert Readable(t) == Readable(s); }
    InvParts(t);
  }

  lemma HeldFits(s: State, held: seq<Levels>)
    requires DiskInv(s.disk) && HeldInv(s) && s.disk.catalog.nextFile <= s.nextFile
    requires forall i :: 0 <= i < |held| ==> held[i] in s.held || held[i] == s.Levels()
    ensures HeldInv(s.(held := held))
  {
    forall i | 0 <= i < |held| ensures Present(held[i], s.disk.tables) && NewNumber(held[i], s.nextFile) {
      if held[i] in s.held {
        var k :| 0 <= k < |s.held| && s.held[k] == held[i];
      }
    }
  }

  /** What readers hold does not touch memory and numbers. */
  lemma ReadersFrame(s: State, t: State)
    requires MemoryInv(s) && SequenceInv(s) && BuildingInv(s) && t == s.(snapshots := t.snapshots, held := t.held)
    ensures MemoryInv(t) && SequenceInv(t) && BuildingInv(t)
  {
    assert Readable(t) == Readable(s);
  }

  /** Snapshots may change as long as they stay in order, at or above the floor, and suit the running job. */
  lemma SnapshotsKeepInv(s: State, snapshots: seq<nat>)
    requires Inv(s)
    requires forall i :: 0 <= i < |snapshots| ==> snapshots[i] in s.snapshots || snapshots[i] == s.lastSequence
    requires forall i, j :: 0 <= i < j < |snapshots| ==> snapshots[i] <= snapshots[j]
    ensures Inv(s.(snapshots := snapshots))
  {
    var t := s.(snapshots := snapshots);
    ReadersFrame(s, t);
    SnapshotsFit(s, snapshots);
    assert HeldInv(t);
    InvParts(t);
  }

  lemma SnapshotsFit(s: State, snapshots: seq<nat>)
    requires SequenceInv(s) && ReadInv(s) && JobInv(s)
    requires forall i :: 0 <= i < |snapshots| ==> snapshots[i] in s.snapshots || snapshots[i] == s.lastSequence
    requires forall i, j :: 0 <= i < j < |snapshots| ==> snapshots[i] <= snapshots[j]
    ensures ReadInv(s.(snapshots := snapshots)) && JobInv(s.(snapshots := snapshots))
  {
    assert Readable(s.(snapshots := snapshots)) == Readable(s);
  }

  lemma HoldKeepsInv(s: State)
    requires Inv(s)
    ensures Inv(s.(held := s.held + [s.Levels()]))
  {
    HeldVersionsKeepInv(s, s.held + [s.Levels()]);
  }

  lemma ReleaseVersionKeepsInv(s: State, i: nat)
    requires Inv(s) && i < |s.held|
    ensures Inv(s.(held := s.held[..i] + s.held[i + 1..]))
  {
    HeldVersionsKeepInv(s, s.held[..i] + s.held[i + 1..]);
  }

  lemma GetSnapshotKeepsInv(s: State)
    requires Inv(s)
    ensures Inv(s.(snapshots := s.snapshots + [s.lastSequence]))
  {
    SnapshotsAreOrdered(s);
    SnapshotsKeepInv(s, s.snapshots + [s.lastSequence]);
  }

  lemma ReleaseSnapshotKeepsInv(s: State, i: nat)
    requires Inv(s) && i < |s.snapshots|
    ensures Inv(s.(snapshots := s.snapshots[..i] + s.snapshots[i + 1..]))
  {
    SnapshotsAreOrdered(s);
    SnapshotsKeepInv(s, s.snapshots[..i] + s.snapshots[i + 1..]);
  }

  lemma SnapshotsAreOrdered(s: State)
    requires ReadInv(s)
    ensures forall i :: 0 <= i < |s.snapshots| ==> s.snapshots[i] <= s.lastSequence
    ensures forall i, j :: 0 <= i < j < |s.snapshots| ==> s.snapshots[i] <= s.snapshots[j]
  {
  }

  lemma TrivialMoveEnabled(s: State, level: nat, f: File)
    requires Inv(s) && Enabled(s, TrivialMove(level, f))
    ensures Inv(Step(s, TrivialMove(level, f)))
  {
    assert f in [f];
    TrivialMoveStepKeepsInv(s, level, f);
  }

  lemma WriteActionsKeepInv(s: State, a: Action)
    requires Inv(s) && Enabled(s, a) && (a.Append? || a.Apply? || a.SwitchMemTable?)
    ensures Inv(Step(s, a))
  {
    match a
    case Append(record) => AppendKeepsInv(s, record);
    case Apply => ApplyKeepsInv(s);
    case SwitchMemTable => SwitchKeepsInv(s);
  }

  lemma VersionActionsKeepInv(s: State, a: Action)
    requires Inv(s) && Enabled(s, a) && (a.HoldVersion? || a.ReleaseVersion?)
    ensures Inv(Step(s, a))
  {
    var t := Step(s, a);
    if a.HoldVersion? {
      HoldKeepsInv(s);
      assert t == s.(held := s.held + [s.Levels()]);
    } else {
      ReleaseVersionKeepsInv(s, a.index);
      assert t == s.(held := s.held[..a.index] + s.held[a.index + 1..]);
    }
  }

  lemma SnapshotActionsKeepInv(s: State, a: Action)
    requires Inv(s) && Enabled(s, a) && (a.GetSnapshot? || a.ReleaseSnapshot?)
    ensures Inv(Step(s, a))
  {
    var t := Step(s, a);
    if a.GetSnapshot? {
      GetSnapshotKeepsInv(s);
      assert t == s.(snapshots := s.snapshots + [s.lastSequence]);
    } else {
      ReleaseSnapshotKeepsInv(s, a.index);
      assert t == s.(snapshots := s.snapshots[..a.index] + s.snapshots[a.index + 1..]);
    }
  }

  lemma FlushActionsKeepInv(s: State, a: Action)
    requires Inv(s) && Enabled(s, a) && (a.BuildTable? || a.InstallTable? || a.InstallEmpty?)
    ensures Inv(Step(s, a))
  {
    match a
    case BuildTable(f) => BuildTableKeepsInv(s, f);
    case InstallTable(level) => InstallTableStepKeepsInv(s, level);
    case InstallEmpty => InstallEmptyStepKeepsInv(s);
  }

  lemma CompactionActionsKeepInv(s: State, a: Action)
    requires Inv(s) && Enabled(s, a)
    requires a.TrivialMove? || a.StartCompaction? || a.InstallCompaction? || a.DeleteObsoleteFiles?
    ensures Inv(Step(s, a))
  {
    match a
    case TrivialMove(level, f) => TrivialMoveEnabled(s, level, f);
    case StartCompaction(job) => StartCompactionStepKeepsInv(s, job);
    case InstallCompaction => InstallCompactionStepKeepsInv(s);
    case DeleteObsoleteFiles => DeleteObsoleteFilesKeepsInv(s);
  }

  /** The invariant holds after every action. */
  lemma StepKeepsInv(s: State, a: Action)
    requires Inv(s) && Enabled(s, a)
    ensures Inv(Step(s, a))
  {
    if a.Append? || a.Apply? || a.SwitchMemTable? {
      WriteActionsKeepInv(s, a);
    } else if a.BuildTable? || a.InstallTable? || a.InstallEmpty? {
      FlushActionsKeepInv(s, a);
    } else if a.TrivialMove? || a.StartCompaction? || a.InstallCompaction? || a.DeleteObsoleteFiles? {
      CompactionActionsKeepInv(s, a);
    } else if a.HoldVersion? || a.ReleaseVersion? {
      VersionActionsKeepInv(s, a);
    } else {
      SnapshotActionsKeepInv(s, a);
    }
  }
}
