/** The storage engine as a state machine over memory and disk (db/db_impl.cc).

    Every action is one atomic step under the database mutex, or one durable effect outside it, so a
    crash can come between any two of them. */
module Engine {
  import opened Wrappers
  import opened InternalKeys
  import opened MultiVersion
  import opened Version
  import opened Builder
  import opened CompactionCorrect
  import opened Picking
  import opened PickingCorrect
  import opened MemTableOutput
  import Manifest

  /** The stamped entries of one write group: the unit of logging. */
  type Record = seq<Entry>

  /** The manifest is a list of records; the catalog is what the running engine made of them. */
  datatype Disk = Disk(
    catalog: Catalog,
    manifest: seq<Manifest.VersionEdit>,
    tables: map<nat, File>,
    logs: map<nat, seq<Record>>)

  datatype State = State(
    disk: Disk,
    mem: set<Entry>,
    imm: Option<set<Entry>>,
    logFile: nat,
    lastSequence: nat,
    nextFile: nat,
    snapshots: seq<nat>,
    held: seq<Levels>,          // versions that iterators still use
    building: Option<File>,     // the table being written from the immutable memtable
    job: Option<Job>,           // the compaction in progress
    inFlight: Record,           // logged but not yet acknowledged
    acked: set<Entry>,          // history: every entry acknowledged so far
    floor: nat)                 // history: the largest snapshot bound an installed compaction used
  {
    function Levels(): Levels { disk.catalog.levels }

    function Imm(): set<Entry> { imm.GetOr({}) }
  }

  ghost function Contents(run: seq<Entry>): set<Entry> {
    set e | e in run
  }

  ghost function LogEntries(disk: Disk, n: nat): set<Entry> {
    if n in disk.logs then (set r, e | r in disk.logs[n] && e in r :: e) else {}
  }

  /** Everything a reader of the running engine can find. */
  ghost function Readable(s: State): set<Entry> {
    All(s.Levels()) + s.Imm() + s.mem
  }

  ghost predicate AtMost(S: set<Entry>, n: nat) {
    forall e :: e in S ==> e.key.sequence <= n
  }

  /** The entries of a write group carry consecutive sequence numbers. */
  ghost predicate Stamped(record: Record, first: nat) {
    forall i :: 0 <= i < |record| ==> record[i].key.sequence == first + i
  }

  // ---------------------------------------------------------------- invariant

  /** File numbers identify files, and new numbers lie above all of them. */
  ghost predicate NumbersIdentify(levels: Levels, nextFile: nat) {
    && (forall l, f :: 0 <= l < |levels| && f in levels[l] ==> f.number < nextFile)
    && forall l, m, f, g :: 0 <= l < |levels| && 0 <= m < |levels| && f in levels[l] && g in levels[m] ==>
         f.number == g.number ==> l == m && f == g
  }

  /** Every file of the version is on disk. */
  ghost predicate Present(levels: Levels, tables: map<nat, File>) {
    forall l, f :: 0 <= l < |levels| && f in levels[l] ==> f.number in tables && tables[f.number] == f
  }

  ghost predicate CatalogInv(c: Catalog) {
    && Tree(c.levels) && AllOrdered(c.levels)
    && NumbersIdentify(c.levels, c.nextFile)
    && AtMost(All(c.levels), c.lastSequence)
  }

  /** What the logs guarantee to a recovery from this disk. */
  ghost predicate LogsInv(disk: Disk) {
    && (forall n :: n >= disk.catalog.logNumber ==> Later(LogEntries(disk, n), All(disk.catalog.levels)))
    && (forall n, m :: disk.catalog.logNumber <= n < m ==> Later(LogEntries(disk, m), LogEntries(disk, n)))
    && (forall n :: n >= disk.catalog.logNumber ==> Ascending(disk, n))
  }

  /** Sequence numbers grow along a log. */
  ghost predicate Ascending(disk: Disk, n: nat) {
    n in disk.logs ==> forall i, j, x, y ::
      0 <= i <= j < |disk.logs[n]| && x in disk.logs[n][i] && y in disk.logs[n][j] ==>
        if i == j then x == y || x.key.sequence != y.key.sequence else x.key.sequence < y.key.sequence
  }

  ghost predicate DiskInv(disk: Disk) {
    CatalogInv(disk.catalog) && Present(disk.catalog.levels, disk.tables) && LogsInv(disk)
  }

  ghost predicate EndsWith(records: seq<Record>, record: Record) {
    records != [] && records[|records| - 1] == record
  }

  /** The memtables hold what the live logs hold. */
  ghost predicate MemoryInv(s: State) {
    && s.disk.catalog.logNumber <= s.logFile < s.nextFile && s.logFile in s.disk.logs
    && (forall n :: n in s.disk.logs ==> n <= s.logFile)
    && LogEntries(s.disk, s.logFile) == s.mem + Contents(s.inFlight)
    && (s.inFlight != [] ==> EndsWith(s.disk.logs[s.logFile], s.inFlight))
    && OlderLogEntries(s.disk, s.logFile) == s.Imm()
  }

  /** The entries of the live logs before the given one. */
  ghost function OlderLogEntries(disk: Disk, logFile: nat): set<Entry> {
    set n, e | n in disk.logs && disk.catalog.logNumber <= n < logFile && e in LogEntries(disk, n) :: e
  }

  ghost predicate SequenceInv(s: State) {
    && Later(s.Imm(), All(s.Levels())) && Later(s.mem, All(s.Levels()) + s.Imm())
    && AtMost(Readable(s), s.lastSequence) && AtMost(s.acked, s.lastSequence)
    && Stamped(s.inFlight, s.lastSequence + 1)
    && Readable(s) <= s.acked && Distinct(s.acked)
    && s.disk.catalog.lastSequence <= s.lastSequence && s.disk.catalog.nextFile <= s.nextFile
    && (forall e :: e in s.acked ==> e.key.sequence <= s.disk.catalog.lastSequence || e in s.Imm() + s.mem)
  }

  /** Reads from the floor on cannot tell the engine from its history. */
  ghost predicate ReadInv(s: State) {
    && SameFrom(s.floor, s.acked, Readable(s))
    && s.floor <= s.disk.catalog.lastSequence
    && (forall i :: 0 <= i < |s.snapshots| ==> s.floor <= s.snapshots[i] <= s.lastSequence)
    && (forall i, j :: 0 <= i < j < |s.snapshots| ==> s.snapshots[i] <= s.snapshots[j])
  }

  /** No file of the version has this number or a larger one. */
  ghost predicate NewNumber(levels: Levels, n: nat) {
    forall l, f :: 0 <= l < |levels| && f in levels[l] ==> f.number < n
  }

  ghost predicate BuildingInv(s: State) {
    s.building.Some? ==>
      var f := s.building.value;
      && s.imm.Some? && WellFormed(f) && Contents(f.entries) == s.imm.value
      && f.number < s.nextFile && NewNumber(s.Levels(), f.number)
      && f.number in s.disk.tables && s.disk.tables[f.number] == f
  }

  /** The outputs of a job carry numbers of their own, except that an input may be moved as it is. */
  ghost predicate OutputNumbers(levels: Levels, job: Job, nextFile: nat) {
    && (forall o :: o in job.outputs ==> o.number < nextFile)
    && (forall o, l, f :: o in job.outputs && 0 <= l < |levels| && f in levels[l] && o.number == f.number ==>
          l == job.level && f in job.inputs0)
    && (forall i, j :: 0 <= i < j < |job.outputs| ==> job.outputs[i].number != job.outputs[j].number)
  }

  /** A job that may be installed in this version (CompactionCorrect.InvisibleExactlyWhen). */
  ghost predicate JobReady(levels: Levels, job: Job) {
    && TakesInputs(levels, job) && Compacts(levels, job)
    && OutputsAreOlder(levels, job) && OutputsApart(levels, job) && UnmasksNothing(levels, job)
  }

  ghost predicate JobInv(s: State) {
    s.job.Some? ==>
      var job := s.job.value;
      && JobReady(s.Levels(), job) && OutputNumbers(s.Levels(), job, s.nextFile)
      && (forall o :: o in job.outputs ==> o.number in s.disk.tables && s.disk.tables[o.number] == o)
      && (s.building.Some? ==> forall o :: o in job.outputs ==> o.number != s.building.value.number)
      && s.floor <= s.lastSequence && job.smallestSnapshot <= s.lastSequence
      && forall i :: 0 <= i < |s.snapshots| ==> job.smallestSnapshot <= s.snapshots[i]
  }

  /** Versions in use keep their files. */
  ghost predicate HeldInv(s: State) {
    forall i :: 0 <= i < |s.held| ==> Present(s.held[i], s.disk.tables) && NewNumber(s.held[i], s.nextFile)
  }

  /** The invariant of every reachable state. */
  ghost predicate Inv(s: State) {
    && DiskInv(s.disk) && MemoryInv(s) && SequenceInv(s) && ReadInv(s)
    && BuildingInv(s) && JobInv(s) && HeldInv(s)
  }

  // ------------------------------------------------------------------ actions

  datatype Action =
    | Append(record: Record)             // a writer logs its group
    | Apply                              // the group enters the memtable and is acknowledged
    | SwitchMemTable
    | BuildTable(file: File)             // the immutable memtable becomes a table file
    | InstallTable(level: nat)           // and a table of the version
    | InstallEmpty                       // an empty immutable memtable needs no table
    | TrivialMove(level: nat, file: File)
    | StartCompaction(job: Job)
    | InstallCompaction
    | DeleteObsoleteFiles
    | HoldVersion
    | ReleaseVersion(index: nat)
    | GetSnapshot
    | ReleaseSnapshot(index: nat)

  /** LogAndApply: one atomic manifest record, after which the new version is current. */
  function LogAndApply(s: State, edit: Edit, logNumber: nat): Disk
    requires |s.Levels()| == NUM_LEVELS
    requires forall l, f :: 0 <= l < NUM_LEVELS && f in s.Levels()[l] ==> f.NonEmpty()
    requires forall a :: a in edit.added ==> a.file.NonEmpty()
  {
    s.disk.(catalog := Catalog(InstallEdit(s.Levels(), edit), logNumber, s.nextFile, s.lastSequence),
            manifest := s.disk.manifest + [LoggedRecord(s, edit, logNumber)])
  }

  /** The record that the edit becomes in the manifest. */
  function LoggedRecord(s: State, edit: Edit, logNumber: nat): Manifest.VersionEdit {
    Manifest.VersionEdit(Some(logNumber), Some(s.nextFile), Some(s.lastSequence), edit)
  }

  function AddTable(level: nat, f: File): Edit {
    Edit({}, [Addition(level, f)])
  }

  function JobEdit(job: Job): (edit: Edit)
    ensures forall a :: a in edit.added ==> a.level == job.level + 1 && a.file in job.outputs
  {
    Edit((set f | f in job.inputs0 :: (job.level, f.number)) + (set f | f in job.inputs1 :: (job.level + 1, f.number)),
         seq(|job.outputs|, i requires 0 <= i < |job.outputs| => Addition(job.level + 1, job.outputs[i])))
  }

  /** A trivial move read as a job that outputs its only input. */
  function MoveJob(level: nat, f: File): Job {
    Job(level, [f], [], [f], 0)
  }

  /** The snapshot bound a compaction starts with. */
  function SmallestSnapshot(s: State): nat {
    if s.snapshots == [] then s.lastSequence else s.snapshots[0]
  }

  /** The level chosen for a flushed table is 0, or one where nothing at or above it meets the table. */
  ghost predicate LandsAt(s: State, level: nat, f: File)
    requires f.NonEmpty()
  {
    level > 0 ==> level < |s.Levels()| && MayLandAt(s.Levels(), level, f.Smallest().user, f.Largest().user)
  }

  /** Where the inputs of a running compaction leave a gap, a table that lands in its output level must
      not lie across an output.  Only the compaction of a range can leave one. */
  ghost predicate ClearsJob(s: State, level: nat, f: File) {
    s.job.Some? && level == s.job.value.level + 1 ==>
      GapFree(s.job.value.inputs0 + s.job.value.inputs1) || Beside(f, s.job.value.outputs)
  }

  function TablesOf(levels: Levels): set<nat> {
    set files, f | files in levels && f in files :: f.number
  }

  /** The table files garbage collection must keep: those of live versions and pending outputs. */
  function LiveTables(s: State): set<nat> {
    TablesOf(s.Levels()) + (set i, n | 0 <= i < |s.held| && n in TablesOf(s.held[i]) :: n)
    + (if s.job.Some? then set o | o in s.job.value.outputs :: o.number else {})
  }

  /** A picked compaction with the outputs the merge loop writes, that neither leaves a file continuing an
      input above a surviving version nor drops a tombstone above a value left behind. */
  ghost predicate Startable(levels: Levels, job: Job) {
    && TakesInputs(levels, job) && Picked(levels, job.level, job.inputs0, job.inputs1)
    && Compacts(levels, job)
    && BoundaryKeysDie(levels, job) && UnmasksNothing(levels, job)
  }

  ghost predicate Enabled(s: State, a: Action)
    requires Inv(s)
  {
    match a
    case Append(record) => s.inFlight == [] && Stamped(record, s.lastSequence + 1)
    case Apply => true
    case SwitchMemTable => s.inFlight == [] && s.imm.None?
    case BuildTable(f) =>
      && s.imm.Some? && s.building.None? && f.number == s.nextFile
      && WellFormed(f) && Contents(f.entries) == s.imm.value
    case InstallTable(level) =>
      && s.building.Some? && level <= MAX_MEM_COMPACT_LEVEL
      && LandsAt(s, level, s.building.value) && ClearsJob(s, level, s.building.value)
    case InstallEmpty => s.imm == Some({}) && s.building.None?
    case TrivialMove(level, f) =>
      && s.job.None? && s.building.None? && Picked(s.Levels(), level, [f], [])
      && (level > 0 ==> BoundaryClosed(s.Levels()[level], [f]))
    case StartCompaction(job) =>
      && s.job.None? && s.building.None? && Startable(s.Levels(), job) && job.smallestSnapshot == SmallestSnapshot(s)
      && forall k :: 0 <= k < |job.outputs| ==> job.outputs[k].number == s.nextFile + k
    case InstallCompaction => s.job.Some? && s.building.None?
    case DeleteObsoleteFiles => s.building.None?
    case HoldVersion => true
    case ReleaseVersion(i) => i < |s.held|
    case GetSnapshot => true
    case ReleaseSnapshot(i) => i < |s.snapshots|
  }

  lemma TreeFilesNonEmpty(levels: Levels)
    requires Tree(levels)
    ensures forall l, f :: 0 <= l < NUM_LEVELS && f in levels[l] ==> f.NonEmpty()
  {
    forall l, f | 0 <= l < NUM_LEVELS && f in levels[l] ensures f.NonEmpty() {
      TreeIsRanged(levels, l);
    }
  }

  function AddTables(tables: map<nat, File>, files: seq<File>): map<nat, File> {
    if files == [] then tables else
      var last := files[|files| - 1];
      AddTables(tables, files[..|files| - 1])[last.number := last]
  }

  /** Installing an edit as the current version, with the log number it makes durable. */
  ghost function Install(s: State, edit: Edit, logNumber: nat): State
    requires Tree(s.Levels()) && forall a :: a in edit.added ==> a.file.NonEmpty()
  {
    TreeFilesNonEmpty(s.Levels());
    s.(disk := LogAndApply(s, edit, logNumber))
  }

  ghost function InstallTableStep(s: State, level: nat): State
    requires Tree(s.Levels()) && BuildingInv(s) && s.building.Some?
  {
    Install(s, AddTable(level, s.building.value), s.logFile).(imm := None, building := None)
  }

  ghost function TrivialMoveStep(s: State, level: nat, f: File): State
    requires Tree(s.Levels()) && f.NonEmpty()
  {
    Install(s, JobEdit(MoveJob(level, f)), s.disk.catalog.logNumber)
  }

  ghost function StartCompactionStep(s: State, job: Job): State {
    s.(disk := s.disk.(tables := AddTables(s.disk.tables, job.outputs)), nextFile := s.nextFile + |job.outputs|,
       job := Some(job))
  }

  ghost function InstallCompactionStep(s: State): State
    requires Tree(s.Levels()) && s.job.Some? && forall o :: o in s.job.value.outputs ==> o.NonEmpty()
  {
    var job := s.job.value;
    Install(s, JobEdit(job), s.disk.catalog.logNumber)
      .(job := None, floor := if s.floor < job.smallestSnapshot then job.smallestSnapshot else s.floor)
  }

  ghost function DeleteObsoleteFilesStep(s: State): State {
    s.(disk := s.disk.(tables := map n | n in s.disk.tables && n in LiveTables(s) :: s.disk.tables[n],
                       logs := map n | n in s.disk.logs && n >= s.disk.catalog.logNumber :: s.disk.logs[n]))
  }

  ghost function AppendStep(s: State, record: Record): State
    requires s.logFile in s.disk.logs
  {
    s.(disk := s.disk.(logs := s.disk.logs[s.logFile := s.disk.logs[s.logFile] + [record]]), inFlight := record)
  }

  ghost function ApplyStep(s: State): State {
    s.(mem := s.mem + Contents(s.inFlight), acked := s.acked + Contents(s.inFlight),
       lastSequence := s.lastSequence + |s.inFlight|, inFlight := [])
  }

  ghost function SwitchStep(s: State): State {
    s.(disk := s.disk.(logs := s.disk.logs[s.nextFile := []]), logFile := s.nextFile, nextFile := s.nextFile + 1,
       imm := Some(s.mem), mem := {})
  }

  ghost function Step(s: State, a: Action): State
    requires Inv(s) && Enabled(s, a)
  {
    match a
    case Append(record) => AppendStep(s, record)
    case Apply => ApplyStep(s)
    case SwitchMemTable => SwitchStep(s)
    case BuildTable(f) =>
      s.(disk := s.disk.(tables := s.disk.tables[f.number := f]), nextFile := s.nextFile + 1, building := Some(f))
    case InstallTable(level) => InstallTableStep(s, level)
    case InstallEmpty => Install(s, Edit({}, []), s.logFile).(imm := None)
    case TrivialMove(level, f) =>
      TreeFilesNonEmpty(s.Levels());
      TrivialMoveStep(s, level, f)
    case StartCompaction(job) => StartCompactionStep(s, job)
    case InstallCompaction => InstallCompactionStep(s)
    case DeleteObsoleteFiles => DeleteObsoleteFilesStep(s)
    case HoldVersion => s.(held := s.held + [s.Levels()])
    case ReleaseVersion(i) => s.(held := s.held[..i] + s.held[i + 1..])
    case GetSnapshot => s.(snapshots := s.snapshots + [s.lastSequence])
    case ReleaseSnapshot(i) => s.(snapshots := s.snapshots[..i] + s.snapshots[i + 1..])
  }
}
