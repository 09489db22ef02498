/** What the engine's actions achieve, told by the states before and after them. */
module Effects {
  import opened Wrappers
  import opened InternalKeys
  import opened MultiVersion
  import opened Version
  import opened Builder
  import opened Compaction
  import opened CompactionCorrect
  import opened Picking
  import opened PickingCorrect
  import opened MemTableOutput
  import opened MemTable
  import opened Engine
  import opened EngineSteps
  import WriteQueue

  // ------------------------------------------------------------------- writes

  /** The state after a write group has been logged and applied. */
  ghost function Written(s: State, record: Record): State
    requires Inv(s) && s.inFlight == [] && Stamped(record, s.lastSequence + 1)
  {
    AppendKeepsInv(s, record);
    Step(Step(s, Append(record)), Apply)
  }

  /** A write group is acknowledged as a whole, under the next sequence numbers, and changes nothing else. */
  lemma WriteIsAcknowledged(s: State, record: Record)
    requires Inv(s) && s.inFlight == [] && Stamped(record, s.lastSequence + 1)
    ensures var t := Written(s, record);
            && t.acked == s.acked + Contents(record) && Readable(t) == Readable(s) + Contents(record)
            && t.lastSequence == s.lastSequence + |record|
            && t == s.(disk := t.disk, mem := t.mem, acked := t.acked, lastSequence := t.lastSequence)
            && t.disk == s.disk.(logs := t.disk.logs)
            && LogEntries(t.disk, t.logFile) == LogEntries(s.disk, s.logFile) + Contents(record)
  {
    AppendKeepsInv(s, record);
    var t := Written(s, record);
    AppendedEntries(s.disk, s.logFile, record, t.disk);
    assert Readable(t) == Readable(s) + Contents(record);
  }

  /** From then on reads find the last operation of the group on a user key. */
  lemma WriteIsRead(s: State, record: Record, i: nat)
    requires Inv(s) && s.inFlight == [] && Stamped(record, s.lastSequence + 1)
    requires i < |record| && forall j :: i < j < |record| ==> record[j].key.user != record[i].key.user
    ensures var t := Written(s, record); Read(Readable(t), record[i].key.user, t.lastSequence) == Some(record[i])
  {
    WrittenReads(s, record);
    LastOfGroupIsNewest(Readable(s), s.lastSequence, record, i);
    ReadSome(Readable(s) + Contents(record), record[i].key.user, s.lastSequence + |record|, record[i]);
  }

  lemma WrittenReads(s: State, record: Record)
    requires Inv(s) && s.inFlight == [] && Stamped(record, s.lastSequence + 1)
    ensures AtMost(Readable(s), s.lastSequence) && Distinct(Readable(s) + Contents(record))
    ensures Readable(Written(s, record)) == Readable(s) + Contents(record)
    ensures Written(s, record).lastSequence == s.lastSequence + |record|
  {
    WriteIsAcknowledged(s, record);
    WrittenIsDistinct(s, record);
  }

  lemma WrittenIsDistinct(s: State, record: Record)
    requires Inv(s) && s.inFlight == [] && Stamped(record, s.lastSequence + 1)
    ensures Distinct(Readable(Written(s, record)))
  {
    AppendKeepsReads(s, record);
    AppliedIsDistinct(AppendStep(s, record));
    AppendKeepsInv(s, record);
  }

  lemma AppliedIsDistinct(s: State)
    requires SequenceInv(s)
    ensures Distinct(Readable(ApplyStep(s)))
  {
    ApplyKeepsSequences(s);
  }

  lemma LastOfGroupIsNewest(S: set<Entry>, last: nat, record: Record, i: nat)
    requires AtMost(S, last) && Stamped(record, last + 1)
    requires i < |record| && forall j :: i < j < |record| ==> record[j].key.user != record[i].key.user
    ensures IsNewest(S + Contents(record), record[i].key.user, last + |record|, record[i])
  {
    forall x | x in S + Contents(record) && x.key.user == record[i].key.user
      ensures x.key.sequence <= record[i].key.sequence
    {
      if x in Contents(record) {
        var j :| 0 <= j < |record| && record[j] == x;
      }
    }
  }

  /** Other user keys read as they did. */
  lemma WriteIsLocal(s: State, record: Record, user: UserKey)
    requires Inv(s) && s.inFlight == [] && Stamped(record, s.lastSequence + 1)
    requires forall e :: e in record ==> e.key.user != user
    ensures var t := Written(s, record);
            Read(Readable(t), user, t.lastSequence) == Read(Readable(s), user, s.lastSequence)
  {
    WrittenReads(s, record);
    OtherKeysRead(Readable(s), s.lastSequence, record, user);
  }

  lemma OtherKeysRead(S: set<Entry>, last: nat, record: Record, user: UserKey)
    requires AtMost(S, last) && Distinct(S + Contents(record)) && forall e :: e in record ==> e.key.user != user
    ensures Read(S + Contents(record), user, last + |record|) == Read(S, user, last)
  {
    ReadNone(S, user, last);
    ReadNone(S + Contents(record), user, last + |record|);
    if Read(S, user, last).Some? {
      ReadSome(S + Contents(record), user, last + |record|, Read(S, user, last).value);
    }
  }

  /** A client that reads after a write group gets the last value put under the key, and nothing if it was
      deleted last. */
  lemma OperationsAreRead(s: State, ops: seq<WriteQueue.Op>, i: nat)
    requires Inv(s) && s.inFlight == [] && i < |ops| && forall j :: i < j < |ops| ==> ops[j].user != ops[i].user
    ensures var record := WriteQueue.Stamp(ops, s.lastSequence + 1);
            && Stamped(record, s.lastSequence + 1)
            && Meaning(Read(Readable(Written(s, record)), ops[i].user, Written(s, record).lastSequence))
            == if ops[i].kind.Deletion? then None else Some(ops[i].value)
  {
    WriteIsRead(s, WriteQueue.Stamp(ops, s.lastSequence + 1), i);
  }

  // ---------------------------------------------------------------- snapshots

  /** A new snapshot is current: the earlier ones stay, and it sees every acknowledged write. */
  lemma SnapshotIsCurrent(s: State)
    requires Inv(s)
    ensures Enabled(s, GetSnapshot)
    ensures var t := Step(s, GetSnapshot); var n := |s.snapshots|;
            && t == s.(snapshots := t.snapshots)
            && |t.snapshots| == n + 1 && t.snapshots[..n] == s.snapshots
            && AtMost(t.acked, t.snapshots[n])
  {
  }

  /** The newest version of the user key, or none if there is none. */
  ghost predicate IsLatest(S: set<Entry>, user: UserKey, r: Option<Entry>) {
    match r
    case None => forall e :: e in S ==> e.key.user != user
    case Some(x) => x in S && x.key.user == user && forall e :: e in S && e.key.user == user ==>
      e.key.sequence <= x.key.sequence
  }

  /** So a read at it gives the newest acknowledged version of every user key. */
  lemma SnapshotReadsNewest(s: State, user: UserKey)
    requires Inv(s)
    ensures var t := Step(s, GetSnapshot); var snapshot := t.snapshots[|s.snapshots|];
            && IsLatest(s.acked, user, Read(t.acked, user, snapshot))
            && Meaning(Read(Readable(t), user, snapshot)) == Meaning(Read(t.acked, user, snapshot))
  {
    SnapshotIsCurrent(s);
    GetSnapshotKeepsInv(s);
    CurrentIsLatest(Step(s, GetSnapshot), user, Step(s, GetSnapshot).snapshots[|s.snapshots|]);
  }

  lemma CurrentIsLatest(s: State, user: UserKey, snapshot: nat)
    requires ReadInv(s) && snapshot in s.snapshots && AtMost(s.acked, snapshot)
    ensures IsLatest(s.acked, user, Read(s.acked, user, snapshot))
    ensures Meaning(Read(Readable(s), user, snapshot)) == Meaning(Read(s.acked, user, snapshot))
  {
    ReadNone(s.acked, user, snapshot);
  }

  /** Releasing a snapshot, or a version, forgets that one only. */
  lemma ReleaseForgetsOne(s: State, i: nat)
    requires Inv(s)
    ensures i < |s.snapshots| ==>
              && Enabled(s, ReleaseSnapshot(i))
              && var t := Step(s, ReleaseSnapshot(i));
                 t == s.(snapshots := t.snapshots) && Without(s.snapshots, i, t.snapshots)
    ensures i < |s.held| ==>
              && Enabled(s, ReleaseVersion(i))
              && var t := Step(s, ReleaseVersion(i)); t == s.(held := t.held) && Without(s.held, i, t.held)
  {
  }

  /** The list without its i-th member. */
  ghost predicate Without<T>(list: seq<T>, i: nat, r: seq<T>) {
    && |r| + 1 == |list|
    && (forall k :: 0 <= k < i && k < |r| ==> r[k] == list[k])
    && forall k :: i <= k < |r| ==> r[k] == list[k + 1]
  }

  /** A reader that starts now holds the current version, besides those in use. */
  lemma HeldIsCurrent(s: State)
    requires Inv(s)
    ensures Enabled(s, HoldVersion)
    ensures var t := Step(s, HoldVersion); var n := |s.held|;
            && t == s.(held := t.held) && |t.held| == n + 1 && t.held[..n] == s.held
            && All(t.held[n]) + t.Imm() + t.mem == Readable(t)
  {
  }

  // ------------------------------------------------------------------ flushes

  /** One action leads from `s` to `t`. */
  ghost predicate Acts(s: State, t: State) {
    Inv(s) && exists a :: Enabled(s, a) && t == Step(s, a)
  }

  /** The states that a list of actions leads through. */
  ghost predicate Path(path: seq<State>) {
    path != [] && forall i :: 0 <= i < |path| - 1 ==> Acts(path[i], path[i + 1])
  }

  ghost predicate Leads(path: seq<State>, s: State, t: State) {
    Path(path) && path[0] == s && path[|path| - 1] == t
  }

  lemma OneStep(s: State, a: Action, t: State)
    requires Inv(s) && Enabled(s, a) && t == Step(s, a)
    ensures Acts(s, t) && Inv(t)
  {
    StepKeepsInv(s, a);
  }

  lemma Pair(s: State, t: State)
    requires Acts(s, t)
    ensures Leads([s, t], s, t)
  {
  }

  lemma Join(path: seq<State>, s: State, t: State, more: seq<State>, r: State)
    requires Leads(path, s, t) && Leads(more, t, r)
    ensures Leads(path + more[1..], s, r)
  {
    var all := path + more[1..];
    forall i | 0 <= i < |all| - 1 ensures Acts(all[i], all[i + 1]) {
      JoinStep(path, more, i);
    }
  }

  lemma JoinStep(path: seq<State>, more: seq<State>, i: nat)
    requires Path(path) && Path(more) && path[|path| - 1] == more[0] && i + 1 < |path + more[1..]|
    ensures Acts((path + more[1..])[i], (path + more[1..])[i + 1])
  {
    var k := i - (|path| - 1);
    if k >= 0 { assert Acts(more[k], more[k + 1]); } else { assert Acts(path[i], path[i + 1]); }
  }

  /** Any set of versions can be listed in internal key order. */
  lemma {:induction false} Listing(S: set<Entry>) returns (run: seq<Entry>)
    requires Distinct(S)
    ensures Sorted(run) && Contents(run) == S
  {
    run := [];
    if e :| e in S {
      var rest := Listing(S - {e});
      assert forall x :: x in rest <==> x in Contents(rest);
      AddIsSorted(rest, e);
      run := Add(rest, e);
      assert Contents(run) == S;
    }
  }

  /** The immutable memtable has become a table of level 0, and its log is not needed any more. */
  ghost predicate MemoryMoved(s: State, t: State) {
    && t.imm.None? && All(t.Levels()) == All(s.Levels()) + s.Imm()
    && t.disk.catalog.logNumber == t.logFile == s.logFile && t.disk.logs == s.disk.logs
    && t.mem == s.mem && t.inFlight == s.inFlight && t.acked == s.acked && t.job == s.job
    && t.snapshots == s.snapshots && t.held == s.held && t.lastSequence == s.lastSequence
  }

  /** A table that has been built can be installed, at level 0 at any time. */
  lemma BuiltTableInstalls(s: State)
    requires Inv(s) && s.building.Some?
    ensures Enabled(s, InstallTable(0)) && MemoryMoved(s, Step(s, InstallTable(0)))
  {
    InstalledTree(s, 0);
  }

  /** Wherever a flushed table is installed, its level has it and nothing else changes. */
  lemma InstalledTable(s: State, level: nat)
    requires Inv(s) && Enabled(s, InstallTable(level))
    ensures var t := Step(s, InstallTable(level));
            MemoryMoved(s, t) && WithTable(s.Levels(), level, s.building.value, t.Levels())
  {
    InstalledTree(s, level);
  }

  /** Down to this level, every file lies to one side of the user keys of the table. */
  ghost predicate NothingInRange(levels: Levels, level: nat, f: File) {
    f.NonEmpty() && level < |levels| && forall l, g :: 0 <= l <= level && g in levels[l] && g.NonEmpty() ==>
      g.Largest().user < f.Smallest().user || g.Smallest().user > f.Largest().user
  }

  lemma NothingInRangeMeets(levels: Levels, level: nat, f: File)
    requires NothingInRange(levels, level, f)
    ensures MayLandAt(levels, level, f.Smallest().user, f.Largest().user)
  {
  }

  /** The levels that the placement of a flushed table may choose are all allowed, unless a compaction with a
      gap in its inputs is running. */
  lemma FlushedTableMayLand(s: State, level: nat)
    requires Inv(s) && s.building.Some? && level <= 2
    requires level > 0 ==> NothingInRange(s.Levels(), level, s.building.value)
    requires s.job.Some? ==> GapFree(s.job.value.inputs0 + s.job.value.inputs1)
    ensures Enabled(s, InstallTable(level))
  {
    if level > 0 { NothingInRangeMeets(s.Levels(), level, s.building.value); }
  }

  lemma EmptyInstalls(s: State)
    requires Inv(s) && s.building.None? && s.imm == Some({})
    ensures Enabled(s, InstallEmpty) && MemoryMoved(s, Step(s, InstallEmpty))
  {
    EmptyEditInstalls(s.Levels());
  }

  /** The table is on disk, and nothing else has changed. */
  ghost predicate TableBuilt(s: State, f: File, t: State) {
    && t == s.(disk := t.disk, nextFile := t.nextFile, building := Some(f))
    && t.disk == s.disk.(tables := t.disk.tables)
    && f.number in t.disk.tables && t.disk.tables[f.number] == f && t.nextFile > f.number
  }

  /** An immutable memtable can be written to a table. */
  lemma TableCanBeBuilt(s: State) returns (f: File)
    requires Inv(s) && s.building.None? && s.imm.Some? && s.imm.value != {}
    ensures Enabled(s, BuildTable(f))
    ensures TableBuilt(s, f, Step(s, BuildTable(f)))
  {
    assert Distinct(s.Imm());
    var run := Listing(s.Imm());
    var e :| e in s.imm.value;
    assert e in Contents(run);
    f := File(s.nextFile, 0, run);
  }

  /** An immutable memtable can be moved into the version from every state. */
  lemma ImmCanBeFlushed(s: State) returns (path: seq<State>, t: State)
    requires Inv(s) && s.imm.Some?
    ensures Leads(path, s, t) && Inv(t) && MemoryMoved(s, t)
  {
    if s.building.Some? {
      path, t := BuiltCanBeFlushed(s);
    } else if s.imm.value == {} {
      EmptyInstalls(s);
      t := Step(s, InstallEmpty);
      OneStep(s, InstallEmpty, t);
      Pair(s, t);
      path := [s, t];
    } else {
      var f := TableCanBeBuilt(s);
      var r := Step(s, BuildTable(f));
      OneStep(s, BuildTable(f), r);
      Pair(s, r);
      path, t := BuiltCanBeFlushed(r);
      Join([s, r], s, r, path, t);
      path := [s, r] + path[1..];
    }
  }

  lemma BuiltCanBeFlushed(s: State) returns (path: seq<State>, t: State)
    requires Inv(s) && s.building.Some?
    ensures Leads(path, s, t) && Inv(t) && MemoryMoved(s, t)
  {
    BuiltTableInstalls(s);
    t := Step(s, InstallTable(0));
    OneStep(s, InstallTable(0), t);
    Pair(s, t);
    path := [s, t];
  }

  /** The memtable has become immutable, and a new log has been started. */
  ghost predicate Switched(s: State, t: State) {
    && t.mem == {} && t.imm == Some(s.mem) && t.Levels() == s.Levels()
    && t.logFile > s.logFile && t.logFile in t.disk.logs && t.disk.logs[t.logFile] == []
    && (forall n :: n in s.disk.logs ==> n in t.disk.logs && t.disk.logs[n] == s.disk.logs[n])
    && t.inFlight == s.inFlight && t.acked == s.acked && t.job == s.job
    && t.snapshots == s.snapshots && t.held == s.held && t.lastSequence == s.lastSequence
  }

  lemma MemTableSwitches(s: State)
    requires Inv(s) && s.inFlight == [] && s.imm.None?
    ensures Enabled(s, SwitchMemTable) && Switched(s, Step(s, SwitchMemTable))
  {
  }

  lemma ApplyAcknowledges(s: State)
    requires Inv(s)
    ensures Enabled(s, Apply)
    ensures var t := Step(s, Apply);
            && Inv(t) && t.inFlight == [] && t.acked == s.acked + Contents(s.inFlight)
            && Readable(t) == Readable(s) + Contents(s.inFlight)
  {
    ApplyKeepsInv(s);
    assert Readable(Step(s, Apply)) == Readable(s) + Contents(s.inFlight);
  }

  /** With nothing immutable left, the memtable can follow. */
  lemma MemCanBeFlushed(s: State) returns (path: seq<State>, t: State)
    requires Inv(s) && s.inFlight == [] && s.imm.None?
    ensures Leads(path, s, t) && InTables(s, t)
  {
    MemTableSwitches(s);
    var r := Step(s, SwitchMemTable);
    OneStep(s, SwitchMemTable, r);
    Pair(s, r);
    path, t := ImmCanBeFlushed(r);
    Join([s, r], s, r, path, t);
    path := [s, r] + path[1..];
  }

  /** Everything readable is in tables, and no log is needed but an empty one. */
  ghost predicate InTables(s: State, t: State) {
    && t.mem == {} && t.imm.None? && t.inFlight == [] && t.acked == s.acked && All(t.Levels()) == Readable(s)
    && t.disk.catalog.logNumber == t.logFile && t.logFile in t.disk.logs && t.disk.logs[t.logFile] == []
  }

  /** From every state the engine can bring everything that was logged into tables. */
  lemma MemoryCanBeFlushed(s: State) returns (path: seq<State>, t: State)
    requires Inv(s)
    ensures Leads(path, s, t)
    ensures InTables(Step(s, Apply), t) && t.acked == s.acked + Contents(s.inFlight)
  {
    ApplyAcknowledges(s);
    var a := Step(s, Apply);
    OneStep(s, Apply, a);
    Pair(s, a);
    var middle, m := ImmIsGone(a);
    path, t := MemCanBeFlushed(m);
    Join(middle, a, m, path, t);
    path := middle + path[1..];
    Join([s, a], s, a, path, t);
    path := [s, a] + path[1..];
  }

  lemma ImmIsGone(s: State) returns (path: seq<State>, t: State)
    requires Inv(s) && s.inFlight == []
    ensures Leads(path, s, t) && Inv(t)
    ensures t.imm.None? && t.inFlight == [] && t.acked == s.acked && Readable(t) == Readable(s)
  {
    if s.imm.Some? {
      path, t := ImmCanBeFlushed(s);
      assert Readable(t) == Readable(s);
    } else {
      path, t := [s], s;
    }
  }

  // -------------------------------------------------------------- compactions

  /** No reader the engine knows of asks for an older state than this. */
  ghost predicate SeenByAll(s: State, bound: nat) {
    bound <= s.lastSequence && forall i :: 0 <= i < |s.snapshots| ==> bound <= s.snapshots[i]
  }

  /** A compaction reclaims what it can: of the versions of a user key that every reader sees, its outputs
      hold the newest at most, and a tombstone that every reader sees stays only where a deeper file may
      hold what it hides. */
  lemma CompactionReclaims(s: State, job: Job, bound: nat)
    requires Inv(s) && Enabled(s, StartCompaction(job)) && SeenByAll(s, bound)
    ensures forall e, x :: e in EntriesOf(job.outputs) && x in EntriesOf(job.outputs) && e.key.user == x.key.user ==>
              !(e.key.sequence < x.key.sequence <= bound)
    ensures forall e :: e in EntriesOf(job.outputs) && e.key.kind.Deletion? && e.key.sequence <= bound ==>
              exists l, f :: job.level + 2 <= l < |s.Levels()| && f in s.Levels()[l] && Covers(f, e.key.user)
  {
    BoundIsHigh(s, job, bound);
    ReclaimsBelow(s.Levels(), job, bound);
  }

  lemma ReclaimsBelow(levels: Levels, job: Job, bound: nat)
    requires Tree(levels) && TakesInputs(levels, job) && Compacts(levels, job) && bound <= job.smallestSnapshot
    ensures forall e, x :: e in EntriesOf(job.outputs) && x in EntriesOf(job.outputs) && e.key.user == x.key.user ==>
              !(e.key.sequence < x.key.sequence <= bound)
    ensures forall e :: e in EntriesOf(job.outputs) && e.key.kind.Deletion? && e.key.sequence <= bound ==>
              exists l, f :: job.level + 2 <= l < |levels| && f in levels[l] && Covers(f, e.key.user)
  {
    CompactedOutputs(levels, job);
    forall e, x | e in Survivors(levels, job) && x in Survivors(levels, job) && e.key.user == x.key.user
      ensures !(e.key.sequence < x.key.sequence <= bound)
    {
      assert !HiddenIn(InputEntries(job), e, job.smallestSnapshot);
    }
  }

  lemma BoundIsHigh(s: State, job: Job, bound: nat)
    requires Inv(s) && Enabled(s, StartCompaction(job)) && SeenByAll(s, bound)
    ensures bound <= job.smallestSnapshot
  {
  }

  /** Starting a compaction writes its output tables and changes nothing that is read. */
  ghost predicate Begun(s: State, job: Job, t: State) {
    && t.job == Some(job) && t == s.(disk := t.disk, nextFile := t.nextFile, job := t.job)
    && t.disk == s.disk.(tables := t.disk.tables)
    && forall o :: o in job.outputs ==> o.number in t.disk.tables && t.disk.tables[o.number] == o
  }

  lemma CompactionStarts(s: State, job: Job)
    requires Inv(s) && Enabled(s, StartCompaction(job))
    ensures Begun(s, job, Step(s, StartCompaction(job)))
  {
    BegunStep(s, job);
  }

  lemma BegunStep(s: State, job: Job)
    requires forall k :: 0 <= k < |job.outputs| ==> job.outputs[k].number == s.nextFile + k
    ensures Begun(s, job, StartCompactionStep(s, job))
  {
    StartedTables(s, job, StartCompactionStep(s, job));
  }

  /** A compaction that has started can always be installed, and then its outputs stand in the place of its
      inputs. */
  lemma CompactionInstalls(s: State)
    requires Inv(s) && s.job.Some? && s.building.None?
    ensures Enabled(s, InstallCompaction)
    ensures var t := Step(s, InstallCompaction);
            && t.job.None? && Replaced(s.Levels(), s.job.value, t.Levels())
            && t == s.(disk := t.disk, job := None, floor := t.floor)
            && t.disk == s.disk.(catalog := t.disk.catalog, manifest := t.disk.manifest)
  {
    JobInstalls(s.Levels(), s.job.value, s.nextFile);
  }

  /** The inputs are picked, and no file left behind continues one of them. */
  ghost predicate CleanlyPicked(levels: Levels, job: Job) {
    && TakesInputs(levels, job) && Picked(levels, job.level, job.inputs0, job.inputs1)
    && (job.level > 0 ==> BoundaryClosed(levels[job.level], job.inputs0))
    && BoundaryClosed(levels[job.level + 1], job.inputs1)
  }

  lemma PlanCompaction(levels: Levels, plan: Job, number: nat) returns (job: Job)
    requires Tree(levels) && CleanlyPicked(levels, plan)
    ensures job == plan.(outputs := job.outputs) && Startable(levels, job)
    ensures forall k :: 0 <= k < |job.outputs| ==> job.outputs[k].number == number + k
  {
    var input := InputList(levels, plan);
    job := Merged(levels, plan, input, number);
    CleanJobIsStartable(levels, plan, job);
  }

  lemma CleanJobIsStartable(levels: Levels, plan: Job, job: Job)
    requires Tree(levels) && CleanlyPicked(levels, plan) && job == plan.(outputs := job.outputs)
    requires TakesInputs(levels, job) && Compacts(levels, job)
    ensures Startable(levels, job)
  {
    SameInputs(levels, plan, job);
    CleanIsStartable(levels, job);
  }

  lemma SameInputs(levels: Levels, plan: Job, job: Job)
    requires CleanlyPicked(levels, plan) && job == plan.(outputs := job.outputs)
    ensures CleanlyPicked(levels, job)
  {
  }

  lemma CleanIsStartable(levels: Levels, job: Job)
    requires Tree(levels) && CleanlyPicked(levels, job) && Compacts(levels, job)
    ensures Startable(levels, job)
  {
    BoundaryClosedIsStartable(levels, job);
  }

  lemma InputList(levels: Levels, plan: Job) returns (input: seq<Entry>)
    requires Tree(levels) && TakesInputs(levels, plan)
    ensures Sorted(input) && Contents(input) == InputEntries(plan)
  {
    InputsAreEntries(levels, plan);
    input := Listing(InputEntries(plan));
  }

  lemma Merged(levels: Levels, plan: Job, input: seq<Entry>, number: nat) returns (job: Job)
    requires TakesInputs(levels, plan) && Sorted(input) && Contents(input) == InputEntries(plan)
    ensures job == plan.(outputs := job.outputs) && TakesInputs(levels, job) && Compacts(levels, job)
    ensures forall k :: 0 <= k < |job.outputs| ==> job.outputs[k].number == number + k
  {
    assert forall e :: e in input <==> e in Contents(input);
    var kept := Kept(input, |input|, plan.smallestSnapshot, levels, plan.level);
    job := plan.(outputs := OneTable(number, kept));
    FlattenOne(number, kept);
    assert InputEntries(job) == InputEntries(plan);
    assert IsMerge(input, job);
  }

  /** A compaction of picked inputs that no file left behind continues can always run to its end. */
  lemma CompactionCanRun(s: State, level: nat, inputs0: seq<File>, inputs1: seq<File>) returns (job: Job)
    requires Inv(s) && s.job.None? && s.building.None?
    requires CleanlyPicked(s.Levels(), Job(level, inputs0, inputs1, [], 0))
    ensures job.level == level && job.inputs0 == inputs0 && job.inputs1 == inputs1
    ensures Enabled(s, StartCompaction(job))
  {
    var plan := Job(level, inputs0, inputs1, [], SmallestSnapshot(s));
    SameInputsAt(s.Levels(), level, inputs0, inputs1, SmallestSnapshot(s));
    job := PlanCompaction(s.Levels(), plan, s.nextFile);
  }

  lemma SameInputsAt(levels: Levels, level: nat, inputs0: seq<File>, inputs1: seq<File>, bound: nat)
    requires CleanlyPicked(levels, Job(level, inputs0, inputs1, [], 0))
    ensures CleanlyPicked(levels, Job(level, inputs0, inputs1, [], bound))
  {
  }

  /** One table for a run, or none if there is nothing to hold. */
  function OneTable(number: nat, run: seq<Entry>): seq<File> {
    if run == [] then [] else [File(number, 0, run)]
  }

  lemma FlattenOne(number: nat, run: seq<Entry>)
    ensures Flatten(OneTable(number, run)) == run
  {
    if run != [] {
      assert OneTable(number, run)[..0] == [];
    }
  }

  /** A file picked by itself, with nothing in the next level in its range, may be moved down unless the next
      file of its own level continues it. */
  lemma PickedFileMayMove(s: State, level: nat, f: File)
    requires Inv(s) && s.job.None? && s.building.None? && level + 1 < NUM_LEVELS && f in s.Levels()[level]
    requires forall g :: g in s.Levels()[level + 1] ==> !Overlap(f, g)
    requires level == 0 ==> forall g :: g in s.Levels()[0] && Overlap(f, g) ==> g == f
    requires level > 0 ==> forall g :: g in s.Levels()[level] && g != f ==> !Continues(f, g)
    ensures Enabled(s, TrivialMove(level, f))
  {
    TreeIsRanged(s.Levels(), level);
    TreeIsRanged(s.Levels(), level + 1);
    NothingMeets(s.Levels()[level + 1], f);
    OneFileIsPicked(s.Levels(), level, f);
    if level > 0 { AloneIsClosed(s.Levels()[level], f); }
    MoveIsAllowed(s, level, f);
  }

  lemma MoveIsAllowed(s: State, level: nat, f: File)
    requires Inv(s) && s.job.None? && s.building.None? && Picked(s.Levels(), level, [f], [])
    requires level > 0 ==> BoundaryClosed(s.Levels()[level], [f])
    ensures Enabled(s, TrivialMove(level, f))
  {
  }

  lemma {:induction false} NothingMeets(files: seq<File>, f: File)
    requires f.NonEmpty() && Ranged(files) && forall g :: g in files ==> !Overlap(f, g)
    ensures Meeting(files, Some(f.Smallest().user), Some(f.Largest().user)) == []
    decreases |files|
  {
    if files != [] {
      NothingMeets(files[..|files| - 1], f);
      assert !Overlap(f, files[|files| - 1]);
    }
  }

  lemma AloneIsClosed(files: seq<File>, f: File)
    requires forall g :: g in files && g != f ==> !Continues(f, g)
    ensures BoundaryClosed(files, [f])
  {
    assert f in [f];
  }

  lemma OneFileIsPicked(levels: Levels, level: nat, f: File)
    requires level + 1 < |levels| && Ranged(levels[level]) && Ranged(levels[level + 1]) && f in levels[level]
    requires Meeting(levels[level + 1], Some(f.Smallest().user), Some(f.Largest().user)) == []
    requires level == 0 ==> forall g :: g in levels[0] && Overlap(f, g) ==> g == f
    ensures Picked(levels, level, [f], [])
  {
    assert f in [f] && IsRange([f], f.Smallest().user, f.Largest().user);
  }

  /** The file has left its level for the next one, and no other file has moved. */
  ghost predicate MovedDown(levels: Levels, level: nat, f: File, after: Levels) {
    && |levels| == |after|
    && forall l, g :: 0 <= l < |levels| ==>
         (g in after[l] <==> if g == f then l == level + 1 else g in levels[l])
  }

  /** A trivial move does that and leaves the rest as it is. */
  lemma MoveInstallsFile(s: State, level: nat, f: File)
    requires Inv(s) && Enabled(s, TrivialMove(level, f))
    ensures var t := Step(s, TrivialMove(level, f));
            && MovedDown(s.Levels(), level, f, t.Levels())
            && t == s.(disk := t.disk) && t.disk == s.disk.(catalog := t.disk.catalog, manifest := t.disk.manifest)
  {
    TreeFilesNonEmpty(s.Levels());
    assert f in [f];
    NumbersStayBelow(s.Levels(), s.disk.catalog.nextFile, s.nextFile);
    MoveNumbers(s.Levels(), level, f, s.disk.tables, s.nextFile);
    JobInstalls(s.Levels(), MoveJob(level, f), s.nextFile);
    MovedFile(s.Levels(), level, f, InstallEdit(s.Levels(), JobEdit(MoveJob(level, f))), s.nextFile);
  }

  lemma MovedFile(levels: Levels, level: nat, f: File, after: Levels, nextFile: nat)
    requires NumbersIdentify(levels, nextFile) && TakesInputs(levels, MoveJob(level, f))
    requires Replaced(levels, MoveJob(level, f), after)
    ensures MovedDown(levels, level, f, after)
  {
    assert f in MoveJob(level, f).inputs0 && f in levels[level];
    forall l, g | 0 <= l < |levels| && l != level && g in levels[l] ensures g != f {}
    forall l, g | 0 <= l < |levels| ensures g in after[l] <==> if g == f then l == level + 1 else g in levels[l] {
      assert g in [f] <==> g == f;
    }
  }

  // ------------------------------------------------------- garbage collection

  /** A file of the version has this number. */
  ghost predicate Names(levels: Levels, n: nat) {
    exists l, f :: 0 <= l < |levels| && f in levels[l] && f.number == n
  }

  /** The current version, a version in use or the running compaction has a table of this number. */
  ghost predicate InUse(s: State, n: nat) {
    || Names(s.Levels(), n)
    || (exists i :: 0 <= i < |s.held| && Names(s.held[i], n))
    || (s.job.Some? && exists o :: o in s.job.value.outputs && o.number == n)
  }

  /** Collection keeps the tables in use and the logs still needed, each as it was.  Everything else goes. */
  lemma CollectionIsExact(s: State)
    requires Inv(s) && s.building.None?
    ensures Enabled(s, DeleteObsoleteFiles)
    ensures var t := Step(s, DeleteObsoleteFiles);
            && t == s.(disk := t.disk) && t.disk == s.disk.(tables := t.disk.tables, logs := t.disk.logs)
            && (forall n :: n in t.disk.tables <==> n in s.disk.tables && InUse(s, n))
            && (forall n :: n in t.disk.tables ==> t.disk.tables[n] == s.disk.tables[n])
            && (forall n :: n in t.disk.logs <==> n in s.disk.logs && n >= s.disk.catalog.logNumber)
            && forall n :: n in t.disk.logs ==> t.disk.logs[n] == s.disk.logs[n]
  {
    LiveIsInUse(s);
    CollectedTables(s);
    CollectedLogs(s);
    assert Step(s, DeleteObsoleteFiles) == DeleteObsoleteFilesStep(s);
  }

  lemma NamesTables(levels: Levels)
    ensures forall n :: n in TablesOf(levels) <==> Names(levels, n)
  {
    forall n | Names(levels, n) ensures n in TablesOf(levels) {
      var l, f :| 0 <= l < |levels| && f in levels[l] && f.number == n;
      assert levels[l] in levels;
    }
  }

  lemma LiveIsInUse(s: State)
    ensures forall n :: n in LiveTables(s) <==> InUse(s, n)
  {
    NamesTables(s.Levels());
    forall i | 0 <= i < |s.held| ensures forall n :: n in TablesOf(s.held[i]) <==> Names(s.held[i], n) {
      NamesTables(s.held[i]);
    }
  }

  lemma CollectedTables(s: State)
    ensures var tables := DeleteObsoleteFilesStep(s).disk.tables;
            && (forall n :: n in tables <==> n in s.disk.tables && n in LiveTables(s))
            && forall n :: n in tables ==> tables[n] == s.disk.tables[n]
  {
  }

  lemma CollectedLogs(s: State)
    ensures var logs := DeleteObsoleteFilesStep(s).disk.logs;
            && (forall n :: n in logs <==> n in s.disk.logs && n >= s.disk.catalog.logNumber)
            && forall n :: n in logs ==> logs[n] == s.disk.logs[n]
  {
  }
}
