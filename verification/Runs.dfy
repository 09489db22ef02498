/** Whole runs of the engine: every interleaving of writers, background work, readers and crashes. */
module Runs {
  import opened Wrappers
  import opened InternalKeys
  import opened MultiVersion
  import opened Version
  import opened Builder
  import opened Engine
  import opened EngineSteps
  import opened Durability
  import opened Recovery
  import Manifest

  ghost predicate NoFiles(levels: Levels) {
    |levels| == NUM_LEVELS && forall l :: 0 <= l < NUM_LEVELS ==> levels[l] == []
  }

  /** A database just created and opened: no tables, one empty log, and a manifest of a snapshot and one
      edit. */
  ghost predicate Initial(s: State) {
    && NoFiles(s.disk.catalog.levels)
    && s.disk.manifest == OpenedManifest(s.disk.catalog.levels, [], s.logFile, s.disk.catalog.nextFile, 0)
    && s.disk.tables == map[] && s.disk.logs == map[s.logFile := []]
    && s.disk.catalog.logNumber == s.logFile < s.nextFile
    && s.disk.catalog.nextFile <= s.nextFile
    && s.disk.catalog.lastSequence == 0 && s.lastSequence == 0
    && s.mem == {} && s.imm.None? && s.snapshots == [] && s.held == []
    && s.building.None? && s.job.None? && s.inFlight == [] && s.acked == {} && s.floor == 0
  }

  /** One step of a run: an action of the running engine, or a crash followed by an open. */
  ghost predicate Next(s: State, t: State)
    requires Inv(s)
  {
    || (exists a :: Enabled(s, a) && t == Step(s, a))
    || (exists torn, d, files :: Crashed(s, torn, d) && Recovered(s, torn, d, files, t))
  }

  /** A run: legal steps from an initial state. */
  ghost predicate IsRun(run: seq<State>) {
    && run != [] && Initial(run[0])
    && forall i :: 0 <= i < |run| - 1 && Inv(run[i]) ==> Next(run[i], run[i + 1])
  }

  lemma NoEntries(levels: Levels)
    requires NoFiles(levels)
    ensures All(levels) == {}
  {
    forall e ensures e !in All(levels) {
      if e in All(levels) {
        var l, f := AllIn(levels, e);
        assert false;
      }
    }
  }

  lemma InitialTree(levels: Levels)
    requires NoFiles(levels)
    ensures Tree(levels) && AllOrdered(levels) && All(levels) == {}
  {
    NoEntries(levels);
    assert LevelZero([]) && SortedLevel([]) && Ordered([]);
  }

  lemma InitialLogs(s: State)
    requires Initial(s) && All(s.Levels()) == {}
    ensures LogsInv(s.disk) && MemoryInv(s)
  {
    assert Contents(s.inFlight) == {};
    forall n ensures LogEntries(s.disk, n) == {} && Ascending(s.disk, n) {}
    assert OlderLogEntries(s.disk, s.logFile) == {};
  }

  lemma InitialReads(s: State)
    requires Initial(s) && All(s.Levels()) == {}
    ensures SequenceInv(s) && ReadInv(s)
  {
    assert Readable(s) == {};
  }

  lemma InitialDisk(s: State)
    requires Initial(s) && Tree(s.Levels()) && AllOrdered(s.Levels()) && All(s.Levels()) == {} && LogsInv(s.disk)
    ensures DiskInv(s.disk)
  {
    assert forall l :: 0 <= l < NUM_LEVELS ==> s.Levels()[l] == [];
  }

  lemma InitialInv(s: State)
    requires Initial(s)
    ensures Inv(s)
  {
    InitialTree(s.Levels());
    InitialLogs(s);
    InitialReads(s);
    InitialDisk(s);
    InvParts(s);
  }

  lemma InitialDurable(s: State)
    requires Initial(s)
    ensures Durable(s)
  {
    InitialTree(s.Levels());
    InitialDescribes(s.Levels(), s.disk.manifest[1], s.disk.catalog);
    OpenedAdds(s.Levels(), [], s.logFile, s.disk.catalog.nextFile, 0);
  }

  lemma InitialDescribes(levels: Levels, edit: Manifest.VersionEdit, c: Catalog)
    requires NoFiles(levels) && AllOrdered(levels) && edit.files == Edit({}, [])
    requires c.levels == levels && Manifest.EndsAt(edit, c)
    ensures Manifest.Describes([Manifest.Snapshot(levels), edit], c)
  {
    forall l | 0 <= l < NUM_LEVELS ensures levels[l] == InstallLevel(levels[l], edit.files, l) {
      UntouchedLevel([], edit.files, l);
    }
    Manifest.OpenedDescribes(levels, edit, c);
  }

  /** The tree invariant and all the rest hold in every state of every run, on disk too. */
  lemma {:induction false} RunKeepsInv(run: seq<State>, i: nat)
    requires IsRun(run) && i < |run|
    ensures Inv(run[i]) && Durable(run[i])
  {
    if i == 0 {
      InitialInv(run[0]);
      InitialDurable(run[0]);
    } else {
      RunKeepsInv(run, i - 1);
      NextKeepsInv(run[i - 1], run[i]);
    }
  }

  lemma NextKeepsInv(s: State, t: State)
    requires Inv(s) && Durable(s) && Next(s, t)
    ensures Inv(t) && Durable(t)
  {
    if a :| Enabled(s, a) && t == Step(s, a) {
      StepKeepsInv(s, a);
      StepKeepsDurable(s, a);
    } else {
      var torn, d, files :| Crashed(s, torn, d) && Recovered(s, torn, d, files, t);
      RecoveryKeepsInv(s, torn, d, files, t);
      RecoveryKeepsDurable(s, torn, d, files, t);
    }
  }

  /** In every state of every run, no file number was added twice to a level since the snapshot that
      starts the manifest, and replaying the manifest gives the current catalog. */
  lemma RunsAreReplayed(run: seq<State>, i: nat)
    requires IsRun(run) && i < |run|
    ensures Manifest.ValidManifest(run[i].disk.manifest) && Manifest.NeverReused(run[i].disk.manifest)
    ensures Manifest.Replay(run[i].disk.manifest) == Some(run[i].disk.catalog)
  {
    RunKeepsInv(run, i);
    ManifestReplaysToCatalog(run[i]);
  }

  /** In every state of every run, a read at a live snapshot or at the current sequence number gives
      what the history of acknowledged writes says. */
  lemma RunsReadHistory(run: seq<State>, i: nat, user: UserKey, snapshot: nat)
    requires IsRun(run) && i < |run|
    requires snapshot in run[i].snapshots || snapshot == run[i].lastSequence
    ensures Meaning(Read(Readable(run[i]), user, snapshot)) == Meaning(Read(run[i].acked, user, snapshot))
  {
    RunKeepsInv(run, i);
  }

  /** Acknowledged writes are never taken back, by crashes either. */
  lemma {:induction false} HistoryOnlyGrows(run: seq<State>, i: nat, j: nat)
    requires IsRun(run) && i <= j < |run|
    ensures run[i].acked <= run[j].acked
    decreases j - i
  {
    if i < j {
      RunKeepsInv(run, i);
      HistoryOnlyGrows(run, i + 1, j);
      NextKeepsHistory(run[i], run[i + 1]);
    }
  }

  lemma StepKeepsHistory(s: State, a: Action)
    requires Inv(s) && Enabled(s, a)
    ensures s.acked <= Step(s, a).acked
  {
  }

  lemma NextKeepsHistory(s: State, t: State)
    requires Inv(s) && Next(s, t)
    ensures s.acked <= t.acked
  {
    if a :| Enabled(s, a) && t == Step(s, a) {
      StepKeepsHistory(s, a);
    }
  }

  /** A point lookup in the running engine: memtable, immutable memtable, then the version, stopping at
      the first version found. */
  method Get(mem: seq<Entry>, imm: Option<seq<Entry>>, s: State, user: UserKey, snapshot: nat)
    returns (r: Option<string>)
    requires Inv(s) && Sorted(mem) && Contents(mem) == s.mem
    requires if imm.Some? then Sorted(imm.value) && s.imm == Some(Contents(imm.value)) else s.imm.None?
    requires snapshot in s.snapshots || snapshot == s.lastSequence
    ensures r == Meaning(Read(s.acked, user, snapshot))
  {
    EngineReads(s, user, snapshot);
    var e := Probe(mem, user, snapshot);
    ProbeReads(mem, user, snapshot);
    if e.None? {
      if imm.Some? {
        e := Probe(imm.value, user, snapshot);
        ProbeReads(imm.value, user, snapshot);
      } else {
        ReadNone({}, user, snapshot);
      }
      if e.None? {
        e := Version.Get(s.Levels(), user, snapshot);
      }
    }
    r := Meaning(e);
  }

  /** A probe reads its run. */
  lemma ProbeReads(run: seq<Entry>, user: UserKey, snapshot: nat)
    requires Sorted(run) && Distinct(Contents(run))
    ensures Probe(run, user, snapshot) == Read(Contents(run), user, snapshot)
  {
    ProbeIsNewest(run, user, snapshot);
    ReadNone(Contents(run), user, snapshot);
    if Probe(run, user, snapshot).Some? {
      assert IsNewest(Contents(run), user, snapshot, Probe(run, user, snapshot).value);
      ReadSome(Contents(run), user, snapshot, Probe(run, user, snapshot).value);
    }
  }

  /** Reading layer by layer, newest first. */
  lemma EngineReads(s: State, user: UserKey, snapshot: nat)
    requires Inv(s) && (snapshot in s.snapshots || snapshot == s.lastSequence)
    ensures Distinct(s.mem) && Distinct(s.Imm()) && Tree(s.Levels())
    ensures Meaning(Read(s.acked, user, snapshot)) ==
            Meaning(if Read(s.mem, user, snapshot).Some? then Read(s.mem, user, snapshot)
                    else if Read(s.Imm(), user, snapshot).Some? then Read(s.Imm(), user, snapshot)
                    else Read(All(s.Levels()), user, snapshot))
  {
    ReadLater(All(s.Levels()) + s.Imm(), s.mem, user, snapshot);
    ReadLater(All(s.Levels()), s.Imm(), user, snapshot);
  }
}
