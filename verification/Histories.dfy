/** Sequence numbers and snapshots over whole runs. */
module Histories {
  import opened InternalKeys
  import opened MultiVersion
  import opened Version
  import opened Engine
  import opened EngineSteps
  import opened Durability
  import opened Recovery
  import opened Runs

  ghost predicate Taken(S: set<Entry>, n: nat) {
    exists e :: e in S && e.key.sequence == n
  }

  /** Every number up to `last` was given to one entry, and no entry has another. */
  ghost predicate Counted(S: set<Entry>, last: nat) {
    && (forall e :: e in S ==> 1 <= e.key.sequence <= last)
    && (forall e, x :: e in S && x in S && e.key.sequence == x.key.sequence ==> e == x)
    && forall n :: 1 <= n <= last ==> Taken(S, n)
  }

  /** A write group counts on. */
  lemma GroupCountsOn(S: set<Entry>, last: nat, record: Record)
    requires Counted(S, last) && Stamped(record, last + 1)
    ensures Counted(S + Contents(record), last + |record|)
  {
    var T := S + Contents(record);
    forall n | 1 <= n <= last + |record| ensures Taken(T, n) {
      if n <= last {
        assert Taken(S, n);
        var e :| e in S && e.key.sequence == n;
        assert e in T;
      } else {
        assert record[n - last - 1] in T;
      }
    }
    forall e | e in T ensures 1 <= e.key.sequence <= last + |record| {
      if e !in S {
        var i :| 0 <= i < |record| && record[i] == e;
      }
    }
    forall e, x | e in T && x in T && e.key.sequence == x.key.sequence ensures e == x {
      assert e in S <==> e.key.sequence <= last;
      if e !in S {
        var i :| 0 <= i < |record| && record[i] == e;
        var j :| 0 <= j < |record| && record[j] == x;
      }
    }
  }

  lemma StepCounts(s: State, a: Action)
    requires Inv(s) && Enabled(s, a) && Counted(s.acked, s.lastSequence)
    ensures Counted(Step(s, a).acked, Step(s, a).lastSequence)
  {
    if a.Apply? {
      GroupCountsOn(s.acked, s.lastSequence, s.inFlight);
    } else {
      StepKeepsNumbers(s, a);
    }
  }

  lemma StepKeepsNumbers(s: State, a: Action)
    requires Inv(s) && Enabled(s, a) && !a.Apply?
    ensures Step(s, a).acked == s.acked && Step(s, a).lastSequence == s.lastSequence
  {
  }

  /** The number that recovery goes on from is that of the last write it finds. */
  lemma RecoveryCounts(s: State, torn: bool, d: Disk, last: nat)
    requires Inv(s) && Left(s, torn, d) && TopSequence(d, last) && Counted(s.acked, s.lastSequence)
    ensures last == s.lastSequence + (if torn then 0 else |s.inFlight|)
    ensures Counted(RecoveredHistory(s, torn), last)
  {
    LogsHoldMemory(s, torn, d);
    RecoveredHistoryFits(s, torn, d, last);
    if s.lastSequence > 0 {
      assert Taken(s.acked, s.lastSequence);
    }
    if !torn {
      GroupCountsOn(s.acked, s.lastSequence, s.inFlight);
      if s.inFlight != [] {
        assert s.inFlight[|s.inFlight| - 1] in Contents(s.inFlight);
      }
    }
  }

  lemma OpenedCounts(s: State, torn: bool, d: Disk, files: seq<File>, r: State)
    requires Inv(s) && Durable(s) && Crashed(s, torn, d) && Recovered(s, torn, d, files, r)
    requires Counted(s.acked, s.lastSequence)
    ensures Counted(r.acked, r.lastSequence)
    ensures r.lastSequence == s.lastSequence + if torn then 0 else |s.inFlight|
  {
    CatalogSurvives(s, torn, d);
    RecoveryCounts(s, torn, d, r.lastSequence);
  }

  lemma NextCounts(s: State, t: State)
    requires Inv(s) && Durable(s) && Next(s, t) && Counted(s.acked, s.lastSequence)
    ensures Counted(t.acked, t.lastSequence)
  {
    if a :| Enabled(s, a) && t == Step(s, a) {
      StepCounts(s, a);
    } else {
      var torn, d, files :| Crashed(s, torn, d) && Recovered(s, torn, d, files, t);
      OpenedCounts(s, torn, d, files, t);
    }
  }

  /** What has been added since is numbered above `last`. */
  ghost predicate Grows(S: set<Entry>, last: nat, T: set<Entry>) {
    S <= T && forall e :: e in T && e !in S ==> e.key.sequence > last
  }

  lemma StepGrows(s: State, a: Action)
    requires Inv(s) && Enabled(s, a)
    ensures Grows(s.acked, s.lastSequence, Step(s, a).acked) && s.lastSequence <= Step(s, a).lastSequence
  {
    if !a.Apply? { StepKeepsNumbers(s, a); }
  }

  lemma OpenedGrows(s: State, torn: bool, d: Disk, files: seq<File>, r: State)
    requires Inv(s) && Durable(s) && Crashed(s, torn, d) && Recovered(s, torn, d, files, r)
    requires Counted(s.acked, s.lastSequence)
    ensures Grows(s.acked, s.lastSequence, r.acked) && s.lastSequence <= r.lastSequence
  {
    OpenedCounts(s, torn, d, files, r);
  }

  lemma NextGrows(s: State, t: State)
    requires Inv(s) && Durable(s) && Next(s, t) && Counted(s.acked, s.lastSequence)
    ensures Grows(s.acked, s.lastSequence, t.acked) && s.lastSequence <= t.lastSequence
  {
    if a :| Enabled(s, a) && t == Step(s, a) {
      StepGrows(s, a);
    } else {
      var torn, d, files :| Crashed(s, torn, d) && Recovered(s, torn, d, files, t);
      OpenedGrows(s, torn, d, files, t);
    }
  }

  /** A numbered history goes on as one. */
  ghost predicate CountsOn(s: State, t: State) {
    Counted(s.acked, s.lastSequence) ==>
      && Counted(t.acked, t.lastSequence)
      && Grows(s.acked, s.lastSequence, t.acked) && s.lastSequence <= t.lastSequence
  }

  lemma NextCountsOn(s: State, t: State)
    requires Inv(s) && Durable(s) && Next(s, t)
    ensures CountsOn(s, t)
  {
    if Counted(s.acked, s.lastSequence) {
      NextCounts(s, t);
      NextGrows(s, t);
    }
  }

  lemma RunCountsOn(run: seq<State>, i: nat)
    requires IsRun(run) && i + 1 < |run|
    ensures CountsOn(run[i], run[i + 1])
  {
    RunKeepsInv(run, i);
    NextCountsOn(run[i], run[i + 1]);
  }

  lemma RunStartsCounted(run: seq<State>)
    requires IsRun(run)
    ensures Counted(run[0].acked, run[0].lastSequence)
  {
  }

  /** In every state of every run, crashes included, the acknowledged writes are numbered from 1 to the
      last sequence number, without a gap and without a repetition. */
  lemma {:induction false} HistoryIsCounted(run: seq<State>, i: nat)
    requires IsRun(run) && i < |run|
    ensures Counted(run[i].acked, run[i].lastSequence)
  {
    if i == 0 {
      RunStartsCounted(run);
    } else {
      HistoryIsCounted(run, i - 1);
      RunCountsOn(run, i - 1);
    }
  }

  // -------------------------------------------------------------------- crashes

  /** The process can crash in every state, and tear the record in flight or leave it whole; the logs then
      hold both memtables, and that record if it is whole. */
  lemma CrashAtAnyMoment(s: State, torn: bool)
    requires Inv(s) && Durable(s) && (torn ==> s.inFlight != [])
    ensures var d := s.disk.(logs := SurvivingLogs(s, torn));
            && Crashed(s, torn, d)
            && LiveLogEntries(d) == s.Imm() + s.mem + if torn then {} else Contents(s.inFlight)
  {
    ManifestReplaysToCatalog(s);
    LogsHoldMemory(s, torn, s.disk.(logs := SurvivingLogs(s, torn)));
  }

  // ------------------------------------------------------- snapshot isolation

  lemma {:induction false} RunGrows(run: seq<State>, i: nat, j: nat)
    requires IsRun(run) && i <= j < |run|
    ensures Grows(run[i].acked, run[i].lastSequence, run[j].acked) && run[i].lastSequence <= run[j].lastSequence
    decreases j
  {
    if i < j {
      RunGrows(run, i, j - 1);
      HistoryIsCounted(run, j - 1);
      RunCountsOn(run, j - 1);
    }
  }

  /** Entries numbered above the snapshot do not change what it reads. */
  lemma ReadsBelow(S: set<Entry>, last: nat, T: set<Entry>, user: UserKey, snapshot: nat)
    requires Grows(S, last, T) && snapshot <= last && Distinct(T)
    ensures Read(T, user, snapshot) == Read(S, user, snapshot)
  {
    ReadNone(S, user, snapshot);
    ReadNone(T, user, snapshot);
    if Read(S, user, snapshot).Some? {
      ReadSome(T, user, snapshot, Read(S, user, snapshot).value);
    }
  }

  lemma RunReads(run: seq<State>, i: nat, user: UserKey, snapshot: nat)
    requires IsRun(run) && i < |run| && (snapshot in run[i].snapshots || snapshot == run[i].lastSequence)
    ensures Meaning(Read(Readable(run[i]), user, snapshot)) == Meaning(Read(run[i].acked, user, snapshot))
    ensures snapshot <= run[i].lastSequence && Distinct(run[i].acked)
  {
    RunsReadHistory(run, i, user, snapshot);
    RunKeepsInv(run, i);
    SnapshotsAreOrdered(run[i]);
  }

  /** Snapshot isolation: at a snapshot, the engine reads the same in any two states of a run in which the
      snapshot is live or current, whatever was written, flushed and compacted in between. */
  lemma SnapshotReadsAreStable(run: seq<State>, i: nat, j: nat, user: UserKey, snapshot: nat)
    requires IsRun(run) && i <= j < |run|
    requires snapshot in run[i].snapshots || snapshot == run[i].lastSequence
    requires snapshot in run[j].snapshots || snapshot == run[j].lastSequence
    ensures Meaning(Read(Readable(run[j]), user, snapshot)) == Meaning(Read(Readable(run[i]), user, snapshot))
  {
    RunReads(run, i, user, snapshot);
    RunReads(run, j, user, snapshot);
    RunGrows(run, i, j);
    ReadsBelow(run[i].acked, run[i].lastSequence, run[j].acked, user, snapshot);
  }
}
