/** Opening a database (db/db_impl.cc, DB::Open, DBImpl::Recover, RecoverLogFile and WriteLevel0Table): the
    manifest is replayed, and the live logs become level-0 tables. */
module Replay {
  import opened Wrappers
  import opened InternalKeys
  import opened MultiVersion
  import opened Version
  import opened Builder
  import opened MemTable
  import opened Engine
  import opened Durability
  import opened Recovery
  import VersionSets

  ghost function EntriesIn(records: seq<Record>): set<Entry> {
    set r, e | r in records && e in r :: e
  }

  ghost predicate AscendingRecords(records: seq<Record>) {
    forall i, j, x, y :: 0 <= i < j < |records| && x in records[i] && y in records[j] ==>
      x.key.sequence < y.key.sequence
  }

  /** The records of a log as a writer leaves them. */
  ghost predicate GoodLog(records: seq<Record>) {
    AscendingRecords(records) && forall i :: 0 <= i < |records| ==> Consecutive(records[i])
  }

  /** The greatest of a number and the sequence numbers of the entries. */
  ghost predicate TopOf(S: set<Entry>, least: nat, top: nat) {
    least <= top && AtMost(S, top) && (top == least || exists e :: e in S && e.key.sequence == top)
  }

  /** The group's entries enter the memtable one by one. */
  method InsertInto(mem: seq<Entry>, record: Record) returns (r: seq<Entry>)
    requires Sorted(mem) && Consecutive(record) && Later(Contents(record), Contents(mem))
    ensures Sorted(r) && Contents(r) == Contents(mem) + Contents(record)
  {
    r := mem;
    for i := 0 to |record|
      invariant Sorted(r) && forall e :: e in r <==> e in mem || e in record[..i]
    {
      assert NewKey(r, record[i]) by {
        forall x | x in r ensures x.key.sequence != record[i].key.sequence {
          if x in mem { assert x in Contents(mem) && record[i] in Contents(record); }
        }
      }
      AddIsSorted(r, record[i]);
      r := Add(r, record[i]);
    }
    assert record[..|record|] == record;
  }

  /** The largest sequence number seen, after one more group. */
  method LastSequence(record: Record, maxSequence: nat) returns (r: nat)
    requires Consecutive(record)
    ensures TopOf(Contents(record), maxSequence, r)
  {
    r := maxSequence;
    if record != [] {
      var last := record[|record| - 1];
      assert last in Contents(record);
      if last.key.sequence > r { r := last.key.sequence; }
    }
  }

  lemma TopOfJoin(S: set<Entry>, T: set<Entry>, a: nat, b: nat, c: nat)
    requires TopOf(S, a, b) && TopOf(T, b, c)
    ensures TopOf(S + T, a, c)
  {
    if c > a {
      if c > b {
        var e :| e in T && e.key.sequence == c;
        assert e in S + T;
      } else {
        var e :| e in S && e.key.sequence == b;
        assert e in S + T;
      }
    }
  }

  /** A memtable with entries becomes the next level-0 table; an empty one uses up a number only. */
  method WriteLevel0Table(mem: seq<Entry>, files: seq<File>, ghost first: nat, nextFile: nat)
    returns (r: seq<File>, next: nat)
    requires Sorted(mem) && Written(files, first) && NumberedBelow(files, nextFile) && first <= nextFile
    requires Later(Contents(mem), EntriesOf(files))
    ensures Written(r, first) && NumberedBelow(r, next) && next == nextFile + 1
    ensures EntriesOf(r) == EntriesOf(files) + Contents(mem)
  {
    r, next := files, nextFile + 1;
    if mem == [] {
      assert Contents(mem) == {};
    } else {
      var size: nat := *;
      var f := File(nextFile, size, mem);
      r := files + [f];
      TableAppended(files, f, first);
    }
  }

  lemma TableAppended(files: seq<File>, f: File, first: nat)
    requires Written(files, first) && NumberedBelow(files, f.number) && first <= f.number && WellFormed(f)
    requires Later(Contents(f.entries), EntriesOf(files))
    ensures Written(files + [f], first) && NumberedBelow(files + [f], f.number + 1)
    ensures EntriesOf(files + [f]) == EntriesOf(files) + Contents(f.entries)
  {
    forall i | 0 <= i < |files|
      ensures files[i].number < f.number && Later(Contents(f.entries), Contents(files[i].entries))
    {
      assert files[i] in files;
    }
    assert f in files + [f];
    assert forall g :: g in files ==> g in files + [f];
  }

  lemma RecordAppended(records: seq<Record>, i: nat)
    requires i < |records|
    ensures EntriesIn(records[..i + 1]) == EntriesIn(records[..i]) + Contents(records[i])
  {
    assert records[..i + 1] == records[..i] + [records[i]];
    assert records[i] in records[..i + 1];
    assert forall r :: r in records[..i] ==> r in records[..i + 1];
  }

  lemma RecordIsLater(records: seq<Record>, i: nat)
    requires AscendingRecords(records) && i < |records|
    ensures Later(Contents(records[i]), EntriesIn(records[..i]))
  {
    forall x, y | x in Contents(records[i]) && y in EntriesIn(records[..i]) ensures x.key.sequence > y.key.sequence {
      var r :| r in records[..i] && y in r;
      var j :| 0 <= j < i && records[j] == r;
    }
  }

  /** The tables and the memtable hold what was there before and the entries seen since. */
  ghost predicate Replaying(files0: seq<File>, files: seq<File>, mem: seq<Entry>, seen: set<Entry>,
                            first: nat, nextFile: nat)
  {
    && Written(files, first) && NumberedBelow(files, nextFile) && first <= nextFile && Sorted(mem)
    && EntriesOf(files) + Contents(mem) == EntriesOf(files0) + seen
    && Later(Contents(mem), EntriesOf(files))
  }

  lemma MemtableWritten(files0: seq<File>, files: seq<File>, mem: seq<Entry>, seen: set<Entry>, first: nat,
                        nextFile: nat, r: seq<File>, next: nat)
    requires Replaying(files0, files, mem, seen, first, nextFile)
    requires Written(r, first) && NumberedBelow(r, next) && nextFile <= next
    requires EntriesOf(r) == EntriesOf(files) + Contents(mem)
    ensures Replaying(files0, r, [], seen, first, next)
  {
    assert Contents([]) == {};
  }

  lemma GroupInserted(files0: seq<File>, files: seq<File>, mem: seq<Entry>, seen: set<Entry>, first: nat,
                      nextFile: nat, record: Record, grown: seq<Entry>)
    requires Replaying(files0, files, mem, seen, first, nextFile)
    requires Later(Contents(record), EntriesOf(files0) + seen)
    requires Sorted(grown) && Contents(grown) == Contents(mem) + Contents(record)
    ensures Replaying(files0, files, grown, seen + Contents(record), first, nextFile)
  {
    assert EntriesOf(files) + Contents(grown) == (EntriesOf(files) + Contents(mem)) + Contents(record);
  }

  /** One log record: its group enters the memtable, which is written out if it has grown too large. */
  method RecoverRecord(record: Record, mem: Option<seq<Entry>>, files: seq<File>, nextFile: nat,
                       ghost files0: seq<File>, ghost seen: set<Entry>, ghost first: nat)
    returns (mem': Option<seq<Entry>>, files': seq<File>, next: nat)
    requires Consecutive(record) && Replaying(files0, files, mem.GetOr([]), seen, first, nextFile)
    requires Later(Contents(record), EntriesOf(files0) + seen)
    ensures Replaying(files0, files', mem'.GetOr([]), seen + Contents(record), first, next) && nextFile <= next
  {
    assert Later(Contents(record), Contents(mem.GetOr([])));
    var grown := InsertInto(mem.GetOr([]), record);
    GroupInserted(files0, files, mem.GetOr([]), seen, first, nextFile, record, grown);
    mem', files', next := Some(grown), files, nextFile;
    var tooLarge: bool := *;
    if tooLarge {
      files', next := WriteLevel0Table(grown, files, first, nextFile);
      MemtableWritten(files0, files, grown, seen + Contents(record), first, nextFile, files', next);
      mem' := None;
    }
  }

  /** Records replayed so far, and the largest sequence number in them. */
  ghost predicate LogReplayed(files0: seq<File>, files: seq<File>, mem: seq<Entry>, records: seq<Record>,
                              first: nat, nextFile: nat, max0: nat, maxSequence: nat)
  {
    && Replaying(files0, files, mem, EntriesIn(records), first, nextFile)
    && TopOf(EntriesIn(records), max0, maxSequence)
  }

  lemma ReplayStarts(files: seq<File>, first: nat, nextFile: nat, maxSequence: nat)
    requires Written(files, first) && NumberedBelow(files, nextFile) && first <= nextFile
    ensures LogReplayed(files, files, [], [], first, nextFile, maxSequence, maxSequence)
  {
    assert EntriesIn([]) == {} && Contents([]) == {};
  }

  method RecoverNextRecord(records: seq<Record>, i: nat, mem: Option<seq<Entry>>, files: seq<File>, nextFile: nat,
                           maxSequence: nat, ghost files0: seq<File>, ghost first: nat, ghost max0: nat)
    returns (mem': Option<seq<Entry>>, files': seq<File>, next: nat, max': nat)
    requires GoodLog(records) && i < |records| && Later(EntriesIn(records), EntriesOf(files0))
    requires LogReplayed(files0, files, mem.GetOr([]), records[..i], first, nextFile, max0, maxSequence)
    ensures LogReplayed(files0, files', mem'.GetOr([]), records[..i + 1], first, next, max0, max') && nextFile <= next
  {
    RecordAppended(records, i);
    RecordFollows(records, i, files0);
    max' := LastSequence(records[i], maxSequence);
    TopOfJoin(EntriesIn(records[..i]), Contents(records[i]), max0, maxSequence, max');
    mem', files', next := RecoverRecord(records[i], mem, files, nextFile, files0, EntriesIn(records[..i]), first);
  }

  /** One log: records collect in a memtable, which is written out whenever it has grown too large and
      at the end. */
  method RecoverLogFile(records: seq<Record>, files0: seq<File>, ghost first: nat, next0: nat, max0: nat)
    returns (files: seq<File>, next: nat, maxSequence: nat)
    requires GoodLog(records) && Later(EntriesIn(records), EntriesOf(files0))
    requires Written(files0, first) && NumberedBelow(files0, next0) && first <= next0
    ensures Written(files, first) && NumberedBelow(files, next) && next0 <= next
    ensures EntriesOf(files) == EntriesOf(files0) + EntriesIn(records)
    ensures TopOf(EntriesIn(records), max0, maxSequence)
  {
    files, next, maxSequence := files0, next0, max0;
    var mem: Option<seq<Entry>> := None;
    ReplayStarts(files, first, next, maxSequence);
    assert records[..0] == [];
    for i := 0 to |records|
      invariant next0 <= next
      invariant LogReplayed(files0, files, mem.GetOr([]), records[..i], first, next, max0, maxSequence)
    {
      mem, files, next, maxSequence :=
        RecoverNextRecord(records, i, mem, files, next, maxSequence, files0, first, max0);
    }
    assert records[..|records|] == records;
    files, next := FinishLog(mem, files, next, files0, EntriesIn(records), first);
  }

  /** What is left in the memtable becomes a table too. */
  method FinishLog(mem: Option<seq<Entry>>, files: seq<File>, nextFile: nat,
                   ghost files0: seq<File>, ghost seen: set<Entry>, ghost first: nat)
    returns (r: seq<File>, next: nat)
    requires Replaying(files0, files, mem.GetOr([]), seen, first, nextFile)
    ensures Written(r, first) && NumberedBelow(r, next) && nextFile <= next
    ensures EntriesOf(r) == EntriesOf(files0) + seen
  {
    r, next := files, nextFile;
    assert Contents([]) == {};
    if mem.Some? {
      r, next := WriteLevel0Table(mem.value, files, first, nextFile);
    }
  }

  lemma RecordFollows(records: seq<Record>, i: nat, files: seq<File>)
    requires AscendingRecords(records) && i < |records| && Later(EntriesIn(records), EntriesOf(files))
    ensures Later(Contents(records[i]), EntriesOf(files) + EntriesIn(records[..i]))
  {
    RecordIsLater(records, i);
    assert records[i] in records;
  }

  ghost function EntriesInLogs(logs: map<nat, seq<Record>>, numbers: seq<nat>): set<Entry> {
    set n, e | n in numbers && n in logs && e in EntriesIn(logs[n]) :: e
  }

  ghost predicate Ascends(numbers: seq<nat>) {
    forall i, j :: 0 <= i < j < |numbers| ==> numbers[i] < numbers[j]
  }

  /** The logs can be replayed in the order of their numbers. */
  ghost predicate Replayable(logs: map<nat, seq<Record>>, numbers: seq<nat>) {
    && (forall n :: n in numbers ==> n in logs && GoodLog(logs[n]))
    && forall n, m :: n in numbers && m in numbers && n < m ==> Later(EntriesIn(logs[m]), EntriesIn(logs[n]))
  }

  /** All live logs, oldest first. */
  method RecoverLogs(logs: map<nat, seq<Record>>, numbers: seq<nat>, ghost first: nat, next0: nat)
    returns (files: seq<File>, next: nat, maxSequence: nat)
    requires Ascends(numbers) && Replayable(logs, numbers) && first <= next0
    ensures next0 <= next && RecoveredLogs(logs, numbers, files, first, next, maxSequence)
  {
    files, next, maxSequence := [], next0, 0;
    for i := 0 to |numbers|
      invariant next0 <= next && RecoveredLogs(logs, numbers[..i], files, first, next, maxSequence)
    {
      files, next, maxSequence := RecoverNextLog(logs, numbers, i, files, first, next, maxSequence);
    }
    assert numbers[..|numbers|] == numbers;
  }

  method RecoverNextLog(logs: map<nat, seq<Record>>, numbers: seq<nat>, i: nat, files: seq<File>, ghost first: nat,
                        nextFile: nat, maxSequence: nat)
    returns (files': seq<File>, next: nat, max': nat)
    requires Ascends(numbers) && Replayable(logs, numbers) && i < |numbers| && first <= nextFile
    requires RecoveredLogs(logs, numbers[..i], files, first, nextFile, maxSequence)
    ensures RecoveredLogs(logs, numbers[..i + 1], files', first, next, max') && nextFile <= next
  {
    LogAppended(logs, numbers, i);
    files', next, max' := RecoverLogFile(logs[numbers[i]], files, first, nextFile, maxSequence);
    TopOfJoin(EntriesInLogs(logs, numbers[..i]), EntriesIn(logs[numbers[i]]), 0, maxSequence, max');
    next := MarkFileNumberUsed(next, numbers[i]);
    NumbersUsed(numbers, i, nextFile, next);
  }

  lemma NumbersUsed(numbers: seq<nat>, i: nat, nextFile: nat, next: nat)
    requires i < |numbers| && numbers[i] < next && nextFile <= next && AllBelow(numbers[..i], nextFile)
    ensures AllBelow(numbers[..i + 1], next)
  {
    assert numbers[..i + 1] == numbers[..i] + [numbers[i]];
  }

  /** The tables hold the entries of these logs, and numbering goes on above tables and logs. */
  ghost predicate RecoveredLogs(logs: map<nat, seq<Record>>, numbers: seq<nat>, files: seq<File>,
                                first: nat, next: nat, maxSequence: nat)
  {
    && Written(files, first) && NumberedBelow(files, next)
    && EntriesOf(files) == EntriesInLogs(logs, numbers)
    && TopOf(EntriesInLogs(logs, numbers), 0, maxSequence)
    && AllBelow(numbers, next)
  }

  ghost predicate AllBelow(numbers: seq<nat>, bound: nat) {
    forall n :: n in numbers ==> n < bound
  }

  method MarkFileNumberUsed(nextFile: nat, number: nat) returns (next: nat)
    ensures nextFile <= next && number < next && (next == nextFile || next == number + 1)
  {
    next := if nextFile <= number then number + 1 else nextFile;
  }

  lemma LogAppended(logs: map<nat, seq<Record>>, numbers: seq<nat>, i: nat)
    requires Ascends(numbers) && Replayable(logs, numbers) && i < |numbers|
    ensures numbers[i] in logs && GoodLog(logs[numbers[i]])
    ensures EntriesInLogs(logs, numbers[..i + 1]) == EntriesInLogs(logs, numbers[..i]) + EntriesIn(logs[numbers[i]])
    ensures Later(EntriesIn(logs[numbers[i]]), EntriesInLogs(logs, numbers[..i]))
  {
    assert numbers[i] in numbers;
    assert numbers[..i + 1] == numbers[..i] + [numbers[i]];
    assert forall n :: n in numbers[..i + 1] <==> n in numbers[..i] || n == numbers[i];
    forall x, y | x in EntriesIn(logs[numbers[i]]) && y in EntriesInLogs(logs, numbers[..i])
      ensures x.key.sequence > y.key.sequence
    {
      var n :| n in numbers[..i] && n in logs && y in EntriesIn(logs[n]);
      var j :| 0 <= j < i && numbers[j] == n;
      assert n in numbers && numbers[i] in numbers;
    }
  }

  // ------------------------------------------------------------- opening

  function InsertNumber(numbers: seq<nat>, n: nat): (r: seq<nat>)
    requires Ascends(numbers) && n !in numbers
    ensures Ascends(r) && forall m :: m in r <==> m in numbers || m == n
  {
    if numbers == [] then [n]
    else if n < numbers[0] then [n] + numbers
    else
      var rest := InsertNumber(numbers[1..], n);
      assert forall k :: 0 <= k < |rest| ==> rest[k] in rest;
      [numbers[0]] + rest
  }

  /** The numbers of the logs that are still needed, in order. */
  method LiveLogs(logs: map<nat, seq<Record>>, minLog: nat) returns (numbers: seq<nat>)
    ensures Ascends(numbers) && forall n :: n in numbers <==> n in logs && n >= minLog
  {
    numbers := [];
    var rest := logs.Keys;
    while rest != {}
      invariant rest <= logs.Keys && Ascends(numbers)
      invariant forall n :: n in numbers <==> n in logs.Keys - rest && n >= minLog
      decreases rest
    {
      var n :| n in rest;
      rest := rest - {n};
      if n >= minLog { numbers := InsertNumber(numbers, n); }
    }
  }

  lemma LeftLog(s: State, torn: bool, d: Disk, n: nat)
    requires Inv(s) && Durable(s) && Left(s, torn, d) && n in d.logs && n >= d.catalog.logNumber
    ensures n in s.disk.logs && |d.logs[n]| <= |s.disk.logs[n]|
    ensures forall i :: 0 <= i < |d.logs[n]| ==> d.logs[n][i] == s.disk.logs[n][i]
  {
  }

  /** What a crash leaves of a log is a good log. */
  lemma LeftLogIsGood(s: State, torn: bool, d: Disk, n: nat)
    requires Inv(s) && Durable(s) && Left(s, torn, d) && n in d.logs && n >= d.catalog.logNumber
    ensures GoodLog(d.logs[n])
    ensures forall e :: e in EntriesIn(d.logs[n]) ==> e in LogEntries(s.disk, n)
  {
    LeftLog(s, torn, d, n);
    PrefixIsGood(s.disk, n, d.logs[n]);
  }

  lemma PrefixIsGood(disk: Disk, n: nat, records: seq<Record>)
    requires n in disk.logs && n >= disk.catalog.logNumber && |records| <= |disk.logs[n]|
    requires forall i :: 0 <= i < |records| ==> records[i] == disk.logs[n][i]
    requires LogsInv(disk) && RecordsInv(disk)
    ensures GoodLog(records)
    ensures forall e :: e in EntriesIn(records) ==> e in LogEntries(disk, n)
  {
    assert Ascending(disk, n);
    forall e | e in EntriesIn(records) ensures e in LogEntries(disk, n) {
      var r :| r in records && e in r;
      var i :| 0 <= i < |records| && records[i] == r;
      assert disk.logs[n][i] in disk.logs[n];
    }
  }

  /** The live logs a crash leaves can be replayed. */
  lemma LeftLogsAreReplayable(s: State, torn: bool, d: Disk, numbers: seq<nat>)
    requires Inv(s) && Durable(s) && Left(s, torn, d)
    requires forall n :: n in numbers <==> n in d.logs && n >= d.catalog.logNumber
    ensures Replayable(d.logs, numbers) && EntriesInLogs(d.logs, numbers) == LiveLogEntries(d)
  {
    forall n | n in numbers
      ensures GoodLog(d.logs[n]) && forall e :: e in EntriesIn(d.logs[n]) ==> e in LogEntries(s.disk, n)
    {
      LeftLogIsGood(s, torn, d, n);
    }
    forall n, m | n in numbers && m in numbers && n < m ensures Later(EntriesIn(d.logs[m]), EntriesIn(d.logs[n])) {
      assert Later(LogEntries(s.disk, m), LogEntries(s.disk, n));
    }
    assert forall n :: n in numbers ==> EntriesIn(d.logs[n]) == LogEntries(d, n);
  }

  /** Opening has succeeded: the state that follows is one recovered from the crash. */
  ghost predicate Opened(s: State, torn: bool, d: Disk, files: seq<File>, logFile: nat, nextFile: nat, last: nat)
    requires MemoryInv(s) && Crashed(s, torn, d)
  {
    && (forall l, f :: 0 <= l < NUM_LEVELS && f in d.catalog.levels[l] ==> f.NonEmpty())
    && (forall f :: f in files ==> f.NonEmpty())
    && Recovered(s, torn, d, files, OpenedState(s, torn, d, files, logFile, nextFile, last))
  }

  lemma OpenedIsRecovered(s: State, torn: bool, d: Disk, files: seq<File>, logFile: nat, nextFile: nat, last: nat)
    requires Inv(s) && Left(s, torn, d) && ReplayedTables(d, files) && NumberedBelow(files, logFile)
    requires d.catalog.nextFile <= logFile < nextFile && (forall n :: n in d.logs ==> n < logFile)
    requires TopSequence(d, last)
    ensures Opened(s, torn, d, files, logFile, nextFile, last)
  {
    TreeFilesNonEmpty(d.catalog.levels);
    ReplayedFilesFollow(files, d.catalog.nextFile);
  }

  /** Opening the database after a crash at any moment succeeds and gives a recovered state: the manifest
      and the live logs are all it needs. */
  method Open(ghost s: State, ghost torn: bool, d: Disk)
    returns (files: seq<File>, logFile: nat, nextFile: nat, lastSequence: nat)
    requires Inv(s) && Durable(s) && Crashed(s, torn, d)
    ensures Opened(s, torn, d, files, logFile, nextFile, lastSequence)
  {
    CatalogSurvives(s, torn, d);
    var catalog := VersionSets.Recover(VersionSets.Intact(d.manifest));
    assert catalog == Some(d.catalog);
    nextFile := MarkFileNumberUsed(catalog.value.nextFile + 1, catalog.value.logNumber);
    var numbers := LiveLogs(d.logs, catalog.value.logNumber);
    LeftLogsAreReplayable(s, torn, d, numbers);
    var maxSequence;
    files, nextFile, maxSequence := RecoverLogs(d.logs, numbers, d.catalog.nextFile, nextFile);
    lastSequence := catalog.value.lastSequence;
    if lastSequence < maxSequence { lastSequence := maxSequence; }
    logFile, nextFile := nextFile, nextFile + 1;
    forall n | n in d.logs ensures n < logFile {
      assert n >= d.catalog.logNumber ==> n in numbers;
    }
    OpenedIsRecovered(s, torn, d, files, logFile, nextFile, lastSequence);
  }
}
