# LevelDB and nanopb, modelled in Dafny

The app "Live Bus Time" ships two libraries whose behaviour can be stated exactly: LevelDB, a storage
engine, and nanopb, an encoder and decoder for Protocol Buffers.  This project models both in Dafny and
proves what they promise.  `dafny verify dfyconfig.toml` checks everything.

## How it is built

A database is specified as a set of versions, each a user key, a sequence number and a value or a
tombstone, read at a snapshot (`MultiVersion`).  Everything else refines that:

- **Versions, compaction, picking** (`Version`, `Builder`, `Compaction`, `CompactionCorrect`, `Picking`,
  `PickingCorrect`, `MemTableOutput`): the tree of table files, its invariant, lookups, the drop rules of
  compaction, the choice of inputs, and the level a flushed table goes to.
- **The engine** (`Engine`, `Flushing`, `EngineSteps`, `Effects`, `Durability`, `Recovery`, `Replay`, `Runs`,
  `Histories`, `Snapshots`, `MemTable`): a state machine over memory and disk whose steps are logging, applying,
  switching the memtable, building and installing a table, trivial moves, compaction, garbage collection,
  snapshots and iterators in use, and a crash between any two of them followed by recovery.  The disk holds the
  manifest as a list of records, the tables and the logs.  One invariant is kept by every step in memory
  (`Engine.Inv`) and one on disk (`Durability.Durable`); safety is stated over all runs, and `Effects` states
  what each action achieves.  `Counterexamples` holds the inputs on which the code does not keep what it
  promises.
- **Writers** (`WriteQueue`, `WriteBatches`), **the log** (`LogFormat`, `LogWriter`, `LogReader`, `LogDamage`),
  **the manifest** (`Manifest`, `VersionSets`, `EditCodec`), and what is made of bytes that are cut or spoiled
  (`Damage`, `LogDamage`).
- **Iterators** (`Iterators`, `Merger`, `DBIterator`), **the skip list** (`SkipLists`), **blocks and tables**
  (`Coding`, `Bytes`, `Blocks`, `BlockFiles`, `BlockIterator`, `Bytewise`, `Tables`, `TwoLevel`), **filters**
  (`Bloom`, `FilterBlocks`, `TableFilters`), **the block cache** (`HandleTables`, `LRUCaches`).
- **nanopb** (`PbWire`, `PbFields`, `PbEncoding`, `PbOStreams`, `PbDecoding`, `PbIStreams`, `PbMerging`,
  `PbRoundTrip`, and for streams of other writers `PbStreams`, `PbNumbers`, `PbExamples`).  The formats are
  those of the Protocol Buffers Encoding specification, sections "Base 128 Varints", "Signed Integers",
  "Length-Delimited Records" and "Last One Wins".

Classes stand for the objects that the sources update in place; their methods are proved against functions
and predicates, about which the lemmas speak.

## What the results rest on

- **User keys.**  The engine only compares user keys, so there they are integers; the table layer
  (`Bytewise`, `Tables`, `TwoLevel`) has byte keys and the bytewise comparator.
- **Compaction inputs.**  Range picking alone does not make compaction safe below level 0, because outputs may
  be cut between two versions of one user key.  For any inputs, `CompactionCorrect.InvisibleExactlyWhen` and
  `CompactionCorrect.MeaningKeptExactlyWhen` say exactly when installing a compaction keeps the tree and the
  reads, and `PickingCorrect.PickedClosedExactlyWhen` and `PickingCorrect.OrderKeptExactlyWhen` when picked
  inputs meet that; `Counterexamples.DeletedKeyComesBack` is a version where they do not and a deleted key
  returns.  The engine of the model starts exactly the picked compactions for which those conditions hold
  (`Engine.Startable`), among them all whose inputs are not continued by a file left behind
  (`EngineSteps.BoundaryClosedIsStartable`), and makes exactly the trivial moves that keep the tree
  (`EngineSteps.MoveKeepsTreeExactlyWhen`).
- **Flush inside a compaction.**  A memtable may be flushed while a compaction runs.  The inputs of a
  compaction triggered by size or seeks leave no gap between their user keys (`Picking.PickCompaction`,
  `Picking.PickAround`), so the table cannot land across an output (`Flushing.LandsBeside`).  A compaction of a
  key range can leave a gap; then installing it keeps the tree if and only if the table lies to one side of
  every output (`Flushing.FlushedJobKeepsTreeExactlyWhen`), and `Counterexamples.FlushIntoGapBreaksTree` is a
  flush after which it does not.  Only those flushes are absent from runs (`Engine.ClearsJob`).
- **File numbers.**  Saving once after many edits equals saving after each provided that no file number is
  added twice to one level; `Manifest.ReusedNumberComesBack` shows that the proviso is needed, and
  `Runs.RunsAreReplayed` that every manifest of every run meets it.
- **Decoding an edit.**  `Clear` does not clear the compaction pointers, so decoding gives back the edit
  exactly when the object decoded into has none (`EditCodec.RoundTripExactlyWhen`).
- **Crashes.**  A process crash may tear the last record of the log being written; a manifest record is
  atomic.  Recovery replays the manifest and the logs that are left (`Replay.Open`), and starts a new manifest
  and a new log, as with `reuse_logs` off.
- **Merge children.**  No two children of a merging iterator hold the same internal key.
- **Widths.**  Sequence numbers stay below 2^56 and sizes below 2^32, where the sources say so; the number
  formats themselves (varints, fixed-width numbers, masks, the Bloom arithmetic) are modulo 2^32 or 2^64.
- **nanopb strings.**  A string that fills its memory without a NUL is written but cannot be read back:
  `PbRoundTrip.DecodedExactlyWhen` states the round trip with that condition, both ways.  The build defines
  `PB_FIELD_32BIT`, so sizes have 32 bits.
- **Free choices.**  Where outputs are cut, when blocks and memtables are full, which level is compacted, the
  heights of skip-list nodes, hash functions and checksums are arbitrary.

## Model

| member | source | states |
|---|---|---|
| `InternalKeys.PrecedesIsTotalOrder` | Live Bus Time/Pods/leveldb-library/db/dbformat.cc:50-66 | the internal key order (user keys up, tags down) is a strict total order |
| `MultiVersion.ReadLater` | Live Bus Time/Pods/leveldb-library/db/db_impl.cc:1137-1144 | reading a set with later writes added gives their newest visible version, or else what the older set gives: the reason why a layered search may stop early |
| `Version.FindFile` | Live Bus Time/Pods/leveldb-library/db/version_set.cc:86-105 | the binary search gives the first file whose largest key is at or after the key, and the file count if there is none |
| `Version.OneFileSuffices` | Live Bus Time/Pods/leveldb-library/db/version_set.cc:373-390 | in a sorted level, searching the one file found is exact: its answer is the newest visible version of the whole level, also when the user key spans two files, and no answer means none in the level |
| `Version.NewerFilesShadow` | Live Bus Time/Pods/leveldb-library/db/version_set.cc:357-372 | the first level-0 candidate, newest number first, that holds a visible version holds the newest of level 0 |
| `Version.ShallowerLevelsShadow` | Live Bus Time/Pods/leveldb-library/db/version_set.cc:346-351 | a version found in a level is the newest of the whole version when no shallower level holds a visible one |
| `Version.Get` | Live Bus Time/Pods/leveldb-library/db/version_set.cc:332-429 | for every version that satisfies the tree invariant, every key and every snapshot, the layered lookup returns exactly the newest visible entry of all files, or none |
| `Runs.Get` | Live Bus Time/Pods/leveldb-library/db/db_impl.cc:1109-1154 | in every state that satisfies the engine invariant, a lookup through memtable, immutable memtable and files gives what the history of acknowledged writes says at that snapshot |
| `Runs.ProbeReads` | Live Bus Time/Pods/leveldb-library/db/memtable.cc:108-143 | one seek in a sorted memtable finds exactly the newest version visible at the snapshot |
| `MemTable.AddIsSorted` | Live Bus Time/Pods/leveldb-library/db/memtable.cc:82-106 | adding an entry with a new user key and sequence number keeps the memtable sorted |
| `Compaction.Compaction.IsBaseLevelForKey` | Live Bus Time/Pods/leveldb-library/db/version_set.cc:1484-1503 | with pointers that only move forward, the answer for keys presented in order is exact: true if and only if no file of a deeper level covers the user key |
| `Compaction.Compaction.ShouldDrop` | Live Bus Time/Pods/leveldb-library/db/db_impl.cc:939-972 | the two drop rules decide: hidden by a newer version that every snapshot sees, or an obsolete tombstone with nothing deeper |
| `Compaction.Compaction.DoCompactionWork` | Live Bus Time/Pods/leveldb-library/db/db_impl.cc:887-1046 | whatever the cuts between output files, the outputs one after the other are exactly the entries that the drop rules keep, in order, under consecutive new file numbers |
| `Compaction.KeptIsSorted` | Live Bus Time/Pods/leveldb-library/db/db_impl.cc:939-1005 | the entries kept are sorted in the internal key order |
| `CompactionCorrect.HiddenIsLocal` | Live Bus Time/Pods/leveldb-library/db/db_impl.cc:946-957 | looking only at the entry before it in the merge decides correctly whether any newer version hides an entry from all snapshots |
| `CompactionCorrect.MeaningKeptExactlyWhen` | Live Bus Time/Pods/leveldb-library/db/db_impl.cc:939-972 | for any inputs: every read at every snapshot from the smallest one on is unchanged if and only if no dropped tombstone was hiding a value that is left behind |
| `CompactionCorrect.CompactionPreservesMeaning` | Live Bus Time/Pods/leveldb-library/db/db_impl.cc:900-972 | for user-key-closed inputs every read at a snapshot from the smallest one on gives the same after the inputs are replaced by their survivors |
| `CompactionCorrect.ReplacingKeepsTree` | Live Bus Time/Pods/leveldb-library/db/db_impl.cc:866-885 | installing a job keeps the tree invariant if and only if nothing left behind in the compacted level is older than an output, and nothing left behind in the output level lies across one |
| `CompactionCorrect.InvisibleExactlyWhen` | Live Bus Time/Pods/leveldb-library/db/db_impl.cc:866-885 | installing a finished compaction, whatever its inputs: the tree invariant is kept if and only if that order holds, reads from the smallest snapshot on are kept if and only if no dropped tombstone was hiding a value left behind, and nothing is added |
| `CompactionCorrect.ContentsAfter` | Live Bus Time/Pods/leveldb-library/db/version_set.cc:1476-1482 | installing a job exchanges the entries of the inputs for those of the outputs and touches nothing else |
| `CompactionCorrect.FlattenSorted` | Live Bus Time/Pods/leveldb-library/db/db_impl.cc:929-936 | cutting a sorted run into files anywhere gives a sorted level |
| `CompactionCorrect.CompactionIsInvisible` | Live Bus Time/Pods/leveldb-library/db/db_impl.cc:866-1046 | a closed compaction keeps the tree invariant, adds nothing, and keeps every read from the smallest snapshot on |
| `Picking.GetOverlappingInputs` | Live Bus Time/Pods/leveldb-library/db/version_set.cc:531-572 | below level 0: exactly the files that meet the range; in level 0: the least set of files that holds all that meet the range and is closed under overlap |
| `Picking.MeetingIsLeastClosed` | Live Bus Time/Pods/leveldb-library/db/version_set.cc:546-568 | the widened range selects an overlap-closed set that every overlap-closed set contains |
| `Picking.SameSizeSameFiles` | Live Bus Time/Pods/leveldb-library/db/version_set.cc:1367-1387 | a wider range that selects as many files as before selects the same files, so comparing counts is enough |
| `Picking.GetRange` | Live Bus Time/Pods/leveldb-library/db/version_set.cc:1224-1244 | the least and the greatest internal key of the files, both attained |
| `Picking.SetupOtherInputs` | Live Bus Time/Pods/leveldb-library/db/version_set.cc:1345-1411 | the second input list is exactly the files of the next level that meet the range of the first, before and after the growth step; the first list grows, to all files of the level in the range of both, if and only if that adds files, keeps all inputs below 25 times the file size and adds no file of the next level; inputs without a gap between their user keys stay without one |
| `Picking.PickCompaction` | Live Bus Time/Pods/leveldb-library/db/version_set.cc:1291-1343 | the first file that ends past the compaction pointer, or the first of all, is picked, in level 0 with everything it overlaps, and the inputs leave no gap between their user keys |
| `Picking.PickAround` | Live Bus Time/Pods/leveldb-library/db/version_set.cc:1318-1340 | likewise around any one file, as when seeks trigger the compaction |
| `Picking.LeastClosedGrows` | Live Bus Time/Pods/leveldb-library/db/version_set.cc:546-568 | beyond a key that none of the chosen files covers there is none of them: the widened search leaves no gap |
| `Picking.CompactRange` | Live Bus Time/Pods/leveldb-library/db/version_set.cc:1413-1446 | nothing is picked exactly when nothing meets the range; in level 0 everything that does is picked, below it the shortest prefix of that which reaches the size limit, each completed to picked inputs |
| `PickingCorrect.PickedIsApart` | Live Bus Time/Pods/leveldb-library/db/version_set.cc:1345-1411 | every file of the output level that was not picked lies wholly to one side of the inputs |
| `PickingCorrect.PickedClosedExactlyWhen` | Live Bus Time/Pods/leveldb-library/db/version_set.cc:1291-1411 | range picking is user-key closed if and only if no input of a sorted level is continued by a file left behind in that level; level 0 always is |
| `PickingCorrect.OrderKeptExactlyWhen` | Live Bus Time/Pods/leveldb-library/db/db_impl.cc:866-972 | installing a picked compaction keeps the tree invariant if and only if, wherever a file left behind continues an input, every version of the shared user key was dropped |
| `PickingCorrect.BoundaryClosedCompactionIsInvisible` | Live Bus Time/Pods/leveldb-library/db/db_impl.cc:866-1046 | a picked compaction with no continued input keeps the tree invariant and every read from the smallest snapshot on |
| `Counterexamples.DeletedKeyComesBack` | Live Bus Time/Pods/leveldb-library/db/db_impl.cc:958-968 | the closure condition is needed: a version and a picked, finished compaction of it, after which a deleted key reads as its old value |
| `MemTableOutput.SomeFileOverlapsRange` | Live Bus Time/Pods/leveldb-library/db/version_set.cc:121-156 | true if and only if some file of the level meets the user-key range, by binary search where files are sorted |
| `MemTableOutput.PickLevelForMemTableOutput` | Live Bus Time/Pods/leveldb-library/db/version_set.cc:502-528 | the table sinks from level 0 exactly as long as level 0 and each next level hold nothing that meets it and the level below that not too much, by two levels at most; above level 0 nothing at its level or above meets it |
| `MemTableOutput.AddingTableKeepsTree` | Live Bus Time/Pods/leveldb-library/db/db_impl.cc:514-528 | a table newer than the whole version keeps the tree invariant at the level chosen for it, and adds exactly its entries |
| `Builder.MergeIsOrdered` | Live Bus Time/Pods/leveldb-library/db/version_set.cc:711-757 | merging ordered base and added files gives an ordered list |
| `Builder.InstallContents` | Live Bus Time/Pods/leveldb-library/db/version_set.cc:665-757 | the files of a level after one edit are the survivors of the deletions and the additions, in order |
| `EngineSteps.AppendKeepsInv` | Live Bus Time/Pods/leveldb-library/db/db_impl.cc:1213-1224 | logging a write group keeps the engine invariant |
| `EngineSteps.ApplyKeepsInv` | Live Bus Time/Pods/leveldb-library/db/db_impl.cc:1232-1257 | applying the group to the memtable, which acknowledges it, keeps the engine invariant |
| `EngineSteps.SwitchKeepsInv` | Live Bus Time/Pods/leveldb-library/db/db_impl.cc:1354-1374 | switching to a new memtable and log keeps the engine invariant |
| `EngineSteps.BuildTableKeepsInv` | Live Bus Time/Pods/leveldb-library/db/db_impl.cc:488-503 | writing the immutable memtable to a table keeps the engine invariant |
| `Flushing.JobSurvivesFlush` | Live Bus Time/Pods/leveldb-library/db/db_impl.cc:917-927 | a compaction in progress stays installable when the memtable is flushed meanwhile, wherever the table lands, if not in the output level across an output |
| `Flushing.LandsBeside` | Live Bus Time/Pods/leveldb-library/db/db_impl.cc:917-927 | inputs that leave no gap, as those of every size- or seek-triggered compaction, keep a flushed table from landing across an output |
| `Flushing.FlushedJobKeepsTreeExactlyWhen` | Live Bus Time/Pods/leveldb-library/db/db_impl.cc:917-927 | after a flush into the output level of a running compaction, installing the compaction keeps the tree invariant if and only if the new table lies to one side of every output |
| `Counterexamples.FlushIntoGapBreaksTree` | Live Bus Time/Pods/leveldb-library/db/db_impl.cc:917-927 | the condition is needed: a picked compaction of a range of level 1, a table of a key between its two files that may land in level 2, and no installation of the compaction keeps the tree invariant |
| `EngineSteps.InstallTableStepKeepsInv` | Live Bus Time/Pods/leveldb-library/db/db_impl.cc:534-565 | installing the flushed table at its level, which advances the log number in the same edit, keeps the engine invariant |
| `EngineSteps.TrivialMoveStepKeepsInv` | Live Bus Time/Pods/leveldb-library/db/db_impl.cc:717-727 | a trivial move keeps the engine invariant |
| `EngineSteps.MoveKeepsTreeExactlyWhen` | Live Bus Time/Pods/leveldb-library/db/db_impl.cc:717-727 | moving a picked file down keeps the tree invariant if and only if it lies in level 0 or the next file of its level does not continue it |
| `EngineSteps.StartCompactionStepKeepsInv` | Live Bus Time/Pods/leveldb-library/db/db_impl.cc:887-1015 | starting a picked compaction and writing its outputs keeps the engine invariant, whenever the exact conditions for its installation hold; how much it drops is stated by Effects.CompactionReclaims |
| `EngineSteps.BoundaryClosedIsStartable` | Live Bus Time/Pods/leveldb-library/db/db_impl.cc:900-936 | those conditions hold for every picked compaction whose inputs no file left behind continues |
| `EngineSteps.InstallCompactionStepKeepsInv` | Live Bus Time/Pods/leveldb-library/db/db_impl.cc:866-885 | installing the outputs keeps the engine invariant |
| `EngineSteps.CollectionIsSafe` | Live Bus Time/Pods/leveldb-library/db/db_impl.cc:218-272 | garbage collection removes no table of the current version, of a version in use or of a compaction in progress, and no log that recovery needs; what it removes is stated by Effects.CollectionIsExact |
| `EngineSteps.GetSnapshotKeepsInv` | Live Bus Time/Pods/leveldb-library/db/db_impl.cc:1175-1178 | taking a snapshot keeps the engine invariant; that it is a current one is stated by Effects.SnapshotIsCurrent |
| `EngineSteps.StepKeepsInv` | Live Bus Time/Pods/leveldb-library/db/db_impl.cc:534-1046 | the engine invariant (tree invariant, logs, memory, sequence numbers, reads, jobs, versions in use) holds after every enabled action |
| `Effects.WriteIsAcknowledged` | Live Bus Time/Pods/leveldb-library/db/db_impl.cc:1213-1250 | a write group, once logged and applied, is acknowledged as a whole under the next sequence numbers, stands in the log and in what can be read, and changes nothing else |
| `Effects.WriteIsRead` | Live Bus Time/Pods/leveldb-library/db/db_impl.cc:1109-1144 | from then on a read finds the last operation of the group on each of its user keys |
| `Effects.WriteIsLocal` | Live Bus Time/Pods/leveldb-library/db/db_impl.cc:1109-1144 | and every other user key reads as before |
| `Effects.OperationsAreRead` | Live Bus Time/Pods/leveldb-library/db/db_impl.cc:1186-1267 | a client that reads after a group of puts and deletions gets the last value put under the key, and nothing if the last operation on it was a deletion |
| `Effects.SnapshotIsCurrent` | Live Bus Time/Pods/leveldb-library/db/db_impl.cc:1175-1178 | GetSnapshot adds exactly one snapshot, keeps the earlier ones, and the new one is at or above the sequence number of every acknowledged write |
| `Effects.SnapshotReadsNewest` | Live Bus Time/Pods/leveldb-library/db/db_impl.cc:1175-1178 | so a read at the snapshot just taken gives the newest acknowledged version of every user key |
| `Effects.ReleaseForgetsOne` | Live Bus Time/Pods/leveldb-library/db/db_impl.cc:1180-1183 | releasing a snapshot, or a version in use, removes exactly that one and keeps the others in order |
| `Effects.HeldIsCurrent` | Live Bus Time/Pods/leveldb-library/db/db_impl.cc:1067-1096 | an iterator that starts holds the current version, with which the memtables make up all that can be read |
| `Effects.InstalledTable` | Live Bus Time/Pods/leveldb-library/db/db_impl.cc:534-565 | wherever a flushed table is installed, its level gains exactly that table, the immutable memtable is gone, the log number is that of the current log, and nothing else changes |
| `Effects.FlushedTableMayLand` | Live Bus Time/Pods/leveldb-library/db/version_set.cc:502-528 | a table may be installed at level 0 at any time, and down to level 2 where nothing at or above the level meets it, as long as a running compaction has no gap in its inputs |
| `Effects.MemoryCanBeFlushed` | Live Bus Time/Pods/leveldb-library/db/db_impl.cc:534-565 | from every state that satisfies the invariant, allowed actions lead to one where everything logged is in tables and no log is needed but an empty one: flushing never gets stuck |
| `Effects.CompactionReclaims` | Live Bus Time/Pods/leveldb-library/db/db_impl.cc:899-972 | whatever bound no live snapshot and not the current number lie below: of the versions of a user key up to that bound the outputs of a compaction hold the newest at most, and a tombstone up to it stays only where a file two or more levels deeper covers its key |
| `Effects.CompactionStarts` | Live Bus Time/Pods/leveldb-library/db/db_impl.cc:887-1024 | starting a compaction writes its output tables and changes nothing that is read |
| `Effects.CompactionInstalls` | Live Bus Time/Pods/leveldb-library/db/db_impl.cc:866-885 | a compaction that has started can always be installed; then its outputs stand in the place of its inputs and no other file has changed |
| `Effects.CompactionCanRun` | Live Bus Time/Pods/leveldb-library/db/db_impl.cc:686-769 | for all picked inputs that no file left behind continues there are outputs with which the compaction may start |
| `Effects.PickedFileMayMove` | Live Bus Time/Pods/leveldb-library/db/db_impl.cc:717-727 | a file picked by itself with nothing in the next level in its range may be moved down unless the next file of its level continues it |
| `Effects.MoveInstallsFile` | Live Bus Time/Pods/leveldb-library/db/db_impl.cc:719-723 | a trivial move takes the file out of its level, puts it into the next, and moves no other file |
| `Effects.CollectionIsExact` | Live Bus Time/Pods/leveldb-library/db/db_impl.cc:218-272 | garbage collection keeps exactly the tables of the current version, of versions in use and of the running compaction, and exactly the logs from the log number on, each as it was; everything else goes |
| `Durability.StepKeepsDurable` | Live Bus Time/Pods/leveldb-library/db/db_impl.cc:534-1233 | every action keeps what recovery relies on: the manifest describes the current version, no number is added to a level twice, every live log holds groups with consecutive numbers |
| `Manifest.DescribesAppends` | Live Bus Time/Pods/leveldb-library/db/version_set.cc:820-903 | a manifest that describes a version goes on describing it when an edit with new numbers is logged and applied |
| `Manifest.DescribedIsReplayed` | Live Bus Time/Pods/leveldb-library/db/version_set.cc:905-1025 | replaying a manifest that describes a catalog gives that catalog |
| `Manifest.OpenedDescribes` | Live Bus Time/Pods/leveldb-library/db/version_set.cc:847-857 | the manifest started by opening, a snapshot and one edit, describes the version opened |
| `Replay.RecoverLogFile` | Live Bus Time/Pods/leveldb-library/db/db_impl.cc:407-485 | the tables written from one log hold exactly the entries of its records, each newer than those before and under a higher number, and the largest sequence number is found |
| `Replay.RecoverLogs` | Live Bus Time/Pods/leveldb-library/db/db_impl.cc:343-357 | likewise for all live logs, oldest first; numbering goes on above every table and log |
| `Replay.LeftLogsAreReplayable` | Live Bus Time/Pods/leveldb-library/db/db_impl.cc:318-344 | what a crash leaves of the live logs meets what these loops need, and holds exactly the live log entries |
| `Replay.Open` | Live Bus Time/Pods/leveldb-library/db/db_impl.cc:274-363 | after a crash at any moment of any state of a run, replaying the manifest and the logs succeeds and gives a recovered state |
| `Recovery.LogsHoldMemory` | Live Bus Time/Pods/leveldb-library/db/db_impl.cc:310-335 | the logs from the manifest's log number on hold exactly both memtables, and the record in flight unless it was torn |
| `Recovery.RecoveryKeepsInv` | Live Bus Time/Pods/leveldb-library/db/db_impl.cc:274-363 | opening after a crash at any moment, from what replaying the manifest gives, leads to a state that satisfies the engine invariant and reads that version plus the live logs |
| `Recovery.RecoveryKeepsDurable` | Live Bus Time/Pods/leveldb-library/db/db_impl.cc:274-363 | and that again keeps what the next recovery relies on |
| `Recovery.RecoveryLosesNothing` | Live Bus Time/Pods/leveldb-library/db/db_impl.cc:274-363 | after recovery from the manifest and the logs every acknowledged write is in the history, nothing appears that was not written, and every key reads as that history says |
| `Runs.RunKeepsInv` | Live Bus Time/Pods/leveldb-library/db/db_impl.cc:534-1046 | the engine invariant, in memory and on disk, holds in every state of every run of actions and crashes |
| `Runs.RunsAreReplayed` | Live Bus Time/Pods/leveldb-library/db/version_set.cc:905-1025 | in every state of every run the manifest adds no number to a level twice, and replaying it gives exactly the current catalog |
| `Runs.RunsReadHistory` | Live Bus Time/Pods/leveldb-library/db/db_impl.cc:1109-1154 | in every state of every run, each key at each live snapshot, and at the current sequence number, reads as the history of acknowledged writes says |
| `Runs.HistoryOnlyGrows` | Live Bus Time/Pods/leveldb-library/db/db_impl.cc:1194-1265 | along every run no acknowledged write is ever taken back, by crashes either |
| `Histories.HistoryIsCounted` | Live Bus Time/Pods/leveldb-library/db/db_impl.cc:1214-1250 | in every state of every run, crashes included, the acknowledged writes are numbered from 1 to the last sequence number, without a gap and without a repetition |
| `Histories.RecoveryCounts` | Live Bus Time/Pods/leveldb-library/db/db_impl.cc:466-485 | the sequence number that recovery goes on from is exactly that of the last write it finds |
| `Histories.SnapshotReadsAreStable` | Live Bus Time/Pods/leveldb-library/db/db_impl.cc:1109-1154 | snapshot isolation: a key at a snapshot reads the same in any two states of a run in which the snapshot is live, whatever was written, flushed, compacted and recovered in between |
| `Histories.CrashAtAnyMoment` | Live Bus Time/Pods/leveldb-library/db/db_impl.cc:274-363 | a crash is possible in every state, with the record in flight torn or whole, and the logs then hold exactly both memtables and that record if it is whole |
| `Snapshots.SnapshotList.New` | Live Bus Time/Pods/leveldb-library/db/snapshot.h:42-51 | the ring gets the new snapshot as its newest; the others and their order stay |
| `Snapshots.SnapshotList.Delete` | Live Bus Time/Pods/leveldb-library/db/snapshot.h:53-58 | exactly that snapshot is unlinked; the others and their order stay |
| `Snapshots.SnapshotList.Oldest` | Live Bus Time/Pods/leveldb-library/db/snapshot.h:39-39 | the first node after the head is the snapshot taken first |
| `Snapshots.SkippedIsRing` | Live Bus Time/Pods/leveldb-library/db/snapshot.h:55-56 | nodes whose neighbours point past one node form a ring without it |
| `WriteQueue.BuildBatchGroup` | Live Bus Time/Pods/leveldb-library/db/db_impl.cc:1269-1314 | the group is the longest prefix of the queue that the size limit and the sync rule allow, and the batch is that of all its writers in order |
| `WriteQueue.GroupIsLongest` | Live Bus Time/Pods/leveldb-library/db/db_impl.cc:1275-1314 | the limits in numbers: more than the leader makes 1 MiB at most, or 128 KiB behind a leader of up to that size; a group ends only before a writer that exceeds this or wants a sync that the leader did not ask for |
| `WriteQueue.InsertInto` | Live Bus Time/Pods/leveldb-library/db/write_batch.cc:128-134 | the operations enter the memtable under consecutive sequence numbers |
| `WriteQueue.GroupServed` | Live Bus Time/Pods/leveldb-library/db/db_impl.cc:1213-1257 | serving a group as one batch has the same effect as serving its writers one after the other |
| `WriteQueue.StepKeepsInv` | Live Bus Time/Pods/leveldb-library/db/db_impl.cc:1194-1265 | every step of the protocol keeps: log and memtable hold exactly the served batches in queue order with consecutive numbers; which status each step gives is stated by WriteQueue.GroupGetsStatus and WriteQueue.FailuresHaveCauses |
| `WriteQueue.EveryWriteCountsOnce` | Live Bus Time/Pods/leveldb-library/db/db_impl.cc:1194-1265 | in every run, the operations of a call with a batch that returned success stand once in the log and once in the memtable, under consecutive numbers that no other write has, and were synced if it asked for it |
| `WriteQueue.QueueOrder` | Live Bus Time/Pods/leveldb-library/db/db_impl.cc:1200-1262 | calls return in the order in which they queued up and none is lost |
| `WriteQueue.GroupGetsStatus` | Live Bus Time/Pods/leveldb-library/db/db_impl.cc:1221-1263 | every writer of the group is served, in queue order, with its own operations; with success if and only if the record was logged and the sync that the leader asked for was made |
| `WriteQueue.GroupIsInserted` | Live Bus Time/Pods/leveldb-library/db/db_impl.cc:1232-1234 | with success the operations of each writer stand in the memtable under the numbers that follow the last one; otherwise the memtable is as it was |
| `WriteQueue.GroupIsLogged` | Live Bus Time/Pods/leveldb-library/db/db_impl.cc:1224-1243 | and in the log if and only if the record was written; writes fail from then on if and only if a sync failed |
| `WriteQueue.FailuresHaveCauses` | Live Bus Time/Pods/leveldb-library/db/db_impl.cc:1211-1263 | in every run a call that has returned failed if and only if the action that served it refused it, could not log its group, or could not make a sync that the leader asked for |
| `WriteQueue.NothingAfterFailedSync` | Live Bus Time/Pods/leveldb-library/db/db_impl.cc:1237-1243 | once a sync has failed, nothing is logged or inserted any more and every call fails |
| `WriteQueue.FrontCanBeServed` | Live Bus Time/Pods/leveldb-library/db/db_impl.cc:1200-1263 | the writer at the front can always be served, and with success unless a sync has failed before |
| `WriteBatches.WriteBatch.Put` | Live Bus Time/Pods/leveldb-library/db/write_batch.cc:98-103 | a batch of some operations becomes the batch of these and the new one |
| `WriteBatches.WriteBatch.Delete` | Live Bus Time/Pods/leveldb-library/db/write_batch.cc:105-109 | likewise for a deletion |
| `WriteBatches.WriteBatch.Append` | Live Bus Time/Pods/leveldb-library/db/write_batch.cc:141-145 | two batches, or one batch twice, become the batch of all operations in order, under the first one's sequence number |
| `WriteBatches.WriteBatch.SetSequence` | Live Bus Time/Pods/leveldb-library/db/write_batch.cc:94-96 | only the sequence number changes |
| `WriteBatches.WriteBatch.Iterate` | Live Bus Time/Pods/leveldb-library/db/write_batch.cc:42-80 | the loop hands out the operations parsed from the bytes and ends with the status that fits: too small, bad put, bad delete, unknown tag, wrong count, or fine |
| `WriteBatches.WriteBatch.InsertInto` | Live Bus Time/Pods/leveldb-library/db/write_batch.cc:128-134 | every operation handed out gets the next sequence number from the batch's on |
| `WriteBatches.BatchReads` | Live Bus Time/Pods/leveldb-library/db/write_batch.cc:42-80 | iterating over the bytes of any batch gives back its operations in order, without error |
| `WriteBatches.OpsAppend` | Live Bus Time/Pods/leveldb-library/db/write_batch.cc:141-145 | the bytes of operations one after the other are the bytes of all of them |
| `Damage.BatchLayout` | Live Bus Time/Pods/leveldb-library/db/write_batch.cc:5-14 | a batch is its sequence number in eight bytes, its count in four, and the operations behind |
| `Damage.OpLayout` | Live Bus Time/Pods/leveldb-library/db/write_batch.cc:98-109 | an operation is 1 with key and value, or 0 with key, each with its length |
| `Damage.CutBatch` | Live Bus Time/Pods/leveldb-library/db/write_batch.cc:52-69 | a batch that breaks off inside an operation hands out those before it and reports a bad put or a bad deletion, as the operation was to be |
| `Damage.CountedBatch` | Live Bus Time/Pods/leveldb-library/db/write_batch.cc:75-79 | one that ends between operations is good if and only if its count says so |
| `Damage.UnknownTagInBatch` | Live Bus Time/Pods/leveldb-library/db/write_batch.cc:70-72 | a tag that is neither 0 nor 1 ends the walk with an error, behind the operations before it |
| `LogWriter.Writer.AddRecord` | Live Bus Time/Pods/leveldb-library/db/log_writer.cc:36-82 | writing a record turns the log of some records into the log of these and the new one |
| `LogWriter.Writer.AddFragment` | Live Bus Time/Pods/leveldb-library/db/log_writer.cc:44-80 | one turn of the loop writes the block trailer if needed and the next fragment of the right type |
| `LogWriter.Writer.EmitPhysicalRecord` | Live Bus Time/Pods/leveldb-library/db/log_writer.cc:84-109 | header (masked checksum, length, type) and payload are appended |
| `LogReader.Reader.ReadPhysicalRecord` | Live Bus Time/Pods/leveldb-library/db/log_reader.cc:199-281 | the next fragment from the current position, through block reads, zero trailers and a torn end, with corruption reported where the format says so |
| `LogReader.Reader.ReadRecord` | Live Bus Time/Pods/leveldb-library/db/log_reader.cc:60-182 | the next reassembled record from the current position, or the end |
| `LogReader.ReadLog` | Live Bus Time/Pods/leveldb-library/db/db_impl.cc:413-414 | reading a log from its start gives exactly the records and reports that the format defines |
| `LogFormat.FragmentParses` | Live Bus Time/Pods/leveldb-library/db/log_reader.cc:226-281 | a fragment parses back when it lies wholly in the buffer, and a torn one reads as the end |
| `LogFormat.FragmentsAssemble` | Live Bus Time/Pods/leveldb-library/db/log_reader.cc:75-181 | fragments of a record are put together again, and a record whose end is missing is dropped without a report |
| `LogFormat.TrailerSkips` | Live Bus Time/Pods/leveldb-library/db/log_reader.cc:200-224 | the reader steps over the zero trailer to where the writer went on |
| `LogFormat.LogRoundTrip` | Live Bus Time/Pods/leveldb-library/db/log_reader.cc:60-281 | for any list of records of any lengths, reading the log gives back the list with no corruption report |
| `LogFormat.TornLogReads` | Live Bus Time/Pods/leveldb-library/db/log_reader.cc:60-281 | reading any byte prefix of a log gives exactly the records that lie wholly inside it, with no corruption report |
| `LogFormat.EveryCutIsAfterSome` | Live Bus Time/Pods/leveldb-library/db/log_reader.cc:212-243 | every cut of a log falls after some number of whole records, so the statement about prefixes covers all of them |
| `LogFormat.LogAppends` | Live Bus Time/Pods/leveldb-library/db/log_writer.cc:36-82 | adding a record appends its frame to the log and changes nothing before it |
| `LogDamage.PhysicalIsFramed` | Live Bus Time/Pods/leveldb-library/db/log_format.h:13-28 | the fragment types have the numbers 1 to 4 in the header |
| `LogDamage.SmallFrame` | Live Bus Time/Pods/leveldb-library/db/log_writer.cc:45-80 | a record of up to 32761 bytes takes one fragment of a 32 KB block |
| `LogDamage.LargeFrame` | Live Bus Time/Pods/leveldb-library/db/log_writer.cc:45-80 | a larger one fills the block and goes on in the next |
| `LogDamage.TrailerSizes` | Live Bus Time/Pods/leveldb-library/db/log_writer.cc:45-53 | up to six bytes at the end of a block are left zero |
| `LogDamage.TakenExactlyWhen` | Live Bus Time/Pods/leveldb-library/db/log_reader.cc:228-280 | of whatever bytes, the reader takes a fragment if and only if they begin with that fragment, its length and checksum included |
| `LogDamage.GivenUpExactlyWhen` | Live Bus Time/Pods/leveldb-library/db/log_reader.cc:228-268 | otherwise the rest of the block is given up, with a report unless the header is zero where type and length stand, and a fragment that reaches beyond the end of the file is the end |
| `LogDamage.ReadStandsInFile` | Live Bus Time/Pods/leveldb-library/db/log_reader.cc:199-281 | whatever the file holds, a fragment that is read stands in it, with its checksum, just before the position the reader goes on from |
| `LogDamage.DeliveredIsFramed` | Live Bus Time/Pods/leveldb-library/db/log_reader.cc:75-181 | whatever the file holds, a record that is delivered was framed as one: one whole fragment, or a first, middle and last ones in a row with nothing between |
| `LogDamage.DamageIsContained` | Live Bus Time/Pods/leveldb-library/db/log_reader.cc:75-181 | where a block is given up and the next one goes on with the rest of a record, if any, and then with records, exactly these records are read, with one report for the block if it is reported and one for each fragment of the rest |
| `LogDamage.RecordInProgressIsLost` | Live Bus Time/Pods/leveldb-library/db/log_reader.cc:161-167 | a record in progress is lost with the block, with one more report |
| `LogDamage.UnfinishedIsLost` | Live Bus Time/Pods/leveldb-library/db/log_reader.cc:96-130 | a record in progress that is followed by the start of another is lost, with a report unless nothing of it had been read |
| `LogDamage.UnknownTypeIsReported` | Live Bus Time/Pods/leveldb-library/db/log_reader.cc:169-178 | a fragment of an unknown type is reported, and a record in progress is lost |
| `Bytes.UnmaskMask` | Live Bus Time/Pods/leveldb-library/util/crc32c.h:24-40 | unmasking undoes masking for every checksum |
| `Bytes.Fixed32RoundTrip` | Live Bus Time/Pods/leveldb-library/util/coding.cc:9-18 | four bytes written are read back as the number |
| `Bytes.Fixed32IsLittleEndian` | Live Bus Time/Pods/leveldb-library/util/coding.cc:9-18 | the low byte comes first |
| `Bytes.Fixed64IsLittleEndian` | Live Bus Time/Pods/leveldb-library/util/coding.cc:20-33 | of eight bytes the low four come first |
| `EditCodec.EncodeTo` | Live Bus Time/Pods/leveldb-library/db/version_edit.cc:41-86 | the bytes written are the encodings of the edit's fields in the order of the code |
| `EditCodec.DecodeFrom` | Live Bus Time/Pods/leveldb-library/db/version_edit.cc:109-210 | the loop gives the edit, or the error, that parsing field by field defines |
| `EditCodec.EditDecodes` | Live Bus Time/Pods/leveldb-library/db/version_edit.cc:41-210 | decoding an encoded edit gives the edit behind the compaction pointers that the object already had |
| `EditCodec.RoundTripExactlyWhen` | Live Bus Time/Pods/leveldb-library/db/version_edit.cc:26-39 | decoding undoes encoding if and only if the edit decoded into holds no compaction pointers, which Clear leaves alone |
| `Damage.NumberLayout` | Live Bus Time/Pods/leveldb-library/db/version_edit.cc:46-61 | the numbers of an edit are their tag (2, 9, 3 or 4) and a varint |
| `Damage.ComparatorLayout` | Live Bus Time/Pods/leveldb-library/db/version_edit.cc:42-45 | the name of the comparator is tag 1 and a string |
| `Damage.PointerLayout` | Live Bus Time/Pods/leveldb-library/db/version_edit.cc:63-67 | a compaction pointer is tag 5, level and key |
| `Damage.DeletedLayout` | Live Bus Time/Pods/leveldb-library/db/version_edit.cc:69-75 | a deleted file is tag 6, level and number |
| `Damage.NewFileLayout` | Live Bus Time/Pods/leveldb-library/db/version_edit.cc:77-85 | a new file is tag 7, level, number, size and both keys |
| `Damage.CutEdit` | Live Bus Time/Pods/leveldb-library/db/version_edit.cc:118-205 | an edit that breaks off inside a field is corrupt, whatever fields stand before it |
| `Damage.UnknownTagInEdit` | Live Bus Time/Pods/leveldb-library/db/version_edit.cc:194-197 | so is one with a tag other than 1 to 7 and 9 |
| `Damage.LevelIsChecked` | Live Bus Time/Pods/leveldb-library/db/version_edit.cc:98-107 | and one with a level beyond the last |
| `VersionSets.VersionBuilder.Apply` | Live Bus Time/Pods/leveldb-library/db/version_set.cc:665-709 | one edit is folded into the state of every level: deletions first, additions second |
| `VersionSets.VersionBuilder.MergeFiles` | Live Bus Time/Pods/leveldb-library/db/version_set.cc:720-739 | the merge of base and added files, deleted numbers left out |
| `VersionSets.VersionBuilder.SaveTo` | Live Bus Time/Pods/leveldb-library/db/version_set.cc:711-757 | the version that the folded edits give |
| `VersionSets.VersionSet.LogAndApply` | Live Bus Time/Pods/leveldb-library/db/version_set.cc:820-903 | the edit is logged, behind a snapshot if it is the first, and the new version becomes current; if the record cannot be written the version stays, and a manifest just started is given up |
| `VersionSets.Recover` | Live Bus Time/Pods/leveldb-library/db/version_set.cc:905-1025 | reading the records of a manifest gives the replayed state; an undecodable record, another comparator or a missing number makes it fail |
| `Manifest.SavingOnceIsEnough` | Live Bus Time/Pods/leveldb-library/db/version_set.cc:665-757 | folding many edits and saving once gives the list that saving after each edit gives, provided no number is added twice to a level |
| `Manifest.ReusedNumberComesBack` | Live Bus Time/Pods/leveldb-library/db/version_set.cc:705-706 | the proviso is needed: with a number added, deleted and added again, saving once brings back the first file |
| `Manifest.SnapshotRebuilds` | Live Bus Time/Pods/leveldb-library/db/version_set.cc:1102-1130 | a snapshot record rebuilds every level of the version it was taken of |
| `Manifest.ManifestReplays` | Live Bus Time/Pods/leveldb-library/db/version_set.cc:905-1025 | replaying a snapshot and any edits logged since gives exactly the state of the running engine |
| `Manifest.LatestIs` | Live Bus Time/Pods/leveldb-library/db/version_set.cc:963-981 | of each number the value of the last record that has one counts |
| `Manifest.ReplaysExactlyWhen` | Live Bus Time/Pods/leveldb-library/db/version_set.cc:987-998 | recovery of a whole manifest succeeds if and only if some record has a log number, some a next file number and some a last sequence number |
| `Merger.MergingIterator.FindSmallest` | Live Bus Time/Pods/leveldb-library/table/merger.cc:155-168 | the current child holds the entry at the next position of the sorted union |
| `Merger.MergingIterator.FindLargest` | Live Bus Time/Pods/leveldb-library/table/merger.cc:170-183 | dually for the previous position |
| `Merger.MergingIterator.SeekToFirst` | Live Bus Time/Pods/leveldb-library/table/merger.cc:35-41 | the first entry of the union |
| `Merger.MergingIterator.SeekToLast` | Live Bus Time/Pods/leveldb-library/table/merger.cc:43-49 | the last entry of the union |
| `Merger.MergingIterator.Seek` | Live Bus Time/Pods/leveldb-library/table/merger.cc:51-57 | the first entry of the union at or after the target |
| `Merger.MergingIterator.Next` | Live Bus Time/Pods/leveldb-library/table/merger.cc:59-83 | the next entry of the union, also after a change of direction |
| `Merger.MergingIterator.Prev` | Live Bus Time/Pods/leveldb-library/table/merger.cc:85-112 | the previous entry of the union, also after a change of direction |
| `Merger.MergingIterator.PositionAfter` | Live Bus Time/Pods/leveldb-library/table/merger.cc:67-79 | turning forward leaves every other child at its first key after the current one |
| `Merger.MergingIterator.PositionBefore` | Live Bus Time/Pods/leveldb-library/table/merger.cc:93-108 | turning backward leaves every other child at its last key before the current one |
| `Merger.MergingIterator.YieldsEntry` | Live Bus Time/Pods/leveldb-library/table/merger.cc:114-122 | what is yielded is the entry of the union at the current position |
| `DBIterator.ShownIsViewed` | Live Bus Time/Pods/leveldb-library/db/db_iter.cc:173-203 | an entry that is visible, the newest of its key and no tombstone is a binding of the view at that sequence number |
| `DBIterator.ViewedIsShown` | Live Bus Time/Pods/leveldb-library/db/db_iter.cc:173-203 | and every binding of the view is such an entry |
| `DBIterator.DBIter.FindNextUserEntry` | Live Bus Time/Pods/leveldb-library/db/db_iter.cc:173-203 | the scan stops at the first entry to be shown whose key is not the skipped one, past hidden versions and tombstones |
| `DBIterator.DBIter.FindPrevUserEntry` | Live Bus Time/Pods/leveldb-library/db/db_iter.cc:232-272 | the backward scan stops behind the last entry to be shown |
| `DBIterator.DBIter.Next` | Live Bus Time/Pods/leveldb-library/db/db_iter.cc:146-171 | the cursor goes to the next key of the view, or becomes invalid exactly when there is none, also when it was going backward |
| `DBIterator.DBIter.Prev` | Live Bus Time/Pods/leveldb-library/db/db_iter.cc:205-230 | the cursor goes to the previous key of the view, or becomes invalid exactly when there is none, also when it was going forward |
| `DBIterator.DBIter.Seek` | Live Bus Time/Pods/leveldb-library/db/db_iter.cc:274-286 | the cursor stands at the first key of the view at or after the target |
| `DBIterator.DBIter.SeekToFirst` | Live Bus Time/Pods/leveldb-library/db/db_iter.cc:288-297 | the cursor stands at the first key of the view, or the view is empty |
| `DBIterator.DBIter.SeekToLast` | Live Bus Time/Pods/leveldb-library/db/db_iter.cc:299-304 | the cursor stands at the last key of the view, or the view is empty |
| `DBIterator.DBIter.ShowsBinding` | Live Bus Time/Pods/leveldb-library/db/db_iter.cc:66-73 | key and value shown are a binding of the view |
| `SkipLists.SkipList.FindGreaterOrEqual` | Live Bus Time/Pods/leveldb-library/db/skiplist.h:261-281 | for every height, also an outdated one: the first node at or after the key, and on each level the last node before it |
| `SkipLists.SkipList.FindLessThan` | Live Bus Time/Pods/leveldb-library/db/skiplist.h:283-302 | the last node before the key, or the head |
| `SkipLists.SkipList.FindLast` | Live Bus Time/Pods/leveldb-library/db/skiplist.h:304-322 | the last node, or the head |
| `SkipLists.SkipList.Contains` | Live Bus Time/Pods/leveldb-library/db/skiplist.h:372-380 | true if and only if the key was inserted |
| `SkipLists.SkipList.Insert` | Live Bus Time/Pods/leveldb-library/db/skiplist.h:336-370 | exactly the key is added, for every height drawn |
| `SkipLists.SkipList.LinkLevel` | Live Bus Time/Pods/leveldb-library/db/skiplist.h:364-369 | the two stores of one level; the list is valid after each of them |
| `SkipLists.PointingKeeps` | Live Bus Time/Pods/leveldb-library/db/skiplist.h:365-367 | after the first store of a level the list is as it was for every reader |
| `SkipLists.PublishingKeeps` | Live Bus Time/Pods/leveldb-library/db/skiplist.h:368-368 | after the second store the node is on one more level and each level still is the sorted list of its nodes |
| `SkipLists.ReaderGoesOn` | Live Bus Time/Pods/leveldb-library/db/skiplist.h:261-281 | a search in progress keeps its invariant across any insertion step |
| `SkipLists.InterruptedSearch` | Live Bus Time/Pods/leveldb-library/db/skiplist.h:261-281 | a search interrupted at any point of any insertion goes on to a later node before the key, a level down, or the answer |
| `SkipLists.InsertedKey` | Live Bus Time/Pods/leveldb-library/db/skiplist.h:336-370 | an insertion adds one node and one key and moves no other |
| `SkipLists.Iterator.Next` | Live Bus Time/Pods/leveldb-library/db/skiplist.h:207-211 | the next key of the sorted set |
| `SkipLists.Iterator.Prev` | Live Bus Time/Pods/leveldb-library/db/skiplist.h:213-222 | the previous key of the sorted set, found by a search |
| `SkipLists.Iterator.Seek` | Live Bus Time/Pods/leveldb-library/db/skiplist.h:224-227 | the first key at or after the target |
| `Coding.VarintRoundTrip` | Live Bus Time/Pods/leveldb-library/util/coding.cc:81-158 | a varint is read back from any position, for every value that fits the bytes read |
| `Coding.PutVarint32` | Live Bus Time/Pods/leveldb-library/util/coding.cc:47-79 | the unrolled encoder writes the same bytes as the loop |
| `Coding.PutVarint64` | Live Bus Time/Pods/leveldb-library/util/coding.cc:81-96 | the loop writes the varint |
| `Coding.GetVarintPtr` | Live Bus Time/Pods/leveldb-library/util/coding.cc:112-158 | the shared decoding loop is the varint reader, with its limit on bytes and its end of input |
| `Blocks.EntryRoundTrip` | Live Bus Time/Pods/leveldb-library/table/block.cc:53-74 | an entry written with any shared prefix decodes to its lengths and key tail and value |
| `Blocks.WrittenIsLaid` | Live Bus Time/Pods/leveldb-library/table/block_builder.cc:73-107 | all entries written are found again at their offsets, in front of any trailer |
| `BlockFiles.BlockBuilder.Add` | Live Bus Time/Pods/leveldb-library/table/block_builder.cc:73-107 | the pair is appended, sharing the whole common prefix with the key before, or nothing at a restart, of which there is one every so many entries |
| `BlockFiles.BlockBuilder.SharedPrefix` | Live Bus Time/Pods/leveldb-library/table/block_builder.cc:81-86 | the prefix found is the longest common one |
| `BlockFiles.BlockBuilder.Finish` | Live Bus Time/Pods/leveldb-library/table/block_builder.cc:63-71 | entries, restart array and its length make the block |
| `BlockFiles.FinishedBlockOpens` | Live Bus Time/Pods/leveldb-library/table/block.cc:23-38 | opening a finished block finds all pairs and restart points |
| `BlockFiles.EntryExample` | Live Bus Time/Pods/leveldb-library/table/block_builder.cc:88-95 | an entry in bytes |
| `BlockIterator.Iter.ParseNextKey` | Live Bus Time/Pods/leveldb-library/table/block.cc:226-253 | the next entry, its key rebuilt from the shared prefix, or the end |
| `BlockIterator.Iter.Seek` | Live Bus Time/Pods/leveldb-library/table/block.cc:165-203 | the first entry whose key is not before the target, by binary search over restart points and a linear scan |
| `BlockIterator.Iter.LastRestartBefore` | Live Bus Time/Pods/leveldb-library/table/block.cc:166-191 | the binary search ends at the last restart point whose key is before the target |
| `BlockIterator.Iter.Next` | Live Bus Time/Pods/leveldb-library/table/block.cc:139-142 | the entry after the current one |
| `BlockIterator.Iter.Prev` | Live Bus Time/Pods/leveldb-library/table/block.cc:144-163 | the entry before the current one, despite prefix compression |
| `BlockIterator.Iter.SeekToFirst` | Live Bus Time/Pods/leveldb-library/table/block.cc:205-208 | the first entry |
| `BlockIterator.Iter.SeekToLast` | Live Bus Time/Pods/leveldb-library/table/block.cc:210-215 | the last entry |
| `Bytewise.FindShortestSeparator` | Live Bus Time/Pods/leveldb-library/util/comparator.cc:29-51 | the result lies in [start, limit) and is no longer than start; it is shortened exactly at the first differing byte when raising it stays below the limit |
| `Bytewise.FindShortSuccessor` | Live Bus Time/Pods/leveldb-library/util/comparator.cc:53-65 | the result is at or after the key; the first byte that is not 0xff is raised and the rest cut |
| `Bytewise.FindInternalSeparator` | Live Bus Time/Pods/leveldb-library/db/dbformat.cc:68-85 | the separator lies in [start, limit), and a shortened one has a user key strictly between |
| `Bytewise.FindInternalSuccessor` | Live Bus Time/Pods/leveldb-library/db/dbformat.cc:87-99 | the successor is the key itself or has a greater user key |
| `Bytewise.BeforeIsTransitive` | Live Bus Time/Pods/leveldb-library/db/dbformat.cc:50-66 | the internal order on byte keys is transitive |
| `Tables.TableBuilder.Add` | Live Bus Time/Pods/leveldb-library/table/table_builder.cc:92-121 | the entry is added; the block is closed when full, and its index entry written once the next key is known |
| `Tables.TableBuilder.Flush` | Live Bus Time/Pods/leveldb-library/table/table_builder.cc:123-137 | a block being filled is written, and its index entry becomes pending |
| `Tables.TableBuilder.Finish` | Live Bus Time/Pods/leveldb-library/table/table_builder.cc:199-254 | the finished table holds exactly the added entries, cut into blocks, with index keys between them |
| `Tables.BeyondBlock` | Live Bus Time/Pods/leveldb-library/table/table.cc:226-255 | when the block searched holds no entry at or after the key, the next entry of the table has a greater user key |
| `Tables.InternalGet` | Live Bus Time/Pods/leveldb-library/table/table.cc:226-255 | a lookup reports nothing but the first entry at or after the key, and that one whenever it has the key's user key, whatever filter without false negatives is asked first |
| `TwoLevel.TableGuides` | Live Bus Time/Pods/leveldb-library/table/two_level_iterator.cc:91-96 | the index a table builder writes guides searches: each index key is at or after its block and before later ones |
| `TwoLevel.TwoLevelIterator.Seek` | Live Bus Time/Pods/leveldb-library/table/two_level_iterator.cc:91-96 | the first entry of the concatenation at or after the target, empty blocks included |
| `TwoLevel.TwoLevelIterator.SeekToFirst` | Live Bus Time/Pods/leveldb-library/table/two_level_iterator.cc:98-103 | the first entry of the concatenation |
| `TwoLevel.TwoLevelIterator.SeekToLast` | Live Bus Time/Pods/leveldb-library/table/two_level_iterator.cc:105-110 | the last entry of the concatenation |
| `TwoLevel.TwoLevelIterator.Next` | Live Bus Time/Pods/leveldb-library/table/two_level_iterator.cc:112-116 | the next entry of the concatenation |
| `TwoLevel.TwoLevelIterator.Prev` | Live Bus Time/Pods/leveldb-library/table/two_level_iterator.cc:118-123 | the previous entry of the concatenation |
| `TwoLevel.TwoLevelIterator.SkipEmptyDataBlocksForward` | Live Bus Time/Pods/leveldb-library/table/two_level_iterator.cc:125-136 | skipping exhausted and empty blocks does not change the position in the concatenation |
| `TwoLevel.TwoLevelIterator.SkipEmptyDataBlocksBackward` | Live Bus Time/Pods/leveldb-library/table/two_level_iterator.cc:138-149 | dually backward |
| `Bloom.AddKey` | Live Bus Time/Pods/leveldb-library/util/bloom.cc:50-60 | all probe bits of the key are set, no bit is cleared, and no other bit is set |
| `Bloom.CreateFilter` | Live Bus Time/Pods/leveldb-library/util/bloom.cc:35-61 | the filter is appended, its bits are exactly the probes of its keys, and it has the size the code computes |
| `Bloom.KeyMayMatch` | Live Bus Time/Pods/leveldb-library/util/bloom.cc:63-87 | the answer is whether all probe bits are set, with the rules for short filters and unknown encodings |
| `Bloom.NoFalseNegatives` | Live Bus Time/Pods/leveldb-library/util/bloom.cc:35-87 | a filter never denies a key it was made for, for any hash function |
| `Bloom.MatchesExactlyWhen` | Live Bus Time/Pods/leveldb-library/util/bloom.cc:63-87 | a filter lets a key pass if and only if each of its probes falls on a probe of a key it was made for, so it denies all others |
| `Bloom.ProbesAreMultiples` | Live Bus Time/Pods/leveldb-library/util/bloom.cc:51-58 | the probes are the hash value plus multiples of the rotated one, modulo 2^32 |
| `Bloom.DeltaRotates` | Live Bus Time/Pods/leveldb-library/util/bloom.cc:54-54 | rotating the second one back by 17 bits gives the hash value |
| `FilterBlocks.FilterBlockBuilder.StartBlock` | Live Bus Time/Pods/leveldb-library/table/filter_block.cc:22-28 | filters are generated up to the 2 KB range of the block |
| `FilterBlocks.FilterBlockBuilder.GenerateFilter` | Live Bus Time/Pods/leveldb-library/table/filter_block.cc:52-76 | one filter for the keys gathered, none of them lost |
| `FilterBlocks.FilterBlockBuilder.Finish` | Live Bus Time/Pods/leveldb-library/table/filter_block.cc:36-50 | the finished filter block denies none of the keys added, each at the offset of its block, and the range of each offset answers as a filter for exactly the keys added there |
| `FilterBlocks.NoKeyIsDenied` | Live Bus Time/Pods/leveldb-library/table/filter_block.cc:78-109 | a key added while the block at an offset was open is never denied at that offset |
| `FilterBlocks.ReaderAnswers` | Live Bus Time/Pods/leveldb-library/table/filter_block.cc:78-109 | the answer exactly: at an offset whose range has a filter, a key passes if and only if the range has keys and each probe of the key falls on a probe of one of them |
| `FilterBlocks.BeyondFilters` | Live Bus Time/Pods/leveldb-library/table/filter_block.cc:95-109 | behind the last range nothing is denied |
| `FilterBlocks.MalformedDeniesNothing` | Live Bus Time/Pods/leveldb-library/table/filter_block.cc:78-109 | a block too short, with offsets said to start behind their end, or with a filter said to end before it starts, denies nothing |
| `FilterBlocks.EmptyFilterBlock` | Live Bus Time/Pods/leveldb-library/table/filter_block.cc:36-50 | a block without filters in bytes |
| `FilterBlocks.KeyMayMatchInBlock` | Live Bus Time/Pods/leveldb-library/table/filter_block.cc:95-109 | the reader picks the filter by offset and asks it |
| `TableFilters.FilteredTableBuilder.Add` | Live Bus Time/Pods/leveldb-library/table/table_builder.cc:92-137 | every key goes to the filter block under the offset of the data block being filled |
| `TableFilters.FilteredTableBuilder.Finish` | Live Bus Time/Pods/leveldb-library/table/table_builder.cc:199-254 | the finished filter block has no false negatives for the blocks of the finished table |
| `TableFilters.InternalGet` | Live Bus Time/Pods/leveldb-library/table/table.cc:226-255 | a lookup that asks the filter block by block offset reports what a lookup without filters may report |
| `HandleTables.HandleTable.Lookup` | Live Bus Time/Pods/leveldb-library/util/cache.cc:76-78 | the table is a map: what a lookup returns |
| `HandleTables.HandleTable.Insert` | Live Bus Time/Pods/leveldb-library/util/cache.cc:80-94 | the binding is made, and what was bound before is returned, through a resize too |
| `HandleTables.HandleTable.Remove` | Live Bus Time/Pods/leveldb-library/util/cache.cc:96-104 | exactly that key is removed |
| `HandleTables.HandleTable.MoveChain` | Live Bus Time/Pods/leveldb-library/util/cache.cc:133-144 | moving one chain to the new buckets loses and doubles no entry |
| `LRUCaches.LRUCache.Ref` | Live Bus Time/Pods/leveldb-library/util/cache.cc:221-227 | one more client handle, the entry in the list where it belongs |
| `LRUCaches.LRUCache.Unref` | Live Bus Time/Pods/leveldb-library/util/cache.cc:229-240 | one reference less; the last one runs the deleter, with no client handle left |
| `LRUCaches.LRUCache.Lookup` | Live Bus Time/Pods/leveldb-library/util/cache.cc:255-262 | the cached entry, if there is one, and a handle on it |
| `LRUCaches.LRUCache.Release` | Live Bus Time/Pods/leveldb-library/util/cache.cc:264-267 | one client handle less |
| `LRUCaches.LRUCache.Insert` | Live Bus Time/Pods/leveldb-library/util/cache.cc:269-303 | the key is bound to the new entry if there is any capacity; entries without clients go, oldest first and only while usage is over capacity; entries with clients stay as they are, but for the one replaced |
| `LRUCaches.LRUCache.Erase` | Live Bus Time/Pods/leveldb-library/util/cache.cc:318-321 | the key is not found any more, its entry alone leaves its list, and handles on it stay good |
| `LRUCaches.LRUCache.Prune` | Live Bus Time/Pods/leveldb-library/util/cache.cc:323-333 | no unpinned entry remains |
| `LRUCaches.LRUCache.FinishErase` | Live Bus Time/Pods/leveldb-library/util/cache.cc:307-316 | the entry leaves its list and the accounted usage, and gives up the cache's reference |
| `LRUCaches.LRUCache.Accounted` | Live Bus Time/Pods/leveldb-library/util/cache.cc:184-197 | in every valid state a cached entry is in exactly one list, and a deleter has run at most once, for an entry nobody holds or finds |
| `PbFields.FieldIter.Next` | Live Bus Time/Pods/nanopb/pb_common.c:20-76 | the next descriptor, or the first again, with the number of required ones before it |
| `PbFields.FieldIter.Find` | Live Bus Time/Pods/nanopb/pb_common.c:78-95 | from wherever it stands the cyclic search finds the tag if any descriptor has it |
| `PbFields.DefaultValueIs` | Live Bus Time/Pods/nanopb/pb_encode.c:213-303 | for every value: the encoder takes it for a default and leaves it out if and only if it is what the decoder starts from and has no required field and no bytes of fixed length in it |
| `PbEncoding.MessageHasCode` | Live Bus Time/Pods/nanopb/pb_encode.c:126-211 | for every message: it has a code if and only if, at every depth, no array is longer than its maximum and no bytes field holds more than its own |
| `PbWire.Varint64Reads` | Live Bus Time/Pods/nanopb/pb_decode.c:250-270 | the varint reader gives back every 64-bit number from what the encoder writes |
| `PbWire.Varint32Reads` | Live Bus Time/Pods/nanopb/pb_decode.c:182-242 | and the 32-bit reader every 32-bit number |
| `PbWire.ZigZagUndone` | Live Bus Time/Pods/nanopb/pb_decode.c:1240-1252 | ZigZag decoding undoes ZigZag encoding |
| `PbWire.SignedOfUnsigned` | Live Bus Time/Pods/nanopb/pb_decode.c:1289-1324 | the casts through 64-bit and 32-bit two's complement give back every number that fits the field |
| `PbWire.SignedIsCongruent` | Live Bus Time/Pods/nanopb/pb_decode.c:1289-1324 | a cast to fewer bytes changes a number by a multiple of the range of those bytes |
| `PbNumbers.Varint64Is` | Live Bus Time/Pods/nanopb/pb_decode.c:250-270 | a varint of up to ten bytes, minimal or not, is read as the number whose digits to the base 128 its bytes are, cut to 64 bits |
| `PbNumbers.Varint64Fails` | Live Bus Time/Pods/nanopb/pb_decode.c:250-270 | an eleventh byte, or the end of the stream before the last byte, makes it fail |
| `PbNumbers.Varint32IsCut` | Live Bus Time/Pods/leveldb-library/util/coding.cc:112-129 | the 32-bit varint reader of the storage engine cuts up to five bytes to 32 bits and refuses more |
| `PbNumbers.VarintDigits` | Live Bus Time/Pods/nanopb/pb_encode.c:574-594 | the encoder writes exactly these digits, low ones first, and no leading zero |
| `PbNumbers.Varint32Takes` | Live Bus Time/Pods/nanopb/pb_decode.c:182-242 | where 32 bits are read, larger numbers below 2^63 are refused, but a negative 32-bit number extended to 64 bits is read as its low 32 bits |
| `PbNumbers.ZigZagCounts` | Live Bus Time/Pods/nanopb/pb_encode.c:596-605 | ZigZag numbers 0, -1, 1, -2, 2 and so on in this order |
| `PbNumbers.UnsignedReads` | Live Bus Time/Pods/nanopb/pb_decode.c:1326-1348 | an unsigned field takes a 64-bit number if and only if it fits the size of the field |
| `PbNumbers.ZigZagReads` | Live Bus Time/Pods/nanopb/pb_decode.c:1350-1372 | likewise a ZigZag field |
| `PbNumbers.SignedReads` | Live Bus Time/Pods/nanopb/pb_decode.c:1289-1324 | a signed field of up to 32 bits takes the low 32 bits as a signed number, if and only if that fits its size |
| `PbNumbers.DataReads` | Live Bus Time/Pods/nanopb/pb_decode.c:1391-1509 | bytes are taken up to their maximum, a string if it leaves room for its NUL, and then up to the first it has, and bytes of a fixed length in that length or empty |
| `PbWire.TagReads` | Live Bus Time/Pods/nanopb/pb_decode.c:293-314 | a key written is read back as its tag and wire type |
| `PbOStreams.OStream.Write` | Live Bus Time/Pods/nanopb/pb_encode.c:101-119 | bytes are counted, and written if the stream writes; a writing stream refuses exactly what does not fit |
| `PbOStreams.OStream.WriteVarint` | Live Bus Time/Pods/nanopb/pb_encode.c:574-594 | the buffer loop writes the varint |
| `PbOStreams.OStream.WriteSubmessage` | Live Bus Time/Pods/nanopb/pb_encode.c:682-730 | the counting pass gives the length, the writing pass fills exactly that much, and the whole is the length-delimited message |
| `PbOStreams.OStream.WriteArray` | Live Bus Time/Pods/nanopb/pb_encode.c:126-211 | a packed array under one key, others under a key each, none when empty, refused exactly when it is over its maximum or an element has no code (PbEncoding.MessageHasCode) |
| `PbOStreams.OStream.WriteField` | Live Bus Time/Pods/nanopb/pb_encode.c:307-392 | a field is written exactly when it is present |
| `PbOStreams.OStream.Encode` | Live Bus Time/Pods/nanopb/pb_encode.c:494-516 | success exactly when the message has a code and it fits; then the stream has counted, or counted and written, exactly that code |
| `PbOStreams.GetEncodedSize` | Live Bus Time/Pods/nanopb/pb_encode.c:533-542 | it succeeds if and only if the message keeps the limits of its descriptor at every depth, and the size reported is the length of the code |
| `PbOStreams.EncodeToBuffer` | Live Bus Time/Pods/nanopb/pb_encode.c:494-516 | encoding into a buffer succeeds if and only if the message keeps the limits of its descriptor at every depth and its code fits, and gives the code |
| `PbExamples.NumberExample` | Live Bus Time/Pods/nanopb/pb_encode.c:635-672 | field 1 with the number 150 in bytes |
| `PbExamples.TextExample` | Live Bus Time/Pods/nanopb/pb_encode.c:674-680 | a string in bytes |
| `PbExamples.NestedExample` | Live Bus Time/Pods/nanopb/pb_encode.c:682-730 | a message in a message in bytes |
| `PbExamples.PackedExample` | Live Bus Time/Pods/nanopb/pb_encode.c:139-187 | a packed array in bytes |
| `PbExamples.Fixed32Example` | Live Bus Time/Pods/nanopb/pb_encode.c:607-617 | a fixed-width number in bytes |
| `PbExamples.Fixed64Example` | Live Bus Time/Pods/nanopb/pb_encode.c:619-633 | and one of 64 bits |
| `PbExamples.NegativeExample` | Live Bus Time/Pods/nanopb/pb_encode.c:734-755 | a negative number, extended to 64 bits, in bytes |
| `PbExamples.ZigZagExample` | Live Bus Time/Pods/nanopb/pb_encode.c:775-791 | the same number in ZigZag |
| `PbIStreams.IStream.ReadVarint32` | Live Bus Time/Pods/nanopb/pb_decode.c:182-242 | the loop accepts and rejects the same bytes as the varint definition: five bytes that fit, or padding behind |
| `PbIStreams.IStream.ReadVarint64` | Live Bus Time/Pods/nanopb/pb_decode.c:250-270 | the loop reads the varint, up to ten bytes |
| `PbIStreams.IStream.ReadTag` | Live Bus Time/Pods/nanopb/pb_decode.c:293-314 | key, end of message, or failure |
| `PbIStreams.IStream.SkipUnknown` | Live Bus Time/Pods/nanopb/pb_decode.c:316-326 | an unknown field is skipped by its wire type; that this passes over exactly what any writer wrote there is stated by PbStreams.ForeignSkips |
| `PbIStreams.IStream.MakeSubstream` | Live Bus Time/Pods/nanopb/pb_decode.c:367-380 | the substream is the string that comes next, and what follows it is kept |
| `PbIStreams.IStream.CloseSubstream` | Live Bus Time/Pods/nanopb/pb_decode.c:382-395 | the parent goes on behind the string, whatever the substream left |
| `PbIStreams.IStream.ReadField` | Live Bus Time/Pods/nanopb/pb_decode.c:401-475 | one field is decoded into the message: merged, appended, packed, or chosen in its union |
| `PbIStreams.IStream.DecodeNoInit` | Live Bus Time/Pods/nanopb/pb_decode.c:901-1049 | the loop over keys gives the message that the format defines, or fails when it does, up to the check of required fields |
| `PbIStreams.IStream.AllSeen` | Live Bus Time/Pods/nanopb/pb_decode.c:1006-1046 | true if and only if all of the first 64 required fields were seen |
| `PbIStreams.IStream.DecodeMessage` | Live Bus Time/Pods/nanopb/pb_decode.c:1051-1063 | decoding from the defaults |
| `PbRoundTrip.PackedReads` | Live Bus Time/Pods/nanopb/pb_decode.c:419-448 | a packed array reads back behind the elements that are there, element by element, if and only if there is room for all |
| `PbRoundTrip.EachReads` | Live Bus Time/Pods/nanopb/pb_decode.c:449-459 | elements under keys of their own read back in order, if all strings have their NUL and there is room |
| `PbRoundTrip.AbsentReads` | Live Bus Time/Pods/nanopb/pb_encode.c:353-386 | a field that is not written is left as the decoder has it |
| `PbRoundTrip.MessageReads` | Live Bus Time/Pods/nanopb/pb_decode.c:901-1049 | a whole message reads back merged into what the memory holds, or is refused when a string lacks its NUL or an array gets too long |
| `PbRoundTrip.DecodedExactlyWhen` | Live Bus Time/Pods/nanopb/pb_decode.c:1051-1063 | for every well-formed descriptor and message: decoding the code gives back the message if and only if every string in it is terminated within its memory, and refuses otherwise |
| `PbRoundTrip.EncodingIsInjective` | Live Bus Time/Pods/nanopb/pb_encode.c:494-516 | two messages with terminated strings never share a code |
| `PbRoundTrip.ConcatenationMerges` | Live Bus Time/Pods/nanopb/pb_decode.c:901-1063 | for any two messages: decoding the code of one behind that of the other gives the merge of the two, arrays one behind the other, messages inside merged, a union as set last, later values over earlier ones; and fails exactly when a string lacks its NUL or an array gets too long |
| `PbMerging.MergeIntoDefaults` | Live Bus Time/Pods/nanopb/pb_decode.c:884-899 | merging into the defaults gives the message |
| `PbStreams.ForeignSkips` | Live Bus Time/Pods/nanopb/pb_decode.c:316-326 | a field that the descriptor does not have is passed over whatever its number: a varint, eight bytes, a length and as many bytes, or four bytes |
| `PbStreams.OtherWireTypesFail` | Live Bus Time/Pods/nanopb/pb_decode.c:324-324 | with one of the other wire types it is refused |
| `PbStreams.DecodedAmongForeign` | Live Bus Time/Pods/nanopb/pb_decode.c:901-1049 | for every message: unknown fields put anywhere between its fields change nothing, and leaving out required fields makes decoding fail if and only if one of the first 64 required fields is left out |
| `PbStreams.DecodedIsSound` | Live Bus Time/Pods/nanopb/pb_decode.c:1051-1063 | for every byte string: a message that is decoded fits its descriptor in every number, array, string and union, has a code, and that code decodes to it again |

## Left out

- EngineSteps.StepKeepsInv: runs are without the compactions, trivial moves and flushes after which the code itself
  loses the order of the tree or a read.  Which these are is said exactly by PickingCorrect.OrderKeptExactlyWhen,
  CompactionCorrect.MeaningKeptExactlyWhen, EngineSteps.MoveKeepsTreeExactlyWhen and
  Flushing.FlushedJobKeepsTreeExactlyWhen.
- EngineSteps.StartCompactionStepKeepsInv: for the compactions that meet the exact conditions just named.
- EngineSteps.TrivialMoveStepKeepsInv: for the moves that keep the tree, by EngineSteps.MoveKeepsTreeExactlyWhen.
- EngineSteps.InstallTableStepKeepsInv: for the flushes that keep a running compaction installable, by
  Flushing.FlushedJobKeepsTreeExactlyWhen; without a running compaction of a range these are all flushes.
- VersionSets.VersionBuilder.Apply: the compaction pointers of an edit are not applied; they steer which file is
  picked next, and the engine may pick any.
- Picking.SetupOtherInputs: the compaction pointer and the grandparents that it sets as well are left out.
- Corruption other than torn tails in runs: what the log reader and the decoders make of it is in LogDamage and
  Damage, but no engine step meets it; `paranoid_checks`, `RepairDB`, dump tools and damaged table blocks are
  absent.
- Log reading with `initial_offset` above 0 and the resynchronisation it needs, and `reuse_logs`.
- Env and POSIX files, file locks, threads, condition variables and memory barriers: steps under the mutex
  are atomic, and so is a store to a skip-list link.
- Seek statistics, compaction scores and size-triggered choice of a level: any level may be compacted at any
  time.  The grandparent limit on outputs is one of the arbitrary cuts.
- CRC32C itself: the checksum is any function of type and payload.  Snappy: blocks are not compressed.
- The hash functions, the random numbers and the arena.
- Table footers, block handles as byte offsets, and the reading of blocks through the block cache: a table is
  its blocks and its index keys.
- The byte layout of memtable entries: the memtable is a sorted run, and the skip list has integer keys.
- `DBImpl::TEST_*`, properties, approximate sizes, read sampling, destroying a database, the C binding.
- `ShardedLRUCache`: one shard is modelled; sharding only divides the keys.
- The Swift code of the app, Firebase, GTMSessionFetcher and RevealingSplashView.
- nanopb's callbacks, extensions, allocated (pointer) fields, fixed-count arrays, proto2 default values and
  raw struct offsets; descriptors whose integer sizes are not 1, 2, 4 or 8.
- Recovery.RecoveryLosesNothing: a manifest whose last record is torn is one without that record, which
  LogFormat.TornLogReads says of any log file; failures to write a manifest are in VersionSets.VersionSet.LogAndApply
  but not in runs.
- LRUCaches.LRUCache.Ref: the two circular lists are sequences in list order, and handles are numbers instead of
  pointers, so that memory after `free` is not modelled.
- SkipLists.SkipList.Insert: nodes are indexes into a growing array of nodes, which is what the arena makes of
  them; keys are integers.
- HandleTables.HandleTable.Insert: chains are sequences of bindings instead of linked handles.
- BlockFiles.BlockBuilder.Add: the byte encoding of the three lengths is a parameter of the builder, required
  to be the varint encoding where blocks are opened again.
- Version.NewestFirst: sorting level-0 candidates is an insertion by file number; the source calls a library sort.
- WriteQueue.BuildBatchGroup: batches are lists of operations with their byte sizes as given; their bytes are
  in the module WriteBatches.
- PbIStreams.IStream.ReadVarint32: the shift counter does not wrap; in C it has 8 bits and wraps after 36 bytes of
  padding.  The bits of a varint are added instead of or-ed, which is the same as they do not overlap, and the
  loop is written as two loops, before and after bit 32.
- PbIStreams.IStream.AllSeen: the two words of required-field bits are 64 flags.
- PbIStreams.IStream.ReadData: a string decoded into its memory is kept up to its first NUL.
- PbOStreams.OStream.WriteValue: C values outside the range of their type cannot occur, so they are excluded.
