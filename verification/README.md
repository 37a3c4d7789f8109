# Verification of a replicated, sharded key-value store

A Dafny 4.11 model of the store's storage engine, of the raft state machine on top of it, and of the routing layer in front of it,
with proofs that

- **the engine is a map.** A write-ahead log of bytes, a MemTable, a list of sorted table files and a k-way merge together show, after
  any run of puts, deletes, flushes, compactions, snapshots and reopenings, exactly what one flat last-writer-wins map shows
  (`EngineRuns.RunRefines`), and the `DB` object, which works on mutable files through codecs, offsets, a heap and iterators, does
  method by method what that state machine says (`DBs`);
- **outside a compaction's swap, and as long as no append goes behind a torn log tail, a crash takes nothing back.** Stopped at any
  byte of any operation, the next open shows the state just before or just after that operation, except that it refuses exactly when
  a flush was stopped inside a record of its table; this holds over whole histories of operations, I/O failures and crashes
  (`EngineCrash`). Where the guarantee ends is proved as well, with exact conditions
  (`TornTails`, `EngineLimits`);
- **replicas agree and leader reads are fresh.** In a step model with leader changes, crashes, snapshots and concurrent clients, a read
  never returns an older version than a write acknowledged before it began, and replicas at the same log position answer alike
  (`Replicas`). Local I/O failures are part of the model: what they take away is stated key by key, and a run in which one does is
  exhibited (`ReplicaLimits`);
- **requests find their group once.** The consistent-hash ring moves keys only onto an added shard, every key of a valid configuration
  reaches a declared group, the client's retries visit every replica and find a lasting leader that can be reached, and one call submits
  at most one command.

`dafny verify dfyconfig.toml` checks everything. The proofs are many small lemmas; `hide` statements keep each proof obligation to the
definitions it needs.

## Modules

| module | follows |
|---|---|
| `Wrappers`, `ByteStrings` | error values; byte strings, Go's order on them, key lists and sorting |
| `Codec`, `RecordLog` | `internal/engine/record`; files of concatenated records, whole or cut, and the map they stand for |
| `TableNames` | `%04d.sst` names, their ids and their directory order |
| `MemTables`, `Wals`, `SSTables` | the three storage components, on the files of `Disks` |
| `RecordHeaps`, `MergeSpec`, `Compactions` | `container/heap` over the merge's items; what a merge means; `compact.Run` |
| `EngineSpec`, `EngineRuns`, `EngineCrash` | the engine as a state machine on values: definitions, refinement, failures and crashes |
| `TornTails`, `EngineLimits` | exactly where its guarantees end: torn logs, failed appends, interrupted swaps, more than 10000 tables |
| `DBs` | `db.go`: the `DB` class, refining `EngineSpec` |
| `RaftLog`, `RaftSnapshots`, `FSMs`, `RaftStores` | the log's meaning; entries and snapshots on the engine; the raft state machine; the raft-backed store and its errors |
| `Replicas`, `ReplicaLimits` | the step model of replicas and clients, and a run it cannot protect |
| `HashRings`, `Routers`, `ShardStores`, `ClusterConfigs` | the ring, the router, the sharded store, the static configuration |
| `LeaderHints`, `RoutedClients` | the text of a leader hint; the routed client |

An `Engine` value is the MemTable limit, the files on disk (`Store`: WAL bytes and a directory from names to bytes), the MemTable and the
list of live tables. `View` is the layered map of newest records, `Abs` the flat map of live values. `Get` answers nothing for a missing
key and an empty value for a deleted one, as the code does; the two differ only until a compaction drops the tombstone, so statements
about reads compare byte contents. Between operations, failed ones included, an engine satisfies `Inv` (tables whole, ascending and
numbered 0 to n-1, the file of the next number at most a leftover of an interrupted flush) and, when nothing has failed since the last
flush that wrote something, `Tidy` (no such leftover) and `Durable` (the WAL has no torn tail and holds exactly the MemTable).

A `Disk` holds the files a `DB` works on. Whether the n-th system call succeeds is a constant of the disk's `SystemCalls` that no method
can change; a call that fails may have written any part of its data. `Failures()` counts the calls that have failed so far, and every
method answers an I/O error exactly when that number has grown, so on a disk whose calls succeed each operation is the model's step
(`Disks.FailuresAreReal`). The ghost field `seen` collects every content a crash could find, so a method's contract speaks about crashes
by speaking about `seen`. Raft nodes (`RaftStores.Answers`), the network (`RoutedClients.Links`) and the groups' stores
(`ShardStores.GroupStore`) are treated in the same way: what the environment answers to the n-th question, message or call is fixed from
the start, contracts say which answer follows from it, and theorems hold for every such environment.

## Model

| member | source | states |
|---|---|---|
| `Codec.Encode` | internal/engine/record/record.go:48-66 | the buffer filled through a moving offset is the record's layout, field by field (type 1 or 2, the two lengths as big-endian numbers of four bytes, key, value), and what `CheckEncodePara` refuses is refused with its error |
| `Codec.LayoutFields` | internal/engine/record/record.go:48-66 | the layout is the one byte string with the record's type first, four bytes that denote the key's length and four that denote the value's, most significant first, then key and value |
| `Codec.DecodeFields` | internal/engine/record/record.go:68-108 | decoding succeeds exactly on a type of 1 or 2, a key length that is not 0 and as many bytes as the two big-endian numbers ask for, and key and value are those bytes |
| `Codec.DecodeFrom` | internal/engine/record/record.go:68-108 | reading header, key and value piecewise from a stream gives what `Decode` gives on the bytes left and consumes exactly that much |
| `Codec.DecodeBody` | internal/engine/record/record.go:91-107 | key and value are the next bytes of the sizes the header gave; a shortage in either is an incomplete record and consumes the stream |
| `Codec.DecodeEncode` | internal/engine/record/record.go:48-108 | round trip: decoding an encoded record followed by any bytes gives the record and leaves those bytes |
| `Codec.EncodeDecode` | internal/engine/record/record.go:68-108 | a successfully decoded record is re-encoded to exactly the bytes it was read from |
| `Codec.TornRecord` | internal/engine/record/record.go:71-100 | every non-empty strict prefix of an encoding reads as ErrIncompleteRecord and as no other error |
| `RecordLog.ParseWrite` | internal/engine/wal/wal.go:78-91 | scanning a file of appended records gives those records in order and ends cleanly |
| `RecordLog.WriteParse` | internal/engine/wal/wal.go:78-91 | a clean file is exactly the concatenated layouts of its records |
| `RecordLog.ParseAppend` | internal/engine/wal/wal.go:78-91 | scanning a clean file with more bytes behind it gives its records, then whatever those bytes give |
| `RecordLog.ParseCut` | internal/engine/wal/wal.go:78-91 | a log cut at any byte yields exactly the whole records before the cut, and is torn unless the cut is a record boundary |
| `RecordLog.FoldIsLast` | internal/engine/sstable/sstable.go:110-111 | of several records with one key the last in file order counts |
| `RecordLog.FoldSortedRecords` | internal/engine/memtable/memtable.go:89-101 | listing a map's records in key order loses nothing |
| `RecordLog.AscendingRecordsUnique` | internal/engine/memtable/memtable.go:89-101 | a strictly ascending list of records is the sorted listing of its map, so the export does not depend on map order |
| `ByteStrings.ListKeys` | internal/engine/memtable/memtable.go:89-92 | ranging over a map collects each key exactly once, in some order |
| `ByteStrings.SortKeys` | internal/engine/memtable/memtable.go:93-93 | sorting the collected keys gives the one ascending listing of the key set |
| `ByteStrings.AscendingUnique` | internal/engine/memtable/memtable.go:93-93 | there is only one strictly ascending listing of a set of keys, whatever sorts it |
| `TableNames.NameGivesBackId` | db.go:56-60 | the id parsed from a table's file name is the id it was created with |
| `TableNames.NameText` | db.go:143-144 | a table's name is the one text of its id in decimal digits, zero-padded to four places and no further, and `.sst` |
| `TableNames.NamesInjective` | db.go:143-144 | tables with different ids never share a file, at any number of tables |
| `TableNames.NamesOrdered` | db.go:144-144 | names of ids below 10000 sort as their ids |
| `TableNames.DirectoryOrder` | db.go:51-67 | the directory lists n tables in id order if and only if n is at most 10000 |
| `MemTables.MemTable.Insert` | internal/engine/memtable/memtable.go:34-42 | replaces the key's record and keeps the size counter equal, modulo 2^64, to the bytes of all held records |
| `MemTables.MemTable.Put` | internal/engine/memtable/memtable.go:44-51 | refuses an empty key and otherwise records a Put, accounting kept |
| `MemTables.MemTable.Delete` | internal/engine/memtable/memtable.go:71-78 | refuses an empty key and otherwise records a tombstone, accounting kept |
| `MemTables.MemTable.ForEachRecord` | internal/engine/memtable/memtable.go:84-102 | visits every record once, in ascending key order |
| `MemTables.MemTable.Reset` | internal/engine/memtable/memtable.go:104-107 | leaves no record and a size of 0 |
| `MemTables.CounterExact` | internal/engine/memtable/memtable.go:34-42 | below 2^64 bytes the counter is the exact total, the subtraction never underflows, and it is 0 exactly for an empty table |
| `MemTables.WriteTakesTotal` | internal/engine/memtable/memtable.go:37-40 | what the counter counts is the length of the file a flush writes |
| `MemTables.FoldTotal` | internal/engine/wal/wal.go:78-91 | a replayed MemTable is never larger than the records it was replayed from |
| `Disks.Disk.AppendWal` | internal/engine/wal/wal.go:46-54 | a write adds all the data, or is one of the system calls that fail and any prefix is written; every prefix is a state a crash can find |
| `Disks.Disk.AppendFile` | internal/engine/sstable/sstable.go:59-67 | the same for a table file |
| `Disks.Disk.CreateFile` | internal/engine/sstable/sstable.go:35-47 | creates or empties the file; a failed call may have done so |
| `Disks.Disk.TruncateWal` | internal/engine/wal/wal.go:104-110 | empties the WAL; a failed call may have done so |
| `Disks.FailuresAreReal` | internal/engine/wal/wal.go:46-54 | the number of failures grows over a stretch of system calls exactly if one of them has failed |
| `Wals.WAL.Append` | internal/engine/wal/wal.go:33-55 | a closed log or a refused record writes nothing; otherwise the record's layout is appended; an I/O error is reported exactly if a system call failed, and any prefix of the layout is then written |
| `Wals.WAL.Replay` | internal/engine/wal/wal.go:57-94 | a closed log refuses; otherwise every whole record is applied in order, a torn tail ignored and foreign bytes reported |
| `Wals.ApplyRecord` | db.go:111-116 | the replay callback applies a Put with its value and a Delete without one |
| `Wals.WAL.Reset` | internal/engine/wal/wal.go:96-111 | empties the log, or reports an I/O error exactly if a system call failed, and the log may then be empty or not |
| `SSTables.OpenSSTable` | internal/engine/sstable/sstable.go:81-122 | refuses an empty path and a missing file; accepts exactly the files that parse cleanly, with the tail's error otherwise, and indexes the file's bytes |
| `SSTables.IndexAgrees` | internal/engine/sstable/sstable.go:96-112 | the index knows exactly the scanned keys, and each offset is a record boundary where the key's last record in parse order begins |
| `SSTables.SSTable.Get` | internal/engine/sstable/sstable.go:124-144 | decoding at the indexed offset gives the last record of the key in parse order, or nothing if there is none |
| `SSTables.SSTable.ForEachRecord` | internal/engine/sstable/sstable.go:146-167 | visits each key once, ascending, with its last record; a closed table with keys refuses |
| `SSTables.SSTable.NewIterator` | internal/engine/sstable/sstable.go:173-188 | an iterator starts on the file's first record in parse order, or at its end or error; on a clean file it has all the file's records before it; an I/O error only if a system call failed |
| `SSTables.Iterator.Next` | internal/engine/sstable/sstable.go:201-219 | steps to the next record in parse order; at the end becomes invalid, at a torn or foreign record reports how the parse fails; sticky once closed or failed |
| `SSTables.SSTableWriter.Append` | internal/engine/sstable/sstable.go:49-68 | appends the record's layout, or reports the codec's error, or an I/O error exactly if a system call failed, with any prefix of it written |
| `SSTables.VisitsAreStream` | internal/engine/sstable/sstable.go:146-219 | on a file written by a flush or a compaction, ForEachRecord and the iterator yield the same sequence |
| `RecordHeaps.RootIsFirst` | internal/engine/compact/compact.go:24-30 | the root of the heap comes before or with every item |
| `RecordHeaps.RecordHeap.Push` | internal/engine/compact/compact.go:36-38 | append and sift up: heap order kept, contents plus the new item |
| `RecordHeaps.RecordHeap.Pop` | internal/engine/compact/compact.go:40-46 | swap, sift down and cut: returns the item that comes first, heap order kept, contents minus it |
| `MergeSpec.ClearedOverlay` | internal/engine/compact/compact.go:107-123 | stepping every table past the least key removes exactly that key from what is still to be merged |
| `MergeSpec.NewestHead` | internal/engine/compact/compact.go:108-110 | the first record of the newest table that has the key first is the key's newest record |
| `MergeSpec.MergeRound` | internal/engine/compact/compact.go:107-132 | one round keeps "output so far plus live records still pending is the whole merge" |
| `MergeSpec.MergeDone` | internal/engine/compact/compact.go:107-152 | when nothing is pending the output is the ascending listing of all live records |
| `Compactions.Advance` | internal/engine/compact/compact.go:48-61 | steps one table's iterator and keeps the heap holding exactly the first pending record of every table |
| `Compactions.Round` | internal/engine/compact/compact.go:107-123 | pops the least key's newest record and steps every table that had the key first past it |
| `Compactions.WriteMerge` | internal/engine/compact/compact.go:106-132 | the loop terminates and writes, ascending, one Put per key whose newest record is a Put; it wrote something exactly when some key is live |
| `Compactions.Run` | internal/engine/compact/compact.go:63-152 | for any tables with ascending keys returns no table exactly when no key is live; otherwise the new file is the ascending listing of the newest live records; a closed table or a failed system call is reported, exactly if there was one, and leaves every other file alone |
| `EngineRuns.GetReadsFlat` | db.go:225-259 | a read returns the flat map's bytes, deleted and missing alike empty |
| `EngineSpec.FlushKeeps` | db.go:137-183 | a flush keeps the view and the numbering of tables and leaves the WAL holding exactly the MemTable |
| `EngineRuns.WriteRecordKeeps` | db.go:205-222 | a write adds exactly its record to the view, flush or not, and ends with the MemTable below its limit |
| `EngineRuns.CompactedKeeps` | db.go:311-375 | a compaction keeps the flat map, keeps the invariants and leaves at most one table |
| `EngineRuns.ReopenKeeps` | db.go:81-135 | reopening up to 10000 tables rebuilds the same engine from the bytes on disk, a torn log tail included |
| `EngineRuns.SnapshotRestores` | db.go:377-483 | restoring a snapshot of a flushed engine shows the same map with the same tables, whatever the target held |
| `EngineRuns.EmptyIsGood` | db.go:81-135 | opening an empty directory gives an empty engine in a good state |
| `EngineRuns.StepRefines` | db.go:185-400 | every operation does to the flat map what its name says and keeps the invariants; a flush that writes something makes the WAL hold the MemTable again; reopening asks for something to flush or a WAL that rebuilds the MemTable |
| `EngineRuns.RunRefines` | db.go:185-546 | whole-run refinement: after any run, every read returns what one flat last-writer-wins map returns |
| `EngineCrash.Recover` | db.go:81-135 | from any state whose WAL records rebuild the MemTable, Open refuses exactly if the table after the live ones is torn, and otherwise loses nothing |
| `EngineCrash.CrashSafe` | db.go:137-222 | stopped at any byte of an operation (of a compaction: before its swap), the next Open refuses exactly if the table being flushed ends inside a record, and otherwise shows the state just before or just after |
| `EngineCrash.LogPrefixRecovers` | internal/engine/wal/wal.go:33-55 | stopped at any byte of a log append, the next Open succeeds: before the last byte the write has not happened, with it it has |
| `EngineCrash.PartTableRefusesIff` | internal/engine/sstable/sstable.go:99-108 | stopped inside a flush, every later Open refuses if and only if the table file ends inside a record |
| `EngineCrash.FirstByteRefuses` | internal/engine/sstable/sstable.go:99-108 | every flush can be stopped so: after its first byte |
| `EngineCrash.FailedShows` | db.go:185-400 | to the flat map an operation that reported an I/O error happened or did not |
| `EngineCrash.FailedThenReopened` | db.go:81-222 | stopping after an operation that failed is no worse than stopping inside it: the next Open refuses exactly on a torn table and otherwise shows the state before or after it |
| `EngineCrash.EventRefines` | db.go:81-400 | every completed, failed or interrupted operation keeps the engine sound and takes effect on the flat map entirely or not at all |
| `EngineCrash.CrashRunRefines` | db.go:81-400 | over any history of operations, failures and crashes the engine shows a flat history in which each failed or interrupted operation happened entirely or not at all |
| `TornTails.AppendReadsIff` | internal/engine/wal/wal.go:33-94 | an appended record is read back behind the others if and only if the log had no torn tail |
| `TornTails.WritesSurviveIff` | internal/engine/wal/wal.go:33-94 | every write that is logged and not yet flushed is there after the next Open if and only if the log has no torn tail |
| `TornTails.BehindWholeHeader` | internal/engine/wal/wal.go:72-91 | behind a torn record with a whole header a shorter record is not read at all; a longer one completes the torn record and reading goes on inside it |
| `TornTails.BadStays` | internal/engine/wal/wal.go:84-86 | once replay meets foreign bytes, no append changes what it answers |
| `TornTails.SilentlyLost` | internal/engine/wal/wal.go:82-83 | a write shorter than what the torn record misses is gone after the next Open, without an error |
| `TornTails.RefusedFromThenOn` | internal/engine/wal/wal.go:84-86 | behind a record torn one byte short, a write with a key below 2^24 bytes makes this and every later Open refuse with ErrInvalidType until a flush empties the log |
| `TornTails.ReadsForged` | internal/engine/wal/wal.go:78-91 | a write exactly as long as what is missing is read as the torn record's value, which nobody wrote |
| `TornTails.EachHappens` | internal/engine/wal/wal.go:72-91 | three stores that open, on which one and the same later write is lost, makes Open refuse, or appears as another key's value |
| `EngineLimits.FailedWriteComesBack` | internal/engine/wal/wal.go:46-54 | an append that wrote n bytes and then reported an error does not show, and comes back with the next Open exactly if it had written everything |
| `EngineLimits.InterruptedSwap` | db.go:345-366 | stopped after any number i of old tables has been removed, a compaction reopens to the others; the flat map is kept if and only if no key's newest record is a Put in the first i tables; the next flush takes a live table's name if and only if 0 < i and 2i is at most the number of tables |
| `EngineLimits.FlushOverLive` | db.go:143-145 | a flush under a live table's name replaces that table's records |
| `EngineLimits.SwapCanLose` | db.go:351-356 | a run of puts and flushes after which a compaction stopped in its swap has lost a value |
| `EngineLimits.NextFlushCanLose` | db.go:143-145 | a run after which a compaction stopped in its swap has lost nothing, until the next flush overwrites the table that is left |
| `EngineLimits.ReopenOrder` | db.go:51-67 | reopening keeps the order of tables if and only if there are at most 10000 |
| `EngineLimits.ReopenPastTheBoundReadsOld` | db.go:245-256 | with more than 10000 tables, a key that tables 9999 and 10000 alone hold reads its older value after reopening |
| `EngineLimits.EveryBoundIsPassed` | db.go:51-67 | for every number of tables past 10000 a run of puts and flushes ends there and then loses a newest value by reopening |
| `DBs.WriteTable` | db.go:143-166 | writes the MemTable to the next table in key order; unless a system call fails it is the whole flush file, otherwise part of it, nothing else changes |
| `DBs.DB.TriggerFlush` | db.go:137-183 | does what the model's flush does; exactly if a system call failed, reports an I/O error with the view and the MemTable unchanged and the files as an interrupted flush leaves them; every disk state on the way is one a flush can be interrupted in |
| `DBs.DB.WriteOp` | db.go:198-222 | log, apply, flush at the limit: the model's step; an I/O error, exactly if a system call failed, shows the state before it or, if the record was logged, after it |
| `DBs.DB.Put` | db.go:185-223 | refuses an empty key, then a closed database; otherwise the model's Put step, an I/O error exactly if a system call failed, and only its crash images on the way |
| `DBs.DB.Delete` | db.go:261-299 | refuses an empty key, then a closed database; otherwise the model's Delete step, an I/O error exactly if a system call failed, and only its crash images on the way |
| `DBs.DB.Get` | db.go:225-259 | MemTable first, then tables downward, gives the record of the layered view |
| `DBs.DB.Flush` | db.go:301-309 | a closed database refuses; otherwise the model's flush step, or, exactly if a system call failed, an I/O error with the view unchanged |
| `DBs.DB.Compact` | db.go:311-375 | the model's compaction step, or, exactly if a system call failed before the swap, an I/O error with the view unchanged and the disk only ever in states Open recovers from; every state of the disk on the way, the swap included, is one `EngineCrash.CompactImage` names |
| `DBs.DB.CreateSnapshot` | db.go:377-400 | flushes and returns exactly the live tables' files, or, exactly if a system call failed, an I/O error with the view unchanged |
| `DBs.DB.RestoreSnapshot` | db.go:434-483 | replaces everything by the snapshot's tables with an empty WAL and MemTable, or fails exactly on a foreign file name or an unreadable table |
| `DBs.DB.Close` | db.go:522-546 | flushes and closes: unless a system call failed, the files are those of the flushed engine; otherwise those of an engine with the same view, as an interrupted flush leaves them |
| `DBs.LoadSstables` | db.go:39-70 | opens the `.sst` files in directory order and fails with the first unreadable one's error |
| `DBs.OpenDB` | db.go:81-135 | succeeds exactly when every table is whole and the WAL has no foreign bytes, and is then in the model's opened state |
| `DBs.ReopenDB` | db.go:81-546 | Close and then Open are the reopening step of a run unless a system call failed; otherwise what Open makes of an interrupted flush |
| `RaftLog.EntryOp` | internal/raft/fsm.go:25-39 | what decodes as a command is a Put or Delete the database accepts |
| `RaftLog.EntryOpRoundTrip` | internal/raft/command.go:20-39 | the state machine applies exactly the command a store encoded |
| `RaftLog.ReplayConverges` | internal/raft/fsm.go:25-39 | re-applying log prefix n on a database that had persisted prefix m, m at most n, gives the state of prefix n |
| `RaftLog.ReflectsApply` | internal/raft/fsm.go:25-39 | applying the next entry moves a database from reflecting one log prefix to reflecting the next |
| `RaftLog.ReflectsMiss` | internal/raft/fsm.go:25-39 | after an apply that failed it still reflects the log on every key whose last entry did not fail |
| `RaftLog.ReflectsCaughtUp` | internal/raft/fsm.go:25-39 | once everything persisted has been applied again, the state is the log's, except on keys whose last entry failed locally |
| `RaftSnapshots.ApplyEntryRefines` | internal/raft/fsm.go:25-39 | an entry does to the database's flat map what the log's meaning says |
| `RaftSnapshots.SnapshotPlusTail` | internal/raft/fsm.go:25-52 | a snapshot taken where prefix i has been applied, restored into any database whatever it held, and the entries from i on give the state of the whole log, read for read |
| `FSMs.FSM.Apply` | internal/raft/fsm.go:25-39 | an undecodable entry answers its error and changes nothing; any other does what the database's Put or Delete does, a closed database and failed system calls included |
| `FSMs.FSM.Snapshot` | internal/raft/fsm.go:41-47 | gives the files of the flushed database, or the database's error, an I/O error exactly if a system call failed |
| `FSMs.FSM.Restore` | internal/raft/fsm.go:49-52 | the database becomes what the snapshot's files alone stand for; a closed one refuses |
| `Replicas.StepInstall` | internal/raft/fsm.go:49-52 | installing a snapshot keeps the system's invariant: the replica then reflects the snapshot's log prefix, its earlier contents erased |
| `Replicas.StepRestart` | db.go:81-135 | a replica stopped at any byte of an operation and reopened may start applying the log again |
| `Replicas.StepAnswer` | internal/raft/raft_store.go:103-122 | a local read behind a barrier answers from a log prefix that covers every write acknowledged before it started |
| `Replicas.StepApplyFailed` | internal/raft/node.go:194-206 | an apply that fails locally still counts as applied; the replica goes on reflecting the log, except on that entry's key if the entry took no effect |
| `Replicas.NextKeeps` | internal/raft/raft_store.go:76-168 | every step of clients, log, replicas, failures and crashes keeps the system's invariant |
| `Replicas.ReadsSeeAcknowledgedWrites` | internal/raft/raft_store.go:76-148 | in every run a returned read reflects every write on its key acknowledged before it began, or a newer one, unless the newest failed at the answering node without taking effect; in runs without failed applies always |
| `Replicas.ReadsMoveForward` | internal/raft/raft_store.go:103-122 | a read that starts after another has returned, at whatever node, answers from at least as long a log prefix |
| `Replicas.ReplicasConverge` | internal/raft/raft_store.go:150-168 | caught-up replicas at one log position answer alike every key whose last entry took effect at both, whatever they flushed, compacted, restored or lost; in runs without failed applies they hold the log's state |
| `ReplicaLimits.FailedApplyDiverges` | internal/raft/node.go:194-206 | a run in which one local apply fails: two replicas have applied the same log, and the later leader's read misses an acknowledged write |
| `RaftStores.RaftStore.CheckLeader` | internal/raft/raft_store.go:170-179 | asks the node; if it does not lead, answers the leader it names |
| `RaftStores.WriteAnswered` | internal/raft/raft_store.go:76-148 | NotLeader, with the leader the node names, is answered exactly by a node that, asked in time, does not lead; success exactly by one that leads and through which the command commits and applies |
| `RaftStores.RaftStore.Submit` | internal/raft/raft_store.go:76-101 | a write is answered by the first obstacle it meets (empty key, ended context, not leading, refused command, ended context, raft or the state machine), or well; at most one command is submitted, only after the node said it leads |
| `RaftStores.RaftStore.Get` | internal/raft/raft_store.go:103-122 | answers the leader check's, the context's, the barrier's or the closed database's failure, in this order and only if there is one; a success has passed a leader check and then a barrier and is the local database's answer |
| `RaftStores.RaftStore.Flush` | internal/raft/raft_store.go:150-158 | leader only, local, nothing submitted, the view unchanged; fails only with the context, the leadership, a closed database or a failed system call |
| `RaftStores.RaftStore.Compact` | internal/raft/raft_store.go:160-168 | leader only, local, nothing submitted, the flat map unchanged; fails only with the context, the leadership, a closed database or a failed system call |
| `RaftStores.NotLeaderTravels` | internal/client/errors.go:44-64 | through the server's and the client's error mapping, with the code Unavailable, exactly a NotLeader answer is taken for one |
| `LeaderHints.IndexFrom` | internal/client/errors.go:73-73 | the first occurrence at or after a position, or -1 if there is none |
| `LeaderHints.HintRoundTrip` | internal/client/errors.go:66-88 | for every id and address that `%q` prints unchanged, in any script: the text, and that the id always reads back from it; both do if and only if the id does not contain `addr=` or the address is what the reader finds in the id |
| `LeaderHints.ReadsAddress` | internal/client/errors.go:72-88 | with no `addr=` in the id, the address reads back, empty ones included |
| `HashRings.NewHashRing` | internal/shard/hash_ring.go:32-59 | refuses non-positive counts; otherwise the ring is sorted and holds, for each shard and virtual node, a point of the shard at the hash of the text `shard-<shard>#<virtual node>`, and no others |
| `HashRings.NodeKeyText` | internal/shard/hash_ring.go:41-47 | what is hashed for a virtual node is "shard-", the shard in decimal, "#", the virtual node in decimal, and no other text |
| `HashRings.NodeKeysDiffer` | internal/shard/hash_ring.go:41-47 | different virtual nodes hash different texts |
| `HashRings.PointsAre` | internal/shard/hash_ring.go:41-47 | the two loops make one point for every virtual node of every shard, at the hash of its text, and no others |
| `HashRings.SortedRingUnique` | internal/shard/hash_ring.go:51-56 | the sorted ring is the same whatever sorting algorithm is used |
| `HashRings.HashRing.PickShard` | internal/shard/hash_ring.go:61-78 | binary search finds the owner: the least point clockwise from the key's hash, wrapping round |
| `HashRings.OwnerSameMultiset` | internal/shard/hash_ring.go:51-77 | the owner depends on which points there are, not on their order |
| `HashRings.OwnerIsNearest` | internal/shard/hash_ring.go:51-77 | the owner is the point the shortest way clockwise from the key's hash, of points with one hash that of the lowest shard |
| `HashRings.MinimalMovement` | internal/shard/hash_ring.go:40-77 | going from n to n + 1 shards a key keeps its point or moves to shard n, hash collisions included |
| `Routers.NewRouter` | internal/shard/router.go:29-57 | accepts exactly the shard maps that assign shards 0 to n-1, and nothing else, to named groups |
| `Routers.Router.RouteShard` | internal/shard/router.go:72-89 | gives an assigned shard's group, an error outside the range |
| `Routers.Router.RouteKey` | internal/shard/router.go:59-70 | every non-empty key has a route: the shard of its owner point and that shard's group |
| `ShardStores.NewShardStore` | internal/shard/store.go:32-55 | accepts exactly a router with a non-empty map of named, present stores, and copies it; an unnamed group and a missing store are reported as such |
| `ShardStores.ShardStore.RouteTo` | internal/shard/store.go:105-120 | the store of the key's group, or the routing error, or ErrGroupNotFound |
| `ShardStores.ShardStore.Put` | internal/shard/store.go:57-63 | passes on the answer of the key's group, its failure or success; the groups together then show the updated flat map, or on a failure possibly the old one, and only the key's group is called |
| `ShardStores.ShardStore.Delete` | internal/shard/store.go:73-79 | the same for the flat map without the key |
| `ShardStores.ShardStore.Get` | internal/shard/store.go:65-71 | passes the group's failure on, and otherwise returns the flat map's bytes; no data changes and only the key's group is called |
| `ClusterConfigs.Validate` | internal/cluster/config.go:62-145 | accepts exactly the valid configurations, and whatever error it reports is so |
| `ClusterConfigs.ValidateNodes` | internal/cluster/config.go:67-79 | accepts exactly named, addressed and distinct nodes and collects their ids |
| `ClusterConfigs.ValidateReplicas` | internal/cluster/config.go:107-127 | accepts exactly declared, distinct replica nodes with distinct raft addresses |
| `ClusterConfigs.ValidateGroups` | internal/cluster/config.go:94-128 | accepts exactly named, distinct groups with valid, non-empty replica lists |
| `ClusterConfigs.ValidateRoutes` | internal/cluster/config.go:130-139 | accepts exactly distinct shard ids assigned to declared groups |
| `ClusterConfigs.ShardGroups` | internal/cluster/config.go:147-160 | the shard map has every listed id, with the group of its last entry |
| `ClusterConfigs.NewRouter` | internal/cluster/config.go:175-181 | on any configuration: succeeds exactly when counts are positive, the shards are 0 to n-1 and the last entry of each names a group, and routes each shard as its last entry says |
| `ClusterConfigs.FindGroup` | internal/cluster/config.go:183-190 | finds a group with the id if there is one; in a valid configuration the only one |
| `ClusterConfigs.TotalRouting` | internal/cluster/config.go:62-190 | over a valid configuration every non-empty key goes to a declared group whose non-empty replicas are declared nodes |
| `RoutedClients.FullWalkCovers` | internal/client/routed_client.go:179-222 | attempts 1 to n visit each of the n replicas exactly once |
| `RoutedClients.StableReplicaFound` | internal/client/routed_client.go:181-204 | if one replica accepts and every other attempt is retryable, the call ends accepted at that replica |
| `RoutedClients.RoutedClient.PickNode` | internal/client/routed_client.go:212-222 | attempt 0 goes to the cached leader if there is one, every other to its place in the list |
| `RoutedClients.RoutedClient.ClientForNode` | internal/client/routed_client.go:224-250 | a cached connection is used as is; otherwise it fails exactly for an undeclared node or a failed dial; a success leaves a connection cached |
| `RoutedClients.RoutedClient.SetLeader` | internal/client/routed_client.go:252-256 | caches the node for the group, other groups unchanged |
| `RoutedClients.RoutedClient.ClearLeader` | internal/client/routed_client.go:258-264 | forgets the group's leader only if it is that node |
| `RoutedClients.RoutedClient.UpdateLeaderFromHint` | internal/client/routed_client.go:266-285 | caches the declared node the hint names, by id or by raft address, and reports whether there is one |
| `RoutedClients.RoutedClient.Call` | internal/client/errors.go:44-64 | one remote call answers exactly what the network and the store make of it: a transport failure if the request or its answer is lost, otherwise the store's answer, NotLeader with the hint its text holds; it submits at most one command, none if it answers NotLeader, exactly one if it succeeds |
| `RoutedClients.CallAnswered` | internal/client/errors.go:44-64 | if no message is lost, a call is sent elsewhere exactly by a node that does not lead, with the id and, as far as the text allows, the address of the leader it names, and served exactly by one that leads and commits |
| `RoutedClients.RoutedClient.Learn` | internal/client/routed_client.go:183-203 | the cache then names the node that accepted, or the declared node a NotLeader answer hinted at, or at least not the node that failed; other groups' entries stay |
| `RoutedClients.RoutedClient.TryNode` | internal/client/routed_client.go:182-203 | one attempt, with concurrent calls changing the caches in between, goes to its place in the list, ends as the dial, the network and that node's store say, leaves the cache as learned, and submits nothing unless its answer ends the call |
| `RoutedClients.RoutedClient.WithGroupClient` | internal/client/routed_client.go:170-210 | the attempts form a finished walk, each accounted for by the environment and in the order requests were sent; the last one decides the answer and the leader cache; all attempts together submit at most one command; with nothing lost and a reachable leader among the replicas the call is accepted |
| `RoutedClients.LeaderServes` | internal/client/routed_client.go:170-210 | as long as nothing is lost, a call of a group with a reachable, lasting leader ends accepted, however many other replicas cannot be dialed or do not lead, and by that leader if no other node leads |
| `RoutedClients.RoutedClient.Submit` | internal/client/routed_client.go:101-168 | at-most-once: one Put or Delete, routed to its key's group, submits its command at one node at most, and if it succeeds exactly once, at the node that accepted; with nothing lost and a reachable leader among the group's replicas it succeeds |
| `RoutedClients.NewRoutedClient` | internal/client/routed_client.go:29-73 | an ended context, a missing dialer and an invalid configuration are refused in this order; otherwise the client knows exactly the configuration's nodes, replica lists and raft addresses |
| `RoutedClients.EveryKeyServed` | internal/client/routed_client.go:45-62 | for every non-empty key the group's replicas are nodes the client can dial, and hints by id or by raft address name them |

## Disagreements and limits found

- `db.go:56-60` reads tables back in directory order, which is id order only up to 10000 tables: `TableNames.DirectoryOrder`,
  `EngineLimits.ReopenOrder` and `EngineLimits.ReopenPastTheBoundReadsOld` give the exact bound and its consequence. The refinement
  therefore asks for at most 10000 tables at each reopening.
- `internal/engine/sstable/sstable.go:99-108` refuses a table file that ends inside a record, and nothing removes such a file: a process
  stopped there in a flush leaves a store that no later Open accepts, although the WAL still holds everything
  (`EngineCrash.PartTableRefusesIff`, `EngineCrash.FirstByteRefuses`).
- `internal/engine/wal/wal.go:82-83` stops at a torn tail without cutting it off, and later appends go behind it. Writes then survive
  the next Open exactly when there is no torn tail (`TornTails.WritesSurviveIff`); behind one they are lost silently, make every Open
  refuse, or turn up as a value nobody wrote (`TornTails.EachHappens`). A crash inside a Put or Delete is therefore covered only if the
  WAL had no torn tail; elsewhere, and for reopening, a torn tail does no harm, and any flush that writes something removes it
  (`EngineRuns.StepRefines`).
- `db.go:351-366` removes the old tables one by one before renaming the new one. A crash in between loses exactly the keys whose newest
  record is a Put in a removed table, and reopening may leave the next flush a live table's name (`EngineLimits.InterruptedSwap`,
  `EngineLimits.SwapCanLose`, `EngineLimits.NextFlushCanLose`).
- `internal/raft/node.go:194-206`: an entry whose local apply failed counts as applied at that node. If it took no effect, its key is not
  protected there until the log is applied anew (`Replicas.ReadsSeeAcknowledgedWrites`, `Replicas.ReplicasConverge`,
  `ReplicaLimits.FailedApplyDiverges`).

## Left out

- EngineCrash.CrashRunRefines: a crash inside a Put or Delete is in a history only if the WAL held exactly the MemTable, any other crash only if the WAL rebuilt it, and reopening only if it did or there was something to flush. What is missing is a crash after a failed append or WAL reset and before the next flush that writes something; directly after the failure `EngineCrash.FailedThenReopened` covers it. A failure is followed only if the process still has room for the MemTable.
- Replicas.StepRestart: the same holds for a replica that restarts.
- EngineCrash.CrashSafe: a compaction's swap of files and RestoreSnapshot are outside the crash claim, because the code does not protect them.
- DBs.DB.Compact: closing, removing and renaming files in the swap, and reopening the result, are modelled as not failing; the code leaves a half-closed database behind there.
- DBs.DB.RestoreSnapshot: its file operations do not fail in the model, and after a failed load nothing is claimed of the object but what it answers.
- DBs.DB.Close: closing tables and the WAL does not fail in the model.
- DBs.DB.Put: requires the MemTable with the new record to stay below 2^64 bytes, which any process that holds it in memory satisfies; a MemTableSize up to 2^64 - 2^34 keeps it so over whole runs. The same holds for DBs.DB.Delete, DBs.DB.WriteOp and FSMs.FSM.Apply.
- DBs.LoadSstables: creating and listing the directory do not fail in the model.
- DBs.OpenDB: creating directories, opening the WAL file and reading the directory do not fail in the model, and a missing WAL file is an empty one; the object is known to be in a valid state when the opened engine satisfies the invariant, which the crash theorems establish.
- DBs.DB.Get: reads of an open, whole table do not fail in the model; the same holds for SSTables.SSTable.Get.
- SSTables.SSTable.NewIterator: an iterator works on the file's bytes at the time it was opened; the merge changes no input file while iterators are open.
- Wals.WAL.Replay: the callback is the one Open passes; nil callbacks, nil writers and nil readers are not modelled.
- MemTables.MemTable.ForEachRecord: returns the sequence of visited records instead of calling back; the same holds for SSTables.SSTable.ForEachRecord.
- Compactions.Advance: reads of the merge's inputs do not fail in the model, and the inputs are whole tables, as every open table is; its error return, and that of Compactions.Round, is therefore never used.
- RecordHeaps.RecordHeap.Push: `container/heap` itself is modelled with its up and down loops, on a sequence that is updated element by element.
- Disks.Disk.AppendWal: a write that has returned is durable and its prefix property is the only disorder of the disk; reordering by the disk between files is not modelled.
- Mutexes: each DB, WAL and MemTable method is one atomic step; interleaving is modelled for replicas (`Replicas`) and for the routed client's caches (`RoutedClients`).
- HashiCorp Raft: one totally ordered log and the contract of Apply and Barrier (`internal/raft/node.go:194-210`) are assumed; elections, replication and storage are not part of this model.
- Replicas.NextKeeps: a replica that restarts applies the log from its beginning or from an installed snapshot; which snapshot the library picks is arbitrary as long as it is not behind what the replica has applied.
- RaftStores.RaftStore.Get: contexts and timeouts end when the environment says so, there and in Submit, Flush and Compact; that the barrier makes the local database current is the contract assumed in Replicas.
- RoutedClients.RoutedClient.Submit: a Get goes the same way with a read in place of the command; only Put and Delete are modelled there.
- RoutedClients.RoutedClient.Call: a failure of the transport itself is taken not to begin with the store's NotLeader words; what other calls submit is not counted.
- LeaderHints.HintRoundTrip: `%q` is any function; strings it escapes are outside the round trip, and text is a sequence of characters where Go's is their UTF-8 bytes.
- HashRings.NewHashRing: the hash is an arbitrary function from bytes to numbers; FNV-1a and the quality of its distribution are not modelled.
- ShardStores.ShardStore.Put: a group's store is a map that may fail there; that the raft-backed store behaves like one is what Replicas shows.
- The tar format: a snapshot is the map from table names to bytes.
- GroupIDs, LocalGroups, RaftPeersForGroup, LocalRaftAddr, SingleGroup, FindNode, JSON loading, RoutedClient's Flush, Compact and Close loops, ShardStore's Flush and Compact loops: plumbing with only easy claims.
- gRPC servers and clients, statistics, logging, platform path checks, commands and examples: user interface and library wrappers.
