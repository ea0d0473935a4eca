# Verified models of LevelDB, memcached and pcrecpp mechanisms

This project models the parts of three C and C++ code bases that carry hard guarantees, and
proves those guarantees for every input, every interleaving and every run:

- LevelDB 1.22: compaction, crash safety and recovery, group commit, the snapshot list, the
  skip list (one caller at a time, and readers interleaved with an insert), the memtable and
  its key encoding, the two-way `DBIter` cursor, the block-fragmented log under truncation
  and under damage, and the scheduling of background work.
- memcached 1.4.22: the hash table that migrates while in use under striped locks, the slab
  allocator with page reassignment, the LRU queues with their crawler, `flush_all`, the
  scatter/gather output queue and the Jenkins hash.
- pcrecpp: `GlobalReplace` and `Rewrite` over an abstract matcher.

`dafny verify dfyconfig.toml` checks everything. There are no axioms and no unproved
assumptions.

## How it is organised

`Store.dfy` holds what every LevelDB component refines: a set of (user key, sequence number,
type, value) entries, and `View`, what a reader at a snapshot sees of them. User keys are
compared by an arbitrary total preorder, so keys with different bytes may be the same key.
The other LevelDB modules are stated against `View`:
`Compaction` (the merge loop and its drop rules), `Snapshots`, `Engine`, `EngineSafety` and
`EngineReads` (the life of a database across flushes, compactions, file deletion, crashes and
recovery, and what reads return in terms of the operations asked for),
`WriteBatch`, `GroupCommit` and `GroupFailures`, `SkipList`, `SkipListOps` and `SkipListConcurrent`, `Codec` and `MemTable`,
`DbIter`, and `Background`. The log is `LogFormat` (what a list of records looks like on
disk), `LogWriter`, `LogReader`, `LogRoundTrip` and `LogDamage`.

The memcached modules are `Assoc` and `AssocConcurrent`, `Slabs`, `SlabItems` and `SlabsRun`
(the allocator, what its items are linked into, and the two at work together) with
`SlabRefs` and `StalePointers`, `Lru`,
`FlushAll`, `OutputQueue` and `JenkinsHash`. `DoublyLinked` has the pointer operations on doubly
linked lists that free lists and LRU queues share, `Lists` a few facts about sequences.
`GlobalReplace` and `ReplaceLaws` stand alone.

Code that changes things step by step is written as classes and methods with loops, proved
against specification functions. Nodes of linked structures are named by numbers or small
records, and their pointers are kept in maps and sequences held by the object. Code that
several threads run is a state machine whose steps are the sections that hold a lock, or,
where the property depends on it, the individual loads and stores. A theorem about a state
machine takes any run (a sequence of states in which each follows from the one before) and
any position in it.

Randomness, clocks, the environment's answers and results of code outside the models are
parameters or free choices of a step: node heights, which item lock can be taken, whether an
allocation or an I/O call succeeds, how much a socket takes, which tables a compaction picks.

## Where a promise does not hold as stated

- Compaction with a smallest snapshot at the largest sequence number drops everything: the
  loop uses that number as its "no previous entry" mark. `DoCompactionWork` states both
  sides.
- `flush_all` does not hide everything stored before it. An item of the current second
  behind a crawler stays reachable, and an older item that somebody still holds comes back
  when it is updated. `FlushExact`, `FlushHides` and `FlushFails` give the exact condition.
- The request of a manual compaction can disappear while the background thread works on it,
  after a background error or during a shutdown, although `BackgroundCompaction` uses the
  pointer at its end. `ManualStays`, `ManualCanVanish` and `ManualVanishes` say when.
- After a failed append `Write` still advances the last sequence number, so the numbers in the
  log have gaps. `GapIsFailedGroups` says exactly where and how large they are, and `GapOccurs`
  is a run that has one. They never overlap (`SequenceNumbers`).
- A failed write can leave entries in the memtable, and readers then see part of its group,
  since the last sequence number advances all the same. `FailedWriteLeaves`, `SeenInPart` and
  `ReadersSeeTheFront` have the exact conditions on the bytes of the batches; `HalfApplied` is a
  run for every malformed batch and `MalformedBatch` such a batch. Batches made by `Put` and
  `Delete` with keys and values below 4 GB are never malformed (`PutAndDeleteAreSafe`).
- A failed write comes back at the next recovery if it was logged (`ComesBackIfLogged`,
  `FailedComesBack`).
- A batch whose header counts fewer records than it has makes entries of different groups share
  sequence numbers (`SharedNumbers`).
- `transmit` does not say it is complete when all bytes are sent, if a message that holds only
  empty buffers is left: `sendmsg` takes nothing of it, which counts as a hard error. `Transmit`
  and `SendAll` have the exact condition, `EmptyBufferSticks` and `EmptyBufferAfterFull` small
  cases. `FullBuffersSend`, `HeaderFirstSends` and `DatagramsSend` name callers that are safe.
- A rewrite string that ends in a lone backslash makes `Rewrite` look at the byte after its end
  (`PastMatters`), and no other rewrite string does (`PastIsIgnored`).
- A physical record with a valid checksum whose type is 5 or 6 is taken for the reader's own
  codes: 5 makes `ReadRecord` return false in the middle of a file, 6 is dropped like a record
  whose damage has been reported already (`CodesInTheFile`). A writer never writes either.
- An item taken off its LRU queue keeps its own pointers (`UnlinkedKeepsPointers`,
  `MoveLeavesUnlisted`). While somebody holds it they can lead into a page that has been emptied,
  as at the end of the run of `StalePointer`; no list that is in use has such a pointer
  (`DoneMeansEmpty`).

## Model

| member | source | states |
|---|---|---|
| Compaction.RuleAIsAdjacent | leveldb-1.22/db/db_impl.cc:937-963 | in sorted input, an entry is hidden by some newer entry that all snapshots see if and only if the entry just before it has the same key and is old enough, which is all the loop remembers |
| Compaction.SurvivorsAreThose | leveldb-1.22/db/db_impl.cc:937-963 | the survivors are exactly the input entries that neither drop rule applies to |
| Compaction.KeptExactly | leveldb-1.22/db/db_impl.cc:937-963 | what is kept, without naming the rules: everything newer than the smallest snapshot, and of the rest the newest entry of each key unless it is a deletion with nothing below |
| Compaction.BaseKeepsOnlyTheView | leveldb-1.22/db/db_impl.cc:949-959 | at the base level nothing old is kept but what the smallest snapshot reads |
| Compaction.SurvivorsSorted | leveldb-1.22/db/db_impl.cc:937-963 | each entry is kept once and in order |
| Compaction.DroppedHidesNothing | leveldb-1.22/db/db_impl.cc:937-963 | whatever a dropped entry was hiding is hidden by an entry that is kept |
| Compaction.CompactionPreservesView | leveldb-1.22/db/db_impl.cc:890-963 | for any data above and below, every snapshot from the smallest one on reads the same before and after the compaction |
| Compaction.AddToOutput | leveldb-1.22/db/db_impl.cc:974-996 | the entry goes to the end of what has been written, whichever table that is, and a table is closed as soon as it is large enough |
| Compaction.DoCompactionWork | leveldb-1.22/db/db_impl.cc:878-1036 | the output tables together hold the survivors in order; none is empty or larger than it has to be, and stops close them; with the smallest snapshot at the largest sequence number nothing is written |
| Snapshots.SnapshotList.constructor | leveldb-1.22/db/snapshot.h:41-44 | an empty list |
| Snapshots.SnapshotList.Empty | leveldb-1.22/db/snapshot.h:46 | true if and only if there is no live snapshot |
| Snapshots.SnapshotList.Oldest | leveldb-1.22/db/snapshot.h:47-50 | a live snapshot, and no live one has a smaller number |
| Snapshots.SnapshotList.Newest | leveldb-1.22/db/snapshot.h:51-54 | a live snapshot, and no live one has a larger number |
| Snapshots.SnapshotList.New | leveldb-1.22/db/snapshot.h:57-71 | the circular list stays well formed and sorted, and has the new snapshot at its end |
| Snapshots.SnapshotList.Delete | leveldb-1.22/db/snapshot.h:79-86 | the circular list stays well formed and sorted, and loses exactly that snapshot |
| Engine.LastOperationWins | leveldb-1.22/db/db_impl.cc:1206-1207 | read on top of older entries, at any snapshot past it, an operation of a group is visible if and only if it is a put and no later operation of the group is on the same key |
| Engine.LastOperationAnswers | leveldb-1.22/db/write_batch.cc:121-128 | the last operation of a group on a key gives the answer for the key: its value, or not found |
| Engine.MaxSequence | leveldb-1.22/db/db_impl.cc:435-439 | the recovered sequence number is the largest among the entries recovered, or what it was if that is larger |
| EngineSafety.InstallView | leveldb-1.22/db/db_impl.cc:860-876 | installing a compaction, with data added meanwhile above it, changes no read from its smallest snapshot on |
| EngineSafety.CrashDisk | leveldb-1.22/db/db_impl.cc:280-368 | what a crash leaves on disk shows what the process could read, and the group that is in the log |
| EngineSafety.KeepsDeleteTable | leveldb-1.22/db/db_impl.cc:223-278 | deleting an obsolete table keeps the invariant: no version in use and no table being built loses a file |
| EngineSafety.KeepsDeleteLog | leveldb-1.22/db/db_impl.cc:238-247 | deleting a log below the manifest's log number keeps the invariant |
| EngineSafety.KeepsSwitch | leveldb-1.22/db/db_impl.cc:1345-1366 | switching to a new log and memtable keeps the invariant |
| EngineSafety.KeepsInstallFlush | leveldb-1.22/db/db_impl.cc:535-566 | replacing the immutable memtable by its table, and the log number by the current log, keeps the invariant |
| EngineSafety.KeepsInstallMerge | leveldb-1.22/db/db_impl.cc:860-876 | installing a compaction's outputs in place of its inputs keeps the invariant |
| EngineSafety.KeepsSpill | leveldb-1.22/db/db_impl.cc:371-489 | writing replayed records to a level-0 table keeps the recovery invariant |
| EngineSafety.KeepsCommit | leveldb-1.22/db/db_impl.cc:1474-1515 | the end of DB::Open leaves a running database with the invariant |
| EngineSafety.StepInv | leveldb-1.22/db/db_impl.cc:1185-1370 | every step of writers, readers, the background thread, a crash or recovery keeps the invariant |
| EngineSafety.RunInv | leveldb-1.22/db/db_impl.cc:1185-1370 | the invariant holds in every state of every run |
| EngineSafety.HistoryGrows | leveldb-1.22/db/db_impl.cc:1185-1256 | no step, not even a crash, forgets an acknowledged write |
| EngineSafety.Durability | leveldb-1.22/db/db_impl.cc:223-566 | in every state of every run, the installed tables and the logs from the manifest's log number on show exactly the acknowledged writes, and the group in progress once it is in the log |
| EngineSafety.Recovery | leveldb-1.22/db/db_impl.cc:280-489 | when recovery ends, the tables alone show the whole history and the last sequence number is at least that of every recovered entry |
| EngineSafety.BuildingSafe | leveldb-1.22/db/db_impl.cc:223-278 | no table still being built is ever deleted, also when a flush runs inside a compaction |
| EngineSafety.ReadersIsolated | leveldb-1.22/db/db_impl.cc:1062-1145 | a read in progress finds its tables in place and sees the history as of its snapshot, every group whole or not at all |
| EngineSafety.SnapshotsSafe | leveldb-1.22/db/db_impl.cc:890-896 | every live snapshot is at or above the smallest snapshot of the running merge and of all installed ones, and reads the history |
| EngineReads.AnswerIsLookup | leveldb-1.22/db/db_impl.cc:1100-1145 | reading numbered entries at a snapshot gives what the last included operation on the key says: its value, or nothing after a deletion or without one |
| EngineReads.RunAsked | leveldb-1.22/db/db_impl.cc:1185-1256 | in every run the history holds exactly the operations that writers handed in, keys, types and values, in ascending numbers |
| EngineReads.WriteAddsItsOps | leveldb-1.22/db/db_impl.cc:1206-1236 | a write adds exactly the operations it was given |
| EngineReads.ReadsAsAsked | leveldb-1.22/db/db_impl.cc:1100-1145 | a read in progress answers every key from the operations its snapshot includes |
| EngineReads.AskedGrows | leveldb-1.22/db/db_impl.cc:1185-1256 | no operation that was asked for is forgotten later in a run |
| EngineReads.FreshReadSeesAll | leveldb-1.22/db/db_impl.cc:1104-1110 | a read that begins now sees every write that has returned |
| EngineReads.SnapshotReadsThen | leveldb-1.22/db/db_impl.cc:1104-1110 | a read at a snapshot answers as it would have when the snapshot was made, whatever ran in between |
| EngineReads.SnapshotIsNow | leveldb-1.22/db/db_impl.cc:1166-1169 | a new snapshot has the last sequence number, and a read at it uses that number |
| EngineReads.RecoversAsAsked | leveldb-1.22/db/db_impl.cc:280-489 | after recovery the tables answer every key from all operations of acknowledged writes and of one that a crash found in the log |
| EngineReads.NumberAfterRecovery | leveldb-1.22/db/db_impl.cc:360-364 | recovery goes on with the manifest's number or that of an entry |
| EngineReads.MergeUsesOldest | leveldb-1.22/db/db_impl.cc:890-896 | a compaction starts with the oldest live snapshot, or the last sequence number without one |
| EngineReads.ObsoleteCanGo | leveldb-1.22/db/db_impl.cc:223-278 | a table that no version in use names and nobody is building can be deleted |
| EngineReads.OldLogCanGo | leveldb-1.22/db/db_impl.cc:238-247 | so can a log below the manifest's log number |
| WriteBatch.Iterate | leveldb-1.22/db/write_batch.cc:42-79 | hands over the operations up to the end or the first record that cannot be read, and succeeds if and only if all can be read and are as many as the header says |
| WriteBatch.ParseConcat | leveldb-1.22/db/write_batch.cc:142-146 | records that can be read are read the same when another batch is appended |
| WriteBatch.AppendWellFormed | leveldb-1.22/db/write_batch.cc:142-146 | appending a well-formed batch to another gives one with the operations of both in order |
| WriteBatch.BuiltReadsBack | leveldb-1.22/db/write_batch.cc:98-109 | what Put and Delete have built reads back if and only if every key and value is shorter than 4 GB |
| WriteBatch.RecordBytes | leveldb-1.22/db/write_batch.cc:98-109 | the bytes of a put and of a delete |
| GroupCommit.JoinedWellFormed | leveldb-1.22/db/db_impl.cc:1260-1306 | well-formed batches make a well-formed group, with their operations in order |
| GroupCommit.BuildBatchGroup | leveldb-1.22/db/db_impl.cc:1260-1306 | the group is the longest prefix of the queue in which no request is barred by sync or size, with the batches appended in order |
| GroupCommit.NoSyncInNonSyncGroup | leveldb-1.22/db/db_impl.cc:1282-1285 | no sync write is committed by a non-sync leader |
| GroupCommit.GroupSizeBounded | leveldb-1.22/db/db_impl.cc:1270-1297 | a group is within the size limit, or no larger than its first batch |
| GroupCommit.GroupBytes | leveldb-1.22/db/db_impl.cc:1270-1278 | the limit in bytes |
| GroupCommit.WholeQueueJoins | leveldb-1.22/db/db_impl.cc:1280-1303 | a queue within the limit that mixes no sync write into a non-sync group is taken whole |
| GroupCommit.StepInv | leveldb-1.22/db/db_impl.cc:1185-1256 | every step of every writer thread keeps the invariant |
| GroupCommit.RunInv | leveldb-1.22/db/db_impl.cc:1185-1256 | the invariant holds in every state of every run |
| GroupCommit.OnlyTheFrontLeads | leveldb-1.22/db/db_impl.cc:1192-1238 | only the front of the queue is ever past the wait |
| GroupCommit.ExactlyOnce | leveldb-1.22/db/db_impl.cc:1185-1256 | a batch whose write succeeded is in exactly one group, which is well formed, in the log, applied completely, in arrival order, and synced if asked for |
| GroupFailures.FailedWriteLeaves | leveldb-1.22/db/db_impl.cc:1214-1236 | a write succeeds if and only if its group was appended, synced if asked for, and well formed; it fails with entries left in the memtable if and only if the first two hold, the group is malformed, and operations can be read before that place |
| GroupFailures.PutAndDeleteAreSafe | leveldb-1.22/db/write_batch.cc:98-109 | with batches made by Put and Delete and slices below 4 GB, a failed write leaves nothing and a successful one has the operations of its whole group applied in order |
| GroupFailures.SyncErrorIsFinal | leveldb-1.22/db/db_impl.cc:1216-1232 | after a failed sync no later group is tried and no later write succeeds |
| GroupFailures.SeenInPart | leveldb-1.22/db/db_impl.cc:1214-1236 | a group is seen in part if and only if it got as far as InsertInto and some of its operations, but fewer than its count, can be read |
| GroupFailures.ReadersSeeTheFront | leveldb-1.22/db/db_impl.cc:1214-1236 | a read at the last sequence number a group leaves sees exactly its operations that were inserted and counted, each if and only if it is a put and the last of them on its key |
| GroupFailures.SharedNumbers | leveldb-1.22/db/write_batch.cc:74-76 | entries of two groups share a sequence number if and only if the earlier one stores past the later one's first number and the later one stores anything; never if headers do not count too few |
| GroupFailures.ComesBackIfLogged | leveldb-1.22/db/db_impl.cc:419-434 | after recovery a group has entries if and only if it was logged and can be read at all |
| GroupFailures.FailedComesBack | leveldb-1.22/db/db_impl.cc:1214-1236 | a failed write was logged if and only if its sync failed, or its group is malformed and got as far as InsertInto |
| GroupFailures.HalfApplied | leveldb-1.22/db/write_batch.cc:42-79 | for every malformed batch a run whose only write fails and leaves in the memtable what could be read |
| GroupFailures.MalformedBatch | leveldb-1.22/db/write_batch.cc:70-71 | a batch of which the first operation is inserted and the rest is not |
| GroupCommit.SequenceNumbers | leveldb-1.22/db/db_impl.cc:1206-1236 | groups, appended or not, follow arrival order, and their sequence numbers run from 1 to the last one without overlap or gap |
| GroupCommit.GapIsFailedGroups | leveldb-1.22/db/db_impl.cc:1206-1236 | between consecutive records of the log there is a gap if and only if a group with entries failed to be appended between them, and its size is the number of their entries |
| GroupFailures.GapOccurs | leveldb-1.22/db/db_impl.cc:1214-1236 | a run whose log has a gap between two records |
| SkipList.Rank | leveldb-1.22/db/skiplist.h:255-258 | how many nodes of a level come before a key: all of those do and the next one does not |
| SkipList.Search | leveldb-1.22/db/skiplist.h:260-321 | the loop of the three searches ends at the neighbours of the target in the bottom list, with the predecessor on every level |
| SkipListOps.BeginInsert | leveldb-1.22/db/skiplist.h:337-361 | after the search and the allocation every predecessor found is the right one for the new node |
| SkipListOps.PublishLink | leveldb-1.22/db/skiplist.h:362-367 | linking the node into a level keeps every level a sorted sublist of the one below |
| SkipListOps.List.constructor | leveldb-1.22/db/skiplist.h:325-334 | an empty list on every level |
| SkipListOps.List.FindGreaterOrEqual | leveldb-1.22/db/skiplist.h:260-281 | the first node of the sorted bottom list that is not before the key |
| SkipListOps.List.FindLessThan | leveldb-1.22/db/skiplist.h:283-302 | the last node of the bottom list before the key |
| SkipListOps.List.FindLast | leveldb-1.22/db/skiplist.h:304-322 | the last node of the bottom list |
| SkipListOps.List.Contains | leveldb-1.22/db/skiplist.h:370-378 | true if and only if some node compares equal to the key |
| SkipListOps.List.Insert | leveldb-1.22/db/skiplist.h:336-368 | for every height the node takes its sorted place on each level below it and nothing else moves |
| SkipListConcurrent.StepInv | leveldb-1.22/db/skiplist.h:336-368 | every single load of a reader and store of the inserting writer keeps the invariant, and no level loses a node |
| SkipListConcurrent.AlwaysSorted | leveldb-1.22/db/skiplist.h:336-368 | in every state, also in the middle of an insert, each level is a sorted sublist of the one below |
| SkipListConcurrent.SearchIsExact | leveldb-1.22/db/skiplist.h:260-281 | a search interleaved load by load with inserts returns the neighbours of its key in the bottom list as it stands at its last load |
| SkipListConcurrent.SearchNeverMisses | leveldb-1.22/db/skiplist.h:260-281 | a key that was in the bottom list before is never missed |
| SkipListConcurrent.InsertTakesEffect | leveldb-1.22/db/skiplist.h:336-368 | an insert that has begun and ended has put its key into the bottom list |
| SkipListConcurrent.InsertEnds | leveldb-1.22/db/skiplist.h:361-367 | its node is then on exactly the levels below its height |
| Codec.VarintRoundTrip | leveldb-1.22/util/coding.cc:47-128 | a varint reads back as the number written, whatever follows it |
| Codec.PrefixedRoundTrip | leveldb-1.22/db/memtable.cc:14-19 | a length-prefixed slice reads back, with what follows it |
| Codec.FixedRoundTrip | leveldb-1.22/util/coding.cc:20-34 | a fixed-width number reads back |
| Codec.NumberBytes | leveldb-1.22/util/coding.cc:20-75 | examples of fixed and variable-length numbers: low bits first |
| Codec.InternalKeyRoundTrip | leveldb-1.22/db/dbformat.h:165-175 | bytes parse to an internal key if and only if they are what appending that key writes |
| Codec.CompareIsNewestFirst | leveldb-1.22/db/dbformat.cc:51-67 | encoded keys are ordered by user key, then newest first, then values before deletions, and are equal only if all three are |
| MemTable.IsTotalPreorder | leveldb-1.22/db/memtable.cc:28-34 | the order of memtable entries is a total preorder, as the skip list needs |
| MemTable.CompareEntry | leveldb-1.22/db/dbformat.cc:121-138 | an entry comes before a lookup key if and only if its user key does, or it is the same key and too new |
| MemTable.Table.constructor | leveldb-1.22/db/memtable.cc:21-22 | an empty table |
| MemTable.Table.Add | leveldb-1.22/db/memtable.cc:75-98 | the encoded entry is added to the list and the table holds it and all earlier ones |
| MemTable.Table.Get | leveldb-1.22/db/memtable.cc:100-134 | the newest entry of the key at or below the snapshot, a deletion as such, and absent if and only if there is none |
| MemTable.LookupAnswers | leveldb-1.22/db/memtable.cc:100-134 | such a lookup gives the answer of the snapshot view |
| MemTable.LayeredLookup | leveldb-1.22/db/db_impl.cc:1122-1136 | asking layers newest first and stopping at the first that knows the key is a lookup in all of them together |
| MemTable.Get | leveldb-1.22/db/db_impl.cc:1100-1145 | memtable, immutable memtable and tables in that order answer as the view over all three |
| DbIter.Source.ListIsView | leveldb-1.22/db/db_iter.cc:168-198 | the entries the cursor can stop at are exactly the view at its sequence number |
| DbIter.DBIter.Key | leveldb-1.22/db/db_iter.cc:64-67 | the key of the current entry in either direction |
| DbIter.DBIter.Value | leveldb-1.22/db/db_iter.cc:68-71 | the value of the current entry in either direction |
| DbIter.DBIter.FindNextUserEntry | leveldb-1.22/db/db_iter.cc:168-198 | stops at the first visible key past the skipped one and passes over no other |
| DbIter.DBIter.FindPrevUserEntry | leveldb-1.22/db/db_iter.cc:227-267 | stops past the newest visible entry of the last visible key, with everything between newer than the snapshot |
| DbIter.DBIter.Next | leveldb-1.22/db/db_iter.cc:141-166 | one place forward in the list of visible keys, invalid exactly at its end, also after a change of direction |
| DbIter.DBIter.Prev | leveldb-1.22/db/db_iter.cc:200-225 | one place back, invalid exactly at the beginning, also after a change of direction |
| DbIter.DBIter.Seek | leveldb-1.22/db/db_iter.cc:269-281 | the first visible key at or after the target |
| DbIter.DBIter.SeekToFirst | leveldb-1.22/db/db_iter.cc:283-292 | the first visible key, invalid if and only if there is none |
| DbIter.DBIter.SeekToLast | leveldb-1.22/db/db_iter.cc:294-299 | the last visible key, invalid if and only if there is none |
| LogFormat.NextBlockHasRoom | leveldb-1.22/db/log_writer.cc:43-78 | a fragment that got no payload is followed by one that can take some, so records always end |
| LogWriter.Writer.constructor | leveldb-1.22/db/log_writer.cc:23-25 | a writer of an empty file |
| LogWriter.Writer.Append | leveldb-1.22/db/log_writer.cc:27-30 | a writer that goes on where an existing file ends |
| LogWriter.Writer.AddRecord | leveldb-1.22/db/log_writer.cc:34-80 | appends exactly the fragments the format has for the record at the current length |
| LogWriter.Writer.EmitPhysicalRecord | leveldb-1.22/db/log_writer.cc:82-108 | appends header and payload of one fragment |
| LogReader.Reader.ReadPhysicalRecord | leveldb-1.22/db/log_reader.cc:189-271 | returns the next physical record or error of the file and moves past it, counting reports |
| LogReader.Reader.ReadRecord | leveldb-1.22/db/log_reader.cc:56-174 | returns the first record that the rest of the file assembles to, or none where reading stops, and accounts for every report; types 5 and 6 act as the reader's own codes |
| LogRoundTrip.CodesInTheFile | leveldb-1.22/db/log_reader.h:65-73 | a valid record of type 5 hides the good record after it, one of type 6 does not and is not reported, any other unknown type is reported |
| LogRoundTrip.MismatchReported | leveldb-1.22/db/log_reader.cc:240-256 | a log whose one record does not match its checksum reads as empty, with one report |
| LogRoundTrip.LoosePieces | leveldb-1.22/db/log_reader.cc:91-160 | what pieces that make no record give and how often they are reported |
| LogRoundTrip.RecordBytes | leveldb-1.22/db/log_writer.cc:82-108 | the bytes of a short record |
| LogRoundTrip.ThreeKinds | leveldb-1.22/db/log_writer.cc:61-75 | types 2, 3 and 4 for a record over three blocks |
| LogRoundTrip.TrailerBytes | leveldb-1.22/db/log_writer.cc:44-55 | when a block is filled with zeros |
| LogRoundTrip.TruncatedRoundTrip | leveldb-1.22/db/log_reader.cc:56-271 | cut the log at any byte, and the reader returns exactly the records that are complete, in order, without a report |
| LogRoundTrip.RoundTrip | leveldb-1.22/db/log_writer.cc:34-108 | an intact log gives back all its records |
| LogRoundTrip.WriteSessions | leveldb-1.22/db/log_writer.cc:23-80 | any number of sessions that reopen the file write the log of all their records |
| LogRoundTrip.ReadLog | leveldb-1.22/db/db_impl.cc:408-418 | reading until the reader stops returns everything the file assembles to, with exactly the reports that this makes |
| LogDamage.NextFragment | leveldb-1.22/db/log_reader.cc:189-271 | at a fragment's place the reader gets the fragment, or its block is damaged and the rest of the block is dropped |
| LogDamage.AssembleRecord | leveldb-1.22/db/log_reader.cc:91-171 | a record's fragments give the record if none is lost and nothing otherwise, and the next record starts clean |
| LogDamage.LostMeansDamaged | leveldb-1.22/db/log_reader.cc:212-259 | only fragments in damaged blocks are lost |
| LogDamage.QuietLoss | leveldb-1.22/db/log_reader.cc:212-259 | if reading makes no report, a lost fragment is in a block where a header of the log was zeroed or claims more than the rest of the file |
| LogDamage.DamageContained | leveldb-1.22/db/log_reader.cc:56-271 | with bytes overwritten in some blocks, and the checksum noticing each fragment that is not intact, the reader returns only written records, whole and in order, and each one missing has a fragment in such a block; if nothing was reported, in one with a header that is passed over in silence |
| LogDamage.UndamagedIsSound | leveldb-1.22/db/log_reader.cc:240-259 | a log that is not damaged meets that premise, whatever its payloads look like |
| Background.StepInv | leveldb-1.22/db/db_impl.cc:535-767 | every step of writers, manual compactions, readers, shutdown and the background call keeps the invariant |
| Background.NoLostWork | leveldb-1.22/db/db_impl.cc:648-686 | with work pending, no error and no shutdown, exactly one background call is queued or running, and has_imm_ agrees with imm_ |
| Background.WaitersAreServed | leveldb-1.22/db/db_impl.cc:1336-1344 | whenever a thread waits, exactly one background call is queued or running |
| Background.SignalNears | leveldb-1.22/db/db_impl.cc:669-686 | every step of the background call signals everybody or brings the signal nearer |
| Background.WakeUpComes | leveldb-1.22/db/db_impl.cc:669-686 | in every run a thread that waits has been signalled by the time the background call has taken three more steps |
| Background.WakeUpTakesThree | leveldb-1.22/db/db_impl.cc:897-917 | a run in which it takes all three: a compaction starts and then stops for a memtable |
| Background.CallGoesOn | leveldb-1.22/db/db_impl.cc:669-686 | while anybody waits the background call can take a step |
| Background.ImmGoesWhenFlushed | leveldb-1.22/db/db_impl.cc:535-566 | the immutable memtable goes only when it was flushed with success |
| Background.ManualGoesWhenDone | leveldb-1.22/db/db_impl.cc:697-766 | a manual request goes only when it is done, found empty, or given up after an error or in a shutdown |
| Background.NothingAfterError | leveldb-1.22/db/db_impl.cc:640-667 | an error stays, comes only from failed work, and no call is scheduled after it or in a shutdown |
| Background.NoWorkAfterError | leveldb-1.22/db/db_impl.cc:669-686 | a call that comes to run then does no work |
| Background.ManualStays | leveldb-1.22/db/db_impl.cc:697-766 | without error and shutdown the manual request stays while it is worked on |
| Background.ManualCanVanish | leveldb-1.22/db/db_impl.cc:608-622 | with an error or a shutdown its owner can take it away at any such moment |
| Background.ManualVanishes | leveldb-1.22/db/db_impl.cc:697-766 | a run in which a failed flush inside a manual compaction leads to that |
| Assoc.LowBits | memcached-1.4.22/thread.c:134-148 | the low bits of the low bits are the low bits, for any two masks |
| Assoc.OneHome | memcached-1.4.22/assoc.c:84-107 | an item is in one chain only, also while its bucket is being moved |
| Assoc.FoundWhere | memcached-1.4.22/assoc.c:84-95 | the bucket that lookups choose holds the key's item whenever the map has the key |
| Assoc.InsertKeeps | memcached-1.4.22/assoc.c:169-195 | an insert keeps the tables a representation of the map with the new key |
| Assoc.DeleteKeeps | memcached-1.4.22/assoc.c:198-225 | a delete keeps them a representation of the map without the key |
| Assoc.MoveKeeps | memcached-1.4.22/assoc.c:251-256 | moving one item leaves the map as it is |
| Assoc.FinishKeeps | memcached-1.4.22/assoc.c:258-270 | going on to the next bucket, or ending the expansion, leaves the map as it is |
| Assoc.ExpandKeeps | memcached-1.4.22/assoc.c:138-157 | doubling the table leaves the map as it is |
| Assoc.HashTable.constructor | memcached-1.4.22/assoc.c:68-82 | an empty map |
| Assoc.HashTable.Find | memcached-1.4.22/assoc.c:85-112 | the item the map has for the key, or none |
| Assoc.HashTable.FindBefore | memcached-1.4.22/assoc.c:117-134 | the item of the key and what points to it |
| Assoc.HashTable.Insert | memcached-1.4.22/assoc.c:169-195 | the map gains the key, and expansion is asked for past a load of one and a half |
| Assoc.HashTable.Delete | memcached-1.4.22/assoc.c:198-225 | the map loses exactly the key |
| Assoc.HashTable.Expand | memcached-1.4.22/assoc.c:138-157 | the map stays; without memory nothing changes |
| Assoc.HashTable.MoveBucket | memcached-1.4.22/assoc.c:250-270 | the map stays while one bucket is moved item by item |
| Assoc.HashTable.Migrate | memcached-1.4.22/assoc.c:234-284 | the expansion comes to its end with the same map |
| AssocConcurrent.OneStripe | memcached-1.4.22/thread.c:134-160 | an old bucket and both buckets it splits into are under one lock, for every lock table smaller than the hash table |
| AssocConcurrent.MoveLocal | memcached-1.4.22/assoc.c:250-256 | moving an item touches chains of one lock stripe only |
| AssocConcurrent.FinishLocal | memcached-1.4.22/assoc.c:258-270 | advancing the migration changes the choice of bucket for one stripe only |
| AssocConcurrent.StepInv | memcached-1.4.22/assoc.c:84-299 | every step of workers and the maintenance thread keeps the invariant |
| AssocConcurrent.LookupIsExact | memcached-1.4.22/assoc.c:84-112 | in every run a lookup that ends has the map's answer, wherever the migration is |
| AssocConcurrent.MoverIsAlone | memcached-1.4.22/assoc.c:245-275 | while a bucket is being moved no worker holds a lock that reaches it or the buckets it splits into |
| AssocConcurrent.OnlyOwnKey | memcached-1.4.22/assoc.c:169-299 | a step changes what is stored under a key only if it is an insert or delete of that key |
| AssocConcurrent.OpsTakeEffect | memcached-1.4.22/assoc.c:169-225 | in every run an insert that ends stores its item under its key, a delete leaves its key absent, and nothing else changes the map |
| AssocConcurrent.CountIsExact | memcached-1.4.22/assoc.c:186-209 | hash_items is the number of stored keys |
| Slabs.PushFreeList | memcached-1.4.22/slabs.c:332-340 | freeing keeps the free list well formed, with the chunk at its head and marked free |
| Slabs.UnhookFreeList | memcached-1.4.22/slabs.c:607-613 | taking a chunk out of the middle keeps the free list well formed and touches no chunk outside it |
| Slabs.FreeKeeps | memcached-1.4.22/slabs.c:318-346 | freeing a chunk nobody refers to keeps the invariant |
| Slabs.AddPageKeeps | memcached-1.4.22/slabs.c:231-262 | a new zeroed page keeps the invariant |
| Slabs.DropPageKeeps | memcached-1.4.22/slabs.c:686-690 | taking the emptied page off its class keeps the invariant |
| Slabs.EmptiedPage | memcached-1.4.22/slabs.c:660-668 | the chunks of a page that is done are cleared, on no free list and not handed out |
| SlabItems.LinkQKeeps | memcached-1.4.22/items.c:334-355 | linking an item at the head keeps all queues well formed and touches no node outside them |
| SlabItems.UnlinkQKeeps | memcached-1.4.22/items.c:358-384 | unlinking keeps all queues well formed, and exactly that node is gone |
| SlabItems.CrawlerAheadKeeps | memcached-1.4.22/items.c:819-872 | a crawler step keeps all queues well formed |
| SlabItems.InsertKeeps | memcached-1.4.22/assoc.c:169-195 | inserting keeps every chain well formed, each item in one chain |
| SlabItems.DeleteKeeps | memcached-1.4.22/assoc.c:198-225 | deleting keeps every chain well formed, and exactly that item is gone and points nowhere |
| SlabItems.RehashKeeps | memcached-1.4.22/assoc.c:251-256 | moving an item to another bucket keeps every chain well formed |
| SlabItems.LinkKeeps | memcached-1.4.22/items.c:387-415 | do_item_link keeps it so that the linked items are exactly those in queues and chains, and keeps the free lists, which use the same pointers |
| SlabItems.UnlinkKeeps | memcached-1.4.22/items.c:418-454 | do_item_unlink keeps that too |
| SlabItems.BumpedKeeps | memcached-1.4.22/items.c:486-499 | do_item_update keeps that too |
| SlabItems.ClearLinkedKeeps | memcached-1.4.22/slabs.c:620-645 | so does clearing a linked chunk of the page being emptied |
| SlabsRun.PopKeeps | memcached-1.4.22/slabs.c:290-302 | an allocation takes a chunk that was free and hands it out, keeping the invariant of allocator, queues and hash table |
| SlabsRun.MoveKeeps | memcached-1.4.22/slabs.c:583-674 | one chunk of the rebalancer, whatever state the chunk is in, keeps the invariant and all pages |
| SlabsRun.MoveExactly | memcached-1.4.22/slabs.c:594-651 | the chunk is cleared and taken off its list if it is free, or linked and held by nobody else, and the lock was free; otherwise nothing changes and it is counted as busy |
| SlabsRun.MoveSparesUsers | memcached-1.4.22/slabs.c:618-640 | a chunk in use stays handed out with its header, and is counted as busy |
| SlabsRun.MoveEnabled | memcached-1.4.22/slabs.c:583-674 | the rebalancer is never stuck, whatever the locks do |
| SlabsRun.StepInv | memcached-1.4.22/slabs.c:219-718 | every step of allocation, item life, LRU, crawler, hash table and rebalancer keeps the invariant, and only a new page changes the number of pages |
| SlabsRun.RunInv | memcached-1.4.22/slabs.c:219-718 | in every run the classes have together exactly the pages ever allocated |
| SlabsRun.ChunksConserved | memcached-1.4.22/slabs.c:219-718 | in every run each chunk is free, handed out or cleared and only one of these, and sl_curr is the length of the free list |
| SlabsRun.DoneMeansEmpty | memcached-1.4.22/slabs.c:660-690 | in every run, when the rebalancer is done with a page all its chunks are cleared, and no head, tail, bucket or free-list pointer, no h_next, and no next or prev of a chunk on a list leads into it |
| SlabsRun.UnlinkedKeepsPointers | memcached-1.4.22/items.c:358-384 | an unlinked item that is still held keeps its own next and prev and is on no list |
| SlabsRun.MoveLeavesUnlisted | memcached-1.4.22/slabs.c:583-674 | the rebalancer changes pointers of chunks on lists only |
| StalePointers.StalePointer | memcached-1.4.22/items.c:358-384 | a run from an empty allocator at whose end an item that is unlinked and held points into an emptied page |
| SlabsRun.QuietPassEnds | memcached-1.4.22/slabs.c:660-668 | a pass over the whole page that finds nothing busy is the last one |
| SlabRefs.RefcountIsHolders | memcached-1.4.22/items.c:387-467 | in every run the reference count is the number of holders, and one more for a linked item; nobody holds a chunk that is not handed out |
| SlabRefs.HeldIsSafe | memcached-1.4.22/slabs.c:594-651 | a chunk that somebody holds is on no free list and not cleared |
| SlabRefs.NewOwnerIsAlone | memcached-1.4.22/items.c:134-268 | a chunk newly handed out or taken from an evicted item has no other holder |
| SlabsRun.Allocator.SplitPage | memcached-1.4.22/slabs.c:219-228 | all chunks of the page and no others go to the class's free list |
| SlabsRun.Allocator.NewSlab | memcached-1.4.22/slabs.c:231-262 | a page more and its chunks on the free list, or no change without memory |
| SlabsRun.Allocator.AllocChunk | memcached-1.4.22/slabs.c:265-315 | one free chunk is handed out; fails only for an unknown class or with neither a free chunk nor a page |
| SlabsRun.Allocator.RebalanceStart | memcached-1.4.22/slabs.c:520-570 | starts if and only if the classes are valid and different, the source has two pages and the target list has room; each refusal has its code |
| SlabsRun.Allocator.MoveOneChunk | memcached-1.4.22/slabs.c:596-651 | one step of the rebalancer, which unlinks a linked item from its queue and chain; busy unless the chunk could be cleared, and what is in use is spared |
| SlabsRun.Allocator.RebalanceMove | memcached-1.4.22/slabs.c:583-674 | a bulk of steps gets that many chunks further with the busy ones counted, or starts over because something was busy, or is done because nothing was; it hands nothing out, spares what is in use and keeps all pages |
| SlabsRun.Allocator.RebalanceFinish | memcached-1.4.22/slabs.c:676-718 | the page goes from one class to the other, cut up as free chunks, and the number of pages stays |
| DoublyLinked.FrontList | memcached-1.4.22/items.c:334-355 | linking in front keeps the doubly linked list well formed |
| DoublyLinked.WithoutList | memcached-1.4.22/items.c:358-384 | unlinking anywhere keeps it well formed |
| DoublyLinked.SwapList | memcached-1.4.22/items.c:839-868 | the crawler's shuffle of pointers swaps it with the node before it and changes nothing else |
| Lru.SwapKeepsItems | memcached-1.4.22/items.c:819-872 | a crawler step never changes the order of the items |
| Lru.Queues.constructor | memcached-1.4.22/items.c:36-40 | empty queues |
| Lru.Queues.LinkItem | memcached-1.4.22/items.c:334-355 | the item is the new head of its queue, and counted |
| Lru.Queues.UnlinkItem | memcached-1.4.22/items.c:358-384 | the queue loses exactly the item, and counts one less |
| Lru.Queues.UpdateItem | memcached-1.4.22/items.c:486-499 | the item moves to the front of its queue |
| Lru.Queues.LinkCrawler | memcached-1.4.22/items.c:773-793 | the crawler is the new tail and is not counted |
| Lru.Queues.StepOut | memcached-1.4.22/items.c:828-837 | at the head the crawler steps out of the list |
| Lru.Queues.CrawlStep | memcached-1.4.22/items.c:819-872 | the crawler is one place nearer the head and returns the node it passed, or none at the head |
| Lru.Queues.UnlinkCrawler | memcached-1.4.22/items.c:795-815 | removing the crawler works in the list and after it has stepped out |
| Lru.Queues.Crawl | memcached-1.4.22/items.c:917-932 | an undisturbed crawl visits the whole queue from tail to head and leaves it as it was |
| Lru.ReverseVisitsAll | memcached-1.4.22/items.c:917-932 | it visits every node exactly once |
| FlushAll.FlushedSuffix | memcached-1.4.22/items.c:746-770 | the walk takes out recent nodes from the head and stops at the first that is not |
| FlushAll.FlushExpired | memcached-1.4.22/items.c:746-770 | every queue is left with what the walk does not take, and nothing happens without oldest_live |
| FlushAll.StepInv | memcached-1.4.22/items.c:387-499 | storing, updating, removing and crawling keep every queue in order of time |
| FlushAll.FlushExact | memcached-1.4.22/memcached.c:3600-3605 | after a flush an item is reachable if and only if it was stored in the current second and has a crawler ahead of it |
| FlushAll.FlushHides | memcached-1.4.22/items.c:669-770 | an item that is not exposed is never returned again, in any continuation, until oldest_live changes |
| FlushAll.FlushFails | memcached-1.4.22/items.c:469-499 | an item that is exposed, being held or behind a crawler, is returned again in some continuation |
| FlushAll.Resurrect | memcached-1.4.22/items.c:486-499 | whoever holds a hidden item that is still linked brings it back by updating it late enough |
| FlushAll.CrawlerShields | memcached-1.4.22/items.c:757-767 | a run from an empty cache after which a crawler keeps an item that nobody holds from being flushed |
| FlushAll.OnlyOldItemsMove | memcached-1.4.22/items.c:486-499 | an update moves an item to the front only after a minute |
| OutputQueue.Conn.constructor | memcached-1.4.22/memcached.c:381-382 | an empty queue with one message open |
| OutputQueue.Conn.EnsureIovSpace | memcached-1.4.22/memcached.c:717-743 | growing the list and pointing all messages at it again changes no message |
| OutputQueue.Conn.AddMsghdr | memcached-1.4.22/memcached.c:251-291 | a new message, for UDP with room for its header, and the same payload |
| OutputQueue.Conn.AddPiece | memcached-1.4.22/memcached.c:757-793 | a round of the loop queues a front part of the buffer within the message's limits |
| OutputQueue.Conn.AddIov | memcached-1.4.22/memcached.c:751-798 | the payload grows by exactly the buffer, cut into messages as `Queued` says; finished messages stay, and each UDP message is within its limit, header included |
| OutputQueue.PackedIsPlaced | memcached-1.4.22/memcached.c:734-739 | after filling, each message has its pieces in a part of the list of its own |
| OutputQueue.Conn.TakeOff | memcached-1.4.22/memcached.c:4120-4134 | exactly the bytes written are taken off the front, and with its last byte a message loses all its pieces |
| OutputQueue.Conn.Transmit | memcached-1.4.22/memcached.c:4102-4158 | what is left is what was left without the bytes sent; complete means nothing is left, and with nothing left it is complete if and only if no message to come is without bytes; each outcome of sendmsg has its result |
| OutputQueue.SendAll | memcached-1.4.22/memcached.c:4102-4158 | for any buffers and any partial sends, sent bytes followed by queued bytes are the buffers' bytes; complete means all are sent, and a socket that keeps taking bytes gets there if and only if the buffers leave no message without bytes |
| OutputQueue.FullBuffersSend | memcached-1.4.22/memcached.c:751-798 | buffers that are not empty leave no such message |
| OutputQueue.DatagramsSend | memcached-1.4.22/memcached.c:285-288 | neither does UDP, where each message has its header |
| OutputQueue.HeaderFirstSends | memcached-1.4.22/memcached.c:1354-1368 | neither does a reply that fits the first message and starts with bytes, whatever empty buffers follow |
| OutputQueue.EmptyBufferAfterFull | memcached-1.4.22/memcached.c:767-772 | an empty buffer after a full first message does |
| OutputQueue.EmptyBufferSticks | memcached-1.4.22/memcached.c:4110-4152 | a single empty buffer does |
| JenkinsHash.MixReversible | memcached-1.4.22/jenkins_hash.c:79-87 | mix can be undone |
| JenkinsHash.MixOnto | memcached-1.4.22/jenkins_hash.c:79-87 | every state is the mix of another |
| JenkinsHash.FinalReversible | memcached-1.4.22/jenkins_hash.c:115-124 | final can be undone on the three words |
| JenkinsHash.KnownHash | memcached-1.4.22/jenkins_hash.c:126-297 | the hash of a 30-byte key as published for lookup3 |
| JenkinsHash.HashOfNothing | memcached-1.4.22/jenkins_hash.c:134-135 | the hash of the empty key |
| JenkinsHash.CutWord | memcached-1.4.22/jenkins_hash.c:153-181 | a masked word read past the key's end is the key's last bytes |
| JenkinsHash.HashWords | memcached-1.4.22/jenkins_hash.c:138-182 | the 32-bit path computes the hash of the key's bytes |
| JenkinsHash.HashHalves | memcached-1.4.22/jenkins_hash.c:205-250 | the 16-bit path computes the same |
| JenkinsHash.HashBytes | memcached-1.4.22/jenkins_hash.c:252-293 | the byte path computes the same |
| JenkinsHash.Jenkins | memcached-1.4.22/jenkins_hash.c:126-297 | the result depends only on the key's bytes, not on its address or what lies around it |
| GlobalReplace.Rewrite | pcrecpp/pcrecpp.cc:612-641 | appends the rewrite with its group references filled in up to the first error, and succeeds if and only if the string is well formed, or is but for a lone backslash at its end and the byte after it completes that one |
| GlobalReplace.PastIsIgnored | pcrecpp/pcrecpp.cc:614-619 | without such a backslash nothing past the string's end matters |
| GlobalReplace.PastMatters | pcrecpp/pcrecpp.cc:614-619 | with it, what is appended depends on the byte after the end |
| GlobalReplace.LiteralRewrite | pcrecpp/pcrecpp.cc:612-641 | a rewrite without backslashes is copied as it is |
| ReplaceLaws.RewrittenConcat | pcrecpp/pcrecpp.cc:612-641 | a rewrite string is rewritten part by part |
| ReplaceLaws.GroupReference | pcrecpp/pcrecpp.cc:619-628 | a backslash and a digit stand for the text of that group, or for nothing if it is not set |
| ReplaceLaws.DoubledBackslash | pcrecpp/pcrecpp.cc:629-630 | two backslashes stand for one |
| ReplaceLaws.BadEscape | pcrecpp/pcrecpp.cc:621-635 | any other escape ends the rewriting |
| GlobalReplace.Advance | pcrecpp/pcrecpp.cc:404-427 | moves on, never past the end by more than one, and in UTF-8 never to a continuation byte (section 3 of RFC 3629) |
| GlobalReplace.MatchEnd | pcrecpp/pcrecpp.cc:404-424 | the loops of the source compute that place |
| ReplaceLaws.AdvanceExactly | pcrecpp/pcrecpp.cc:404-424 | where the character ends, by its bytes |
| GlobalReplace.MatchesInOrder | pcrecpp/pcrecpp.cc:389-447 | successive matches lie in the text one after the other |
| GlobalReplace.MatchesProgress | pcrecpp/pcrecpp.cc:401-430 | after an empty match the next one ends further on |
| GlobalReplace.Replace | pcrecpp/pcrecpp.cc:381-453 | ends for every matcher that respects its flags, and returns the text with its successive matches rewritten and all other bytes unchanged, and their number |
| ReplaceLaws.ReplaceByte | pcrecpp/pcrecpp.cc:381-453 | replacing a byte by a literal string replaces every occurrence and nothing else, and counts them |
| ReplaceLaws.ReplaceEmpty | pcrecpp/pcrecpp.cc:389-430 | replacing the empty pattern puts the string before every byte and at the end |

## Left out

- Weak memory ordering: interleavings are sequentially consistent.
- I/O failures in the durability model, operating-system crashes that lose unsynced log tails, and `reuse_logs` over a torn log.
- Unparsable internal keys in compaction and in the cursor.
- The level structure of versions, table and block formats, the manifest format and checksums: a table is a set of entries, installing a version edit is one step, and the checksum is any function.
- Trivial moves and the choice of compaction inputs: any choice is allowed that keeps newer entries above older ones and knows what lies below.
- WriteBatch.Iterate: the count of a batch is unbounded, while the header has 32 bits for it.
- GroupFailures.ComesBackIfLogged: with `paranoid_checks` a malformed record makes recovery fail; this is recovery without it.
- MemTable.Table.Add: keys and values of 4 GB and more, whose length the source cuts to 32 bits, are excluded.
- SkipList iterators and the memtable iterator, which are thin wrappers over the searches.
- The log reader at an initial offset above zero, and the size and wording of corruption reports.
- `FindShortestSeparator`, `FindShortSuccessor` and the filter policy.
- AssocConcurrent.LookupIsExact: moving one item, and the splice of an insert or delete, is one step; loads of a walk and the reads of the migration state are separate steps.
- SlabsRun.DoneMeansEmpty: keys and hash values are not in this model; the bucket an item goes to is any, and a bucket's items are moved one per step. `Assoc` and `AssocConcurrent` have the choice of bucket and the lock that makes this so.
- Tail repair in `do_item_alloc`, which is off by default and overwrites a reference count.
- The `requested` byte counter, the capacity of `slab_list` and the automover's decisions.
- SlabsRun.ChunksConserved: reference counts are unbounded, while the source keeps them in 16 bits.
- Expiry times, the crawler's check of expired items and eviction order in the LRU queues.
- `flush_all` with a delay.
- OutputQueue.Conn.AddIov: allocations are taken to succeed, and buffers are added before sending starts.
- Building UDP headers, and the connection state machine around `transmit`.
- The big-endian hash and the variant for memory checkers.
- Matches that start before the search position, as a lookbehind assertion with `\K` can make them.
- The other functions of pcrecpp, and all of redis, weighttp and leveldb-1.23.
