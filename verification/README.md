# MirDB, modelled and proved in Dafny

MirDB is a persistent key-value server that speaks the memcached text protocol. It is an
LSM tree: writes go to a log and a skip list, full memtables are frozen and flushed to sorted
table files, and table files are merged down through levels. Every layer has a simple meaning
(a finite map, a sorted list, a list of requests) and a stateful implementation. The project
models the implementation layer by layer and proves that each layer has that meaning.

The layers, from the outside in:

- **Requests.** `ParserCombinators`, `Parsers`, `RequestTexts`, `RequestCuts`, `Codecs`: the
  grammar, what it makes of complete, extended and truncated requests, and the connection decoder
  under any chunking of the byte stream. `Stores`: requests applied to the engine.
- **Engine.** `Engine` is a state machine whose steps are the lock regions of the threads (log
  append, apply and freeze, flush one table, drop one log segment, pop, compaction snapshot and
  commit) plus crashes and the steps of recovery. Its invariant ties memtables, log segments and
  levels together; the theorems speak about all runs. `DataManagers` has the operations as
  methods that go through these steps and keep the invariant. `Locks` shows that the lock order
  excludes deadlock and data races and keeps writes apart; `LookupSteps`, `CompactionThreads` and
  `ScheduledRuns` derive from it that every schedule of threads is a run of the state machine, and
  that lookups in the middle of it return the latest finished write.
- **Levels.** `Tables`, `SstableReaders`, `Compaction`, `Mergers`, `Cursors`: lookup by binary
  search, the manifest, the k-way merger with its step-backs, and compaction. `OpenTables`,
  `TableMergers` and `TableCompactions` repeat lookup, merging and compaction on open table files.
- **Table files.** `Coding`, `Separators`, `BlockFormat`, `BlockBuilders`, `BlockIters`,
  `TableFormat`, `TableSizes`, `TableBuilders`, `TableReaders`, `Caches`, `SstableBuilders`: bytes on
  disk, restart-point blocks, separator index, the two-level iterator, the shared block cache, and
  how large the entries of a table may be.
- **Memory and log.** `SkipLists` (heap nodes with arbitrary heights), `Wals` and `WalLogs`
  (record bytes, segments, and finding segments again after a crash).

`Runs` (sorted runs of entries with `Find`, `Insert`, `Remove`, `MergeRuns`) is the common
vocabulary: a skip list, a table file, a memtable in the engine and the merger's output all denote
a run, and a run is determined by its lookups.

Foreign code is a parameter: snappy and the value serialisation are pairs of functions of which
only invertibility and snappy's bound on its output length are used, the checksum is a function,
the key filter of a table is a set that has every key, cache eviction is arbitrary, node heights
and the clock are arguments.

Where the code and what one would expect of it differ, the code is kept and the exact condition is
proved:

- `find_shortest_sep(a, b)` gives a key strictly between `a < b` if and only if `b` is not `a`
  followed by one zero byte; no key exists between those two. `TableBuilders.TableBuilder.Add`
  excludes such a pair only where a block ends between its keys, and there the later key would be
  lost (`TableReaders.EqualSeparatorLosesKey`). Keys of decoded requests hold no NUL, and
  `Stores.EveryRunIsWritable` carries that to every memtable and table.
- `TableIter::seek` lands on the first entry not below a key if and only if the key is not beyond
  the last separator and not between a block's last key and its separator
  (`TableReaders.LandsExactly`). In such a gap it misses the next block's first entry
  (`TableReaders.GapMissesNextBlock`). Point lookups are not affected: no stored key lies in a gap.
- A request that arrives in pieces is waited for, except at the cuts listed by
  `RequestCuts.CutRejected`, where it is rejected although it is the beginning of a valid request.
  `Codecs.ChunkedDecoding` says that a stream is decoded correctly if and only if no chunk ends there.
- Sorted segment paths give the creation order if and only if the oldest and the newest name have the
  same length: the numbers fit in eight digits or all have the same number of digits
  (`Wals.PathOrderExact`, `Wals.WidthInDigits`).
- What threads do to the engine under its locks is one of its runs if and only if no two compactions
  of a kind overlap (`ScheduledRuns.SchedulesAreRuns`). One thread for each kind is enough
  (`CompactionThreads.OneThreadEach`), and minor compactions have one. Major compactions are made by
  the background thread and by a client command; the locks let two of them plan on the same tables
  (`CompactionThreads.MajorsCanOverlap`), and then the level below is no longer disjoint
  (`Compaction.SecondCommitOverlaps`).

## Model

| member | source | states |
|---|---|---|
| Engine.EveryRunServesLatestWrite | mirdb-server/src/data_manager.rs:186-394 | in every run, for any interleaving of lock regions and any number of crashes, a lookup of any key returns its latest finished write, or nothing if there is none |
| Engine.GetAcrossSteps | mirdb-server/src/data_manager.rs:206-227 | a lookup that searched the memtables in one state and the levels several steps of other threads later still returns the latest finished write |
| Engine.LockedMemtables | mirdb-server/src/data_manager.rs:212-223 | the steps that can fall inside a lookup change neither memtable nor the finished writes |
| LookupSteps.OnlyToleratedSteps | mirdb-server/src/data_manager.rs:206-227 | while one thread is between the two searches of a lookup, any step another thread is taking, in any reachable state, is one of those |
| LookupSteps.DuringGetByLocks | mirdb-server/src/data_manager.rs:186-394 | they are exactly the steps that need neither memtable's lock exclusively |
| Locks.LookupIsShielded | mirdb-server/src/data_manager.rs:212-225 | in that situation no other thread does anything that needs a memtable's lock for itself |
| Locks.LookingHolds | mirdb-server/src/data_manager.rs:212-225 | a thread on its way from the memtables to the levels holds both memtables' locks |
| Locks.LookupLooks | mirdb-server/src/data_manager.rs:222-225 | that is where every lookup stands that did not find its key in memory |
| Engine.MaintenanceIsInvisible | mirdb-server/src/data_manager.rs:240-394 | starting a flush, adding a table, dropping a log segment, popping, and a compaction's snapshot and commit change no lookup in any reachable state |
| Engine.EveryRunIsDurable | mirdb-server/src/data_manager.rs:112-204 | at every point of every run the log replayed over the levels holds exactly the writes appended to the log |
| Engine.CrashRecovers | mirdb-server/src/data_manager.rs:53-170 | from every reachable state, including the middle of an earlier recovery, crash and recovery can run to the end and then every lookup returns the latest logged write |
| Engine.RunInv | mirdb-server/src/data_manager.rs:112-394 | the invariant (age order, pairing of segments and memtables, what a flushed table still in `imm_` may hide, unique file numbers, the compaction in flight) holds after every run |
| Engine.InitInv | mirdb-server/src/data_manager.rs:53-77 | the empty engine satisfies the invariant |
| Engine.StepInv | mirdb-server/src/data_manager.rs:112-394 | every step keeps the invariant |
| Engine.StepsAreOpen | mirdb-server/src/data_manager.rs:240-394 | under the invariant a step is possible exactly when its thread has reached it |
| Engine.LogInv | mirdb-server/src/data_manager.rs:186-188 | appending to the log keeps the invariant; the write is durable and not yet visible |
| Engine.ApplyInv | mirdb-server/src/data_manager.rs:190-203 | applying the logged write, with or without a freeze, keeps the invariant and makes it visible |
| Engine.MinorStartInv | mirdb-server/src/data_manager.rs:241-246 | counting the frozen tables keeps the invariant |
| Engine.FlushAddInv | mirdb-server/src/data_manager.rs:253-259 | adding the oldest unflushed frozen table to level 0 keeps the invariant, also while a compaction is in flight |
| Engine.FlushConsumeInv | mirdb-server/src/data_manager.rs:260 | dropping the oldest log segment after its table was added keeps the invariant |
| Engine.PopFind | mirdb-server/src/data_manager.rs:264-267 | popping the flushed tables changes no lookup |
| Engine.PopInv | mirdb-server/src/data_manager.rs:264-267 | and keeps the invariant |
| Engine.SnapshotInv | mirdb-server/src/data_manager.rs:293-384 | planning a compaction under the read lock keeps the invariant |
| Engine.CommitInv | mirdb-server/src/data_manager.rs:386-391 | committing it later, after other steps, keeps the invariant |
| Engine.CommitNums | mirdb-server/src/data_manager.rs:386-391 | file numbers stay unique over all levels and below the counter |
| Engine.CompactionMoves | mirdb-server/src/data_manager.rs:293-391 | in every run, whatever other threads do between a snapshot and its commit, exactly the chosen tables of the snapshot leave their level, so level 0 is left with what was added since; below, exactly the tables they meet are replaced |
| Engine.PlanWaits | mirdb-server/src/data_manager.rs:382-386 | between snapshot and commit the plan stays as made and the levels change only by tables added to level 0 |
| Engine.CrashInv | mirdb-server/src/data_manager.rs:53-77 | losing memory, reloading the manifest and dropping empty segments keeps what is durable |
| Engine.RedoAddInv | mirdb-server/src/data_manager.rs:126-156 | adding one level-0 table per segment keeps what is durable; the segments may then go |
| Engine.RedoDeleteInv | mirdb-server/src/data_manager.rs:158-160 | deleting any prefix of the segments keeps what is durable |
| Engine.RedoDoneInv | mirdb-server/src/data_manager.rs:163-169 | the recovered engine serves exactly the durable writes |
| Engine.RedoFind | mirdb-server/src/data_manager.rs:126-156 | a lookup after the tables were added is a lookup in the replayed segments, newest first, then in the old levels |
| Engine.DurableIsLive | mirdb-server/src/data_manager.rs:186-227 | what a crash would leave is what lookups see, plus the write between log and memtable |
| Engine.KeysWereWritten | mirdb-server/src/data_manager.rs:186-394 | every key in any memtable or table of a reachable running engine was written |
| DataManagers.DataManager.constructor | mirdb-server/src/data_manager.rs:53-77 | a store in an empty directory satisfies the invariant and holds nothing |
| DataManagers.DataManager.Get | mirdb-server/src/data_manager.rs:206-227 | returns exactly the map's value of the key |
| DataManagers.DataManager.Insert | mirdb-server/src/data_manager.rs:186-204 | is a log step and an apply step that freezes exactly when the segment has reached its size; afterwards the map differs in that key only; returns what it overwrote in the memtable |
| DataManagers.DataManager.MinorCompaction | mirdb-server/src/data_manager.rs:240-269 | flushes and pops every frozen table; the map is unchanged and the invariant holds |
| DataManagers.DataManager.FlushOne | mirdb-server/src/data_manager.rs:253-261 | one round of the flush loop is the two steps that add a table and drop its segment |
| DataManagers.DataManager.SizeCompaction | mirdb-server/src/data_manager.rs:285-394 | is a snapshot step followed by a commit step; the map is unchanged; level 0 is empty afterwards; above it exactly the tables beyond the last compaction point leave, or the first one if there are none; below, exactly the tables they meet are replaced; no other level changes |
| DataManagers.DataManager.Install | mirdb-server/src/data_manager.rs:381-391 | two removals and one addition turn the levels into the committed ones and keep manifest and files consistent |
| DataManagers.DataManager.RemoveInputs | mirdb-server/src/data_manager.rs:388-389 | exactly the inputs leave the two levels, their manifest lists and the directory |
| DataManagers.DataManager.Redo | mirdb-server/src/data_manager.rs:112-170 | empties the log into level 0; the map is the one the log and levels held |
| DataManagers.DataManager.BuildSegments | mirdb-server/src/data_manager.rs:126-151 | one table per segment holding the segment's replay, numbered in order |
| DataManagers.DataManager.Restart | mirdb-server/src/data_manager.rs:53-77 | stopping at any time between operations and starting again loses nothing |
| DataManagers.DataManager.BuildTable | mirdb-server/src/data_manager.rs:255-256 | a table file under a number no listed file has, leaving every open table as it was |
| DataManagers.DataManager.WriteFiles | mirdb-server/src/data_manager.rs:349-379 | the same for all outputs of a compaction |
| DataManagers.Reload | mirdb-server/src/sstable_reader.rs:110-128 | loading again gives the identical readers |
| DataManagers.ToSkipList | mirdb-server/src/wal.rs:134-140 | inserting a segment's records one by one gives its replay |
| DataManagers.OpenLog | mirdb-server/src/wal.rs:228-242 | keeps the non-empty segments in order |
| DataManagers.FindFrozen | mirdb-server/src/memtable_list.rs:54-66 | returns the first hit, newest table first |
| DataManagers.NextIsFileBound | mirdb-server/src/manifest.rs:61-81 | the next file number is one above the largest number of an open table |
| DataManagers.LoadIsUnique | mirdb-server/src/sstable_reader.rs:110-128 | manifest and files determine the readers |
| DataManagers.ManifestNums | mirdb-server/src/sstable_reader.rs:134-171 | the manifest lists a level's open tables and nothing else |
| Locks.NoDeadlock | mirdb-server/src/data_manager.rs:186-394 | in every state any interleaving of operations reaches, unless all are done, some thread can go on, even if locks prefer waiting writers |
| Locks.NoWaitCycle | mirdb-server/src/data_manager.rs:186-394 | no reachable state has threads waiting for each other in a circle |
| Locks.SchedulesAreBounded | mirdb-server/src/data_manager.rs:186-394 | steps taken and steps left add up to the work there was, so every run ends |
| Locks.EveryRunCanFinish | mirdb-server/src/data_manager.rs:186-394 | from every reachable state there is a schedule that finishes all operations |
| Locks.ReachedInvariant | mirdb-server/src/data_manager.rs:186-394 | in every reachable state all threads respect the lock order and an exclusive lock has one holder |
| Locks.ProgramDisciplined | mirdb-server/src/data_manager.rs:186-394 | any sequence of operations takes locks in increasing order, keeps none, has its effects in order, each under its locks, and keeps the log locked from logging a write to applying it |
| Locks.GetNeutral | mirdb-server/src/data_manager.rs:212-225 | a lookup takes `mut_`, `imm_`, the readers and the block cache in that order |
| Locks.InsertNeutral | mirdb-server/src/data_manager.rs:187-204 | an insert takes the log, `mut_` and, when it freezes, `imm_` in that order, and has the log locked from the log entry until the memtable has the write |
| Locks.MinorNeutral | mirdb-server/src/data_manager.rs:241-267 | a minor compaction takes log, `imm_`, cache or readers in that order and adds and drops as often as it counted |
| Locks.MajorNeutral | mirdb-server/src/data_manager.rs:271-394 | and a major compaction with readers and cache |
| Locks.CacheVisitsNeutral | sstable/src/table_reader.rs:119-131 | the block cache is taken last and released before anything else |
| Locks.WritesDoNotMix | mirdb-server/src/data_manager.rs:187-204 | in every reachable state, once a thread has logged a write and not yet applied it, no other thread logs or applies a write, adds a flushed table or drops a log segment |
| Locks.InFlightStage | mirdb-server/src/data_manager.rs:187-204 | what a thread has done tells whether a write of it is in flight |
| Locks.NoRace | mirdb-server/src/data_manager.rs:186-394 | in every reachable state, what one thread is changing (log, memtable, frozen tables, levels) no other thread is looking at or changing |
| ScheduledRuns.SchedulesAreRuns | mirdb-server/src/data_manager.rs:186-394 | any number of threads, any operations, any schedule the locks allow: what the threads do to the engine is a run of `Engine` if and only if no two minor and no two major compactions overlap |
| ScheduledRuns.LookupsSeeTheLatestWrite | mirdb-server/src/data_manager.rs:206-227 | a lookup in the middle of such a schedule returns the latest finished write of its key, the same at its beginning and at its end |
| ScheduledRuns.OneAction | mirdb-server/src/data_manager.rs:186-394 | one action of one thread keeps the engine's steps a run, and what is in flight in the engine is in flight in a thread |
| ScheduledRuns.FreeToMove | mirdb-server/src/data_manager.rs:187-204 | the locks leave a thread that logs or applies free of other writes in flight |
| ScheduledRuns.StepEnabled | mirdb-server/src/data_manager.rs:186-394 | a thread's next effect is a step the engine can take |
| ScheduledRuns.WhileLooking | mirdb-server/src/data_manager.rs:212-225 | while a thread is between the two searches of a lookup the engine takes only steps a lookup tolerates |
| CompactionThreads.OneThreadEach | mirdb-server/src/data_manager.rs:80-97 | one thread for minor and one for major compactions is enough for that |
| CompactionThreads.MajorsCanOverlap | mirdb-server/src/data_manager.rs:271-386 | two threads that both make major compactions, as the background thread and a client command do, can overlap |
| Compaction.CommitPreservesLookups | mirdb-server/src/data_manager.rs:293-391 | committing a compaction changes no lookup, for every key, also if level 0 grew since the snapshot |
| Compaction.CommitKeepsLevels | mirdb-server/src/data_manager.rs:386-391 | every level above 0 stays sorted by minimum key with disjoint ranges |
| Compaction.PlanFits | mirdb-server/src/data_manager.rs:293-371 | what the snapshot decides fits the levels it was taken from |
| Compaction.CommitMoves | mirdb-server/src/data_manager.rs:296-313 | which tables a commit takes out of the two levels, in terms of the levels at the snapshot and the last compaction point |
| Compaction.Inputs0Exact | mirdb-server/src/data_manager.rs:298-313 | the inputs are all of level 0; above it the tables not passed over, or the first one if all are |
| Compaction.BeyondKeyExact | mirdb-server/src/data_manager.rs:303-308 | a table is chosen exactly when its largest key is beyond the last compaction point |
| Compaction.SecondCommitOverlaps | mirdb-server/src/data_manager.rs:293-391 | two compactions planned on the same levels and both committed leave overlapping tables in the level below |
| Compaction.FitsGrownLevel0 | mirdb-server/src/data_manager.rs:384-386 | and still fits after level 0 gained a table between the two locks |
| Compaction.WriteMerged | mirdb-server/src/data_manager.rs:341-379 | the compaction loop writes the merge of its inputs, closing a table whenever it reached the size limit |
| Compaction.SplitTablesConcat | mirdb-server/src/data_manager.rs:349-379 | output tables are non-empty, numbered in order, and concatenate to the merged stream |
| Compaction.SplitTablesCut | mirdb-server/src/data_manager.rs:349-379 | every output table but the last has reached the size limit, and none had reached it before its last entry |
| Compaction.PiecesOfSorted | mirdb-server/src/data_manager.rs:349-379 | output tables are an ordered level that looks up like the stream |
| Compaction.OtherReadersExact | mirdb-server/src/data_manager.rs:400-411 | on an ordered level the scan selects exactly the overlapping tables, in order |
| Compaction.RangeCovers | mirdb-server/src/data_manager.rs:315-324 | the folded minimum and maximum enclose every input |
| Compaction.RangeAttained | mirdb-server/src/data_manager.rs:315-324 | and both ends are keys of inputs |
| Compaction.OverlapsExact | mirdb-server/src/data_manager.rs:315-329 | so a table overlaps the range exactly when it reaches between two inputs |
| Compaction.MergedFind | mirdb-server/src/data_manager.rs:331-379 | the outputs look up like the inputs, the compacted level first |
| Compaction.TargetLevel | mirdb-server/src/data_manager.rs:388-391 | the level below holds exactly its untouched tables and the outputs; the compacted level only what was not an input |
| Compaction.TargetFind | mirdb-server/src/data_manager.rs:388-391 | lookup in the level below after the commit: the inputs first, then the level as it was |
| Compaction.SourceFind | mirdb-server/src/data_manager.rs:388-389 | lookup in the compacted level before the commit: what stays first, then the inputs |
| Mergers.Merger.constructor | mirdb-server/src/merger.rs:11-13 | a new merger has emitted nothing |
| Mergers.Merger.Advance | mirdb-server/src/merger.rs:22-58 | emits one more entry of the merge or reports that the whole merge was emitted; pending entries drop on every success |
| Mergers.Merger.Next | sstable/src/types.rs:62-68 | returns the emitted entry; at the end what was emitted is the merge of all inputs |
| Mergers.PassEmits | mirdb-server/src/merger.rs:26-57 | a pass that stepped losers back, but not the inputs that tied with an abandoned candidate, keeps the merger's invariant |
| Mergers.NoEarlierHolder | mirdb-server/src/merger.rs:26-57 | the chosen input is the lowest-numbered one holding the key |
| Mergers.StillAccounted | mirdb-server/src/merger.rs:40-49 | every entry consumed early has its key emitted or pending in an earlier input |
| Mergers.PassDone | mirdb-server/src/merger.rs:26-57 | a pass without a candidate means everything was emitted |
| Mergers.CompleteIsMerge | mirdb-server/src/merger.rs:22-58 | a sorted stream with every key and the first holder's values is the reference merge |
| Mergers.PendingDrops | mirdb-server/src/merger.rs:22-58 | a successful pass leaves fewer entries pending, despite the step-backs |
| Mergers.EmittedPrefix | mirdb-server/src/merger.rs:22-58 | at any time what was emitted is a beginning of the merge |
| TableMergers.TableMerger.constructor | mirdb-server/src/merger.rs:11-13 | a merger over the iterators of open tables |
| TableMergers.TableMerger.Advance | mirdb-server/src/merger.rs:22-58 | moves the table iterators themselves: emits one more entry of the merge of what the files hold, or reports that all of it was emitted |
| TableMergers.TableMerger.Pass | mirdb-server/src/merger.rs:26-55 | one input of a pass on real iterators keeps the pass's invariant |
| TableMergers.TableMerger.Forth | mirdb-server/src/merger.rs:28-30 | one iterator moves, the others stay where they are although all share the block cache |
| TableMergers.TableMerger.Back | mirdb-server/src/merger.rs:42-48 | the same backwards |
| TableMergers.TableMerger.Current | mirdb-server/src/merger.rs:99-105 | reads the entry the iterator is on |
| TableMergers.TableMerger.Next | sstable/src/types.rs:62-68 | returns the emitted entry; at the end the merge is complete |
| TableMergers.MergeTables | mirdb-server/src/data_manager.rs:331-349 | reading the merger over open tables to its end gives the reference merge of what they hold |
| Runs.MergeRunsFind | mirdb-server/src/merger.rs:22-58 | the reference merge finds what the first input holding a key holds |
| Runs.MergeRunsSorted | mirdb-server/src/merger.rs:22-58 | its keys strictly increase |
| SstableReaders.SstableReader.SearchReaders | mirdb-server/src/sstable_reader.rs:62-108 | selects exactly the tables a linear range filter selects, in search order |
| SstableReaders.FilterCovering | mirdb-server/src/sstable_reader.rs:75-80 | the level-0 loop keeps exactly the tables whose range has the key |
| SstableReaders.ScanFrom | mirdb-server/src/sstable_reader.rs:96-104 | so does the scan after the binary search, although it stops early |
| SstableReaders.FirstHit | mirdb-server/src/sstable_reader.rs:187-192 | returns the first table's value that has the key |
| SstableReaders.SstableReader.Get | mirdb-server/src/sstable_reader.rs:181-195 | equals a newest-first scan of all tables of all levels |
| OpenTables.Get | mirdb-server/src/sstable_reader.rs:181-195 | with the tables open as files, the lookup through their readers equals the newest-first scan of all levels |
| OpenTables.FirstOpenHit | mirdb-server/src/sstable_reader.rs:187-192 | the first file that has the key answers |
| OpenTables.GetFrom | sstable/src/table_reader.rs:138-159 | one file answers like the table it holds |
| SstableReaders.SstableReader.constructor | mirdb-server/src/sstable_reader.rs:39-48 | the opened readers agree with manifest and files |
| SstableReaders.SstableReader.Load | mirdb-server/src/sstable_reader.rs:110-128 | level 0 in the manifest's order, other levels sorted by minimum key |
| SstableReaders.SstableReader.AddReaders | mirdb-server/src/sstable_reader.rs:134-149 | adds the tables one by one and keeps readers, manifest and files consistent |
| SstableReaders.SstableReader.AddReader | mirdb-server/src/sstable_reader.rs:130-132 | the same for one table |
| SstableReaders.SstableReader.RemoveByFileNames | mirdb-server/src/sstable_reader.rs:151-171 | drops exactly the named tables from level, manifest and directory and keeps them consistent |
| SstableReaders.SstableReader.EnsureLevel | mirdb-server/src/manifest.rs:102-106 | grows the manifest without changing what any level lists |
| SstableReaders.SstableReader.NextFileNumber | mirdb-server/src/manifest.rs:61-81 | is the least number above all listed numbers |
| SstableReaders.AddKeepsConsistent | mirdb-server/src/manifest.rs:108-111 | after an add, loading the manifest would rebuild the readers |
| SstableReaders.RemoveKeepsConsistent | mirdb-server/src/manifest.rs:118-121 | after a removal, loading the manifest would rebuild the readers |
| SstableReaders.SkippedReaders | mirdb-server/src/sstable_reader.rs:81-94 | the binary search skips no table whose range has the key |
| SstableReaders.CoveringFind | mirdb-server/src/sstable_reader.rs:62-108 | skipping tables whose range lacks the key changes no lookup |
| SstableReaders.SortRetain | mirdb-server/src/sstable_reader.rs:34-37 | removing tables commutes with sorting them |
| SstableReaders.SortPushed | mirdb-server/src/sstable_reader.rs:34-37 | sorting after each push is sorting once |
| Tables.InsertByMinOk | mirdb-server/src/sstable_reader.rs:134-149 | a table disjoint from a level finds its place in it |
| TableReaders.TableReader.constructor | sstable/src/table_reader.rs:44-78 | opening a table reads its index and takes the next cache id, which no open table has; the tables open before stay known to the cache |
| TableReaders.TableReader.ReadBlock | sstable/src/table_reader.rs:119-132 | returns the block on file, from the cache or read, and has it cached afterwards |
| TableReaders.TableReader.Get | sstable/src/table_reader.rs:138-159 | returns what was added under the key and nothing for any other key, also between a block's last key and its separator; counts a miss exactly when a key within the range is not there |
| TableReaders.TableIter.constructor | sstable/src/table_iter.rs:16-23 | a fresh iterator is before the first entry |
| TableReaders.TableIter.Next | sstable/src/table_iter.rs:51-80 | moves one cursor forward over the concatenation of all blocks |
| TableReaders.TableIter.Advance | sstable/src/table_iter.rs:51-80 | goes to the next entry of this block or the first of the next one, after a reset to the first of all, and says whether there is one |
| TableReaders.TableIter.AdvanceIndex | sstable/src/table_iter.rs:60-62 | the index cursor moves on, after a reset to its first entry |
| TableReaders.TableIter.AdvanceData | sstable/src/table_iter.rs:52-58 | the cursor in the loaded block moves on |
| TableReaders.TableIter.PrevData | sstable/src/table_iter.rs:83-90 | or back |
| TableReaders.TableIter.SeekData | sstable/src/table_iter.rs:132-135 | or to the first entry of the block not below the key |
| TableReaders.TableIter.Prev | sstable/src/table_iter.rs:82-110 | moves it back across block boundaries; from the exhausted state to the second-to-last entry |
| TableReaders.TableIter.LoadBlock | sstable/src/table_iter.rs:64-70 | the iterator stands before the first entry of the block the index points to |
| TableReaders.TableIter.LoadLast | sstable/src/table_iter.rs:97-104 | or on its last entry |
| TableReaders.TableIter.Walk | sstable/src/table_iter.rs:51-110 | any sequence of moves from a fresh iterator ends where the same moves end on the list of entries |
| TableReaders.WalkForward | sstable/src/table_iter.rs:51-80 | going forward visits the entries in order and then stays at the end |
| TableReaders.TableIter.CurrentKV | sstable/src/table_iter.rs:112-118 | the key and value read at a position are those of the entry at that position of the list, and none off its ends |
| TableReaders.TableIter.Seek | sstable/src/table_iter.rs:126-138 | lands if and only if the block the index leads to has an entry not below the key, and then on the first such entry of the table; if it lands nowhere the key is not in the table |
| TableReaders.LandsExactly | sstable/src/table_iter.rs:126-138 | that is for every key except those beyond the last separator and those between a block's last key and its separator |
| TableReaders.GapMissesNextBlock | sstable/src/table_iter.rs:126-138 | for a key in such a gap the table has a first entry not below it, the next block's, and the seek misses it |
| TableReaders.SeparatorIsInGap | sstable/src/table_builder.rs:85-99 | every separator is itself such a key |
| TableReaders.EqualSeparatorLosesKey | sstable/src/util.rs:36-40 | a separator equal to the next block's first key would make a lookup of that key go to the wrong block and miss it |
| TableReaders.TableIter.Reset | sstable/src/table_iter.rs:120-124 | from any position: no block is loaded and the index is read from its start, so the next advance lands on the first entry |
| TableReaders.SeekFound | sstable/src/table_iter.rs:126-138 | the first index key not below the target leads to the only block that can hold it |
| TableReaders.TableRange | sstable/src/table_reader.rs:143-149 | keys outside the range or the filter are not in the table |
| Caches.CacheKeyInjective | sstable/src/table_reader.rs:108-117 | cache id and offset never share a cache key with another pair |
| Caches.Cache.constructor | sstable/src/cache.rs:12-18 | a new cache is empty and its counter is 0 |
| Caches.Cache.NewCacheId | sstable/src/cache.rs:20-24 | counts up by one and gives an id no table has |
| Caches.Cache.Insert | sstable/src/cache.rs:35-37 | the block is cached; everything else in the cache was there before and stays true under any eviction |
| Caches.Cache.Get | sstable/src/cache.rs:39-41 | gives what is cached under the key, and a hit is the block on file |
| TableBuilders.TableBuilder.constructor | sstable/src/table_builder.rs:33-51 | an empty table |
| TableBuilders.TableBuilder.Add | sstable/src/table_builder.rs:71-83 | the table holds one entry more; a block is written before it exactly if the bytes of that block are more than the block size |
| TableBuilders.TableBuilder.Push | sstable/src/table_builder.rs:76-82 | the current block takes the entry and the bounds follow |
| TableBuilders.TableBuilder.MakeRoom | sstable/src/table_builder.rs:73-75 | writes the current block exactly if it is too large, and leaves the contents as they were |
| TableBuilders.TableBuilder.WriteDataBlock | sstable/src/table_builder.rs:85-99 | the block can be read back through its index entry, whose key separates it from what follows |
| TableBuilders.TableBuilder.Flush | sstable/src/table_builder.rs:101-117 | blocks, index, bounds and filter are those of exactly the added entries; if keys, values and 32 bytes per entry stay below 4 GB the file can be read back as a table of them, and every handle fits the 16-byte buffer |
| TableFormat.IndexSorted | sstable/src/table_builder.rs:85-99 | index keys strictly increase |
| TableFormat.FrameRoundTrip | sstable/src/block.rs:40-73 | a block written with type byte and masked checksum is read back |
| TableSizes.SmallIsInRange | sstable/src/block_builder.rs:110-122 | small entries give blocks, an index and offsets that fit the stored integers, whatever the block size and restart interval |
| TableSizes.HandleBound | sstable/src/table_builder.rs:91-94 | an encoded handle takes at most ten bytes and is the place of its block in the file |
| TableSizes.FrameTotalBound | sstable/src/table_builder.rs:88-89 | the data part of the file is at most six times the weight of the entries |
| TableSizes.BodyBound | sstable/src/block_builder.rs:91-101 | the entry area of a block is at most keys, values and 15 bytes per entry |
| TableSizes.IndexWeight | sstable/src/table_builder.rs:85-99 | the index weighs no more than the entries |
| Coding.VarLength | sstable/src/block_handle.rs:41-47 | a varint takes one byte per seven bits |
| SstableBuilders.SkipListToSstable | mirdb-server/src/sstable_builder.rs:20-42 | a memtable with small entries and NUL-free keys becomes an open table that holds exactly its entries; an empty one becomes none; the tables open before stay open and at most one cache id is used |
| SstableBuilders.WriteSstable | mirdb-server/src/sstable_builder.rs:25-36 | the file represents exactly the memtable's entries |
| SstableBuilders.AddAll | mirdb-server/src/sstable_builder.rs:32-34 | the loop adds every entry in order |
| SstableBuilders.BuildThenGet | mirdb-server/src/sstable_builder.rs:20-42 | build, open, look up: for every key the answer is the memtable's |
| TableCompactions.FlushAll | mirdb-server/src/data_manager.rs:253-259 | any number of memtables become open tables on one cache, one for each that is not empty, in order |
| TableCompactions.FlushThenMerge | mirdb-server/src/data_manager.rs:331-349 | flush memtables on a new cache, open the files, merge them: the result is the merge of the memtables |
| TableCompactions.CompactTables | mirdb-server/src/data_manager.rs:331-379 | open tables in, open tables out: each output holds exactly one piece of the merged stream, cut where a table has reached its size; the inputs stay open |
| TableCompactions.TakeEntry | mirdb-server/src/data_manager.rs:349-372 | one round of the compaction loop on files keeps that |
| TableCompactions.AddEntry | mirdb-server/src/data_manager.rs:350-361 | the table being written takes one entry more and is started if there is none |
| TableCompactions.CloseTable | mirdb-server/src/data_manager.rs:367-370 | a finished table is open and holds exactly what was added |
| TableCompactions.CloseBeside | mirdb-server/src/data_manager.rs:367-371 | closing a table disturbs neither the merger at work nor the tables opened before |
| TableCompactions.CloseLast | mirdb-server/src/data_manager.rs:374-379 | the last piece becomes the last table |
| Separators.FindShortestSep | sstable/src/util.rs:10-41 | is above a and at most one byte longer; is below b if and only if b is not a followed by one zero byte; ends at the first place behind the common prefix where a byte fits in between |
| Separators.FindShortSucc | sstable/src/util.rs:43-57 | is above a, not empty, at most one byte longer and NUL-free, and no longer than up to the first byte of a that is not 0xff |
| Separators.NoKeyBeforeZeroSuffix | sstable/src/util.rs:36-40 | no key lies between a and a followed by one zero byte |
| BlockBuilders.BlockBuilder.constructor | sstable/src/block_builder.rs:30-46 | an empty block |
| BlockBuilders.BlockBuilder.Add | sstable/src/block_builder.rs:64-108 | the block holds one entry more, stored with its shared prefix or as a restart |
| BlockBuilders.BlockBuilder.WriteEntry | sstable/src/block_builder.rs:91-101 | appends sizes, own key part and value |
| BlockBuilders.BlockBuilder.Finish | sstable/src/block_builder.rs:110-122 | the written bytes are the block format of exactly the added entries |
| BlockBuilders.BlockBuilder.EstimateIsLength | sstable/src/block_builder.rs:60-62 | the size estimate is the length of the finished block |
| BlockBuilders.SharedPrefix | sstable/src/block_builder.rs:75-82 | computes the longest common prefix |
| BlockFormat.EntryAt | sstable/src/block_builder.rs:89-101 | entry i lies at its offset |
| BlockFormat.HeaderAt | sstable/src/block_iter.rs:78-95 | reading at that offset gives the entry's sizes, its own key part and its value |
| BlockFormat.RestartAt | sstable/src/block_iter.rs:73-76 | the stored restart offsets are the offsets of every interval-th entry |
| BlockFormat.RestartsExactly | sstable/src/block_builder.rs:75-88 | exactly every interval-th entry is a restart point |
| BlockFormat.RestartCountStored | sstable/src/block_iter.rs:51-54 | the last word is the number of restarts |
| BlockIters.BlockIter.RestartCount | sstable/src/block_iter.rs:51-54 | reads that number |
| BlockIters.BlockIter.ParseEntryAndAdvance | sstable/src/block_iter.rs:78-95 | reads the sizes and moves behind the entry |
| BlockIters.BlockIter.Next | sstable/src/block_iter.rs:116-140 | moves a cursor over the added entries forward |
| BlockIters.BlockIter.Advance | sstable/src/block_iter.rs:116-140 | from any place where the next entry can be decoded it lands on that entry |
| BlockIters.BlockIter.Prev | sstable/src/block_iter.rs:142-165 | moves the cursor back, at the front to before-first |
| Cursors.BackAndForth | sstable/src/block_iter.rs:142-165 | going back undoes going forward and the other way round, except that from the exhausted state the last entry is passed over |
| BlockIters.BlockIter.RestartBefore | sstable/src/block_iter.rs:149-152 | finds a restart point before the current entry |
| BlockIters.BlockIter.RescanTo | sstable/src/block_iter.rs:154-162 | scanning on from there stops at the entry before the current one |
| BlockIters.BlockIter.SeekToRestartPoint | sstable/src/block_iter.rs:56-71 | lands on the entry of the restart point |
| BlockIters.BlockIter.Seek | sstable/src/block_iter.rs:187-217 | lands on the first entry not below the target, as a linear scan would, from any state |
| BlockIters.BlockIter.SearchRestart | sstable/src/block_iter.rs:190-206 | the binary search stops at a restart point with nothing relevant before it |
| BlockIters.BlockIter.ScanTo | sstable/src/block_iter.rs:209-216 | the scan after it ends on the first entry not below the target |
| BlockIters.BlockIter.SeekToLast | sstable/src/block_iter.rs:219-237 | lands on the last entry |
| BlockIters.BlockIter.CurrentKV | sstable/src/block_iter.rs:167-181 | gives the entry the cursor is on |
| Coding.VarRoundTrip | sstable/src/block_handle.rs:16-27 | a varint is read back with its length, whatever follows it |
| Coding.HandleRoundTrip | sstable/src/block_handle.rs:16-48 | a block handle is read back |
| Coding.Fixed32RoundTrip | sstable/src/block_builder.rs:110-122 | a fixed 32-bit number is read back |
| Coding.Fixed32Truncates | sstable/src/block_builder.rs:110-122 | writing a number keeps its low 32 bits only |
| Coding.Fixed64Injective | sstable/src/table_reader.rs:108-117 | 64-bit numbers have different encodings |
| Coding.MaskRoundTrip | sstable/src/util.rs:59-66 | unmasking a masked checksum restores it |
| SkipLists.SkipList.constructor | skip-list/src/list.rs:42-57 | an empty list |
| SkipLists.SkipList.Get | skip-list/src/list.rs:91-105 | is the lookup in the finite map the list denotes |
| SkipLists.SkipList.Descend | skip-list/src/list.rs:201-221 | one level of the descent stops at the last node of that level below the key |
| SkipLists.SkipList.GetLowerBound | skip-list/src/list.rs:201-221 | the descent ends where a scan of level 0 would |
| SkipLists.SkipList.GetLowerBoundAndUpdates | skip-list/src/list.rs:161-199 | and the updates are the last nodes below the key on every level |
| SkipLists.SkipList.Insert | skip-list/src/list.rs:123-148 | changes one key of the map and keeps the chains; a new key gets a node of the drawn height, an old one keeps its node; returns the value overwritten |
| SkipLists.SkipList.InsertNode | skip-list/src/list.rs:134-147 | linking a new node of the drawn height inserts its entry and raises the list to at least that height |
| SkipLists.SkipList.Link | skip-list/src/list.rs:136-143 | splices the node into every chain up to its height and no other |
| SkipLists.SkipList.LinkLevel | skip-list/src/list.rs:138-142 | one level of that: the chains below it already contain the node, the others do not yet |
| SkipLists.SkipList.Remove | skip-list/src/list.rs:223-251 | removes that key only, returns the old value, and keeps the chains |
| SkipLists.SkipList.RemoveNode | skip-list/src/list.rs:235-248 | unlinking the node of a key removes its entry |
| SkipLists.SkipList.Unlink | skip-list/src/list.rs:235-241 | cuts the node out of every chain |
| SkipLists.SkipList.Clear | skip-list/src/list.rs:82-87 | leaves the empty map |
| SkipLists.SkipList.Clone | skip-list/src/list.rs:279-286 | a new list, with heights of its own, that denotes the same map |
| SkipLists.SkipList.CopyInto | skip-list/src/list.rs:281-283 | the copying loop appends every entry and leaves the original alone |
| SkipLists.SkipList.StepFrom | skip-list/src/list.rs:281 | level 0 visits the entries in order |
| Runs.InsertFind | skip-list/src/list.rs:123-148 | an insert changes the lookup of its key only |
| Runs.RemoveFind | skip-list/src/list.rs:223-251 | a removal changes the lookup of its key only |
| Runs.SortedExtensional | skip-list/src/list.rs:91-105 | sorted entries are determined by their lookups, so a run is a finite map |
| Wals.Padding | mirdb-server/src/wal.rs:40-42 | less than eight bytes, and record starts stay aligned |
| Wals.WalSeg.constructor | mirdb-server/src/wal.rs:60-72 | an empty segment |
| Wals.WalSeg.Append | mirdb-server/src/wal.rs:82-123 | the file is the encoding of one record more |
| Wals.WalSegIter.constructor | mirdb-server/src/wal.rs:159-171 | the reader stands before the first record |
| Wals.WalSegIter.Next | mirdb-server/src/wal.rs:177-209 | gives the next appended record, or the end after the last |
| Wals.ReadSegment | mirdb-server/src/wal.rs:177-209 | a segment is read back exactly, in order, for all record lengths |
| Wals.ReadLog | mirdb-server/src/wal.rs:322-334 | the log iterator yields the concatenation of all segments |
| Wals.ConcatRecordsJoin | mirdb-server/src/wal.rs:322-334 | the records of earlier segments come before those of later ones |
| Wals.PathOrderExact | mirdb-server/src/utils.rs:11-13 | consecutive segments sort by path in creation order if and only if the first and the last name have the same length |
| Wals.WidthInDigits | mirdb-server/src/utils.rs:11-13 | that is, if and only if the numbers are below 100000000 or all have the same number of digits |
| Wals.SameWidthInOrder | mirdb-server/src/wal.rs:219-227 | names of the same length sort like their numbers |
| Wals.OrderBreaksAt | mirdb-server/src/utils.rs:11-13 | where the names get longer, the first longer one sorts before the last shorter one |
| Wals.NamesDiffer | mirdb-server/src/utils.rs:11-13 | different numbers have different names |
| WalLogs.OpenSegments | mirdb-server/src/wal.rs:219-247 | from a directory listed in any order, recovers the non-empty segments in creation order and removes the empty files, if the names are in order |
| WalLogs.Wal.constructor | mirdb-server/src/wal.rs:219-247 | the log left behind by an earlier process; the counter starts at 0 |
| WalLogs.Wal.ReopenableExactly | mirdb-server/src/wal.rs:219-247 | the segments of a log are found in order again if and only if the oldest and the newest name have the same length |
| WalLogs.Wal.Append | mirdb-server/src/wal.rs:253-261 | one record more in the newest segment; only the first record creates a segment and moves the counter |
| WalLogs.Wal.NewSeg | mirdb-server/src/wal.rs:277-285 | an empty segment behind all others, under the counter's number, and the counter goes up by one |
| WalLogs.Wal.ConsumeSeg | mirdb-server/src/wal.rs:270-275 | drops the oldest segment and its file and nothing else |
| WalLogs.Wal.CurrentSegSize | mirdb-server/src/wal.rs:287-292 | the size of the newest segment's encoding |
| WalLogs.SortPathsSorted | mirdb-server/src/wal.rs:227 | sorting paths puts the names in order and loses none |
| WalLogs.SortedListing | mirdb-server/src/wal.rs:219-227 | sorting a listing gives the segments back in their order if and only if their names are in order |
| WalLogs.RangeInOrder | mirdb-server/src/wal.rs:277-298 | for consecutive numbers that is decided by the first and the last |
| ParserCombinators.CompareMeaning | mirdb-server/src/parser_util/macros.rs:31-43 | a match is a prefix; too short is a proper prefix of the tag |
| ParserCombinators.TagStable | mirdb-server/src/parser_util/macros.rs:64-78 | a matched tag stays matched and a rejected one rejected when input is added |
| ParserCombinators.IsNotStable | mirdb-server/src/parser_util/macros.rs:51-61 | a key that was ended by a stop byte is final |
| ParserCombinators.SpaceStable | mirdb-server/src/parser_util/macros.rs:368-378 | the same for spaces |
| ParserCombinators.DigitStable | mirdb-server/src/parser_util/macros.rs:338-356 | the same for numbers |
| ParserCombinators.TakeAtLeastLoop | mirdb-server/src/parser_util/macros.rs:94-124 | the search loop takes everything up to the first tag at or behind the announced length |
| ParserCombinators.TakeAtLeastStable | mirdb-server/src/parser_util/macros.rs:94-124 | a payload ended by a tag is final |
| ParserCombinators.SplitLoop | mirdb-server/src/parser_util/macros.rs:127-159 | the alternating loop is the recursive splitting into keys |
| ParserCombinators.SplitStable | mirdb-server/src/parser_util/macros.rs:127-159 | a key list ended by another byte is final |
| ParserCombinators.OptStable | mirdb-server/src/parser_util/macros.rs:261-285 | optional parts keep stability |
| ParserCombinators.ThenTight | mirdb-server/src/parser_util/macros.rs:168-246 | a chain that ends in a final part is final |
| ParserCombinators.AltTight | mirdb-server/src/parser_util/macros.rs:288-309 | alternatives with different first bytes do not disturb each other |
| Parsers.ParseStable | mirdb-server/src/parser.rs:111-114 | a parsed request stays the same when bytes are added, they join the remainder, and parsing always consumes |
| Parsers.ParsedIsSound | mirdb-server/src/parser.rs:7-109 | whatever is parsed has non-empty keys without NUL or separators, numbers in range, and a payload of at least the announced length |
| RequestTexts.ParseRoundTrip | mirdb-server/src/parser.rs:19-114 | every request a client can write is read back with nothing left over: payloads of the announced length with any bytes, and longer ones up to their line end |
| RequestTexts.ParseFirst | mirdb-server/src/parser.rs:111-114 | and the same with any bytes behind it |
| RequestTexts.ReadSetter | mirdb-server/src/parser.rs:56-83 | the storage commands |
| RequestTexts.PayloadExact | mirdb-server/src/parser_util/macros.rs:94-124 | the payload is everything up to the first line end at or behind the announced length; without one the command is waited for |
| RequestTexts.ReadGetter | mirdb-server/src/parser.rs:19-31 | the retrieval commands, for any number of keys |
| RequestTexts.ReadDeleter | mirdb-server/src/parser.rs:85-99 | the delete command |
| RequestTexts.SetterLine | mirdb-server/src/parser.rs:56-83 | a storage command on the wire: name, key, flags, time to live and length between spaces, `noreply` or nothing, line end, payload, line end |
| RequestTexts.OtherLines | mirdb-server/src/parser.rs:19-109 | the other requests on the wire |
| RequestTexts.Words | mirdb-server/src/parser.rs:9-109 | the words of the protocol in ASCII |
| RequestTexts.SpacesExact | mirdb-server/src/parser_util/macros.rs:368-378 | spaces are taken as far as they go, and there must be one |
| RequestTexts.KeyTokenExact | mirdb-server/src/parser.rs:7-7 | a key is taken up to the first space, tab, line end or NUL and is empty only at the end of the input |
| RequestTexts.NumberExact | mirdb-server/src/parser_util/macros.rs:338-367 | a number that does not fit its integer type is rejected, and so is the absence of one |
| RequestTexts.DecimalDigits | mirdb-server/src/parser_util/macros.rs:338-356 | digits are read in base ten |
| RequestCuts.ParseCut | mirdb-server/src/parser.rs:111-114 | a proper beginning of a request is rejected exactly at the listed cuts and waited for everywhere else |
| RequestCuts.CutSetter | mirdb-server/src/parser.rs:56-83 | storage commands are rejected when cut between their name and the first digit of the length |
| RequestCuts.CutGetter | mirdb-server/src/parser.rs:19-31 | `gets` is rejected when cut behind its name, `get` never |
| RequestCuts.CutDeleter | mirdb-server/src/parser.rs:85-99 | `delete` is rejected when cut behind its name |
| Codecs.Connection.Decode | mirdb-server/src/proto.rs:37-50 | a whole request is taken from the front, a rejected buffer is dropped and answered by an error, an unfinished one is kept |
| Codecs.Connection.Receive | mirdb-server/src/proto.rs:37-50 | decoding until nothing comes drains the buffer |
| Codecs.DrainEncoded | mirdb-server/src/proto.rs:37-50 | concatenated requests come out as exactly that list, and what follows them is untouched |
| Codecs.DrainSplit | mirdb-server/src/proto.rs:37-50 | as long as nothing was rejected, it does not matter where the stream was cut |
| Codecs.ChunkedDecoding | mirdb-server/src/proto.rs:37-50 | the text of any requests, in any chunks, yields exactly those requests if and only if no chunk ends at a rejecting cut; otherwise an error is reported |
| Stores.Store.Apply | mirdb-server/src/store.rs:77-187 | the reply and the new contents are those of the request on a map, which `StoringRules`, `ReplyRules` and `ItemsAreLive` spell out; refused commands change nothing; `info` shows the files of every level; a requested compaction moves the tables of its level |
| Stores.StoringRules | mirdb-server/src/store.rs:122-173 | when a storage command stores and is answered STORED, that it changes nothing otherwise, and what is under its key afterwards: data, flags, time to live, length and time of storing |
| Stores.ReplyRules | mirdb-server/src/store.rs:77-187 | which reply each command gets, that deleting takes one key away, and that contents change only with STORED and DELETED |
| Stores.ItemsAreLive | mirdb-server/src/store.rs:80-92 | the items of a retrieval are exactly the live keys asked for, in order and as often as asked |
| Stores.ItemsConcat | mirdb-server/src/store.rs:81-92 | a retrieval of two key lists in a row is the one after the other |
| Stores.TooLongIsRefused | mirdb-server/src/store.rs:107-109 | a storage command whose payload is longer than announced is read to its line end, refused as a bad data chunk and changes nothing; what follows is read on |
| Stores.Store.Put | mirdb-server/src/store.rs:122-173 | `set` always stores, `add` only a new key, `replace`, `append` and `prepend` only a stored one; the contents change at that key or not at all |
| Stores.Store.Retrieve | mirdb-server/src/store.rs:79-97 | gives exactly the stored and unexpired keys among those asked for, in the order asked, each with its data, flags and length |
| Stores.Store.Get | mirdb-server/src/data_manager.rs:220-226 | a removed key is not found |
| Stores.Store.Insert | mirdb-server/src/data_manager.rs:172-184 | changes the payload of its key only |
| Stores.Store.Remove | mirdb-server/src/data_manager.rs:229-238 | returns the payload and takes the key away; nothing is written if it was not there |
| Stores.Store.Compact | mirdb-server/src/store.rs:181-184 | a requested compaction changes no payload and takes the tables of its level down |
| Stores.StepTruthful | mirdb-server/src/store.rs:98-174 | every decoded request keeps stored lengths true and is answered with true lengths |
| Stores.RunTruthful | mirdb-server/src/store.rs:98-174 | so does every run of decoded requests |
| Stores.EveryItemAnnouncesItsLength | mirdb-server/src/store.rs:79-97 | every item of every answer along every run announces its true length |
| Stores.ChainData | mirdb-server/src/store.rs:144-171 | after any chain of append and prepend, mixed with any requests for other keys, the value is prepends, original, appends |
| Stores.EveryRunIsWritable | mirdb-server/src/sstable_builder.rs:20-42 | along every run of decoded requests each memtable and table is sorted, without empty keys and without NUL, as writing it to a file needs |
| Stores.WrittenThenRead | mirdb-server/src/store.rs:79-178 | until a key is touched again, a later `get` shows exactly the bytes, length and flags that `set` stored, or nothing once expired or deleted; a command with a wrong payload length changed nothing |
| Stores.Untouched | mirdb-server/src/store.rs:77-187 | requests for other keys leave a key alone |
| Stores.DrainDecoded | mirdb-server/src/proto.rs:37-50 | everything the decoder yields is an error or a well-formed request |
| Stores.LiveWrite | mirdb-server/src/data_manager.rs:176-184 | writing a payload or its removal through the serialisation |
| Stores.Server.Serve | mirdb-server/src/store.rs:77-187 | every complete request is answered in order on what the ones before it left, the incomplete rest stays in the connection, and all lengths are true |
| Stores.Server.ServeAll | mirdb-server/src/store.rs:77-187 | a whole session of chunks: answers, data and remaining bytes |
| Stores.ServedAsWritten | mirdb-server/src/proto.rs:37-50 | however a client's requests are cut, if no cut is a rejecting one the session answers exactly those requests in order |
| Stores.SessionRequests | mirdb-server/src/proto.rs:37-50 | the calls of a session are the requests its connection decodes |
| Stores.AnswersAt | mirdb-server/src/store.rs:77-187 | answer i is given on the data the calls before it left |
| Stores.RunConcat | mirdb-server/src/store.rs:77-187 | two runs of calls in a row are one run |

## Left out

- Crash points inside the commit of a compaction: the old files leave manifest and disk before the new ones are added, so the commit is one step here.
- What lookups return after two overlapping major compactions: `Engine` has one in flight at a time, `ScheduledRuns.SchedulesAreRuns` says exactly when that holds.
- File numbers of a compaction's outputs are taken as one block; in the code a flush may draw a number in between. Numbers are unique either way.
- `compute_compaction_levels`: the floating-point scoring is replaced by any choice of a non-empty level above the last one.
- `TableIter::seek_to_last`, `Merger::prev`, `Merger::seek`, `Merger::seek_to_last`: unused or unimplemented.
- `prev` right after an outside `reset` of a block iterator, or after a table seek that found nothing.
- Atomicity of `remove` and of add, replace, append and prepend across clients: they read and then write without holding a lock.
- Engine.FlushAddInv: the table file is represented by its entries; that a file holds and returns them is `SstableBuilders.BuildThenGet`.
- Mergers.Merger.Advance: works on cursors over runs; the same algorithm on table iterators is `TableMergers.TableMerger.Advance`.
- Compaction.WriteMerged: works on runs; the same loop on open table files is `TableCompactions.CompactTables`.
- TableBuilders.TableBuilder.Flush: nothing is promised about reading back entries of 4 GB and more, where the code casts sizes to 32 bits without checking. A block size below 8, where the first block would be empty, is excluded.
- DataManagers.DataManager.Insert: keys are not empty, as the grammar ensures; block iterators treat an empty key as no entry.
- DataManagers.DataManager.Get: memtables and log are values here; `SkipLists` and `WalLogs` have them as heap nodes and files.
- Engine.CrashRecovers: recovery sees the segments in creation order; `WalLogs.Wal.ReopenableExactly` says when it does, which is always below 100000000 segments since the last start.
- DataManagers.DataManager.Restart: stops between operations; crashes inside operations are steps of `Engine`.
- Stores.Store.Apply: one clock value per call, no overflow of summed lengths; the `info` reply is the listing of files, not its text.
- Bytes of the meta block and the footer: tables carry their decoded contents.
- Snappy, checksum, bincode, cuckoo filter and LRU internals (a cache has room for at least one block); failing reads, torn writes, fsync and memory mapping.
- Raw-pointer freeing in the skip list and its random source.
- Configuration, response text, thread pool, error types.
