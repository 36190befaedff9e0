# blitzdb, modelled and proved in Dafny

This project models the parts of the database whose correctness rests on an argument
rather than on a line of code, and proves that argument.

| files | what they are about |
|---|---|
| `RowReplay`, `Recovery`, `Durable`, `RecoveryRun` | recovery from a snapshot and log files that overlap it |
| `EngineHistory`, `CellContents` | the logged histories: runs of the table engine with its refusals; what recovery leaves of a cell |
| `Rotation`, `Leftovers`, `Allocators` | crash-safe rotation, failed truncations, sharded logs, what rotation does to the next ids |
| `UniqueColumns`, `JsonValues` | why recovery builds tables without unique columns, the JSON form of values |
| `GroupCommit`, `GroupThread`, `CrashRecovery` | the group-commit thread: as a step system over all interleavings, as its loop, and what is recovered after a crash |
| `TableSpec`, `RowStore` | one table with unique indexes, against a linear-scan specification |
| `Wire`, `WireLaws`, `WireIo`, `Listings`, `Framing` | the wire codec: grammar, round trips, writer and reader, framing over chunks |
| `WireCodes`, `Utf8` | the codes, layouts and limits of the wire format, against the Python client's reader; what counts as text |
| `ClientWorker` | the client's batching worker with reconnect and one conditional resend |
| `Procedures`, `ProcedureRunner`, `ProcedureCalls`, `DeployCheck` | the fuelled procedure runner, the second interpreter, what steps do to a store, and the deploy check |
| `Like`, `ValueOrder`, `StableSort`, `QueryRows`, `GroupBy` | LIKE, the order of values, sorting and paging, GROUP BY |
| `Base64`, `Calendar`, `PythonDates` | base64 literals, the date arithmetic of the Python client and its dates on the wire |
| `Types` | values, with integer widths written out |

Code that updates state is a class or a method with loops, proved against a function of
the old state; the properties are lemmas about those functions. `dafny verify dfyconfig.toml`
checks the project.

## Choices

- Text is its UTF-8 bytes (section 3 of RFC 3629), floats are their raw bits, timestamps are
  microseconds. A map that is enumerated from a hash map is a listing in an arbitrary order.
- The network, the clock, the storage backend, file appends and syncs, and the turns of
  other threads are oracles: functions of a consultation counter or of the calls so far.
- Text rendering of dates, uuids and JSON, the widening of a 32-bit float, float addition and
  division, and lower-casing are parameters. Theorems about the order of values ask the JSON
  rendering to be lossless.
- A file that cannot be read back is an empty log; a log's first sequence number is at least 1.
- An allocator that would pass the largest u64 fails, as in a build with overflow checks;
  `TableSpec.WrappingRunIff` says what a build without them does.

## Where the code and its documentation disagree

The model follows the code.

- The comment at `crates/blitz-runtime/src/runner.rs:115` says that a return unwinds to the
  call root. It ends the list it stands in. `Procedures.UnwindsIff` says exactly when a run
  comes out as the comment has it, `Procedures.LastReturnsUnwind` which procedures always do,
  and `Procedures.BranchReturnEndsIff` what decides for a single If.
- The comment at `clients/py/blitz_client/values.py:105` says the day numbers match chrono's,
  which count 0001-01-01 as day 1. They are one less for every date
  (`Calendar.OneBelowCommonEra`), and they are what the Python client puts on the wire, so
  neither side reads the other's dates
  (`PythonDates.RustRejectsPythonDates`, `PythonDates.PythonRejectsRustDates`).
- LIKE does not anchor a last piece that is not empty at the end of the string; see
  `Like.LikeIsExactIff`.
- The step limit of the deploy check reads as a limit on procedures but holds for each list
  alone. It keeps procedures within the default fuel up to one level of steps and no further;
  see `DeployCheck.FuelSufficesIff`.
- The comment at `crates/blitz-server/src/durability.rs:490` says that rotation truncates all log
  files. A truncation that fails is ignored. That is safe exactly when no row has entries in two
  files; see `Leftovers.LayoutIsSafeIff`.

## Model

| member | source | states |
|---|---|---|
| `RowReplay.FuzzyRecoveryExact` | crates/blitz-server/src/durability.rs:512-615 | For one row's log and base state: a snapshot after any k entries plus a replay of any m..n with m <= k <= n ends where the whole log does, for all m, k, n, if and only if no update that once found the row missing disagrees with the next insert |
| `RowReplay.FuzzyRecovery` | crates/blitz-server/src/durability.rs:512-615 | The same for given m, k, n, from stale-free logs |
| `RowReplay.ReplayAgain` | crates/blitz-server/src/durability.rs:544-613 | Replaying a stretch m..k over the state it led to gives that state back |
| `RowReplay.AcceptedIsOrderly` | crates/blitz-core/src/table.rs:244-296 | A history of one row in which inserts find the row missing and updates find it never has an insert right after an update |
| `RowReplay.OrderlyIsStaleFree` | crates/blitz-server/src/durability.rs:544-613 | Such a history is safe to replay over any base state |
| `RowReplay.PresentUpdatesAreStaleFree` | crates/blitz-server/src/durability.rs:544-613 | So is a log whose updates all hit a present row |
| `RowReplay.DeleteForgets` | crates/blitz-server/src/durability.rs:585-600 | After a delete the earlier state of the row does not matter |
| `RowReplay.StaleUpdateShows` | crates/blitz-server/src/durability.rs:544-613 | A log with a disagreeing stale update recovers wrongly at the snapshot right after the insert |
| `Durable.FuzzySnapshotRecovery` | crates/blitz-server/src/durability.rs:466-615 | Fuzzy-snapshot recovery over whole directories: from any live state and any history whose updates hit present rows, a snapshot that saw the row as it was after k writes, with any k for each row, and files holding its writes m..n (m <= k <= n) recover the row to its state after n writes, up to the JSON normal form |
| `Durable.LogFollowsHistory` | crates/blitz-server/src/durability.rs:377-381 | The log of a history, seen through one row, runs to the JSON normal form of that row's live state |
| `Durable.HistoryIsOrderly` | crates/blitz-server/src/durability.rs:544-613 | The log of accepted writes has no insert right after an update of the same row, for every row |
| `Durable.UpdatesArePresent` | crates/blitz-server/src/durability.rs:544-613 | Updates that hit live rows are updates of present rows in the logged history |
| `Durable.NormApply` | crates/blitz-server/src/durability.rs:383-431 | Taking the JSON normal form and applying an operation can be done in either order |
| `JsonValues.JsonIsFixed` | crates/blitz-server/src/durability.rs:383-431 | value_to_json(json_to_value(j)) == j for every JSON value |
| `JsonValues.NormIsIdempotent` | crates/blitz-server/src/durability.rs:383-431 | A value that has been through JSON once is not changed by going through again |
| `JsonValues.JsonRowIsFixed` | crates/blitz-server/src/durability.rs:383-431 | The same for whole rows |
| `CellContents.CellComesBack` | crates/blitz-server/src/durability.rs:383-431 | What every cell comes back as after JSON, said of values: integers of all eight widths keep their number, booleans, texts and finite doubles stay, decimals become text, uuids, instants and dates their text, non-finite floats null, bytes and arrays lists of the same length with each item come back, nested to any depth |
| `CellContents.UnchangedIff` | crates/blitz-server/src/durability.rs:383-431 | A cell comes back as it was exactly when it is null, a boolean, an i64, a text, a u64 from 2^63 on, a finite double, or a JSON list or object |
| `CellContents.FiniteIff` | crates/blitz-server/src/durability.rs:397-397 | A double is finite unless its exponent is all ones, whatever its sign and mantissa |
| `CellContents.NonFinite32Iff` | crates/blitz-server/src/durability.rs:396-396 | The same for 32-bit floats |
| `EngineHistory.EngineRunsAreHistories` | crates/blitz-server/src/transport.rs:341-354 | The writes the server logs of any run of the table engine, with any schemas, unique columns and refused operations, are a history whose inserts are new and whose updates hit live rows, and it leads to exactly the engine's rows |
| `EngineHistory.EngineRecovers` | crates/blitz-server/src/durability.rs:466-615 | Fuzzy-snapshot recovery for engine runs: a snapshot that saw the row at any point a of the run, and files holding its logged writes from any point before a up to b, recover the row the engine had at b, up to the JSON normal form |
| `CellContents.EngineCellsRecover` | crates/blitz-server/src/durability.rs:466-615 | Under the same conditions the recovered row has exactly the columns the engine's row had at b, each with what its cell comes back as |
| `CellContents.IntegersRecover` | crates/blitz-server/src/durability.rs:383-431 | So an integer cell with number n in the engine's row is an integer cell with number n in the recovered one |
| `EngineHistory.EngineLogsAreClean` | crates/blitz-server/src/durability.rs:490-508 | Files holding any stretch of a row's logged writes of an engine run meet what the rotation theorems ask of them |
| `EngineHistory.EngineRowsAreOrderly` | crates/blitz-core/src/table.rs:244-296 | The logged history of every row of an engine run inserts it only when missing and updates it only when present, so it has no insert right after an update |
| `EngineHistory.TableStepIsLogged` | crates/blitz-server/src/transport.rs:421-435 | One table operation changes the rows exactly as its logged write says, an update with the whole merged row, and a refused one is not logged and changes no row |
| `CrashRecovery.CrashRecovers` | crates/blitz-server/src/durability.rs:127-340 | From the writers' threads to the recovered rows: for any history, any interleaving of the sharded log threads over files that may hold earlier writes, any crash and any snapshot of the row no later than what its file kept, recovery gives the row as it was live after the writes of its table that were kept |
| `Recovery.ReplayByRow` | crates/blitz-server/src/durability.rs:544-613 | Replay of any entries, seen through one row, is the run of that row's own entries |
| `Recovery.SnapshotRestores` | crates/blitz-server/src/durability.rs:466-487 | Loading a snapshot gives exactly the tables and the normal forms of the rows it was taken of |
| `Recovery.RestoredInOrder` | crates/blitz-server/src/durability.rs:531-541 | Whatever order a snapshot lists its rows in they are restored by ascending id, each as often as it is listed |
| `Recovery.PassesOver` | crates/blitz-server/src/durability.rs:553-611 | Replay passes over entries the snapshot holds and transaction markers, applies all others, and takes an unreadable payload for an empty one |
| `Recovery.ComposedIdSplits` | crates/blitz-server/src/server.rs:438-445 | An id below 2^56 is its own local id under every shard tag, and the global id gives the shard back |
| `RecoveryRun.Recover` | crates/blitz-server/src/durability.rs:512-615 | The recovery loops leave the engine in the state the specification gives: the snapshot loaded, then every existing file replayed in order |
| `RecoveryRun.LoadSnapshot` | crates/blitz-server/src/durability.rs:516-543 | Table by table, the engine after loading is the specified one |
| `RecoveryRun.LoadTable` | crates/blitz-server/src/durability.rs:522-541 | Schema from the first row if the table is missing, rows restored in ascending id order |
| `RecoveryRun.ReplayLog` | crates/blitz-server/src/durability.rs:544-613 | All entries of one file, in order |
| `RecoveryRun.ReplayOne` | crates/blitz-server/src/durability.rs:553-611 | One entry: filtered by sequence, inserts creating the table, ids cut to their low 56 bits |
| `RecoveryRun.EnsureTable` | crates/blitz-server/src/durability.rs:556-575 | The table exists afterwards and no other table changed |
| `RecoveryRun.InferSchema` | crates/blitz-server/src/durability.rs:450-460 | A guessed schema has no unique column |
| `RecoveryRun.Engine.Adopt` | crates/blitz-core/src/table.rs:340-348 | A new table enters the engine and nothing else changes |
| `RecoveryRun.Engine.CreateTable` | crates/blitz-core/src/table.rs:340-348 | A missing table is created empty; an existing one is kept |
| `RecoveryRun.Engine.Apply` | crates/blitz-core/src/table.rs:394-411 | One operation on one table, the others unchanged; a missing table is skipped |
| `RecoveryRun.SaveSnapshot` | crates/blitz-server/src/durability.rs:467-487 | The snapshot lists every live row of every table once, rows by ascending id, stamped with sequence 0 |
| `RecoveryRun.SnapRows` | crates/blitz-server/src/durability.rs:470-481 | All rows of a table by ascending id, as JSON |
| `RecoveryRun.OfflineRotate` | crates/blitz-server/src/durability.rs:490-508 | Every directory state a crash during rotation can leave (before or after the rename, after any truncation) recovers to the same tables, rows and ids as before; at the end nothing is left to replay |
| `RecoveryRun.TruncateAll` | crates/blitz-server/src/durability.rs:498-506 | The truncation loop keeps that after each file |
| `RecoveryRun.RotationStepIsSafe` | crates/blitz-server/src/durability.rs:490-508 | New snapshot and first j files truncated: the same recovery, for every j |
| `RecoveryRun.DataDir.RenameSnapshot` | crates/blitz-server/src/durability.rs:482-486 | The snapshot is replaced in one step and the step recorded |
| `RecoveryRun.DataDir.TruncateFile` | crates/blitz-server/src/durability.rs:498-506 | One file becomes empty and the step is recorded |
| `Rotation.RotationKeepsRow` | crates/blitz-server/src/durability.rs:490-508 | For every row and every j, the row recovered after stopping at j is the row recovered before |
| `Rotation.RotationKeepsTables` | crates/blitz-server/src/durability.rs:490-508 | For every table and every j, the table exists after iff it did before |
| `Rotation.RecoveredIsNormal` | crates/blitz-server/src/durability.rs:383-431 | A recovered row is its own JSON normal form, so the second snapshot loses nothing |
| `Rotation.AcceptedHistoryIsClean` | crates/blitz-server/src/durability.rs:490-508 | Files that hold any stretch of an accepted history meet what the rotation theorems ask of a directory |
| `Leftovers.LayoutIsSafeIff` | crates/blitz-server/src/durability.rs:498-506 | Rotation ignores failed truncations: whichever files stay as they were, every clean directory recovers as before, if and only if no row may have entries in two files |
| `Leftovers.OneFileEachIsSafe` | crates/blitz-server/src/durability.rs:498-506 | When no row has entries in two files, every subset of untruncated files is harmless |
| `Leftovers.LeftoverRegresses` | crates/blitz-server/src/durability.rs:498-506 | When a row may have entries in two files there is a clean directory in which one failed truncation brings an old value of it back |
| `Leftovers.RoutedFilesAreSafe` | crates/blitz-server/src/durability.rs:321-327 | Files routed by table, as the shards are, are laid out safely |
| `Leftovers.RowSurvives` | crates/blitz-server/src/durability.rs:498-506 | A row with all its entries in one file recovers as before, whichever files stay |
| `Leftovers.TableSurvives` | crates/blitz-server/src/durability.rs:498-506 | A table exists after the rotation iff it did before, whichever files stay |
| `Allocators.RotatedAllocatorIff` | crates/blitz-server/src/durability.rs:466-508 | Snapshots carry no allocator: what is recovered after a rotation has a next id no larger than what was recovered before it, and an equal one exactly when the last id handed out is still live or none was |
| `Allocators.LoadedAllocatorIff` | crates/blitz-server/src/durability.rs:522-541 | The same for a table loaded from a snapshot of any table whose allocator is ahead |
| `Rotation.ShardedReplayCommutes` | crates/blitz-server/src/durability.rs:321-340 | For every routing by table, replaying the shard files one after another gives the state that replaying all entries in acceptance order gives |
| `Rotation.ReplayByTable` | crates/blitz-server/src/durability.rs:544-613 | The final state of a table depends only on the entries of that table |
| `UniqueColumns.ReplaySafeIffNoUniqueColumns` | crates/blitz-core/src/table.rs:244-296 | Replaying any final part of every accepted history over its own result is harmless exactly when the table has no unique column |
| `UniqueColumns.PlainTablesReplaySafely` | crates/blitz-server/src/durability.rs:450-460 | Without unique columns it is harmless for every state, history and part |
| `UniqueColumns.LosingHistoryAccepted` | crates/blitz-core/src/table.rs:244-296 | For every set of unique columns there is a history that is accepted step by step |
| `UniqueColumns.LosingHistoryLoses` | crates/blitz-core/src/table.rs:244-296 | and that loses a write when replayed, because an old update is refused |
| `GroupCommit.RunKeepsInv` | crates/blitz-server/src/durability.rs:127-206 | After every interleaving, from a file that may hold earlier writes: flushed <= synced <= file, and while no append failed, accepted writes are file, batch and channel in that order |
| `GroupCommit.CrashLeavesPrefix` | crates/blitz-server/src/durability.rs:127-206 | Whatever a crash leaves of the file is a prefix of what it held at the start and the accepted writes, at least as long as the old part and the flushed counter |
| `GroupCommit.FinalDrainIsEmpty` | crates/blitz-server/src/durability.rs:157-178 | The bounded drain after a disconnect never finds an entry, so its bound drops none |
| `GroupCommit.WorkerProgress` | crates/blitz-server/src/durability.rs:127-206 | After the disconnect every effective step of the thread lowers a bound on the work left |
| `GroupCommit.WorkerNeverStuck` | crates/blitz-server/src/durability.rs:127-206 | Until it has stopped the thread always has an effective step |
| `GroupCommit.ShutdownTerminates` | crates/blitz-server/src/durability.rs:127-206 | A disconnected thread makes no more steps than that bound |
| `GroupCommit.CleanShutdownLosesNothing` | crates/blitz-server/src/durability.rs:157-178 | When the thread has ended by itself the file is all accepted writes |
| `GroupCommit.ShardsInCluster` | crates/blitz-server/src/durability.rs:284-340 | In every run of the cluster each shard keeps its invariant and has accepted exactly the writes routed to it |
| `GroupCommit.CrashFilesArePrefixes` | crates/blitz-server/src/durability.rs:321-340 | After a crash every file is a prefix of its shard's share of the earlier and the accepted writes, with all earlier and all flushed ones |
| `GroupCommit.CrashRecoversPrefix` | crates/blitz-server/src/durability.rs:321-340 | Recovery from the files alone after any crash puts each table at a prefix of the writes accepted for it |
| `GroupThread.WalThread.TrySend` | crates/blitz-server/src/durability.rs:75-85 | An append is taken at the end of the channel, or refused and counted when the channel is full or the thread is gone |
| `GroupThread.WalThread.GroupLoop` | crates/blitz-server/src/durability.rs:139-206 | The thread's loop passes only through states the step system reaches; where it is cut the file starts the accepted writes with every flushed one, and when it ends the file is all of them. While appends and syncs succeed, n rounds put at least n batches of what was on the channel, or all of it, in order in the synced file, all counted, whether or not senders are connected |
| `GroupThread.WalThread.Round` | crates/blitz-server/src/durability.rs:141-202 | A round that takes nothing found nothing; it takes less than a batch only if it takes all that was there; what it takes and lands is in the file, synced and counted if the sync succeeds |
| `GroupThread.WalThread.Group` | crates/blitz-server/src/durability.rs:142-202 | A group takes at least one entry and at most a batch, in channel order, and closes short only when the channel is empty; every taken entry whose append succeeds is in the file at the end, and the counter grows by exactly those if the sync succeeds |
| `GroupThread.WalThread.Turns` | crates/blitz-server/src/durability.rs:139-206 | After n rounds n batches, or all that was on the channel at first, have left it |
| `GroupThread.WalThread.Fill` | crates/blitz-server/src/durability.rs:142-151 | Fills a group entry by entry with senders in between, in channel order, until it is full or the channel empty |
| `GroupThread.WalThread.WriteGroup` | crates/blitz-server/src/durability.rs:183-202 | Appends a group and syncs once: the file grows by the entries whose appends succeed, in order, and a sync that succeeds covers and counts them all |
| `GroupThread.WalThread.Finish` | crates/blitz-server/src/durability.rs:157-178 | The way out after the disconnect |
| `GroupThread.WalThread.DrainRest` | crates/blitz-server/src/durability.rs:159-164 | The bounded drain |
| `RowStore.InMemoryTable.Insert` | crates/blitz-core/src/table.rs:200-218 | The indexed insert does what the linear-scan specification does, outcome and table, and keeps the index exact |
| `RowStore.InMemoryTable.InsertUnchecked` | crates/blitz-core/src/table.rs:220-232 | The same without validation |
| `RowStore.InMemoryTable.Update` | crates/blitz-core/src/table.rs:244-297 | The two-phase update of rows and index does what the specification does and answers with the merged row |
| `RowStore.InMemoryTable.Take` | crates/blitz-core/src/table.rs:303-312 | Returns the row that was there, or none, and removes it and its index entries |
| `RowStore.InMemoryTable.InsertPreservingId` | crates/blitz-core/src/table.rs:394-411 | The same for restoring a row under its id |
| `RowStore.InMemoryTable.LookupByUnique` | crates/blitz-core/src/table.rs:365-392 | A lookup finds the one row a linear scan finds, or none; a column without an index is an error |
| `RowStore.InMemoryTable.CheckUniq` | crates/blitz-core/src/table.rs:134-150 | Reports a clash exactly when another live row holds one of the values |
| `RowStore.InMemoryTable.UniqCols` | crates/blitz-core/src/table.rs:125-132 | The unique columns of the schema, in order |
| `RowStore.InMemoryTable.IndexRow` | crates/blitz-core/src/table.rs:152-161 | Adds exactly the row's non-null unique values to the index |
| `RowStore.InMemoryTable.UnindexRow` | crates/blitz-core/src/table.rs:163-173 | Removes exactly the values the row no longer holds |
| `RowStore.ClashByIndex` | crates/blitz-core/src/table.rs:134-150 | With an exact index, looking a value up decides whether some other row holds it |
| `RowStore.MatchMeansUnique` | crates/blitz-core/src/table.rs:134-173 | An exact index means no two rows share a unique value |
| `RowStore.UniqueNamesAre` | crates/blitz-core/src/table.rs:125-132 | The unique columns are the primary key and those declared unique |
| `RowStore.AddKeepsMatch` | crates/blitz-core/src/table.rs:200-232 | Adding a row that clashes with none keeps the index exact |
| `RowStore.UpdateKeepsMatch` | crates/blitz-core/src/table.rs:244-297 | Dropping stale values and adding current ones keeps it exact |
| `RowStore.TakeKeepsMatch` | crates/blitz-core/src/table.rs:303-312 | Removing a row and its values keeps it exact |
| `TableSpec.RunKeepsSound` | crates/blitz-core/src/table.rs:200-411 | Every run of operations keeps unique columns unique and the allocator ahead of every live row |
| `TableSpec.FailureChangesNothing` | crates/blitz-core/src/table.rs:200-411 | A failed operation leaves the table as it was |
| `TableSpec.AllocatorNeverBacksUp` | crates/blitz-core/src/table.rs:118-123 | The next id never goes down along a run |
| `TableSpec.AllocatedIdIsNew` | crates/blitz-core/src/table.rs:118-123 | An insert never hands out an id that any row had at any earlier point of the run |
| `TableSpec.TakeGivesBack` | crates/blitz-core/src/table.rs:303-312 | Along any run, taking a row gives back the values it was stored with under all updates of it accepted since, whatever else happened to the table |
| `TableSpec.RowLivesOn` | crates/blitz-core/src/table.rs:244-297 | Until it is taken a row holds what it held, under the accepted updates since |
| `TableSpec.TakenStaysGone` | crates/blitz-core/src/table.rs:303-312 | A taken row cannot be taken again until it is restored |
| `TableSpec.AcceptedIff` | crates/blitz-core/src/table.rs:200-411 | Each operation is accepted exactly when: values valid where they are looked at, id there or free as needed, no unique value repeated by the row it would make, an id left |
| `TableSpec.FailureReason` | crates/blitz-core/src/table.rs:200-411 | And the reason of a refusal is the first of these that fails |
| `TableSpec.ClashIff` | crates/blitz-core/src/table.rs:134-150 | A write clashes exactly when carrying it out would break a unique column |
| `TableSpec.NullsNeverClash` | crates/blitz-core/src/table.rs:134-150 | Nulls in unique columns never clash |
| `TableSpec.AnswerIsState` | crates/blitz-core/src/table.rs:200-411 | The id in an answer is that of the stored row, the row in an answer is the row as it now is |
| `TableSpec.WrappingRunIff` | crates/blitz-core/src/table.rs:118-123 | Under wrapping arithmetic, along a run over u64 ids the allocator stays ahead of every live row throughout if and only if no restore and no insert takes the largest u64 |
| `TableSpec.WrapRunIsRun` | crates/blitz-core/src/table.rs:118-123 | Until that happens the wrapping table and the failing one are in the same state |
| `WireLaws.RequestRoundTrip` | crates/blitz-protocol/src/codec.rs:279-297 | Every request within the decoder's caps decodes to itself from its encoding, whichever order its maps are written in, by both decoders |
| `WireLaws.BatchRoundTrip` | crates/blitz-protocol/src/codec.rs:683-707 | The same for batches and atomic batches |
| `WireLaws.ResponseRoundTrip` | crates/blitz-protocol/src/codec.rs:299-352 | The same for responses |
| `WireLaws.BatchResponseRoundTrip` | crates/blitz-protocol/src/codec.rs:743-752 | The same for batch responses |
| `WireLaws.ValueReadsBack` | crates/blitz-protocol/src/codec.rs:141-228 | Every value of any nesting reads back from its bytes, with whatever follows left over |
| `WireLaws.JsonReadsBack` | crates/blitz-protocol/src/codec.rs:230-269 | The same for JSON |
| `WireLaws.MapReadsBack` | crates/blitz-protocol/src/codec.rs:271-277 | The same for maps |
| `WireLaws.RequestLayout` | crates/blitz-protocol/src/codec.rs:279-297 | Where kind, id, operation, table, row id and the value flag stand in the bytes of every request |
| `WireLaws.TruncationRejected` | crates/blitz-protocol/src/codec.rs:783-856 | No decoder accepts a strict prefix of a payload it accepts |
| `WireLaws.ValueExtends` | crates/blitz-protocol/src/codec.rs:430-496 | Reading a value is not changed by bytes appended behind it, on arbitrary input |
| `WireLaws.RequestExtends` | crates/blitz-protocol/src/codec.rs:559-587 | The same for request bodies |
| `WireLaws.ResponseExtends` | crates/blitz-protocol/src/codec.rs:589-619 | The same for response bodies |
| `Wire.DecValue` | crates/blitz-protocol/src/codec.rs:430-496 | On arbitrary bytes the reader ends, and a value read leaves strictly fewer bytes, which are the tail of the input |
| `Wire.DecJson` | crates/blitz-protocol/src/codec.rs:498-541 | The same for JSON |
| `Wire.DecRequest` | crates/blitz-protocol/src/codec.rs:559-587 | The same for request bodies |
| `Wire.DecResponse` | crates/blitz-protocol/src/codec.rs:589-619 | The same for response bodies |
| `WireCodes.OperationCodes` | clients/py/blitz_client/codec.py:26-32 | Both codecs number the operations 0 to 16 in the order of the Python client's table, and no other code is one |
| `WireCodes.PythonReadsRustValues` | clients/py/blitz_client/codec.py:346-391 | The Python reader, with its own tags, widths and byte order, reads every value without parts that the Rust writer puts on the wire, other than instants and dates |
| `WireCodes.PartsLayout` | crates/blitz-protocol/src/codec.rs:217-269 | Tags and counts of arrays, JSON lists and objects |
| `WireCodes.JsonLayout` | crates/blitz-protocol/src/codec.rs:230-269 | JSON without parts has the bytes of the plain value |
| `WireCodes.ResponseLayout` | crates/blitz-protocol/src/codec.rs:299-316 | Where kind, id, verdict and row count stand in every response |
| `WireCodes.BatchLayout` | crates/blitz-protocol/src/codec.rs:683-707 | Where kind, id and count stand in batches and batch responses |
| `WireCodes.ValuesRefuse` | crates/blitz-protocol/src/codec.rs:430-496 | No other tags than the twenty, and no array over 65536 items, are read |
| `WireCodes.JsonRefuses` | crates/blitz-protocol/src/codec.rs:498-541 | The same for JSON, its objects having at most 4096 members |
| `WireCodes.MapsRefuse` | crates/blitz-protocol/src/codec.rs:543-557 | No map over 4096 entries is read |
| `WireCodes.HeadCounts` | crates/blitz-protocol/src/codec.rs:589-619 | No response over a million rows and no batch over 4096 parts is read |
| `WireCodes.KindsAreStrict` | crates/blitz-protocol/src/codec.rs:783-856 | Payloads of any other kind than its own are refused by each decoder, and a batch is atomic exactly by its kind |
| `WireCodes.CapsAllow` | crates/blitz-protocol/src/codec.rs:430-619 | As many parts as the caps say are let through |
| `WireCodes.FlagsAreStrict` | crates/blitz-protocol/src/codec.rs:559-619 | A presence flag is 0 or 1 |
| `WireCodes.JsonDoubleReads` | crates/blitz-protocol/src/codec.rs:498-541 | A double in JSON reads as itself when finite and as null otherwise |
| `WireCodes.DatesFit` | crates/blitz-protocol/src/codec.rs:209-214 | Every date of the years -262143 to 262142 fits the wire |
| `Utf8.ValidIff` | crates/blitz-protocol/src/codec.rs:422-428 | The readers let text through exactly when it encodes some sequence of Unicode scalar values |
| `Utf8.EncodedOnce` | crates/blitz-protocol/src/codec.rs:422-428 | No text has two readings |
| `WireIo.Writer.Value` | crates/blitz-protocol/src/codec.rs:141-228 | The writer appends exactly the encoding of the value |
| `WireIo.Writer.Json` | crates/blitz-protocol/src/codec.rs:230-269 | and of JSON |
| `WireIo.Writer.Map` | crates/blitz-protocol/src/codec.rs:271-277 | and of a map in the order it is enumerated |
| `WireIo.Writer.RequestBody` | crates/blitz-protocol/src/codec.rs:279-297 | and of a request |
| `WireIo.Writer.ResponseBody` | crates/blitz-protocol/src/codec.rs:299-316 | and of a response |
| `WireIo.Writer.ResponseBodyBorrowed` | crates/blitz-protocol/src/codec.rs:318-338 | The borrowed fast encoder writes the bytes of the ordinary one |
| `WireIo.Reader.Value` | crates/blitz-protocol/src/codec.rs:430-496 | The reader's position loop reads what the grammar gives, never past the end |
| `WireIo.Reader.JsonValue` | crates/blitz-protocol/src/codec.rs:498-541 | The same for JSON |
| `WireIo.Reader.Map` | crates/blitz-protocol/src/codec.rs:543-557 | The same for maps; of repeated keys the last stays |
| `WireIo.Reader.RequestBody` | crates/blitz-protocol/src/codec.rs:559-587 | The same for requests |
| `WireIo.Reader.ResponseBody` | crates/blitz-protocol/src/codec.rs:589-619 | The same for responses |
| `WireIo.DecodeRequestPayload` | crates/blitz-protocol/src/codec.rs:783-790 | Decodes exactly the payloads the grammar accepts in full |
| `WireIo.DecodeIncomingPayload` | crates/blitz-protocol/src/codec.rs:792-828 | The same for single and batch requests by kind |
| `WireIo.DecodeResponsePayload` | crates/blitz-protocol/src/codec.rs:830-837 | The same for responses |
| `WireIo.DecodeBatchResponsePayload` | crates/blitz-protocol/src/codec.rs:839-856 | The same for batch responses |
| `Listings.ListingOrderIrrelevant` | crates/blitz-protocol/src/codec.rs:271-277 | Two enumerations denote the same map if and only if they say the same of every key and value, in whatever order and with nested maps in whatever order |
| `Listings.EveryValueIsListed` | crates/blitz-protocol/src/codec.rs:141-228 | Every value has an enumeration without repeated keys at any level |
| `Listings.EveryJsonIsListed` | crates/blitz-protocol/src/codec.rs:230-269 | The same for JSON |
| `Listings.MapFitsIff` | crates/blitz-protocol/src/codec.rs:271-277 | An enumeration without repeated keys is within the decoder's caps exactly when the map it denotes is, at every level |
| `Listings.JsonFitsIff` | crates/blitz-protocol/src/codec.rs:230-269 | The same for JSON |
| `Listings.EveryRequestIsListed` | crates/blitz-protocol/src/codec.rs:279-297 | Every request has an enumeration without repeated keys, so the round trip covers all of them |
| `Listings.EveryResponseIsListed` | crates/blitz-protocol/src/codec.rs:299-316 | The same for responses |
| `Listings.RequestTravels` | crates/blitz-protocol/src/codec.rs:279-297 | Whatever request is within the caps, in whatever order its maps are enumerated at any level, both decoders give that very request back |
| `Listings.ResponseTravels` | crates/blitz-protocol/src/codec.rs:299-352 | The same for responses |
| `Listings.RequestsOverTheWire` | crates/blitz-protocol/src/codec.rs:658-779 | Requests framed one by one and cut into any chunks all arrive, in order, as sent |
| `Framing.ChunkingIrrelevant` | crates/blitz-protocol/src/codec.rs:758-779 | Feeding chunks one by one gives the payloads, the stash and the verdict of feeding their concatenation, for any bytes |
| `Framing.FramingRoundTrip` | crates/blitz-protocol/src/codec.rs:658-671 | Any chunking of the frames of payloads within the limit, with a piece of a next frame behind, yields the payloads in order and keeps the piece |
| `Framing.FramesDrain` | crates/blitz-protocol/src/codec.rs:658-779 | Concatenated frames drain to their payloads |
| `Framing.PartialFrameWaits` | crates/blitz-protocol/src/codec.rs:758-779 | Any strict prefix of a frame waits for more |
| `WireCodes.FrameLayout` | crates/blitz-protocol/src/codec.rs:658-671 | A frame is version 2, a 32-bit length and the payload |
| `WireCodes.RefusedIff` | crates/blitz-protocol/src/codec.rs:758-779 | A header is refused exactly when it names another version or too long a payload, and waits exactly when bytes are missing |
| `Framing.FrameCodec.Frame` | crates/blitz-protocol/src/codec.rs:658-671 | Frames a payload within the limit and refuses a larger one |
| `Framing.FrameCodec.Feed` | crates/blitz-protocol/src/codec.rs:758-779 | Pops one payload, waits, or fails, consuming exactly that frame |
| `Framing.StashCodec.Feed` | clients/py/blitz_client/codec.py:475-490 | The in-place drain loop returns all complete payloads and keeps the unfinished tail |
| `ClientWorker.WorkerServesAll` | crates/blitz-client/src/client.rs:316-405 | In every run of the worker each accepted command gets exactly one reply, first attempts go out in queue order, frames hold at most 16 operations with direct commands alone and no expired operation, an answer is the one at the operation's place in its frame, only expired operations time out and those are never sent, a resend repeats the failed frame before it |
| `ClientWorker.AttemptsBounded` | crates/blitz-client/src/client.rs:422-487 | Over a whole run an operation that is not retry-safe is on the wire at most once, a retry-safe one at most twice, one that timed out never |
| `ClientWorker.HealthyRunAnswersAll` | crates/blitz-client/src/client.rs:411-487 | With every frame answered in full and the clock before every deadline, every reply is an answer, also after the connection was lost, once a new one is to be had |
| `ClientWorker.DeadlinesKept` | crates/blitz-client/src/client.rs:424-435 | In every run a frame goes out only while the clock is before the arrival time plus the timeout of each of its operations, and a command is told it timed out only when the clock has reached that |
| `ClientWorker.FailedConnectsCostOne` | crates/blitz-client/src/client.rs:330-345 | Each failed attempt to connect fails one command and no more |
| `ClientWorker.RunReconnects` | crates/blitz-client/src/client.rs:330-345 | In every run nothing is sent over a lost connection: behind a frame lost for good the next goes out only after a new connection was made |
| `ClientWorker.SegmentsFailFast` | crates/blitz-client/src/client.rs:359-395 | In one drain no frame goes out behind one that was lost for good |
| `ClientWorker.RunIsLongest` | crates/blitz-client/src/client.rs:361-386 | A frame takes one direct command, or batched ones until a direct one, sixteen or the end stops it |
| `ClientWorker.LostFramesAreAnswered` | crates/blitz-client/src/client.rs:452-472 | In every run of the worker, whenever a frame of retry-safe operations is lost, the new connection opens and the resend is answered in full, each of its operations is told the answer at its place; and every frame in the log got the answer the network gave at its moment |
| `ClientWorker.FlushServes` | crates/blitz-client/src/client.rs:411-488 | One flush serves exactly its own commands in the sense of WorkerServesAll |
| `ClientWorker.SegmentsServe` | crates/blitz-client/src/client.rs:359-395 | So do the segments of one drain, the rest failing fast after a lost connection |
| `ClientWorker.LoopServes` | crates/blitz-client/src/client.rs:325-396 | So does the loop from any point of the queue |
| `ClientWorker.ServesInTurn` | crates/blitz-client/src/client.rs:356-395 | Two logs that serve neighbouring commands make one that serves both |
| `ClientWorker.ExchangeShape` | crates/blitz-client/src/client.rs:445-487 | An exchange sends nothing, one first attempt, or a failed first attempt and one resend of the same operations, all retry-safe |
| `ClientWorker.Worker.FlushOnce` | crates/blitz-client/src/client.rs:492-522 | One frame out and its answers back, or none on an encode failure, a lost connection or a wrong count |
| `ClientWorker.Worker.FlushPending` | crates/blitz-client/src/client.rs:411-488 | The flush leaves the log and the verdict the specification gives |
| `ClientWorker.Worker.DropExpired` | crates/blitz-client/src/client.rs:424-435 | Splits a run into those told that they timed out and the others, in order |
| `ClientWorker.Worker.Send` | crates/blitz-client/src/client.rs:445-487 | The exchange with its one conditional resend |
| `ClientWorker.Worker.TakeRun` | crates/blitz-client/src/client.rs:380-386 | Consecutive batched commands, at most 16 |
| `ClientWorker.Worker.FlushSegments` | crates/blitz-client/src/client.rs:359-395 | The inner loop leaves the specified log and connection state |
| `ClientWorker.Worker.Drain` | crates/blitz-client/src/client.rs:346-355 | The first command and what is queued behind it, up to the cap |
| `ClientWorker.Worker.WorkerLoop` | crates/blitz-client/src/client.rs:316-397 | The whole loop leaves the log the specification gives and an empty queue |
| `Procedures.FuelTruncates` | crates/blitz-runtime/src/runner.rs:79-85 | With less fuel a procedure makes a prefix of the calls, runs out exactly when the longer run burned more than it had, and otherwise ends the same |
| `Procedures.EnoughFuel` | crates/blitz-runtime/src/runner.rs:109-143 | Fuel for the step tree, even for its longest way through, never runs out |
| `Procedures.BurnsAtMostLongest` | crates/blitz-runtime/src/runner.rs:109-143 | A run burns no more than the longest way through its steps |
| `Procedures.ExhaustedBurned` | crates/blitz-runtime/src/runner.rs:79-85 | Exhaustion is reported exactly when one unit past the budget was burned |
| `Procedures.InterpretersAgree` | crates/blitz-runtime/src/executor.rs:59-98 | On procedures of calls, branches, plain assignments, literal failures and final returns both interpreters give the same result, variables and calls, given fuel for the longest way |
| `Procedures.SetVariableAgreesIff` | crates/blitz-runtime/src/executor.rs:75-78 | An assignment means the same to both for all variables exactly when its value names no variable |
| `Procedures.StorageStepsDisagree` | crates/blitz-runtime/src/executor.rs:99-113 | A storage step is never the same to both |
| `Procedures.FailAgreesIff` | crates/blitz-runtime/src/executor.rs:115-115 | A failure means the same to both, for all variables and renderings, exactly when its message names no variable |
| `Procedures.ReturnNotLastAgreesIff` | crates/blitz-runtime/src/executor.rs:59-71 | A return followed by plain steps means the same to both, for all arguments, exactly when all that follows are returns and the last returns the same value |
| `Procedures.UnwindsIff` | crates/blitz-runtime/src/runner.rs:109-143 | A run is the run in which a return unwinds to the call root, in result, variables, calls and fuel, if and only if no executed return inside a branch has a step behind it in an enclosing list |
| `Procedures.LastReturnsUnwind` | crates/blitz-runtime/src/runner.rs:109-143 | So when every return in a branch stands last in all its lists the two agree, for every backend, fuel and arguments |
| `Procedures.BranchReturnEndsIff` | crates/blitz-runtime/src/runner.rs:115-118 | A return in either branch of an If ends the list with its value, for all steps behind the If, exactly when there are none |
| `Procedures.BranchReturnGoesOn` | crates/blitz-runtime/src/runner.rs:109-143 | After a return in a branch the steps behind the If run on, with its value as the value of the If |
| `Procedures.ReturnEndsItsList` | crates/blitz-runtime/src/runner.rs:109-120 | A return in a list ends that list |
| `ProcedureCalls.StepDoes` | crates/blitz-runtime/src/runner.rs:122-189 | A step without branches succeeds, and fails, exactly as relations on the states before and after say: the call asked for by its kind, table, row number and resolved values, the variables and value that follow from the answer, and the four ways to fail |
| `ProcedureCalls.CallsInOrder` | crates/blitz-runtime/src/runner.rs:109-189 | A run without branches that succeeds makes exactly one call for each step that asks for one, in order, with the variables as they are then |
| `ProcedureCalls.CallsAreAsked` | crates/blitz-runtime/src/runner.rs:109-189 | Every call of any run is one that a step of the tree asks for |
| `ProcedureCalls.PlainRunIff` | crates/blitz-runtime/src/runner.rs:109-120 | Without branches a run succeeds exactly when its steps do, one after another, and the fuel lasts |
| `ProcedureCalls.DeleteRemoves` | crates/blitz-runtime/src/runner.rs:174-178 | Over a store of rows a delete that succeeds removes the row its id stands for, which was there, and no other |
| `ProcedureCalls.UpdateOverwrites` | crates/blitz-runtime/src/runner.rs:165-173 | An update that succeeds overwrites that row with what its values stand for |
| `ProcedureCalls.ReadFinds` | crates/blitz-runtime/src/runner.rs:144-154 | A read succeeds exactly when the row is there, and leaves its columns in variables |
| `ProcedureCalls.WrittenIsRead` | crates/blitz-runtime/src/runner.rs:20-35 | A procedure reads back what it updated, and finds nothing where it deleted |
| `ProcedureCalls.ConditionsSay` | crates/blitz-runtime/src/runner.rs:191-229 | What the comparisons say of an integer variable |
| `ProcedureCalls.UnboundFails` | crates/blitz-runtime/src/runner.rs:191-229 | No comparison holds of a variable that is not there |
| `ProcedureCalls.ComparesResolved` | crates/blitz-runtime/src/runner.rs:191-229 | Comparisons look at what a reference stands for |
| `ProcedureCalls.AllAndAny` | crates/blitz-runtime/src/runner.rs:212-227 | All and Any over one more condition |
| `ProcedureCalls.IfRunsBranch` | crates/blitz-runtime/src/runner.rs:134-141 | An If runs the branch its condition picks |
| `ProcedureRunner.Runner.RunSteps` | crates/blitz-runtime/src/runner.rs:109-120 | The step loop leaves the state and result the specification gives |
| `ProcedureRunner.Runner.RunStep` | crates/blitz-runtime/src/runner.rs:122-189 | So does each step |
| `ProcedureRunner.Runner.Charge` | crates/blitz-runtime/src/runner.rs:79-85 | Burns one unit and fails once past the budget |
| `ProcedureRunner.Runner.Evaluate` | crates/blitz-runtime/src/runner.rs:191-229 | Decides the condition, All and Any as quantifiers over their lists |
| `ProcedureRunner.Runner.StoreColumns` | crates/blitz-runtime/src/runner.rs:150-152 | Every column lands in its variable whatever order the columns come in |
| `ProcedureRunner.Runner.ReadInto` | crates/blitz-runtime/src/runner.rs:144-154 | A read stores the id and the columns, or fails on a bad id, a missing row or a refusal |
| `ProcedureRunner.CallProcedure` | crates/blitz-runtime/src/runner.rs:46-63 | A call gives the specified result, variables and calls |
| `ProcedureRunner.RuntimeExecutor.ExecuteStep` | crates/blitz-runtime/src/executor.rs:73-117 | The executor's steps do what its specification gives |
| `ProcedureRunner.RuntimeExecutor.ExecuteProcedure` | crates/blitz-runtime/src/executor.rs:59-71 | So does a whole procedure; an unknown name changes nothing |
| `ProcedureRunner.RuntimeExecutor.EvaluateCondition` | crates/blitz-runtime/src/executor.rs:132-176 | Decides the condition as the runner does |
| `DeployCheck.ValidateProcedure` | crates/blitz-runtime/src/deploy.rs:247-262 | The checker returns the specified verdict, with the first reason in its order |
| `DeployCheck.CheckStepTree` | crates/blitz-runtime/src/deploy.rs:284-344 | So does the check of one step |
| `DeployCheck.PassesIff` | crates/blitz-runtime/src/deploy.rs:247-380 | A procedure passes exactly when its name is legal, its description short, it has 1 to 256 steps, and at every place of the step tree stands a proper step no deeper than level 17 |
| `DeployCheck.FirstReason` | crates/blitz-runtime/src/deploy.rs:247-262 | What is wrong with a whole procedure is said of its name first, then the description, the number of steps, and only then the steps |
| `DeployCheck.FirstStepFails` | crates/blitz-runtime/src/deploy.rs:258-260 | Of several steps the first that fails gives the reason |
| `DeployCheck.StepReason` | crates/blitz-runtime/src/deploy.rs:284-342 | The reasons of single steps |
| `DeployCheck.ValidatedRunsVetted` | crates/blitz-runtime/src/deploy.rs:247-344 | A procedure that passes, run on any backend with any fuel and arguments, only calls known functions and proper tables with small value maps, and nests at most 17 levels |
| `DeployCheck.FuelSufficesIff` | crates/blitz-runtime/src/deploy.rs:255-257 | All passing procedures with at most d levels of steps stay within the default fuel, with any arguments, if and only if d <= 1 |
| `DeployCheck.ShallowNeverExhausts` | crates/blitz-runtime/src/deploy.rs:255-257 | A passing procedure with one level of steps never runs out of the default fuel |
| `DeployCheck.ValidatedMayExhaust` | crates/blitz-runtime/src/deploy.rs:303-312 | The step limit is per list: a passing procedure of 256 branches of 256 steps runs out of the default fuel on every backend |
| `Like.ScanIsOpenEnded` | crates/blitz-query/src/executor.rs:72-98 | With a percent sign in it, the greedy scan accepts exactly the strings that match the pattern followed by a percent sign |
| `Like.LikeIsMatching` | crates/blitz-query/src/executor.rs:72-98 | On a pattern with no percent sign or with one at the end, the scan accepts exactly the strings that match |
| `Like.LikeIsExactIff` | crates/blitz-query/src/executor.rs:72-98 | The scan means what the pattern says on every string if and only if the pattern has no percent sign or ends in one |
| `Like.LikeMissesNothing` | crates/blitz-query/src/executor.rs:72-98 | No pattern drops a string that matches it |
| `Like.GreedyScan` | crates/blitz-query/src/executor.rs:80-95 | Taking every piece at its leftmost place loses no match |
| `Like.MatchesLike` | crates/blitz-query/src/executor.rs:76-95 | The scan loop with its position decides what the specification does |
| `Like.LikeFilter` | crates/blitz-query/src/executor.rs:72-98 | Only string cells can be like a pattern; both sides are lower-cased |
| `ValueOrder.CmpLawful` | crates/blitz-types/src/value.rs:63-146 | The order of values is a strict total order: equal only to itself, antisymmetric, transitive, for any nesting of arrays |
| `ValueOrder.ListLawful` | crates/blitz-types/src/value.rs:87-95 | The same for lists of values |
| `ValueOrder.Direction` | crates/blitz-types/src/value.rs:65-95 | Null is below every other value, integers go by size, texts by their first different byte |
| `ValueOrder.TypesInOrder` | crates/blitz-types/src/value.rs:97-140 | Values of different types go by type in the order of the declaration |
| `ValueOrder.SameTypeBySize` | crates/blitz-types/src/value.rs:68-78 | Within a type integers, instants and float bits go by size and false comes before true |
| `ValueOrder.SameTypeByText` | crates/blitz-types/src/value.rs:79-86 | Bytes, uuids, decimals and JSON text go by the first byte that differs |
| `ValueOrder.EarlierDateIsLess` | crates/blitz-types/src/value.rs:85-85 | Dates go by the day |
| `ValueOrder.PrefixListIsLess` | crates/blitz-types/src/value.rs:87-95 | A list comes before every list it starts |
| `ValueOrder.FirstItemDecides` | crates/blitz-types/src/value.rs:87-95 | Lists otherwise go by the first item that differs |
| `StableSort.StableSortUnique` | crates/blitz-query/src/executor.rs:107-131 | Two lists in order that keep equal elements in the same order are the same list |
| `StableSort.SortIsStable` | crates/blitz-query/src/executor.rs:107-131 | The sort used here is stable, ordered and a permutation |
| `StableSort.AnyStableSortIsSort` | crates/blitz-query/src/executor.rs:107-131 | Any stable sort of the rows gives that list |
| `QueryRows.CmpRowsLawful` | crates/blitz-query/src/executor.rs:111-130 | Comparing rows by sort keys, missing columns last and directions reversed, is a total preorder |
| `QueryRows.OneKeyOrders` | crates/blitz-query/src/executor.rs:111-130 | Under one key rows with the column go up or down by its value, rows without it come last ascending and first descending |
| `QueryRows.FirstKeyDecides` | crates/blitz-query/src/executor.rs:111-130 | The first key that tells two rows apart decides |
| `QueryRows.OrderedIsTheStableSort` | crates/blitz-query/src/executor.rs:107-131 | A list is the ordered result iff it is a stable sort of the kept rows |
| `QueryRows.KeptAre` | crates/blitz-query/src/executor.rs:17-23 | The kept rows are those the filter accepts, as often as they are there |
| `QueryRows.KeptInOrder` | crates/blitz-query/src/executor.rs:17-23 | and in the order they had |
| `QueryRows.PageIs` | crates/blitz-query/src/executor.rs:31-40 | A page is the run of rows from the offset on, as long as the limit and the rows allow |
| `QueryRows.PagesTile` | crates/blitz-query/src/executor.rs:31-40 | Neighbouring pages make one longer page: paging neither repeats nor skips a row |
| `QueryRows.NoSortKeys` | crates/blitz-query/src/executor.rs:108-110 | Without sort keys the rows keep their order |
| `QueryRows.ProjectedAre` | crates/blitz-query/src/executor.rs:41-50 | Projection keeps rows, order and ids, and exactly the columns asked for that are there |
| `QueryRows.Execute` | crates/blitz-query/src/executor.rs:16-50 | The query path filters, sorts, pages and projects as specified |
| `GroupBy.GroupByPartitions` | crates/blitz-query/src/executor.rs:147-187 | One output row a distinct key, keys strictly ascending, aggregates over exactly the rows of the key, every input row in one group and no other, group sizes adding up |
| `GroupBy.GroupOrderIrrelevant` | crates/blitz-query/src/executor.rs:157-187 | The order in which the hash map yields groups does not show in the result |
| `GroupBy.KeysShowIff` | crates/blitz-query/src/executor.rs:161-168 | Output rows show the keys of the groups, for all rows and hash orders, exactly when no aggregate overwrites a group column with anything but its own least or greatest value |
| `GroupBy.MinMaxAttained` | crates/blitz-query/src/executor.rs:241-276 | MIN and MAX are null when no row has a value there, and otherwise a value of some row that none goes below or above |
| `GroupBy.SizesAddUp` | crates/blitz-query/src/executor.rs:147-155 | The sizes of the groups add up to the number of rows |
| `GroupBy.CountsAddUp` | crates/blitz-query/src/executor.rs:204-205 | The COUNT(*) cells of the output rows add up to the number of input rows |
| `GroupBy.CountsAre` | crates/blitz-query/src/executor.rs:204-212 | COUNT(*) is the number of rows and COUNT(column) the number of rows with a value there |
| `GroupBy.SumGoesRowByRow` | crates/blitz-query/src/executor.rs:213-223 | SUM adds the numeric cells one by one from zero |
| `GroupBy.AverageIs` | crates/blitz-query/src/executor.rs:224-240 | AVG is the sum divided by the number of numeric cells, null without any |
| `GroupBy.LimitKeepsFirst` | crates/blitz-query/src/executor.rs:186-190 | A limit keeps the first groups |
| `GroupBy.GroupColumnIsConstant` | crates/blitz-query/src/executor.rs:147-155 | Over a group, the least and greatest value of a group column are the key's |
| `GroupBy.BuildGroups` | crates/blitz-query/src/executor.rs:147-155 | The grouping loop builds the map from each key to its rows in row order |
| `GroupBy.ComputeAggregations` | crates/blitz-query/src/executor.rs:196-282 | Computes COUNT, COUNT(column), SUM, AVG, MIN and MAX by alias, the last of equal aliases staying, given the float operations |
| `GroupBy.ComputeMin` | crates/blitz-query/src/executor.rs:241-258 | The minimum loop gives the least cell |
| `GroupBy.ComputeMax` | crates/blitz-query/src/executor.rs:259-276 | The maximum loop gives the greatest cell |
| `GroupBy.CountCells` | crates/blitz-query/src/executor.rs:206-212 | Counts the non-null cells |
| `GroupBy.ComputeTotal` | crates/blitz-query/src/executor.rs:213-240 | Adds the cells that read as floats from left to right and counts them, given the float operations |
| `GroupBy.ApartIsHarmless` | crates/blitz-query/src/executor.rs:161-168 | Aliases apart from the group columns never hide a group key |
| `GroupBy.ExecuteAggregation` | crates/blitz-query/src/executor.rs:133-194 | The aggregation path yields the grouped, sorted and limited rows, or one row without group columns |
| `Base64.DecodeEncode` | crates/blitz-runtime/src/deploy.rs:523-561 | Decoding inverts the padded encoding of section 4 of RFC 4648 for every byte sequence, whatever line breaks its text has |
| `Base64.BreakAnywhere` | crates/blitz-runtime/src/deploy.rs:529-529 | A CR or LF anywhere in any text changes nothing |
| `Base64.AcceptsIff` | crates/blitz-runtime/src/deploy.rs:529-539 | The decoder accepts a text exactly when, line breaks aside, its length is a multiple of 4 and every character is a letter or the pad, and blames the length exactly when it is not such a multiple |
| `Base64.CanonicalIff` | crates/blitz-runtime/src/deploy.rs:540-558 | An accepted text is the encoding of its bytes exactly when pads are only the last one or two characters and the bits they drop are zero |
| `Base64.DecodeText` | crates/blitz-runtime/src/deploy.rs:523-561 | The table-driven decoder returns the specified bytes or error |
| `Base64.LookupTable` | crates/blitz-runtime/src/deploy.rs:524-528 | The table holds each character's value and zero elsewhere |
| `Calendar.CivilRoundTrip` | clients/py/blitz_client/values.py:104-125 | civil_from_days inverts days_from_civil on every valid proleptic Gregorian date |
| `Calendar.DaysRoundTrip` | clients/py/blitz_client/values.py:104-125 | For every integer the date is valid and maps back to it |
| `Calendar.SuccessorIsNextNumber` | clients/py/blitz_client/values.py:104-112 | The calendar successor of every valid date has exactly the next number |
| `Calendar.OneBelowCommonEra` | clients/py/blitz_client/values.py:104-112 | The number of every valid date is one below the count that sums the days of the years and months before it from 0001-01-01 as day 1 |
| `Calendar.EarlierCountsLess` | clients/py/blitz_client/values.py:104-112 | An earlier date has a smaller count |
| `Calendar.NextDayCounts` | clients/py/blitz_client/values.py:104-112 | That count, too, grows by one from each date to its successor |
| `Calendar.CountOfNumber` | clients/py/blitz_client/values.py:115-125 | For every integer the count of the date it converts to is one more |
| `PythonDates.RustRejectsPythonDates` | crates/blitz-protocol/src/codec.rs:465-473 | The Rust reader rejects every date the Python writer sends |
| `PythonDates.PythonRejectsRustDates` | clients/py/blitz_client/codec.py:392-399 | The Python reader rejects every date the Rust writer sends |
| `PythonDates.PythonReadsPythonDates` | clients/py/blitz_client/codec.py:121-126 | The Python reader reads every date the Python writer sends |

## Left out

- UniqueColumns.ReplaySafeIffNoUniqueColumns: is about one table and a replay over its own result; replay of such tables from an older snapshot is not looked at, since recovery never builds them into a fresh engine.
- RecoveryRun.Recover: the three counters it returns, log messages, and a target engine that already has tables with unique columns are not modelled.
- RecoveryRun.InferSchema: column types and the order of columns do not affect rows, because replay does not validate; only the absence of unique columns is stated.
- RecoveryRun.OfflineRotate: each truncation and the rename are single steps; the temporary file of the snapshot is never read, and errors of a truncation are not part of this run (`Leftovers.LayoutIsSafeIff` says when they matter).
- GroupThread.WalThread.GroupLoop: is cut after a given number of rounds, since the thread has no bound of its own; a log file that cannot be opened is not modelled.
- RowStore.InMemoryTable.Insert: the schema validator is an arbitrary predicate, and a row's id is its key in the map.
- Procedures.InterpretersAgree: covers more than calls, branches and assignments, but not steps that can never be reached, on which anything agrees.
- QueryRows.Execute: the filter is an arbitrary predicate; its arms other than LIKE are one comparison each.
- GroupBy.ComputeAggregations: float addition and division are arbitrary functions, so nothing is said of the value of a SUM or AVG beyond the order of the additions; a group has at most 2^63 - 1 rows.
- EngineHistory.EngineRunsAreHistories: every accepted write is logged; a write whose append is refused for back-pressure, which is undone for inserts only, is not part of a run.
- CrashRecovery.CrashRecovers: the snapshot may not be ahead of what the crash left of the file, since nothing orders a snapshot after the syncs of its writes.
- TableSpec.WrappingRunIff: stops at the first wrap; which ids are handed out after one is not looked at.
- Framing.StashCodec.Feed: payloads popped by a call that then raises are lost with it, as in the Python code; the Python `frame` has no size check and is not modelled.
- Equality of floats is equality of bits, so a NaN equals itself and the two zeros differ; the derived equality of the Rust type says otherwise for those.
- The byte format and checksums of the log files (`blitz_wal`), transactions, the server and its transport are not part of this model.
- `WalBridge::flush` and `flush_all` poll counters against a timeout and promise nothing exact.
- The server's live rotation, which refuses writes while it runs and removes the log files instead of truncating them.
- Creating and dropping tables from several threads at once: a table's lock is the unit of atomicity here.
- WireCodes.PythonReadsRustValues: values with parts and instants, which Python reads through a double, are not covered; dates are in `PythonDates`.
- CellContents.CellComesBack: the text of uuids, instants and dates and the widening of a 32-bit float are parameters.
- The value encoders of the TypeScript, Python and Go clients and the HTTP bridge: their width rules differ from the Rust codec's.
- Timestamps finer than a microsecond, which the wire format cuts off.
- Stack depth of the recursive readers and of nested procedures.
- The JSON sugar of deployed procedures other than base64, and version parsing of the client.
- Search, policies, replication, jobs, subscriptions: outside this model.
