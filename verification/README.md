# Verification of the Replicat storage engine

This project models the two components that keep Replicat's data: the Raft store
(`src/storage/raft.rs`) and the single-threaded database actor under it (`src/storage/mod.rs`),
and proves what they promise over every run, including crashes between any two statements.

## How the model is laid out

- `Types.dfy`, `Sqlite.dfy`: log ids, entries, votes, metadata; a database value with its
  key-value table, its log table and the user tables; the meaning of each SQL statement. User SQL
  is a parameter: any function from a statement and the tables to new tables or a rejection.
- `Statements.dfy`: the same statements told by the rows they write, remove and leave alone.
- `KeySets.dfy`: least, greatest and ascending row keys.
- `LogTable.dfy`, `LogRange.dfy`: the log operations as programs of separately committed
  statements, the abstract log they refine, crash points, and range reads.
- `StateMachine.dfy`: applying entries as a list of actions (a committed statement or a write of an
  in-memory marker) and the reference `Replay`.
- `Replica.dfy`: one store as a step system in which apply, a snapshot build, log writes, votes,
  installs and crashes interleave freely, on one shared handle or on two, with data on disk or in
  memory. `ReplicaInvariant.dfy` proves its invariant, `ReplicaTheorems.dfy` what the data holds,
  what memory shows and what a build captures, `ReplicaLoss.dfy` which entries crashes lose,
  `ReplicaHandles.dfy` what becomes of log and vote, `ReplicaServing.dfy` which snapshot is served,
  `ReplicaRecovery.dfy` when the log still holds what the data lacks, `ReplicaCalls.dfy` that an
  undisturbed call, failed or not, is a run of these steps.
- `SnapshotShipping.dfy`: build on one store, install on another, continue. `SnapshotResume.dfy`:
  where the receiver goes on, and when that is right.
- `SnapshotIds.dfy`, `SnapshotIndex.dfy`: the snapshot counter under concurrency and the id text.
- `Actor.dfy`: the actor, its linearizability and its progress, and the worker's loop.
  `StorageTasks.dfy`: the tasks a storage handle runs on it, and what callers' answers mean.
- `Buffers.dfy`: ownership of the buffers SQLite hands out.
- `RaftStore.dfy`: the objects `StorageHandle`, `StateMachine` and `RaftStore`. Whatever state of the
  step system such an object is in, after a call it is in the state that the call's steps lead to;
  opening it on new files gives the first state, and on the files of a dead store the state after
  the crash step.

A statement is atomic and durable once committed; that a storage handle shared by any number of
callers behaves like one database performing one task at a time is `HandleIsAtomic`. The consensus
core is the environment: it appends runs of entries right after the last one or over entries that are
there, truncates above the purge marker, applies committed entries in index order, installs a
snapshot between entries and only one that covers what it has applied, and after a reopen goes on
from the entry after the persisted marker. Loading an image detaches SQLite from its file, so a reopen
finds the file as it was. Serialized records are symbolic (they decode to what was encoded);
serialized databases are byte strings, because the length of the snapshot file matters.

## Where the code does not meet the obvious property

Each of these is a theorem with the exact condition.

- An interrupted purge, or one whose index cannot be bound (`PurgeStep`): with the marker written and
  the rows still there, the purged id is at or below the last id exactly when the table was empty or
  the purge did not reach past its last row (`MarkerOnlyBounds`). The bounds reported later are the
  log's exactly when it has entries again, or no row is left below the marker, or the purged id's own
  row is (`LogStateAgrees`), and a range read is right exactly when no leftover row lies in the range
  (`RangeReadFilters`).
- A range whose exclusive bound wraps around reads the wrong rows (`RangeReadExact`).
- A crash between the marker and the effect of an entry loses the entry, and nothing else does
  (`LostExactly`); the data is still the full replay, for every SQL, when no such entry holds SQL
  or is the last membership (`HarmlessFullReplay`), and only then (`LossShows`). The shortest losing
  run is `LosingRun`.
- A snapshot built while entries are applied: serializing between the marker and the effect of an
  entry misses the effect (`CaptureExact`). The receiver of any build ends with the entries the image
  holds followed by those after the metadata's log id (`ReceiverAfterRun`), which is the full replay
  for every SQL and log exactly when the two meet (`ResumeMustMatch`), and for a given log exactly
  when the entries in between are harmless (`HarmlessResume`, `HarmlessResumeOnly`). They meet exactly
  when as many entries are settled at the capture as memory named at the first read (`MeetExactly`);
  both ways to miss happen (`RaceApplyTwice`, `RaceSkipEntry`), and a build at rest misses exactly
  when an install has left the marker in memory behind (`QuietBuildExact`). What the builder had lost
  to crashes, the receiver lacks too (`SnapshotPlusSuffix`).
- The served snapshot is the last one published exactly when nothing was published, or that one was
  not shorter than the file it overwrote and nothing has come between metadata row and file since
  (`ServedIsPublished`); a crash between the two always pairs new metadata with an old file
  (`TornByCrash`), and a file longer than the new snapshot keeps its tail (`OverwriteExact`).
- After an install: memory shows the old markers until an entry, for the membership a membership
  entry, is applied (`AgreementAfterInstall`); what is served is this store's own last file under the
  received metadata (`ServedAfterInstall`); on a shared handle log, vote and counter become the
  sender's (`SharedInstallReplaces`, `InstallReuse`); and a crash at any later point takes the data
  back to before the install, on a shared handle with every vote and entry saved since
  (`InstallUndoneByCrash`).
- The log holds every entry that the data lacks, in every state of a run whose purges name only
  entries that a reopen would find in the data (`SecuredStaysCovered`); without installs it is enough
  that they were applied (`AppliedPurgesCovered`). On separate handles a crash breaks this exactly when
  an install has detached the data from its file and the log was purged beyond that file
  (`ReopenCovered`); purging what an install brought and crashing does, unless it brought nothing new
  (`PurgedBeyondData`, `LosingPurge`).
- Data in memory only can be re-created from the Raft log, for every SQL, exactly when nothing was
  ever purged (`MemoryReopen`).

## Model

| member | source | states |
|---|---|---|
| LogTable.LogStateAgrees | src/storage/raft.rs:271-364 | On a table that holds a log above its purge marker, with any rows an unfinished purge left below: the purged id is always the log's, and the last id is exactly if the log has entries or the table is tidy; purged is never after last in the abstract log |
| LogTable.LogRunRefines | src/storage/raft.rs:457-529 | For every run of appends, truncations and purges, also past the end of the log or of an id that cannot be bound, each complete or cut by a crash after any statement, the rows above the marker are one contiguous run that holds the abstract log |
| LogTable.LogRunReports | src/storage/raft.rs:354-364 | Over every such run from a new database in which purges cut short named an id of the log, `get_log_state` returns the abstract log's purged and last ids, in order; `LogStateAgrees` and `MarkerOnlyBounds` cover the other runs |
| LogTable.AppendMany | src/storage/raft.rs:457-490 | An append over entries that are there or right after the last, complete or cut short by a crash or by an id that does not fit the column: the part of the batch that got there takes their place in the log, which is still contiguous; it succeeds exactly when every id fits |
| LogTable.AppendOverwrites | src/storage/raft.rs:463-487 | On every table, whatever it holds, an append writes all columns of the entries that got there, the last one for an index, over rows that are there as well, and touches nothing else |
| LogTable.TruncateStep | src/storage/raft.rs:493-510 | Truncation keeps exactly the entries below the id, and succeeds also when there is nothing to delete |
| LogTable.PurgeStep | src/storage/raft.rs:513-529 | A complete purge leaves no row at or below the marker, also past the end of the log and over rows an unfinished purge left; one whose index does not fit the column fails with the marker moved |
| LogTable.PurgeCut | src/storage/raft.rs:513-524 | A purge that died after writing the marker already reads as done; the rows are untouched |
| LogTable.PurgeRerun | src/storage/raft.rs:513-529 | Re-running a purge from any crash point ends in the state of an uninterrupted one, also when it cannot be completed |
| LogTable.MarkerOnlyBounds | src/storage/raft.rs:354-364 | On every consistent table, between the two statements of a purge: purged is at or below last if and only if the table was empty or the purge does not reach past its last row |
| LogTable.CutPastTheEnd | src/storage/raft.rs:513-529 | A legal run that reaches the other side: one entry and a purge past it that dies after its marker |
| LogTable.LastLogEntryIs | src/storage/raft.rs:332-349 | The columns of the greatest row, cast back to u64, spell the log id of the last entry |
| LogRange.RangeReadExact | src/storage/raft.rs:646-663 | The query selects exactly the contained rows of every table if and only if neither bound wraps (or the wrapped end cannot matter) |
| LogRange.RangeReadFilters | src/storage/raft.rs:367-389 | A range read equals filtering the stored log (each contained entry once, ascending, nothing else) if and only if no row left by an unfinished purge lies in the range |
| LogRange.LastRowMatchesFullRead | src/storage/raft.rs:332-389 | The last row's columns and the last entry of a full read agree, or both report an empty table, leftovers included; the full read is the log exactly when there are none |
| LogRange.ReadsNeedTable | src/storage/raft.rs:332-389 | Without the log table every read fails; with it a range read never does, and the bounds are reported exactly if the purge marker can be read |
| StateMachine.EntryRun | src/storage/raft.rs:551-577 | One entry fails exactly when its SQL is rejected, the marker moves either way, and disk and memory markers agree afterwards |
| StateMachine.ApplyBatch | src/storage/raft.rs:544-583 | A batch takes effect up to its first rejected entry; the marker names the last entry touched, the rejected one included; only the two marker rows and the user tables change |
| StateMachine.BatchingIrrelevant | src/storage/raft.rs:544-583 | Applying xs then ys is applying xs + ys, errors included |
| StateMachine.MembershipIsLatest | src/storage/raft.rs:571-576 | The membership after a replay is the one of the highest-index membership entry, tagged with its own log id, or the one before |
| ReplicaInvariant.ApplyKeepsInv | src/storage/raft.rs:155-187 | Every single action of applying an entry keeps the relation between position, disk, memory and history |
| ReplicaInvariant.BuildKeepsInv | src/storage/raft.rs:394-433 | So does every single step of a build |
| ReplicaInvariant.WriteLogKeepsInv | src/storage/raft.rs:457-529 | So does every log statement, on a shared handle too |
| ReplicaInvariant.CrashKeepsInv | src/storage/raft.rs:715-737 | So does a crash at any point followed by a reopen, with data on disk or in memory |
| ReplicaInvariant.ReceiveKeepsInv | src/storage/raft.rs:596-610 | So does loading a received image, on either layout |
| ReplicaInvariant.RecordKeepsInv | src/storage/raft.rs:611-614 | So does writing its metadata row |
| ReplicaTheorems.AtMostOnce | src/storage/raft.rs:544-583 | Over every run with crashes and installs, the data holds each entry's SQL at most once and in index order, exactly that of the entries below the position but for the lost ones, at most one per crash, and is the replay without these |
| ReplicaTheorems.WithoutCrashes | src/storage/raft.rs:544-583 | Over every run without crashes, installs included, disk is the replay of a prefix and its membership is that prefix's latest |
| ReplicaLoss.LostExactly | src/storage/raft.rs:552-566 | Over every run without installs, the entries lost are exactly those in whose gap, after the marker and before the effect, the process died; data in memory only loses nothing, it starts over |
| ReplicaLoss.NoGapCrashFullReplay | src/storage/raft.rs:544-583 | Without a crash in a gap, or with data in memory only, the data is the full replay of the prefix, for every SQL |
| ReplicaLoss.HarmlessFullReplay | src/storage/raft.rs:544-583 | The data is still the full replay, for every SQL, if no process died in the gap of an SQL entry or of the prefix's last membership entry |
| ReplicaLoss.LossShows | src/storage/raft.rs:544-583 | With SQL that counts, it is so if and only if that condition holds |
| ReplicaLoss.LosingRun | src/storage/raft.rs:552-566 | One apply action and a crash: the marker names the entry, the data lacks it |
| ReplicaTheorems.MarkersAgree | src/storage/raft.rs:155-187 | In every reachable state with no install since the open, memory equals disk or lags by exactly the write in progress, so a reopen loads what memory showed or the next entry |
| ReplicaTheorems.AgreementAfterInstall | src/storage/raft.rs:596-619 | After an install and any steps short of a crash or another install: the marker in memory is right exactly if an entry was applied since, as far as memory or up to its rejection, or it had named the image's last entry; the membership exactly if a membership entry was applied since or it had been the image's, the write in progress aside |
| ReplicaTheorems.SnapshotDuringApply | src/storage/raft.rs:394-433 | For every interleaving with crashes and installs, the metadata's log id is at or below the image's marker, the image is the replay through that marker or the entry before it, and the metadata's membership is the one in force when it was read, or what memory showed since an install |
| ReplicaServing.ImageDescribesItself | src/storage/raft.rs:394-433 | A captured image carries its own metadata, whatever is interleaved and whatever was installed earlier, unless an install came during the build |
| ReplicaTheorems.CaptureExact | src/storage/raft.rs:552-566 | The image holds the effect of every entry its marker covers if and only if serializing did not fall between an entry's marker and its effect, or that effect changes nothing |
| ReplicaHandles.LogAndVoteKept | src/storage/raft.rs:225-229 | On separate handles over every run, installs and crashes included, and on a shared one without installs, rows, purge marker and vote are what the log and vote statements alone would leave |
| ReplicaHandles.VoteKept | src/storage/raft.rs:312-330 | Over the same runs the stored vote is the last one saved |
| ReplicaHandles.SharedInstallReplaces | src/storage/raft.rs:596-610 | On a shared handle rows, marker and vote become the sender's, and later statements go on from there |
| ReplicaHandles.InstallUndoneByCrash | src/storage/mod.rs:301-332 | A crash at any point after an install finds the data as before it, on a shared handle log and vote too; a separate log keeps everything |
| ReplicaHandles.LostAroundInstall | src/storage/mod.rs:301-332 | From an install on no entry is missing; a crash brings back those missing from the file, and from there on exactly crashes in a gap add theirs |
| ReplicaRecovery.SecuredStaysCovered | src/storage/raft.rs:513-529 | Over every run with crashes and installs whose purges name entries a reopen would find in the data, the log was never purged of an entry the data is still to apply |
| ReplicaRecovery.AppliedPurgesCovered | src/storage/raft.rs:513-529 | Without installs, on data that survives the process, it is enough that the purged entries were applied |
| ReplicaRecovery.CoveredMeans | src/storage/raft.rs:332-364 | That is, the stored log holds every entry from the data's position on |
| ReplicaRecovery.ReopenCovered | src/storage/raft.rs:715-737 | A crash keeps this if and only if, on separate handles, no install has detached the data from its file or nothing was purged beyond that file; on a shared handle, that file met it; with data in memory only, nothing was purged |
| ReplicaRecovery.PurgedBeyondData | src/storage/raft.rs:513-529 | An install, a purge of what it covered and a crash break it if and only if the install brought entries the data lacked |
| ReplicaRecovery.LosingPurge | src/storage/raft.rs:513-529 | Such a run on a new store: the entry is in neither log nor data |
| ReplicaServing.ServedIsPublished | src/storage/raft.rs:621-643 | Over every run without installs, the served snapshot is the last one published if and only if nothing was published, or it was not shorter than the file it overwrote and no row was written, torn by a crash or lost with in-memory data since |
| ReplicaServing.TornByCrash | src/storage/raft.rs:89-97 | A crash between metadata row and file serves the new metadata with the old file, which is never the last publication once there was one |
| ReplicaServing.OverwriteExact | src/storage/raft.rs:91-97 | Opening without truncation gives the new bytes plus the old tail; the file is the snapshot exactly when the old file was no longer |
| ReplicaServing.ServedAfterInstall | src/storage/raft.rs:621-643 | After an install, and until the next build writes its row, this store's own last file is served under the received metadata, or nothing; and if its last publication was not shorter than the file it overwrote, the received bytes are served exactly if they were that publication |
| ReplicaCalls.BatchIsSteps | src/storage/raft.rs:544-583 | A batch applied without interference is a run of the step system; one with a rejected entry stops there with the same disk and memory |
| ReplicaCalls.ProgramIsSteps | src/storage/raft.rs:457-529 | So is a log program, one step for each statement it commits, refused ones included; it changes the log database only and succeeds exactly if it commits them all |
| ReplicaCalls.BuildIsSteps | src/storage/raft.rs:394-433 | So is a build |
| ReplicaCalls.InstallIsSteps | src/storage/raft.rs:596-619 | So is an install |
| ReplicaCalls.ReadyAfterCrash | src/storage/raft.rs:715-737 | After a crash and reopen the store is at rest at its persisted marker and ready for every entry behind it, also if it had stopped at a rejected entry or died during a build or an install |
| SnapshotShipping.InstallDelivers | src/storage/raft.rs:596-619 | Installing shipped bytes gives the captured database under the shipped metadata, and the captured database itself if it carried them |
| SnapshotShipping.SnapshotPlusSuffix | src/storage/raft.rs:596-619 | After any run that leaves memory in step, crashes and installs included, a snapshot built with no apply in flight: any store that installs it and applies the rest, and the builder that applies the rest, both end with the replay of the log without what the builder had lost, with nothing lost the full replay, and with its markers, or fail exactly when that replay does |
| SnapshotShipping.QuietBuildExact | src/storage/raft.rs:394-433 | After any run, such a build's image lacks what was lost and meets its metadata exactly if memory is in step with the data |
| SnapshotShipping.QuietBuildReceivable | src/storage/raft.rs:596-619 | A store that has applied no more can receive such a snapshot, as the install step asks, exactly if what the builder had lost makes no difference to its data |
| SnapshotShipping.ReceiverAfterRun | src/storage/raft.rs:596-619 | For every run that ends with a captured image, crashes, installs and all, the install succeeds and the receiver ends with the entries the image holds followed by those after the metadata's log id, or fails exactly if these do not replay; the image lacks nothing if the builder never crashed |
| SnapshotShipping.ReceiverReplays | src/storage/raft.rs:596-619 | The same for any data that holds a prefix with entries missing, and any resume point |
| SnapshotResume.ResumeMustMatch | src/storage/raft.rs:399-419 | That equals the full replay, for every SQL and every log, if and only if the image holds exactly the entries up to the metadata's log id |
| SnapshotResume.HarmlessResume | src/storage/raft.rs:399-419 | For a given log and every SQL it does if the entries between the two points hold no SQL and, where they are skipped, not the last membership |
| SnapshotResume.HarmlessResumeOnly | src/storage/raft.rs:399-419 | With SQL that counts, if and only if |
| SnapshotResume.MeetExactly | src/storage/raft.rs:394-433 | For every build, whatever is interleaved, image and metadata meet if and only if as many entries are settled at the capture as memory named at the first read |
| SnapshotResume.RaceApplyTwice | src/storage/raft.rs:399-419 | A run in which an entry is applied between reading the marker and serializing: the receiver applies it again and counts two where the full replay counts one |
| SnapshotResume.RaceSkipEntry | src/storage/raft.rs:552-566 | A run in which the build falls between marker and SQL: the receiver never applies the entry and counts none |
| ReplicaRecovery.MemoryReopen | src/storage/raft.rs:241-251 | The stored log re-creates data that was in memory only, for every history that left it behind, if and only if no purge marker exists |
| SnapshotIndex.IndicesDistinct | src/storage/raft.rs:291-310 | Over every interleaving of concurrent calls and with crashes, no index is returned twice, nor one that a call which died had taken |
| SnapshotIndex.GapFree | src/storage/raft.rs:291-310 | Without crashes the indices returned are exactly 0 up to the counter |
| SnapshotIndex.InstallReuse | src/storage/raft.rs:606-608 | After a shared-handle install the next index repeats an old one if and only if the received counter is behind |
| SnapshotIndex.SnapshotIdsDistinct | src/storage/raft.rs:402-408 | Two builds never give the same snapshot id, whatever they last applied |
| SnapshotIds.LastDash | src/storage/raft.rs:404-408 | A snapshot id splits uniquely at its last dash |
| SnapshotIds.SnapshotIdReads | src/storage/raft.rs:404-408 | A text is the id of a snapshot if and only if, read from its last two dashes, it gives the leader and index of the entry last applied and the snapshot index, or that nothing was applied and the snapshot index |
| Sqlite.KeyNamesDistinct | src/storage/raft.rs:38-43 | The six key names are pairwise distinct, so each writer touches one row |
| Actor.Linearizable | src/storage/mod.rs:117-135 | For any callers, interleaving and cancellations: no task is queued twice, results and connection are those of running the tasks in queue order, each caller gets its own result, real time is respected, the queue stays within capacity |
| Actor.QueuedStays | src/storage/mod.rs:117-135 | A task once queued is never withdrawn, whoever gives up |
| Actor.HeldUp | src/storage/mod.rs:19-19 | A sender is held up exactly while ten tasks are queued |
| Actor.NotStuck | src/storage/mod.rs:124-134 | While a caller that has not given up is unanswered, some step is possible |
| Actor.ProgressBounded | src/storage/mod.rs:124-134 | With no new submissions only a bounded number of steps remain in any run, whatever is cancelled, and a run that makes them all ends with nothing left to do |
| Actor.AllAnswered | src/storage/mod.rs:117-135 | When nothing is left to do, every queued task has run exactly once and in queue order, those of cancelled callers included, and every caller that did not cancel has its answer |
| Actor.CanFinish | src/storage/mod.rs:124-134 | That point can be reached from every state |
| Actor.ProgressDecreases | src/storage/mod.rs:203-207 | Every step of the worker or of a caller reduces the work left; cancelling never adds any |
| Actor.Runner.RunTasks | src/storage/mod.rs:203-207 | The worker's loop runs every task that is in the channel or arrives while it runs, in order, each on the connection the one before left |
| Buffers.ApplyKeepsInv | src/storage/mod.rs:215-332 | Every allocation, drop, load and close keeps one owner per live buffer |
| Buffers.NoLeakNoDoubleFree | src/storage/mod.rs:215-332 | Over every run nothing is freed twice or while owned, and once nobody owns a buffer every one has been freed |
| Buffers.SqliteHeap.FromSlice | src/storage/mod.rs:219-232 | A copy of the bytes in a fresh buffer, or nothing; an empty slice gets none; no other buffer changes hands |
| Buffers.SqliteHeap.Serialize | src/storage/mod.rs:283-299 | A held buffer with the serialized bytes, or nothing left allocated; no other buffer changes hands |
| Buffers.SqliteHeap.Deserialize | src/storage/mod.rs:301-332 | The connection owns the buffer and its bytes and whatever it had before is freed, or it keeps what it had and the buffer is gone; no other connection is touched |
| Buffers.SqliteHeap.DropMemory | src/storage/mod.rs:262-266 | Dropping frees the buffer the value held, once, and no other |
| Buffers.SqliteHeap.CloseConnection | src/storage/mod.rs:312-321 | Closing frees what the connection had loaded, once, and touches no other |
| Buffers.SqliteHeap.CreateMemoryView | src/storage/mod.rs:268-281 | The view holds the serialized bytes, or the heap is as before; no other buffer or connection is touched |
| StorageTasks.HandleIsAtomic | src/storage/mod.rs:52-179 | Whatever callers submit, cancel and await concurrently, be it statements, fetches, counter updates, serializations or loads, the connection and every answer are those of performing the tasks one at a time in queue order |
| StorageTasks.FetchReadsLastWrite | src/storage/mod.rs:68-86 | A caller's fetch of a key answers with the value stored last before it in queue order, whoever stored it |
| StorageTasks.FetchReadsFirst | src/storage/mod.rs:68-86 | If none was stored before it, with what the database began with |
| StorageTasks.FetchesReadLog | src/storage/mod.rs:88-111 | A range fetch over a stored log answers with the entries the range contains, exactly if no leftover row lies in it, and the last-row fetch with the last id |
| StorageTasks.AppendsToLog | src/storage/mod.rs:52-66 | An append statement takes its place in the stored log and says so, or is refused and changes nothing |
| StorageTasks.BumpsCount | src/storage/raft.rs:291-310 | Counter updates with nothing else at the counter between them give consecutive numbers |
| StorageTasks.LoadsRestore | src/storage/mod.rs:147-172 | Loading what a serialization answered puts the database back as it was then |
| Store.StorageHandle.FetchEntries | src/storage/mod.rs:88-111 | Pulling rows one by one yields the whole selection in order |
| Store.StateMachine.SetLastAppliedLog | src/storage/raft.rs:155-167 | Disk, then memory; both name the id afterwards |
| Store.StateMachine.SetLastMembership | src/storage/raft.rs:170-187 | Disk, then memory; both hold the membership afterwards |
| Store.RaftStore.AppendToLog | src/storage/raft.rs:457-490 | On any table, each index of the batch then holds the last entry for it in every column, every other row and the key-value table are as before, and it succeeds exactly if every entry can be stored; in the step system it is the run of the statements it committed |
| Store.RaftStore.DeleteConflictLogsSince | src/storage/raft.rs:493-510 | Exactly the rows below the id are left, each as it was; it fails only without the table or on an index that cannot be bound, changing nothing; and it is the run of what it commits |
| Store.RaftStore.PurgeLogsUpto | src/storage/raft.rs:513-529 | The marker names the id also when deleting fails; exactly the rows above it are left when it does not; no other key changes; and it is the run of what it commits |
| Store.RaftStore.GetLogState | src/storage/raft.rs:354-364 | Returns the purged and last ids of any log the table holds, if it has entries or the table is tidy |
| Store.RaftStore.TryGetLogEntries | src/storage/raft.rs:367-389 | Returns the range read, whose meaning `RangeReadFilters` gives |
| Store.RaftStore.SaveVote | src/storage/raft.rs:312-330 | The vote read back is the vote saved, no other key and no row changes; it is the step that saves it |
| Store.RaftStore.ReadVote | src/storage/raft.rs:323-330 | Returns the vote last saved in the run that led here, on separate handles or without installs |
| Store.RaftStore.ApplyToStateMachine | src/storage/raft.rs:544-583 | Is the batch's actions on disk and memory, with exactly one response per entry on success; in the step system it is a run of apply steps, also when it fails |
| Store.RaftStore.LastAppliedState | src/storage/raft.rs:531-541 | Returns what a reopen would load, if no entry is in progress and no install came since the open; a new store has no log id, no configuration and no node |
| Store.RaftStore.GetAndIncSnapshotIndex | src/storage/raft.rs:291-310 | In every state of the concurrent model that this log database can belong to, the call takes the index that model gives it, which was never handed out before, or fails as it does |
| Store.TakeIndexIsSteps | src/storage/raft.rs:291-310 | The database and index of a call that nothing interleaves with are those of its four steps, and the index is new |
| Store.RaftStore.BuildSnapshot | src/storage/raft.rs:394-433 | Is an undisturbed build of the step system; the bytes are the live database, which contains the returned metadata; its id reads back as the leader and index of the entry last applied and the counter, one above what it was; it fails exactly when the counter has run out |
| Store.RaftStore.InstallSnapshot | src/storage/raft.rs:596-619 | Replaces the data by the received image, memory and file stay: the two install steps. For bytes that are no image it fails without a change, where the source may find out only after SQLite has replaced the database |
| Store.RaftStore.GetCurrentSnapshot | src/storage/raft.rs:621-643 | Returns the last snapshot published, over runs without installs, exactly under the condition of `ServedIsPublished` |
| Store.Open | src/storage/raft.rs:215-239 | On new files the log is empty, reports no id, reads nothing and accepts entries from index 0, and there is no membership; rows, keys and user tables that are there stay; the persisted markers are loaded into memory, and it fails exactly if they cannot be read; the log handle serves for data when no other is given; it is the first state on new files and the state after the crash step on a dead store's |

## Left out

- The consensus algorithm, the RPC layer and the client: only the assumptions above about the Raft core are kept.
- MessagePack: serialized records are symbolic, so a record of the right kind always decodes.
- Power loss, WAL, pragmas and prepared-statement caching: a committed statement survives a process crash.
- File errors and a crash in the middle of writing the snapshot file: a file write happens as a whole.
- User SQL that touches the two `replicat_*` tables: user statements see only the user tables.
- Store.RaftStore.InstallSnapshot: for a buffer that is not a database image SQLite may replace the database and fail on the next statement; here loading it fails and changes nothing.
- WAL mode of an image: `setup_log_store` (src/storage/raft.rs:739-749) puts log.db in WAL mode, and SQLite documents that a deserialized WAL-mode image cannot be opened; the install results for images of a shared handle assume it can.
- Replica.ReceiveStep: a received image holds exactly the entries up to its metadata's log id, as `QuietBuildReceivable` says of builds at rest; what the receiver of any other build ends with is `ReceiverAfterRun`.
- The emptiness check of `serialize` (src/storage/mod.rs:153-161): a build has just written a row, so it always passes.
- Range reads in a build with overflow checks: the wrapping bounds panic there instead of reading wrong rows.
- Row order of the range query: it has no ORDER BY, ascending order of the primary-key scan is assumed.
- The fairness of the channel: which blocked sender gets the next free place is left open, so every order is covered.
- SQLite errors that do not come from the statement itself (disk full, busy): writing a row of the key-value table always succeeds.
- The counter's value once it has passed the largest 64-bit integer: it is a real number, and every further call fails.
- Task panics, a closed worker channel, logging, timing and the error constructors.
- Replica.CrashStep: with data in memory only, the steps let the core apply entries again that were purged from its log, so they cover more runs than the code has; when the log suffices is `MemoryReopen`.
- Actor.ProgressBounded: assumes every task returns, because a task that panics ends the worker.
