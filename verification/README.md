# Verified models of GoDB's hard parts

GoDB is a small transactional storage engine and query processor.  This project models the parts
of it that carry correctness arguments across many functions, and proves them.

* **Recovery** (`LogModel`, `CommittedReplay`, `CommittedRows`, `Engine`, `EngineInvariant`, `AnalysisProof`,
  `EngineSteps`, `RecoveryTheorems`, `ExactGuards`, `SlipRuns`, `Hazards`, `Rollback`, `Database`,
  `CheckpointWindow`, `FreeSlotDelete`): the engine as a state machine over the durable and volatile
  log, stored pages and frames with their LSNs, evictions under way, live transactions with undo
  stacks, a checkpoint under way, the master record, crashes, and the three phases of recovery;
  `Database.Db` is the program, each method proved to perform careful steps of that machine.
* **Locks** (`LockModes`, `LockState`, `LockInvariant`, `LockTheorems`, `LockManager`,
  `Granularity`, `TransactionLocks`, `DeadlockSearch`): the lock manager with queues, upgrades,
  the counted waits-for graph, victim aborts, the per-transaction lock table, multi-granularity
  access through the table heap, and the depth-first deadlock search.
* **Log and pool** (`Bytes`, `DoubleBuffer`, `LogCodec`, `LogFile`, `LogWriter`,
  `CheckpointPayload`, `UndoBuffer`, `BufferPool`, `BufferPoolShard`): fast stateful structures
  against simple ones: an append-only byte string, a list of records, a stack, a flat page store.
* **Queries** (`Values`, `Expressions`, `Plans`, `RowMeaning`, `JoinFilters`, `Pushdown`, `Dnf`): three-valued
  evaluation, the meaning of plans as row sequences, predicate pushdown, and conversion to
  disjunctive normal form.
* **Executors** (`EquiJoin`, `SortMergeJoin`, `HashJoin`, `SortOrder`, `TopN`): the join and TopN
  executors against nested loops and sort-then-limit.

Where the program changes an object, the model is a class whose methods change fields; each method
is tied to a specification function or a step of a state machine, and the theorems are about those.
A run is a finite sequence of steps; a theorem over runs holds for all of them.

Verify with `dafny verify dfyconfig.toml`.

## Assumptions

These are the conditions under which the theorems speak about the program.

* In the table heap a log append and the page change it describes are one step: the page latch is
  held over both.  A compensation is two steps, append and application, because `Abort` appends it
  before it fetches and latches the page.
* A page flush tests the page LSN and writes in one step.  An eviction is three steps (the page is
  taken out, written back, and its frame used for another page), the dirty mark is a step of its
  own, and a checkpoint is five (begin record, page snapshot, transaction snapshot, end record,
  master record).  Each snapshot is one step; the transaction snapshot finds nobody inside
  `Commit` or `Abort`, whose mutex it takes.
* The theorems about runs of the engine are about *guarded* runs.  The program does not exclude
  some interleavings that lose data; `Engine.Careful` is the exact condition, step by step, that
  rules them out, and all other interleavings are covered.  `ExactGuards` proves, in every state a
  guarded run reaches, that each clause is equivalent to the property it protects (for a page that
  is stored: up to compensations that would change nothing).  `Hazards` has for each clause a run
  that breaks it once and ends with a wrong row or a lost commit.  The clauses:
  - a page is stored only when no compensation of it, logged at or below its page LSN, is still to
    be applied;
  - a compensation is applied in a frame whose recLSN is not above it;
  - when the pages of a checkpoint are listed, no unstored frame is on its way out or unmarked, and
    every compensation still to be applied is of a page listed at or below it;
  - the waits before a write-back and at the end of `Commit` leave the record itself durable (for a
    write-back this is the write-ahead rule itself);
  - from a new master record on, no end-of-checkpoint record lists a transaction that ended before.
* `Database.Db` runs one call at a time, and its methods are proved careful.
* A wait in the engine is over when the LSN is at most the end of the durable log, as in the double
  buffer.  `DoubleBuffer.PublishedIffBelow` says when the record itself is published and
  `DoubleBuffer.WaitReturnsTooEarly` has an input on which it is not.
* The two tables of a checkpoint have at most 4094 entries together.  The size field of a record has
  16 bits: `CheckpointPayload.EndRecordReadIff` shows that the bound is exact, and with 4095 entries
  the scan of recovery ends at the record (`CheckpointPayload.ScanStopsAtLargeCheckpoint`).
* Transaction ids are fresh, and every write has a transaction.
* Begin (append, then store in the table of live transactions) is one step.
* The durable log ends on a record boundary (`LogFile.RoundTrip` says what is read when it does not).
* Updates and deletes name allocated slots.  `DeleteTuple` does not test this; `FreeSlotDelete`
  gives the exact condition under which a rollback is still right, and a run on which it is not.
* Each operation of the lock manager runs under the mutex of its tag and is one step.  A
  transaction has one outstanding request.  A timeout is a victim step and may fire at any time.
* LSNs are record indices in the engine; they are byte offsets in `DoubleBuffer` and `LogFile`,
  and the two orders agree because records are not empty.

## Where code and documentation differ

The model follows the code.

* The master record holds the truncation LSN, not the LSN of the begin-checkpoint record.
* The undo scan compares its candidate start with the redo start.  In guarded runs the comparison
  never changes the result (`EngineSteps.UndoStartIsMaster`); where a commit falls inside a
  checkpoint it can, and a committed row is taken back (`Hazards.CommittedRowTakenBack`).
* `WaitUntilFlushed` is documented to wait for the record with the given LSN; see above.
* `WriteToLog` accepts a longer buffer but checksums all of it: `LogWriter.LongerBufferVerifiesIff`.
* A filter is documented to keep the rows on which its predicate is TRUE.  The filter executor reads
  the value as an integer, which asserts that it is not NULL, and keeps the row when it is 1.  The
  plan semantics here drops NULL and keeps every non-zero value; on conditions the two agree
  (`Expressions.ConditionsPass`), on a bare integer other than 0 and 1 they do not
  (`Expressions.BareValueIsDropped`).
* Pushdown is documented to preserve results.  A null check or concatenation reports no columns, so
  its condition may be moved to where its column is missing, and building the physical plan panics
  (`Pushdown.UnreportedColumnIsLost`).  Plans that still bind after the rewrite keep their rows.
* After its first hit the deadlock search leaves its marks.  `DeadlockSearch.SearchReports` says
  what a later list is worth; a transaction on no cycle may be aborted
  (`DeadlockSearch.SecondReportMayBeSpurious`).
* TopN with a limit of zero panics on a non-empty input instead of returning nothing.

## Model

| member | source | states |
|---|---|---|
| `RecoveryTheorems.RecoveryRestoresCommittedRows` | GoDB-lab-s26/recovery/recovery_manager.go:61-287 | in every guarded run, where compensations, evictions, marking, the five steps of a checkpoint and all transactions interleave freely and any number of crashes (also inside redo or undo) cut it, the rows visible when recovery ends are exactly those of replaying, in log order, only the transactions whose Commit record was durable |
| `RecoveryTheorems.RecoveredRowIsCommitted` | GoDB-lab-s26/recovery/recovery_manager.go:61-287 | after recovery a slot shows the new bytes of the newest insert or update by a transaction with a durable Commit record, and no row when that newest change is a delete or there is none |
| `RecoveryTheorems.AcknowledgedCommitsSurvive` | GoDB-lab-s26/transaction/transaction_manager.go:85-118 | in guarded runs a transaction whose Commit has returned is among those that every later recovery replays |
| `RecoveryTheorems.UntouchedRowsAreCommitted` | GoDB-lab-s26/transaction/transaction_manager.go:121-224 | in every running state of a guarded run, a slot that no live transaction has touched shows its committed row |
| `RecoveryTheorems.UntouchedRowIsCommitted` | GoDB-lab-s26/transaction/transaction_manager.go:85-224 | in a running state of a guarded run a slot no live transaction has touched shows the new bytes of its newest committed change, or no row |
| `RecoveryTheorems.WrittenRowIsImage` | GoDB-lab-s26/execution/table_heap.go:57-328 | an insert or update leaves its new bytes in its row and a delete leaves no row; every other row stays |
| `RecoveryTheorems.StoredPagesTrailTheLog` | GoDB-lab-s26/storage/buffer_pool.go:141-158 | in every state of a guarded run a stored page is the replay of exactly the records for it with LSN at most its page LSN, and that LSN is zero or durable |
| `RecoveryTheorems.RedoRepeatsHistory` | GoDB-lab-s26/recovery/recovery_manager.go:157-239 | in spite of the not-in-table, recLSN and pageLSN skips, after the redo loop of a guarded run every page is the replay of the whole durable log |
| `RecoveryTheorems.TruncationIsSafe` | GoDB-lab-s26/recovery/checkpoint_manager.go:110-146 | when the end record of a checkpoint is appended in a guarded run, the truncation LSN exceeds neither the Begin LSN of a live transaction nor the LSN of a record missing from its stored page |
| `RecoveryTheorems.AnalysisRebuildsTables` | GoDB-lab-s26/recovery/recovery_manager.go:87-149 | from the master record of a guarded run, analysis rebuilds exactly the begun and unended transactions with their Begin LSNs, and for every stale page an entry at or below its first missing record |
| `RecoveryTheorems.UndoLogsAreExact` | GoDB-lab-s26/recovery/recovery_manager.go:245-281 | in guarded runs the undo scan starts at the master record and leaves every loser exactly its uncompensated data records |
| `ExactGuards.StoredPageIff` | GoDB-lab-s26/storage/buffer_pool.go:141-158 | in every state of a guarded run, a frame about to be stored shows every record up to its page LSN if and only if each compensation of the page logged at or below that LSN and not applied yet would change nothing |
| `ExactGuards.SnapshotListsIff` | GoDB-lab-s26/storage/buffer_pool.go:250-275 | in every running state of a guarded run, the dirty-page snapshot lists every stale page at or below its first missing record if and only if no unstored frame is on its way out or unmarked and no compensation is open on a page not listed at or below it |
| `ExactGuards.RecLsnBoundsIff` | GoDB-lab-s26/storage/page.go:62-91 | applying a compensation leaves a recLSN that bounds what the stored page lacks if and only if the recLSN of the frame was not above the compensation |
| `ExactGuards.CommitDurableIff` | GoDB-lab-s26/transaction/transaction_manager.go:85-118 | when the wait of a commit is over its record is durable if and only if its LSN is strictly below the end of the durable log |
| `ExactGuards.MasterIsRightIff` | GoDB-lab-s26/recovery/checkpoint_manager.go:149-164 | from a new master record analysis rebuilds exactly the live transactions if and only if no end-of-checkpoint record from there on lists a transaction that had ended before |
| `Hazards.AbortedRowSurvives` | GoDB-lab-s26/transaction/transaction_manager.go:145-197 | a run with one uncareful step: a page stored between the append and the application of a compensation, past its LSN; after crash and recovery the aborted row is visible |
| `Hazards.HiddenVictimLosesCommit` | GoDB-lab-s26/storage/buffer_pool.go:333-366 | a run with one uncareful step: the page snapshot while a dirty victim is on its way out; after crash and recovery a committed row is gone |
| `Hazards.UnmarkedPageLosesCommit` | GoDB-lab-s26/storage/buffer_pool.go:250-275 | a run with one uncareful step: the page snapshot between a change and the unpin that marks the page; a committed row is gone |
| `Hazards.OpenCompensationLost` | GoDB-lab-s26/transaction/transaction_manager.go:145-197 | a run with one uncareful step: the page snapshot between the append and the application of a compensation; an aborted row is visible |
| `Hazards.ReusedFrameLosesCompensation` | GoDB-lab-s26/storage/page.go:62-91 | a run with one uncareful step: a compensation applied in a frame whose recLSN, left from another page, is past it; an aborted row is visible |
| `Hazards.UnloggedInsertSurvives` | GoDB-lab-s26/storage/buffer_pool.go:141-158 | a run with one uncareful step: the wait before the write-back of a victim returns one record too early; the row of a transaction whose record is lost is visible |
| `Hazards.AcknowledgedCommitLost` | GoDB-lab-s26/transaction/transaction_manager.go:85-118 | a run with one uncareful step: the wait of a commit returns one record too early; the commit is acknowledged and lost |
| `Hazards.CommittedRowTakenBack` | GoDB-lab-s26/recovery/checkpoint_manager.go:114-164 | a run with one uncareful step: a commit between transaction snapshot and end record, and a later master record inside that window; analysis revives the transaction, undo starts before the master record and takes its committed row back |
| `CommittedReplay.HistoryIsCommittedReplay` | GoDB-lab-s26/transaction/transaction_manager.go:121-200 | for every log the engine may write, a slot no live transaction touched has, replayed from all records including rolled-back ones and their compensations, the visible contents of the committed replay |
| `CommittedReplay.SlotInvHolds` | GoDB-lab-s26/transaction/transaction_manager.go:121-200 | along every log a slot is its committed contents with the pending changes of the one live transaction that touched it on top, or a rolled-back insertion nobody sees |
| `CommittedReplay.CompensateEffect` | GoDB-lab-s26/transaction/transaction_manager.go:145-197 | a compensation record takes exactly the newest change of the transaction back |
| `CommittedRows.NewestCommittedRow` | GoDB-lab-s26/recovery/recovery_manager.go:205-239 | for every log the engine may write, the committed row of a slot is the image of its newest committed change |
| `CommittedRows.NeverCommittedRow` | GoDB-lab-s26/recovery/recovery_manager.go:205-239 | a slot no committed transaction has changed has no row |
| `Rollback.TransactionShape` | GoDB-lab-s26/transaction/transaction_context.go:244-257 | the records of a transaction are Begin, data records, then compensations of them in exact reverse order, then one end record; an Abort record comes only after all of them |
| `Rollback.AbortRestoresRows` | GoDB-lab-s26/transaction/transaction_manager.go:135-200 | when a transaction has aborted, every slot it touched shows its visible contents from before the transaction |
| `Rollback.SoleWriter` | GoDB-lab-s26/execution/table_heap.go:174-186 | from its first change of a slot until it ends, a transaction is the only one with records on that slot, and no other live transaction had touched it |
| `AnalysisProof.AnalysisExact` | GoDB-lab-s26/recovery/recovery_manager.go:87-149 | from any safe scan start, the tables of the analysis loop are exact for the transactions and sufficient for the pages |
| `AnalysisProof.RebuildIsUndoStack` | GoDB-lab-s26/transaction/transaction_context.go:244-257 | feeding the records of a transaction to its recovery buffer from any point at or before its Begin leaves exactly its uncompensated data records |
| `AnalysisProof.CompensationHasTarget` | GoDB-lab-s26/transaction/transaction_context.go:247-252 | the recovery buffer is never popped while empty |
| `AnalysisProof.EndsOnce` | GoDB-lab-s26/recovery/recovery_manager.go:87-98 | no transaction of a log has both a Commit and an Abort record |
| `EngineSteps.StepKeeps` | GoDB-lab-s26/recovery/recovery_manager.go:61-287 | every careful step of the engine keeps the invariant that relates log, stored pages, frames in and leaving the pool, tables, checkpointer and undo stacks |
| `EngineSteps.RunsKeepInv` | GoDB-lab-s26/recovery/recovery_manager.go:61-287 | the invariant holds in every state of every guarded run |
| `EngineSteps.TruncationIsScanStart` | GoDB-lab-s26/recovery/checkpoint_manager.go:110-146 | the smallest of the begin-checkpoint LSN, the start LSNs and the recLSNs of the two snapshots is a safe scan start for the log as it is when the end record is appended |
| `EngineSteps.UndoStartIsMaster` | GoDB-lab-s26/recovery/recovery_manager.go:247-253 | under the invariant of guarded runs the test that picks the start of the undo scan always picks the master record |
| `CheckpointWindow.AnalysisExactIff` | GoDB-lab-s26/recovery/recovery_manager.go:87-149 | for every admitted log and scan start, analysis rebuilds exactly the live transactions if and only if no end-of-checkpoint record at or after the scan start lists a transaction that had ended before it |
| `FreeSlotDelete.RollBackRestoresIff` | GoDB-lab-s26/execution/table_heap.go:174-222 | with a delete that does not test allocation, rolling back restores the visible row of a slot if and only if it is not the case that the changes insert into the slot and their first deletion mark is that of a delete |
| `FreeSlotDelete.PhantomRow` | GoDB-lab-s26/execution/table_heap.go:174-222 | a concrete run: delete of a free slot, insert into it, abort, and a row that never existed is visible |
| `Database.Db.GetPage` | GoDB-lab-s26/storage/buffer_pool.go:101-186 | an uncached page is read into a frame; a pool with room keeps its other pages, a full one first takes a victim out, forces the log up to its page LSN and writes it back, and stays within its capacity; a cached page changes nothing |
| `Database.Db.WaitUntilFlushed` | GoDB-lab-s26/storage/wal.go:65-67 | returns with the given prefix of the log durable and no less durable than before |
| `Database.Db.FlushDirtyPage` | GoDB-lab-s26/storage/buffer_pool.go:206-248 | a dirty page whose page LSN is below the end of the durable log is stored as it is and marked clean |
| `Database.Db.Unpin` | GoDB-lab-s26/storage/buffer_pool.go:191-202 | the unpin marks the changed page dirty, as a step of its own |
| `Database.Db.BeginTransaction` | GoDB-lab-s26/transaction/transaction_manager.go:66-82 | appends Begin and registers the transaction with that LSN and an empty undo stack, and nothing else |
| `Database.Db.LogAndApply` | GoDB-lab-s26/execution/table_heap.go:79-145 | one insert, update or delete: the record is appended, pushed on the undo stack and applied to the cached page under one LSN, then the page is unpinned dirty; the row shows the new bytes or is gone, and no other row changes |
| `Database.Db.CommitTransaction` | GoDB-lab-s26/transaction/transaction_manager.go:85-118 | returns only after the Commit record is durable; then every slot that no live transaction has touched shows the image of its newest committed change |
| `Database.Db.AbortTransaction` | GoDB-lab-s26/transaction/transaction_manager.go:121-224 | compensates every data record, newest first, and returns after the Abort record is durable; then every slot that no live transaction has touched shows the image of its newest committed change |
| `Database.Db.UndoAll` | GoDB-lab-s26/transaction/transaction_manager.go:135-197 | the loop over the undo buffer leaves it empty, with one compensation per data record |
| `Database.Db.UndoNewest` | GoDB-lab-s26/transaction/transaction_manager.go:141-197 | one round: the compensation of the newest record is logged, then its page is fetched, changed and unpinned; each step is careful |
| `Database.Db.Truncation` | GoDB-lab-s26/recovery/checkpoint_manager.go:110-146 | the smallest of the begin-checkpoint LSN, the start LSNs and the recLSNs |
| `Database.Db.Checkpoint` | GoDB-lab-s26/recovery/checkpoint_manager.go:99-170 | begin record, page snapshot, transaction snapshot, end record with both tables, wait, and master record, five steps that are each careful when nothing interleaves |
| `Database.Db.Fail` | GoDB-lab-s26/recovery/recovery_manager.go:61-66 | a crash keeps the stored pages, the durable log and the master record and nothing else |
| `Database.Db.AnalysisPass` | GoDB-lab-s26/recovery/recovery_manager.go:81-149 | the loop computes the analysis tables of the log from the master record, and the largest transaction id it mentions |
| `Database.Db.ReadTransactionTable` | GoDB-lab-s26/recovery/recovery_manager.go:117-130 | the inner loop adds exactly the entries of transactions not known to have ended |
| `Database.Db.ReadDirtyTable` | GoDB-lab-s26/recovery/recovery_manager.go:134-147 | the inner loop adds exactly the entries of pages not in the table yet |
| `Database.Db.SmallestRecLsn` | GoDB-lab-s26/recovery/recovery_manager.go:159-165 | the smallest of a bound and the recLSNs |
| `Database.Db.UndoStart` | GoDB-lab-s26/recovery/recovery_manager.go:247-253 | the start LSN of the undo scan by the comparison the program makes |
| `Database.Db.RedoPass` | GoDB-lab-s26/recovery/recovery_manager.go:177-239 | the redo loop performs exactly the redo steps of the engine up to the end of the log |
| `Database.Db.RebuildPass` | GoDB-lab-s26/recovery/recovery_manager.go:259-272 | the undo scan fills the undo stack of every loser |
| `Database.Db.UndoPhase` | GoDB-lab-s26/recovery/recovery_manager.go:278-281 | aborts every loser |
| `Database.Db.Recover` | GoDB-lab-s26/recovery/recovery_manager.go:61-287 | ends in a running database with no live transaction in which each slot shows the new bytes of its newest change by a transaction whose Commit record the log held at the crash, or no row |
| `LockModes.CompatibleSymmetric` | GoDB-lab-s26/transaction/lock.go:144-180 | the compatibility table is symmetric |
| `LockModes.CompatibleIff` | GoDB-lab-s26/transaction/lock.go:144-180 | two modes are compatible if and only if neither writes the whole granule and neither reads the whole of what the other writes parts of |
| `LockModes.CoversIff` | GoDB-lab-s26/transaction/lock.go:432-438 | a mode covers another if and only if it gives every access the other gives |
| `LockModes.UpgradeIff` | GoDB-lab-s26/transaction/transaction_context.go:119-124 | an upgrade gives exactly the accesses held and asked for |
| `LockModes.UpgradeIsJoin` | GoDB-lab-s26/transaction/transaction_context.go:119-124 | the mode asked for on an upgrade is the least one covering the held and the wanted mode, S and IX joining to SIX |
| `LockModes.CoversConflictsMore` | GoDB-lab-s26/transaction/lock.go:432-438 | a covering mode conflicts with everything the covered mode conflicts with |
| `LockTheorems.HoldersAreCompatible` | GoDB-lab-s26/transaction/lock.go:440-451 | in every reachable state the holders of a tag are pairwise compatible |
| `LockTheorems.GraphDomainIsWaiters` | GoDB-lab-s26/transaction/lock.go:323-358 | the domain of the waits-for graph is exactly the set of waiting transactions |
| `LockTheorems.GraphCoversConflicts` | GoDB-lab-s26/transaction/lock.go:323-358 | the count of an edge is the number of clashes, as holder and as earlier waiter; for a transaction not queued ahead any more it may be one higher; no transaction waits for itself |
| `LockTheorems.NoLostWakeup` | GoDB-lab-s26/transaction/lock.go:655-706 | the head of a non-empty queue conflicts with some other holder |
| `LockTheorems.StrictFifo` | GoDB-lab-s26/transaction/lock.go:305-325 | a transaction that gains a lock had nobody ahead of it who is still waiting |
| `LockTheorems.WakeTakesPrefix` | GoDB-lab-s26/transaction/lock.go:655-706 | waking removes a prefix of the queue and only its members gain |
| `LockTheorems.LockCountIsExact` | GoDB-lab-s26/transaction/lock.go:285-321 | the lock count of a transaction is the number of tags it holds |
| `LockInvariant.StepKeeps` | GoDB-lab-s26/transaction/lock.go:285-531 | lock, unlock, victim abort and resume steps keep the invariant of table, queues, graph and registry |
| `LockInvariant.RunsKeepInv` | GoDB-lab-s26/transaction/lock.go:285-531 | the invariant holds in every reachable state |
| `LockManager.LockManager.IsCompatible` | GoDB-lab-s26/transaction/lock.go:440-451 | true exactly when no other holder clashes with the request |
| `LockManager.LockManager.BuildRow` | GoDB-lab-s26/transaction/lock.go:330-354 | one count for each clash with a holder and with an earlier waiter, and nothing else |
| `LockManager.LockManager.Lock` | GoDB-lab-s26/transaction/lock.go:201-236 | granted at once if and only if the mode is covered, or nobody waits and no other holder clashes; a granted request holds its mode, any other is the last of the queue with its row in the graph; no other tag changes |
| `LockManager.LockManager.Unlock` | GoDB-lab-s26/transaction/lock.go:240-265 | performs the unlock step, and fails exactly when the lock is not held |
| `LockManager.LockManager.Release` | GoDB-lab-s26/transaction/lock.go:386-428 | removes the holder, drops one reason from every conflicting waiter, whose edge is present, and wakes |
| `LockManager.LockManager.DropAll` | GoDB-lab-s26/transaction/lock.go:404-423 | the loop that lowers the edge counts of conflicting waiters |
| `LockManager.LockManager.WakeUpCompatibleWaiters` | GoDB-lab-s26/transaction/lock.go:655-706 | grants from the front until a request conflicts, exactly as the recursive specification |
| `LockManager.LockManager.GrantPrefix` | GoDB-lab-s26/transaction/lock.go:655-700 | the loop of the wake-up: each granted waiter becomes a holder, leaves the graph and finds its reply |
| `LockManager.LockManager.ResolveCycle` | GoDB-lab-s26/transaction/lock.go:453-532 | performs the victim step, a no-op for a transaction that no longer waits |
| `LockManager.LockManager.AbortRequest` | GoDB-lab-s26/transaction/lock.go:488-532 | removes the request of the victim, lowers the counts of the waiters behind it, whose edges are present, and wakes |
| `LockManager.LockManager.AwaitReply` | GoDB-lab-s26/transaction/lock.go:379-384 | a blocked call returns what it finds in its channel |
| `Granularity.PrivateTableIsExact` | GoDB-lab-s26/transaction/transaction_context.go:113-162 | the private lock table of a transaction that is neither blocked nor releasing equals its entries in the holder maps |
| `Granularity.ModesClimb` | GoDB-lab-s26/transaction/transaction_context.go:113-135 | outside its own release a transaction's mode on a tag only climbs |
| `Granularity.TupleLocksHaveIntent` | GoDB-lab-s26/execution/table_heap.go:79-145 | a tuple X lock implies table IX, SIX or X for the same transaction, and any tuple lock a table lock, also midway through release |
| `Granularity.WritersExclude` | GoDB-lab-s26/execution/table_heap.go:227-243 | while a live transaction has write access to a tuple, no other live transaction has read or write access to it, by tuple lock or by table lock |
| `Granularity.RunsKeepWorld` | GoDB-lab-s26/transaction/transaction_context.go:149-162 | lock manager, private tables and pending requests agree in every run through the table heap |
| `TransactionLocks.TransactionContext.AcquireLock` | GoDB-lab-s26/transaction/transaction_context.go:113-135 | holds, or when blocked waits in, the mode asked for, or the least mode covering it and what was held; blocked if and only if that is not covered and somebody waits or another holder clashes; the private table stays exact |
| `TransactionLocks.TransactionContext.RequestLock` | GoDB-lab-s26/transaction/transaction_context.go:126-132 | an uncovered mode is granted if and only if nobody waits and no other holder clashes, and then becomes the mode of that tag only; else it is the last of the queue |
| `TransactionLocks.TransactionContext.ReleaseAllLocks` | GoDB-lab-s26/transaction/transaction_context.go:149-162 | releases every held tag, all tuples before all tables; nothing is held afterwards and the lock manager has forgotten the transaction |
| `TransactionLocks.StepAsksWanted` | GoDB-lab-s26/transaction/transaction_context.go:113-135 | the acquire step of the runs through the table heap asks for that least mode too |
| `TransactionLocks.UnlockOwn` | GoDB-lab-s26/transaction/transaction_context.go:149-162 | unlocking takes exactly one tag from its transaction and leaves it idle |
| `DeadlockSearch.FirstReportIsCycle` | GoDB-lab-s26/transaction/lock.go:551-578 | while nothing is left marked, a list the search reports is closed and is exactly the nodes of a cycle, in ring order; without a report the root is finished |
| `DeadlockSearch.SearchReports` | GoDB-lab-s26/transaction/lock.go:551-598 | whatever earlier hits left marked: a reported list is a chain of distinct waiters; closed, it is a cycle; not closed, it is a cycle if and only if its first member waits for its last; and each member waits, through others perhaps, for a cycle |
| `DeadlockSearch.VisitSearches` | GoDB-lab-s26/transaction/lock.go:551-578 | from any marks a call finishes its node and restores the stack, or reports a list closed, or on its way to its first node, or begun at a node left marked |
| `DeadlockSearch.FinishedHasNoCycle` | GoDB-lab-s26/transaction/lock.go:580-598 | once every waiter is finished the snapshot has no cycle |
| `DeadlockSearch.SecondReportMayBeSpurious` | GoDB-lab-s26/transaction/lock.go:551-598 | a concrete snapshot: after a first hit the marks on the stack stay, and a transaction on no cycle is reported in a list that is not closed |
| `DeadlockSearch.SecondReportMayBeGenuine` | GoDB-lab-s26/transaction/lock.go:551-598 | a concrete snapshot on which a list that is not closed is a cycle |
| `DeadlockSearch.Largest` | GoDB-lab-s26/transaction/lock.go:454-456 | the victim is the largest member of the list |
| `DeadlockSearch.VictimIsAborted` | GoDB-lab-s26/transaction/lock.go:453-532 | a victim that still waits loses its request, leaves the graph and finds the deadlock in its channel |
| `DeadlockSearch.AbortsVictims` | GoDB-lab-s26/transaction/lock.go:453-532 | aborting the largest member of each list frees exactly those from waiting by a deadlock; earlier replies stay and nobody starts to wait |
| `DeadlockSearch.Detector.FindAnyCycle` | GoDB-lab-s26/transaction/lock.go:551-578 | the recursive search over the two mutable sets computes the specified search |
| `DeadlockSearch.TakeSnapshot` | GoDB-lab-s26/transaction/lock.go:535-545 | copies the keys of every row |
| `DeadlockSearch.RunGlobalDeadlockCheck` | GoDB-lab-s26/transaction/lock.go:534-599 | terminates; reports something if and only if the snapshot has a cycle; the first list is closed; every list is as SearchReports says; the largest member of every list no longer waits, the first of them finds the deadlock, and nobody else is told of one |
| `Pushdown.PushdownPreservesMeaning` | GoDB-lab-s26/planner/predicate_pushdown.go:16-136 | for every well-formed plan, conditions of any kind, all five join types and all table contents: if the optimized plan binds, it is well-formed with the same schema and the same row sequence |
| `Pushdown.ReportedPlansKeepMeaning` | GoDB-lab-s26/planner/predicate_pushdown.go:16-136 | a plan that binds and whose filters report the columns they read keeps its rows outright |
| `Pushdown.ReportedPlansBind` | GoDB-lab-s26/planner/predicate_pushdown.go:38-110 | such a plan is optimized to one that binds |
| `Pushdown.ApplyBindsIff` | GoDB-lab-s26/planner/predicate_pushdown.go:53-136 | what one application leaves binds if and only if the plan did and every condition moved below the join binds on its side |
| `Pushdown.OptimizedBinds` | GoDB-lab-s26/planner/physical_plan_builder.go:18-28 | a plan whose optimized form binds can itself be bound |
| `Pushdown.MovedLeftIff` | GoDB-lab-s26/planner/predicate_pushdown.go:62-84 | moving a condition of an inner, cross or left join to its left input keeps the rows for all inputs if and only if it is as true of each row the join can produce as of its left part |
| `Pushdown.RewriteKeeps` | GoDB-lab-s26/planner/predicate_pushdown.go:16-35 | one application of the rule keeps schema, rows and well-formedness |
| `Pushdown.JoinFilter` | GoDB-lab-s26/planner/predicate_pushdown.go:53-136 | filtering the rows of any join is joining inputs filtered by the pushed conditions under the extended condition and filtering by the kept ones |
| `Pushdown.DistributeOk` | GoDB-lab-s26/planner/predicate_pushdown.go:57-110 | the distribution loop, including the upgrade of cross to inner, splits a conjunction into parts that together hold exactly when it does |
| `Pushdown.KeptIsForbidden` | GoDB-lab-s26/planner/predicate_pushdown.go:62-110 | a condition stays above a join if and only if the type of the join forbids to push it |
| `Pushdown.OptimizeSettles` | GoDB-lab-s26/planner/optimizer.go:35-67 | for every plan in which no filter stands on a filter or is an input of a join, the optimized plan has at no depth a filter that could still go into its scan or a condition that could still go below its join |
| `Pushdown.NestedFilterStays` | GoDB-lab-s26/planner/optimizer.go:35-67 | a concrete plan with a filter on a filter in which the upper one is left behind |
| `Pushdown.UnreportedColumnIsLost` | GoDB-lab-s26/planner/expr.go:392-394 | a concrete plan that binds and whose optimized form does not: a null check reports no columns, so the condition is pushed to a side where its column is not found |
| `Pushdown.UnreportedColumnAddsRow` | GoDB-lab-s26/planner/expr.go:392-394 | tables on which the two plans have different rows, if the column that is not found is read as NULL |
| `Pushdown.PushThroughJoin` | GoDB-lab-s26/planner/predicate_pushdown.go:53-136 | the loop and the rebuilding of join and filter compute the specified distribution |
| `Pushdown.CanPush` | GoDB-lab-s26/planner/predicate_pushdown.go:38-49 | true exactly when every reported column has an origin with the alias of the scan |
| `Pushdown.ApplyRule` | GoDB-lab-s26/planner/predicate_pushdown.go:16-35 | the specified rewrite, and whether another node is returned |
| `Pushdown.OptimizeWithRule` | GoDB-lab-s26/planner/optimizer.go:35-67 | terminates and computes the specified recursive rewrite |
| `JoinFilters.InnerFilter` | GoDB-lab-s26/planner/predicate_pushdown.go:67-75 | filtering an inner join is joining filtered inputs under a longer condition |
| `JoinFilters.LeftFilter` | GoDB-lab-s26/planner/predicate_pushdown.go:77-84 | conditions on the preserved left side move below a left outer join, the others stay above |
| `JoinFilters.RightFilter` | GoDB-lab-s26/planner/predicate_pushdown.go:86-92 | conditions on the preserved right side move below a right outer join, the others stay above |
| `JoinFilters.EvalLeft` | GoDB-lab-s26/planner/physical_plan_builder.go:18-28 | an expression over the left schema evaluates on the joined row as on the left row |
| `JoinFilters.EvalRight` | GoDB-lab-s26/planner/physical_plan_builder.go:18-28 | an expression that finds no column on the left evaluates on the joined row as on the right row |
| `JoinFilters.RowsShaped` | GoDB-lab-s26/planner/logical_join_node.go:64-69 | every row of a well-formed plan has the width of its schema |
| `RowMeaning.JoinRowsIff` | GoDB-lab-s26/planner/predicate_pushdown.go:62-110 | the rows of a join are the pairs on which its condition is TRUE, for a left or full join also each left row without a partner padded with NULLs, for a right or full join each right row |
| `RowMeaning.InnerJoinCount` | GoDB-lab-s26/planner/predicate_pushdown.go:62-75 | an inner join has one row for each matching pair |
| `RowMeaning.KeepCount` | GoDB-lab-s26/execution/filter_executor.go:39-49 | a filter keeps each row on which all conditions are TRUE as often as it occurs, and no other |
| `Plans.DistinctRefsAreDisjoint` | GoDB-lab-s26/planner/logical_plan_types.go:32-74 | attached references with different ids and aliases give schemas with no common column |
| `Expressions.SplitHolds` | GoDB-lab-s26/planner/expr.go:282-289 | splitting a predicate keeps the rows on which it is TRUE |
| `Expressions.MergeHolds` | GoDB-lab-s26/planner/expr.go:291-302 | merging conditions keeps the rows on which all are TRUE |
| `Expressions.SplitMerged` | GoDB-lab-s26/planner/expr.go:282-302 | splitting a merged list gives the list back |
| `Expressions.ConditionsPass` | GoDB-lab-s26/execution/filter_executor.go:39-49 | on comparisons, connectives, null checks and LIKE the test of the filter executor keeps exactly the rows on which the condition is TRUE |
| `Expressions.BareValueIsDropped` | GoDB-lab-s26/execution/filter_executor.go:39-49 | a concrete conjunction of bare integers that passes as a whole and fails in one of its parts |
| `Expressions.IntComparison` | GoDB-lab-s26/planner/expr.go:157-186 | the six comparisons of integers are those of their values |
| `Expressions.StringComparison` | GoDB-lab-s26/planner/expr.go:157-186 | strings are compared by their first difference or by prefix |
| `Expressions.UnknownComparison` | GoDB-lab-s26/planner/expr.go:157-186 | a comparison with NULL, or across types, is NULL |
| `Expressions.TruthTables` | GoDB-lab-s26/planner/expr.go:203-323 | AND, OR and NOT are those of three-valued logic |
| `Expressions.NullTest` | GoDB-lab-s26/planner/expr.go:366-382 | a null check is TRUE or FALSE, never NULL |
| `Expressions.IntSums` | GoDB-lab-s26/planner/expr.go:436-467 | sums and differences wrap around at 64 bits |
| `Expressions.IntProduct` | GoDB-lab-s26/planner/expr.go:436-467 | so do products |
| `Expressions.IntDivision` | GoDB-lab-s26/planner/expr.go:436-467 | the quotient is truncated toward zero and the remainder has the sign of the dividend |
| `Expressions.MergePredicates` | GoDB-lab-s26/planner/expr.go:291-302 | the loop builds the left-deep conjunction |
| `Dnf.DnfPreservesTruth` | GoDB-lab-s26/planner/scan_rules.go:123-200 | for every convertible predicate whose leaves are truth values, the OR of ANDs of its terms (or of the terms of its negation) is not empty and is TRUE, FALSE or NULL exactly as the predicate |
| `Dnf.DnfMeansReading` | GoDB-lab-s26/planner/scan_rules.go:123-200 | for every convertible predicate, whatever its leaves: the OR of ANDs is the three-valued reading of the predicate in which a string leaf is false |
| `Dnf.LogicalReading` | GoDB-lab-s26/planner/scan_rules.go:123-200 | without string leaves that reading is the evaluation of the program |
| `Dnf.DnfPreservesTruthIff` | GoDB-lab-s26/planner/scan_rules.go:123-200 | on any row the conversion keeps the truth of a convertible predicate if and only if reading its strings as false makes no difference to it |
| `Dnf.AtomsAreLogical` | GoDB-lab-s26/planner/scan_rules.go:156-160 | predicates over comparisons, null checks and LIKE are convertible and their leaves are truth values |
| `Dnf.DnfLiterals` | GoDB-lab-s26/planner/scan_rules.go:123-200 | every element of every term is a comparison, null check or LIKE, or the negation of one |
| `Dnf.PanicsIff` | GoDB-lab-s26/planner/scan_rules.go:156-163 | the conversion panics exactly on a leaf of another kind below an even number of negations |
| `Dnf.ProductTruth` | GoDB-lab-s26/planner/scan_rules.go:139-152 | the product of two term lists is their conjunction |
| `Dnf.StringLeafChangesTruth` | GoDB-lab-s26/planner/scan_rules.go:167-200 | a concrete predicate with a string leaf below a negation changes its truth value |
| `Dnf.PredicatesToDnfTerms` | GoDB-lab-s26/planner/scan_rules.go:204-209 | no terms for no conditions; else it panics exactly when some condition does, and the OR of the ANDs of its terms has on every row the truth value of the conjunction of the conditions, their leaves being truth values |
| `EquiJoin.JoinKey` | GoDB-lab-s26/execution/sort_merge_join_executor.go:212-224 | the key of a row, or that one of its columns is NULL |
| `EquiJoin.PairIff` | GoDB-lab-s26/execution/sort_merge_join_executor.go:117-167 | two rows are joined, once, if and only if their key columns are equal one by one and none is NULL |
| `EquiJoin.NestedLoopIff` | GoDB-lab-s26/execution/hash_join_executor.go:100-135 | the rows of the equi-join are the concatenations of such pairs |
| `EquiJoin.SameBag` | GoDB-lab-s26/execution/hash_join_executor.go:100-135 | the nested-loop join gives the same bag whichever input is outside |
| `EquiJoin.KeysTransitive` | GoDB-lab-s26/storage/tuple.go:261-293 | the tuple order is transitive, strictly where one step is strict |
| `EquiJoin.KeysAntisymmetric` | GoDB-lab-s26/storage/tuple.go:261-293 | comparing the other way round changes the sign |
| `EquiJoin.CompareKeysIff` | GoDB-lab-s26/storage/tuple.go:261-293 | a key is smaller if and only if its value is at the first column in which they differ |
| `Values.CompareIff` | GoDB-lab-s26/common/types.go:332-364 | NULL is smaller than every value, integers compare by value, strings by their first difference or by prefix |
| `SortMergeJoin.SortMergeJoinExecutor.Next` | GoDB-lab-s26/execution/sort_merge_join_executor.go:89-183 | for inputs ascending on their keys the tuples are exactly the nested-loop equi-join, left input outside, and Next steps through them |
| `SortMergeJoin.SortMergeJoinExecutor.MergeStep` | GoDB-lab-s26/execution/sort_merge_join_executor.go:95-173 | one round moves a cursor past a row without a match or both past a group, and keeps what is joined and what is left together |
| `SortMergeJoin.SortMergeJoinExecutor.TakeLeft` | GoDB-lab-s26/execution/sort_merge_join_executor.go:123-140 | collects exactly the run of left rows with the current key |
| `SortMergeJoin.SortMergeJoinExecutor.TakeRight` | GoDB-lab-s26/execution/sort_merge_join_executor.go:142-159 | collects exactly the run of right rows with the current key |
| `SortMergeJoin.SortMergeJoinExecutor.Current` | GoDB-lab-s26/execution/sort_merge_join_executor.go:185-187 | the row of the nested-loop join at the index |
| `SortMergeJoin.EqualRuns` | GoDB-lab-s26/execution/sort_merge_join_executor.go:117-167 | two runs of equal keys contribute their product and nothing else |
| `SortMergeJoin.Smaller` | GoDB-lab-s26/execution/sort_merge_join_executor.go:169-173 | the smaller of the two current keys occurs nowhere in the other input |
| `HashJoin.HashJoinExecutor.Init` | GoDB-lab-s26/execution/hash_join_executor.go:37-138 | for keys that can be stored the tuples are the nested-loop equi-join on keys without trailing NULs, right input outside; they are the bag of the equi-join on the keys themselves if and only if no left and right key differ in trailing NULs only |
| `HashJoin.HashJoinExecutor.Build` | GoDB-lab-s26/execution/hash_join_executor.go:63-97 | the table holds under the bytes of a key the left rows with that key and no NULL in it, in order |
| `HashJoin.HashJoinExecutor.Probe` | GoDB-lab-s26/execution/hash_join_executor.go:100-135 | one right row adds its pairs with the left rows of the same trimmed key |
| `HashJoin.BucketJoins` | GoDB-lab-s26/execution/hash_table.go:31-49 | a bucket holds exactly the rows the nested loop over trimmed keys joins |
| `HashJoin.KeyEqualIff` | GoDB-lab-s26/execution/hash_table.go:31-49 | keys without NULL have the same bytes if and only if they differ in trailing NULs only |
| `HashJoin.TrimmedJoinIff` | GoDB-lab-s26/execution/hash_table.go:31-49 | the join on trimmed keys is the bag of the join on the keys themselves if and only if no left and right key differ in trailing NULs only |
| `HashJoin.PaddedEqualIff` | GoDB-lab-s26/common/types.go:301-327 | two strings have the same stored bytes if and only if they differ in trailing NULs only |
| `HashJoin.TrailingNulCollides` | GoDB-lab-s26/execution/hash_table.go:31-49 | a concrete pair of different keys that meet in one bucket |
| `TopN.TopNExecutor.Init` | GoDB-lab-s26/execution/topn_executor.go:85-135 | panics if and only if the limit is not positive and there is a row; else the output has the size of the limit or of a shorter input, is a sub-bag of it, no row of it comes before an earlier one, and no dropped row before a kept one, in the order over the values |
| `TopN.SortThenLimit` | GoDB-lab-s26/planner/physical_plan_rule.go:69-76 | the keys of the rows kept are the first keys of any sorted permutation of the input |
| `TopN.TopNExecutor.Offer` | GoDB-lab-s26/execution/topn_executor.go:105-127 | a row enters the heap while there is room; then it replaces the root if it comes before it, and is dropped otherwise |
| `TopN.TopNExecutor.Drain` | GoDB-lab-s26/execution/topn_executor.go:129-132 | popping from the back gives the heap in order |
| `TopN.MaxHeap.Less` | GoDB-lab-s26/execution/topn_executor.go:29-41 | true exactly when the first item does not come before the second |
| `TopN.MaxHeap.Push` | GoDB-lab-s26/execution/topn_executor.go:47-49 | keeps the heap and adds the item |
| `TopN.MaxHeap.Pop` | GoDB-lab-s26/execution/topn_executor.go:52-58 | keeps the heap and removes its root |
| `TopN.RootAbove` | GoDB-lab-s26/execution/topn_executor.go:29-41 | no item of a heap is after its root |
| `TopN.CompareItems` | GoDB-lab-s26/execution/topn_executor.go:15-23 | the first difference and its position determine the directed order |
| `SortOrder.NotAfterTransitive` | GoDB-lab-s26/execution/sort_executor.go:64-77 | the order of the comparator with mixed directions is transitive |
| `SortOrder.OrderAntisymmetric` | GoDB-lab-s26/execution/sort_executor.go:64-77 | and antisymmetric |
| `SortOrder.OrderIff` | GoDB-lab-s26/execution/sort_executor.go:64-77 | one row comes before another if and only if at the first key in which they differ its value is smaller, for a descending key larger |
| `SortOrder.NotAfterIff` | GoDB-lab-s26/execution/sort_executor.go:64-77 | the comparator lets a row stay in front of another if and only if the other does not come before it |
| `SortOrder.SmallestFirst` | GoDB-lab-s26/execution/sort_executor.go:64-78 | a sorted sequence starts with any sorted part that nothing else comes before |
| `DoubleBuffer.RefinesByteString` | GoDB-lab-s26/logging/double_buffer_log.go:66-174 | for every interleaving of append, swap, write, clear and publish: file, back and front are the old file and the appended records in order, both buffers stay below their capacity, and flushedLSN is a record boundary within the file |
| `DoubleBuffer.LsnIsOffset` | GoDB-lab-s26/logging/double_buffer_log.go:83-96 | the LSN returned by an append is the byte offset of its record |
| `DoubleBuffer.WaitCovers` | GoDB-lab-s26/logging/double_buffer_log.go:99-117 | when a wait on lsn is over, every record that ends at or before lsn is in the file |
| `DoubleBuffer.PublishedIffBelow` | GoDB-lab-s26/storage/wal.go:65-67 | the record at an LSN is published if and only if that LSN is strictly below flushedLSN |
| `DoubleBuffer.WaitReturnsTooEarly` | GoDB-lab-s26/logging/double_buffer_log.go:108-114 | a wait on a record just appended to a flushed log returns at once, with nothing of it in the file |
| `DoubleBuffer.PublishedGrows` | GoDB-lab-s26/logging/double_buffer_log.go:163-174 | flushedLSN never moves back |
| `DoubleBuffer.FlusherMakesRoom` | GoDB-lab-s26/logging/double_buffer_log.go:77-81 | at most four steps of the flusher make room for any record smaller than the buffer |
| `DoubleBuffer.RunsKeepInv` | GoDB-lab-s26/logging/double_buffer_log.go:66-174 | the invariant of buffers, file and published LSN holds in every reachable state |
| `DoubleBuffer.DoubleBufferLogManager.Append` | GoDB-lab-s26/logging/double_buffer_log.go:66-97 | waits exactly when front buffer and record together reach the buffer size; else the record is behind the front buffer, and its offset is returned |
| `DoubleBuffer.DoubleBufferLogManager.WaitUntilFlushed` | GoDB-lab-s26/logging/double_buffer_log.go:99-117 | over exactly when lsn is at most flushedLSN, and then every record ending by lsn is in the file |
| `DoubleBuffer.DoubleBufferLogManager.SwapBuffers` | GoDB-lab-s26/logging/double_buffer_log.go:155-161 | swaps exactly when the front holds something and the back is empty |
| `DoubleBuffer.DoubleBufferLogManager.FlushBack` | GoDB-lab-s26/logging/double_buffer_log.go:163-174 | the file grows by the back buffer, which is emptied, and its end is published |
| `LogCodec.ReadSerialized` | GoDB-lab-s26/storage/log_record.go:71-182 | a constructed record shorter than 65536 bytes is accepted and its accessors return what was written |
| `LogCodec.SerializeRead` | GoDB-lab-s26/storage/log_record.go:126-182 | accepted bytes of a known type are the serialized form of what the accessors return |
| `LogCodec.SerializedVerifies` | GoDB-lab-s26/storage/log_record.go:126-182 | what is serialized passes the checks |
| `LogCodec.Halves` | GoDB-lab-s26/storage/log_record.go:69-90 | the images of an update are the halves of what follows the record id |
| `LogCodec.Layout` | GoDB-lab-s26/storage/log_record.go:15-40 | where every field of a serialized record lies, the byte of its type, and two's complement of page and slot |
| `Bytes.ByteOrder` | GoDB-lab-s26/storage/log_record.go:51-59 | numbers are stored lowest byte first |
| `LogFile.RoundTrip` | GoDB-lab-s26/logging/log_file_iterator.go:45-74 | records serialized back to back and cut off anywhere are read, from any record boundary, as the longest run of whole records, each with its LSN and fields |
| `LogFile.ReadsWholePrefix` | GoDB-lab-s26/logging/log_file_iterator.go:45-74 | the scan of a cut log returns exactly its whole records |
| `LogFile.CutRecord` | GoDB-lab-s26/logging/log_file_iterator.go:50-62 | a record cut off anywhere is not returned |
| `LogFile.SomeWholeRecords` | GoDB-lab-s26/logging/log_file_iterator.go:45-74 | every cut of a log holds some number of whole records |
| `LogFile.RecordReturnedIff` | GoDB-lab-s26/storage/log_record.go:115-121 | wherever a constructed record lies in a file, the iterator returns it if and only if it is shorter than 65536 bytes |
| `LogFile.ScanStopsAtZeroSize` | GoDB-lab-s26/logging/log_file_iterator.go:50-67 | a record whose size is a multiple of 65536 ends the scan |
| `LogFile.LogFileIterator.Next` | GoDB-lab-s26/logging/log_file_iterator.go:45-74 | advances by exactly the next record, or leaves the LSNs alone |
| `LogFile.LogFileIterator.ReadAll` | GoDB-lab-s26/recovery/recovery_manager.go:87-149 | the scanning loop collects exactly the entries of the scan |
| `LogWriter.WriteToLog` | GoDB-lab-s26/storage/log_record.go:115-121 | size, checksum over the rest of the buffer, and the body of the record |
| `LogWriter.WrittenIsSerialized` | GoDB-lab-s26/storage/log_record.go:115-121 | in a buffer of its own size a constructed record is serialized |
| `LogWriter.LongerBufferVerifiesIff` | GoDB-lab-s26/storage/log_record.go:115-121 | in a longer buffer the record verifies if and only if the bytes behind it do not change the checksum |
| `LogWriter.NewUpdateRecord` | GoDB-lab-s26/storage/log_record.go:304-316 | type, transaction, record id, new image, old image |
| `LogWriter.NewInsertClr` | GoDB-lab-s26/storage/log_record.go:260-267 | the compensation of an insert: its transaction and record id |
| `LogWriter.NewDeleteClr` | GoDB-lab-s26/storage/log_record.go:289-296 | the compensation of a delete |
| `LogWriter.NewUpdateClr` | GoDB-lab-s26/storage/log_record.go:324-334 | the compensation of an update: the old image as new image |
| `CheckpointPayload.Fill` | GoDB-lab-s26/recovery/checkpoint_manager.go:116-146 | the payload of the two tables, and the smallest of the LSNs; the record is shorter than 65536 bytes if and only if the tables have at most 4094 entries together |
| `CheckpointPayload.EndRecordReadIff` | GoDB-lab-s26/logging/log_file_iterator.go:50-67 | wherever it lies in the log, the end-of-checkpoint record is read back if and only if its tables have at most 4094 entries together |
| `CheckpointPayload.ScanStopsAtLargeCheckpoint` | GoDB-lab-s26/logging/log_file_iterator.go:50-67 | with 4095 entries the scan ends at the record, whatever follows and whatever the checksum function |
| `CheckpointPayload.ReadPayload` | GoDB-lab-s26/recovery/recovery_manager.go:114-148 | the loops of the analysis read a filled payload back as its tables |
| `CheckpointPayload.AttReadsBack` | GoDB-lab-s26/recovery/recovery_manager.go:118-127 | an entry of the transaction table reads back |
| `CheckpointPayload.DptReadsBack` | GoDB-lab-s26/recovery/recovery_manager.go:138-147 | an entry of the page table reads back |
| `CheckpointPayload.Layout` | GoDB-lab-s26/recovery/checkpoint_manager.go:116-146 | where the counts and the fields of every entry of the two tables lie |
| `UndoBuffer.LogRecordBuffer.Allocate` | GoDB-lab-s26/transaction/transaction_context.go:35-42 | pushes a record on the stack |
| `UndoBuffer.LogRecordBuffer.Get` | GoDB-lab-s26/transaction/transaction_context.go:50-64 | the record at an index |
| `UndoBuffer.LogRecordBuffer.Pop` | GoDB-lab-s26/transaction/transaction_context.go:67-71 | removes exactly the newest record |
| `UndoBuffer.LogRecordBuffer.Len` | GoDB-lab-s26/transaction/transaction_context.go:44-47 | the number of records on the stack |
| `UndoBuffer.LogRecordBuffer.Reset` | GoDB-lab-s26/transaction/transaction_context.go:74-77 | an empty stack |
| `BufferPool.RefinesFlatStore` | GoDB-lab-s26/storage/buffer_pool.go:101-202 | for every interleaving of the stages of many calls, writes, unpins and page flushes each page holds, in its frame, in the frame of the call evicting it or on disk, the bytes written last; resident and in-flight frames stay within the capacity |
| `BufferPool.DeliversLatest` | GoDB-lab-s26/storage/buffer_pool.go:176-185 | a call about to return has pinned the latest bytes of its page |
| `BufferPool.OneFrame` | GoDB-lab-s26/storage/buffer_pool.go:106-122 | a page has at most one resident or in-flight frame, and no two calls work on it |
| `BufferPool.PinnedStays` | GoDB-lab-s26/storage/buffer_pool.go:303-329 | a pin goes only when its holder unpins: pinned frames are never evicted |
| `BufferPool.CleanIsStored` | GoDB-lab-s26/storage/buffer_pool.go:141-158 | a page neither dirty, nor being changed, nor dirty on its way out, is on disk as it was written last |
| `BufferPool.SnapshotFindsStaleIff` | GoDB-lab-s26/storage/buffer_pool.go:250-275 | in every reachable state the dirty-page snapshot finds every page whose stored copy is not the latest if and only if no call holds a victim still to be written and no unmarked frame has been changed |
| `BufferPool.SnapshotMissesPage` | GoDB-lab-s26/storage/buffer_pool.go:250-275 | two concrete runs, one for each half of the condition, in which the snapshot misses a page |
| `BufferPoolShard.BufferPoolShard.GetPage` | GoDB-lab-s26/storage/buffer_pool.go:101-186 | finishes if and only if the page lock is free and the page is resident, or there is room, or some page is neither pinned nor locked; then the caller holds a pin on the latest bytes, the page stays or comes in by a new frame or in the place of one such page, which is stored if dirty, and nothing else changes; else nothing has changed but the page lock it may hold |
| `BufferPoolShard.BufferPoolShard.Bring` | GoDB-lab-s26/storage/buffer_pool.go:130-185 | the miss: a frame is found exactly when there is room or a page can be evicted, and the page is read into it |
| `BufferPoolShard.BufferPoolShard.LoadOrStoreLock` | GoDB-lab-s26/storage/buffer_pool.go:115-122 | takes the page lock exactly when it is free |
| `BufferPoolShard.BufferPoolShard.GetPageFromPool` | GoDB-lab-s26/storage/buffer_pool.go:277-297 | pins a resident frame and moves its page from its list to the front of the young list; a miss changes no list |
| `BufferPoolShard.BufferPoolShard.FindVictim` | GoDB-lab-s26/storage/buffer_pool.go:303-329 | the last page of the old list that is neither pinned nor locked, else the last one of the young list, none only if all are pinned or locked |
| `BufferPoolShard.BufferPoolShard.EvictPage` | GoDB-lab-s26/storage/buffer_pool.go:333-366 | a new frame exactly while there is room, else a victim taken out with its page lock |
| `BufferPoolShard.BufferPoolShard.TakeOut` | GoDB-lab-s26/storage/buffer_pool.go:333-366 | an unpinned page leaves the pool with its bytes, its mark and its page lock, and no page changes |
| `BufferPoolShard.BufferPoolShard.WriteBack` | GoDB-lab-s26/storage/buffer_pool.go:141-158 | writes a dirty victim and then gives its lock up |
| `BufferPoolShard.BufferPoolShard.PublishPage` | GoDB-lab-s26/storage/buffer_pool.go:176-185 | the page read becomes resident and pinned at the front of the old list |
| `BufferPoolShard.BufferPoolShard.UnpinPage` | GoDB-lab-s26/storage/buffer_pool.go:191-202 | the mark is set and the pin of the call removed; the bytes and all other frames stay |
| `BufferPoolShard.BufferPoolShard.FlushAllPages` | GoDB-lab-s26/storage/buffer_pool.go:206-248 | exactly the dirty frames with page LSN below the bound are written and marked clean; the others stay dirty, and no page has changed |
| `BufferPoolShard.BufferPoolShard.CollectDirty` | GoDB-lab-s26/storage/buffer_pool.go:206-228 | finds exactly those frames, each once |

## Left out

- Disk files, directories, timers, goroutine start and stop, catalog JSON, SQL parsing and binding: I/O and plumbing.
- `Close` and the closed flag of the log: no append or wait races with a close here.
- I/O errors, among them `rollbackEviction` of the buffer pool and a partial write of the back buffer.
- Page latches, the bitmap layout of heap pages and `VacuumPage`, which frees slots without a log record.
- Transaction ids above the largest one in the scanned part of the log could be given out again; ids are fresh here.
- CRC-32 is an arbitrary function to 32 bits, LIKE an arbitrary relation of two strings, case folding is ASCII only.
- Assertions on type mismatches: comparing or calculating with values of different types gives NULL in `Expressions`, and strings may grow past 32 bytes.
- Plans are values: the in-place change of join, filter and scan nodes by the pushdown rule is modelled by rebuilding them, so sharing of nodes between plans is not captured. Pointer equality of columns and references is implied by their equality as values.
- Projections attached to scans and the for-update flag: projection pushdown is disabled in the program.
- Index choice, equi-join extraction, block nested loop join, aggregation, materialization and index joins.
- In-memory index commit and abort tasks.
- `container/heap` of Go's standard library is modelled by its published sift loops, `slices.SortFunc` by any sorted permutation.
- Spinning and condition variables: a method that would wait says so in its result (`Append`, `Lock`, `GetPage`), and the state machine lets the others move. That a waiter is eventually served is proved for the log (`DoubleBuffer.FlusherMakesRoom`) and, for locks, as the absence of lost wake-ups.
- LockTheorems.GraphCoversConflicts: the count may be one too high for a transaction that was granted while the waiter stood behind it, because a granted upgrade keeps the count of its queue entry; it is exact for every transaction still queued ahead.
- Pushdown.OptimizeSettles: is about plans in which no filter stands on a filter or is an input of a join; with nested filters one can be left behind (`Pushdown.NestedFilterStays`).
- `FlushAllPages` reading the LSN before it takes the latch, and pages of one snapshot read at different moments: a page flush and each snapshot is one step.
- EngineSteps.UndoStartIsMaster: holds in guarded runs; `Hazards.CommittedRowTakenBack` is a run outside them.
- RecoveryTheorems.RecoveryRestoresCommittedRows: is about guarded runs, because outside them the program loses rows (`Hazards`).
- LogFile.RoundTrip: requires records shorter than 65536 bytes, because the size field has 16 bits.
