# Strict two-phase locking engine: model and proofs

The project models a small transaction engine and proves what its runs guarantee. The engine has a lock
manager with hierarchical lock modes and FIFO wait queues, a depth-first deadlock detector, a transaction
table, a text log with analysis/redo/undo recovery, and a command loop that ties them together.

How the files build on each other:

| files | content |
|---|---|
| `LockModes`, `LockTable` | lock modes; the lock manager's state as a value; its operations as steps, runs of steps |
| `LockSafety`, `LockRuns`, `LockHierarchy`, `LockGranularity`, `LockWitnesses` | invariants and theorems over all runs of lock steps; concrete runs in which a tempting claim fails |
| `LockAnswers` | what a requestLock call answers and leaves, mode by mode |
| `LockManager` | the lock manager as a class, every method proved equal to its step |
| `WaitForGraph` | the three-colour depth-first search |
| `Decimal`, `LogRecords`, `LogManager` | number text, log record text and parser, the log file as characters |
| `AscendingIds`, `Recovery`, `TransactionManager` | analysis, redo, undo, crashes during recovery; the transaction table |
| `Histories` | executed events, conflicts, serial replays, independent of locking |
| `Engine`, `EngineSafety`, `EngineTheorems`, `EngineLocks` | locks, table, store and log as one state machine with the history of what was executed; its invariant; serializability, strictness, agreement of log and memory; what its runs guarantee about locks and refusals |
| `OlderLogs` | a log file that an earlier start of the program has written: exactly when it still agrees with memory |
| `ResourceNames`, `Commands`, `AccessAnswers`, `Scheduler` | dotted names, commands, which of them execute, and the command loop as a class whose ghost `run` is a run of the engine |
| `Deadlocks` | a stuck service and the wait-for graph of its commands |

A lock step carries the arbitrary choice the program makes (which own lock a scan over an address-ordered set
meets first), so a statement about all legal runs is a statement about all choices. `Scheduler.Valid` says that
the fields of the real objects are the state reached by some run of the engine; every command keeps it, so
each theorem of `EngineTheorems`, `EngineLocks` and `OlderLogs` holds whenever a command has been served.

Three words recur. A replacement *covers* when the new mode is at least as strong as the one it replaces; a run
is *covering* when all its replacements do. A replacement is *safe* when everything the transaction holds or
awaits just below stays announced. A run of lock steps is *disciplined* when parents are given to fresh resources
only and nothing is requested before its parent is held in the intention mode, which every requestLock call
ensures.

Where the repository's documents and its code differ, the model follows the code:

- `include/utils/enums.h:56` describes undo as rolling back in reverse order; the code appends one ABORT record
  per incomplete id in ascending order and restores no data (`src/recovery/RecoveryManager.cpp:44-59`).
- `include/transaction/Transaction.h:22` names atomicity; ABORT restores nothing (`src/main.cpp:301-322`), so
  aborted writes count in every replay.
- `COMPLETION_REPORT.md:44` names FIFO processing of waiting commands; what is proved is that one pass executes
  in the order of the list, not that a blocked command holds back the ones behind it
  (`src/main.cpp:164-186`).

## Model

| member | source | states |
|---|---|---|
| LockModes.BlocksAsMuchIff | src/concurrency/LockManager.cpp:246-259 | The strength order NONE < IS < {S, IX} < X, with NONE blocking like IS, is exactly what the compatibility check says, for all modes: one blocks as much as another if and only if whatever is compatible with the first is compatible with the second. |
| LockModes.CompatibilityTable | src/concurrency/LockManager.cpp:246-259 | The whole table, mode by mode: X goes with nothing, S and IX do not go together, everything else does, and asking the other way round makes no difference. |
| LockTable.AdmitIsMaximalPrefix | src/concurrency/LockManager.cpp:261-290 | The wait-queue loop grants the longest FIFO prefix whose members are compatible, one after the other, with the locks held at that point. |
| LockTable.MaximalPrefixUnique | src/concurrency/LockManager.cpp:261-290 | There is only one such prefix, so that description determines the loop. |
| LockSafety.StepKeepsInv | src/concurrency/LockManager.cpp:12-200 | Every operation keeps: locks of different transactions on one resource are compatible both ways (so an X holder is alone), nobody waits twice on a resource, a queue implies a held lock, no empty entries, and the index by transaction names only held resources and all of them for an uncompleted transaction. |
| LockSafety.RunKeepsInv | src/concurrency/LockManager.cpp:28-96 | The same invariant in every state of every run, for every choice of the own lock that is found. |
| LockSafety.RequestGrantedIff | src/concurrency/LockManager.cpp:28-96 | A request of an uncompleted transaction is granted if and only if no other transaction's lock on the resource is incompatible with it, whatever own locks there are and whichever of them the scan meets first. |
| LockRuns.Retention | src/concurrency/LockManager.cpp:139-180 | Strict two-phase locking: along any run, until a transaction completes, it loses no resource it holds and its exclusive locks stay exclusive, whatever others do. |
| LockRuns.FifoConservation | src/concurrency/LockManager.cpp:82-95 | For each resource and any run, the requests enqueued so far are the requests taken from the front so far followed by the queue. |
| LockRuns.ReleaseLeavesHeadBlocked | src/concurrency/LockManager.cpp:150-176 | In every run a successful release leaves the head of the queue in conflict with a held lock. |
| LockRuns.NoLostWakeup | src/concurrency/LockManager.cpp:261-290 | In runs where no replacement blocks less than the mode it replaces, the head of every queue conflicts with a held lock in every state. |
| LockRuns.WeakerBlockingLosesWakeup | src/concurrency/LockManager.cpp:60-65 | The restriction is exact, mode by mode: any other replacement the code can make, NONE included, leaves in some run a queue head that nobody blocks. |
| LockRuns.CompleteIsPointwise | src/concurrency/LockManager.cpp:182-200 | Completion, first or repeated, resource by resource: on what the index lists, the transaction's locks go and the longest grantable FIFO prefix comes in; other resources are unchanged; it still holds such a resource if and only if one of its own stale requests was in that prefix; on a first completion the index lists exactly what it holds. |
| LockRuns.CompletedHoldNothing | src/concurrency/LockManager.cpp:182-199 | On runs of raw steps where nobody completes with a queued request, completed transactions hold nothing and wait for nothing. |
| LockRuns.CompletionLeavesNothingIff | src/concurrency/LockManager.cpp:182-199 | The exact condition, checkable before the call: after completing, a transaction holds and awaits nothing if and only if it had no request in any queue. |
| LockRuns.CompletedStaysInvolvedIff | src/concurrency/LockManager.cpp:286-288 | What a completed transaction holds or awaits is changed by nothing but its own release. |
| LockHierarchy.AttachKeepsAcyclic | src/concurrency/LockManager.cpp:12-14 | Giving a parent to a resource nobody refers to keeps the parent map free of cycles. |
| LockHierarchy.ClimbEndsAtRoot | src/concurrency/LockManager.cpp:104-118 | Without cycles the ancestor walk ends only at a root, never because it met a parent twice. |
| LockHierarchy.RequestLockIsDisciplined | src/concurrency/LockManager.cpp:16-26 | Every requestLock call in a real mode on an acyclic hierarchy asks for a resource only after its parent is held in a mode covering the intention, and when it succeeds a covering mode is held. |
| LockHierarchy.RunKeepsHierarchy | src/concurrency/LockManager.cpp:98-127 | In every disciplined run the parent map stays acyclic, and an uncompleted transaction that holds or awaits a resource holds its parent. |
| LockHierarchy.UpwardClosure | src/concurrency/LockManager.cpp:98-127 | Such a transaction holds some lock on every ancestor. |
| LockHierarchy.ExclusiveOwnsSubtree | src/concurrency/LockManager.cpp:45-47 | An exclusive lock on a node shuts every other uncompleted transaction out: it holds nothing at the node, and neither holds nor awaits anything strictly below it. |
| LockHierarchy.CallIsGrantedIff | src/concurrency/LockManager.cpp:16-26 | requestLock answers yes if and only if the transaction is not completed and no other transaction's lock is in the way: on the resource in the mode asked for, or on an ancestor in the intention mode. |
| LockHierarchy.OwnCallsKeepBlocked | src/concurrency/LockManager.cpp:98-127 | A call never changes what blocks its own transaction, so a refused call would be refused again. |
| LockHierarchy.UnlockedIsFree | src/main.cpp:89-96 | A resource without locks and parent, such as the fresh one a name without segments gets, is blocked for nobody. |
| LockAnswers.AnswerByMode | src/concurrency/LockManager.cpp:16-26 | The answer of every requestLock call on an acyclic hierarchy from the locks of the others alone: S is granted exactly when nobody else holds X or IX on the resource or X on an ancestor, IS when nobody else holds X on either, IX when nobody else holds S or X on either, X when nobody else holds anything on the resource or S or X on an ancestor. |
| LockAnswers.RefusedAboveIff | src/concurrency/LockManager.cpp:98-137 | Where it is refused: a call for S or IS on an ancestor if and only if another transaction holds X there, a call for X or IX if and only if another holds S or X there. |
| LockAnswers.GrantedCallLeaves | src/concurrency/LockManager.cpp:98-137 | What a granted call leaves: on the resource one more lock in the mode asked for, on each ancestor one more in IS (for S and IS) or in IX (for X and IX), unless the transaction had locks there: then one of those becomes that mode, or stays if it is X or that mode already; other resources keep their locks. |
| LockAnswers.OneLockEach | src/concurrency/LockManager.cpp:28-96 | On the resource or an ancestor where the transaction held nothing, a granted call leaves exactly one lock of it: in the mode asked for, or there in IS for S and IS, in IX for X and IX. |
| LockAnswers.CallQueues | src/concurrency/LockManager.cpp:82-95 | A granted call queues nothing; a refused one queues exactly one request, where it was refused, in the mode asked for there, unless the transaction waits there already, and leaves every other queue and the locks there alone. |
| LockGranularity.Granularity | src/concurrency/LockManager.cpp:98-137 | A disciplined run whose replacements are all safe keeps every lock held or awaited announced on the parent by a mode covering its intention; runs whose replacements all cover are such runs. |
| LockGranularity.AnnouncedThroughoutIff | src/concurrency/LockManager.cpp:60-65 | Exactly the disciplined runs whose replacements are all safe keep everything announced in every state. |
| LockGranularity.AnnouncedUpwards | src/concurrency/LockManager.cpp:98-137 | The same for every ancestor: whoever wants X or IX below holds X or IX on every ancestor, whoever wants S or IS holds some real mode there. |
| LockGranularity.NoConflictAcrossLevels | src/concurrency/LockManager.cpp:246-259 | In every announced state, while another uncompleted transaction wants a node, nobody holds X above it, and while it wants it in X or IX, nobody holds S above it either. |
| LockGranularity.ReplacementSafeIff | src/concurrency/LockManager.cpp:60-65 | Any replacement, weakening or not, keeps all announcements if and only if, before the call, each mode wanted just below is covered by the new mode or by another own lock. |
| LockWitnesses.StaleRequestIsGrantedToCompleted | src/concurrency/LockManager.cpp:286-288 | A reachable state in which a completed transaction holds an exclusive lock through a stale request. |
| LockWitnesses.WeakenedIntentionHidesWriter | src/concurrency/LockManager.cpp:60-65 | A reachable state in which one transaction holds S on a node and another X below it, after a replacement weakened the intention. |
| LockManagers.CompatibleWithAll | src/concurrency/LockManager.cpp:273-280 | The scan of a request against all locks answers whether it is compatible with every one of them, both ways. |
| LockManagers.CompatibleWithOthers | src/concurrency/LockManager.cpp:49-59 | The scan that skips own locks answers whether the mode is compatible with every lock of the others. |
| LockManagers.FindOwnLock | src/concurrency/LockManager.cpp:35-41 | The scan for an own lock finds one, any one, exactly when there is one. |
| LockManagers.AlreadyWaiting | src/concurrency/LockManager.cpp:82-90 | The queue scan answers whether the transaction already waits. |
| LockManagers.EraseLocksOf | src/concurrency/LockManager.cpp:150-158 | Erasing while iterating removes every lock of the transaction and nothing else, and reports whether there was one. |
| LockManagers.ReleaseOneMore | src/concurrency/LockManager.cpp:187-196 | Releasing one more resource after any set of others gives the same table as releasing all at once, so the order of the visits does not matter. |
| LockManagers.SameViewsSameTable | src/concurrency/LockManager.cpp:165-176 | Because empty entries are erased, two tables that answer alike are equal. |
| LockManagers.LockManager.SetResourceParent | src/concurrency/LockManager.cpp:12-14 | The whole new state is the step's. |
| LockManagers.LockManager.HasLock | src/concurrency/LockManager.cpp:202-212 | True exactly when the transaction owns a lock on the resource. |
| LockManagers.LockManager.RequestLockOnResource | src/concurrency/LockManager.cpp:28-96 | The call is one legal request step, with the answer and the whole new state of that step, and keeps the invariant. |
| LockManagers.LockManager.CollectAncestors | src/concurrency/LockManager.cpp:104-118 | The ancestors from the nearest up, ending at a root or before a repeated parent. |
| LockManagers.LockManager.EnsureAncestorIntentionLocks | src/concurrency/LockManager.cpp:98-127 | Intention requests from the root down, all granted, or granted up to the first refusal; on an acyclic hierarchy all are granted exactly when no other transaction holds X on an ancestor, or X or S when the request is for X or IX. |
| LockManagers.LockManager.RequestLock | src/concurrency/LockManager.cpp:16-26 | The call is a sequence of legal request steps: the intentions from the root down and then the resource, ending at the first refusal; granted exactly when all of them were; nothing for a completed transaction. For S and X on an acyclic hierarchy the answer is stated from the locks of the others alone. |
| LockManagers.LockManager.ProcessWaitQueue | src/concurrency/LockManager.cpp:261-290 | The loop grants exactly the admitted prefix, leaves the rest queued and indexes the grants. |
| LockManagers.LockManager.ReleaseLock | src/concurrency/LockManager.cpp:139-180 | Releases only for a completed transaction that owns a lock; the whole new state is that of the release step. |
| LockManagers.LockManager.ReleaseHeld | src/concurrency/LockManager.cpp:187-196 | The loop over the held set, in any order, releases all of them at once and reports success. |
| LockManagers.LockManager.CompleteTransaction | src/concurrency/LockManager.cpp:182-200 | Always true; the whole new state is that of the completion step. |
| WaitForGraphs.WaitForGraph.AddEdge | src/concurrency/WaitForGraph.cpp:9-11 | Exactly the old edges and the new one. |
| WaitForGraphs.WaitForGraph.RemoveEdge | src/concurrency/WaitForGraph.cpp:13-17 | Exactly the old edges without the given one. |
| WaitForGraphs.WaitForGraph.HasCycle | src/concurrency/WaitForGraph.cpp:19-30 | True if and only if some node reaches itself by a non-empty path. |
| WaitForGraphs.WaitForGraph.DetectCycleDFS | src/concurrency/WaitForGraph.cpp:32-50 | Finds only real cycles; without one, finished nodes point to finished nodes, the grey nodes are still the search path, and the recursion ends because unvisited nodes get fewer. |
| Decimal.ReadBack | src/recovery/LogRecord.cpp:28-61 | A number printed and read back is itself when it fits in 32 bits (stoi), 64 bits (stoll) or is at most 2^64 - 1 (stoul); otherwise the conversion throws, and stoul wraps a negative number. |
| Decimal.TextIsDecimal | src/recovery/LogRecord.cpp:28-34 | The text of a number is its decimal text: k places from the right stands '0' plus the digit of 10^k, all digits are there, and only 0 begins with a zero. |
| Decimal.SignIsMinus | src/recovery/LogRecord.cpp:28-34 | A minus sign before the digits of a negative number, no sign otherwise. |
| Decimal.ValueIsPlaceSum | src/main.cpp:29-35 | Reading a digit string gives the sum of each digit times its power of ten. |
| Decimal.ScanReads | src/recovery/LogRecord.cpp:55-59 | A number text is white space, an optional sign, digits, and whatever follows them, which is ignored. |
| Decimal.ScanRejects | src/recovery/LogRecord.cpp:55-59 | Every other text has no number in it. |
| Decimal.Conversions | src/recovery/LogRecord.cpp:55-59 | What stoi, stoll and stoul make of any such text: the number when it fits, an exception when it does not, and for stoul a wrapped negative number. |
| Decimal.BytesRoundTrip | src/main.cpp:24-35 | `bytesToInt` of `intToBytes` is the value, for every 32-bit value. |
| Decimal.BytesAreText | src/main.cpp:24-35 | The bytes of a value are its decimal text, and no bytes are 0. |
| LogRecords.TypeRoundTrip | src/recovery/LogRecord.cpp:73-125 | Each of the seven types is read back from its name, which has no comma and no line break. |
| LogRecords.TypeNames | src/recovery/LogRecord.cpp:73-125 | The seven names, letter by letter, both ways. |
| LogRecords.FromString | src/recovery/LogRecord.cpp:36-71 | The segment loop computes the parse of the text, with its three outcomes: a record, no record, an exception. |
| LogRecords.RoundTrip | src/recovery/LogRecord.cpp:28-71 | Every record, whatever its id, time stamp and type, is parsed back from its text. |
| LogRecords.RecordText | src/recovery/LogRecord.cpp:28-71 | For every id, time stamp and each of the seven types: the text is `timestamp=`, the number, `,txn=`, the number, `,type=`, the name; and that text is parsed to that record. |
| LogRecords.IncompleteText | src/recovery/LogRecord.cpp:66-68 | A text without one of the three fields, or whose type name is none of the seven, is no record. |
| LogRecords.UnknownIsIgnored | src/recovery/LogRecord.cpp:47-63 | A segment without a key or with another key than the three changes nothing. |
| LogRecords.AnyOrder | src/recovery/LogRecord.cpp:46-64 | The three fields of any record are read in whatever order they come. |
| LogFiles.ReadAppended | src/recovery/LogManager.cpp:18-32 | Appending a record's line to a file of whole lines appends the record to what is read. |
| LogFiles.WrittenIsRead | src/recovery/LogManager.cpp:18-54 | Any sequence of records written to an empty file is read back exactly. |
| LogFiles.LineContributes | src/recovery/LogManager.cpp:42-51 | Any line of a file contributes nothing when it is empty or no record, its record in front of the later ones when it is one, and an exception for the whole reading when a number cannot be converted. |
| LogFiles.LogManager.WriteLog | src/recovery/LogManager.cpp:18-32 | The file and the buffer grow by the record, and a reader of a file of whole lines gets one record more. |
| LogFiles.LineText | src/recovery/LogManager.cpp:29-31 | The line appended for a record of each type, letter by letter, with its line break. |
| LogFiles.LogManager.ReadLogs | src/recovery/LogManager.cpp:34-54 | The line loop returns what the file holds. |
| LogFiles.LogManager.ClearLogs | src/recovery/LogManager.cpp:62-73 | File and buffer are empty afterwards. |
| Recovery.CommittedExact | src/recovery/RecoveryManager.cpp:81-111 | For every log, committed are exactly the ids with a COMMIT record. |
| Recovery.ActiveExact | src/recovery/RecoveryManager.cpp:81-111 | Incomplete are exactly the ids with a BEGIN record that no later COMMIT or ABORT ends. |
| Recovery.BothIffBegunAgain | src/recovery/RecoveryManager.cpp:81-111 | An id is both exactly when a BEGIN that nothing ends follows its COMMIT. |
| Recovery.RedoIgnoresAborts | src/recovery/RecoveryManager.cpp:25-42 | ABORT records appended to a log never change the redo list. |
| Recovery.RedoTakes | src/recovery/RecoveryManager.cpp:25-42 | Redo of a log with one more record is redo of the log, and that record when its id is committed and it is an INSERT, an UPDATE or a DELETE. |
| Recovery.UndoAfterSome | src/recovery/RecoveryManager.cpp:44-59 | After any prefix of the ABORT records, recovery has exactly the others still to write. |
| Recovery.CrashConvergence | src/recovery/RecoveryManager.cpp:12-59 | However many recoveries are cut short, wherever, the next complete one leaves the log of an uninterrupted recovery up to time stamps, with the same committed ids and redo list. |
| Recovery.RecoveryIdempotent | src/recovery/RecoveryManager.cpp:12-59 | After a complete recovery nothing is incomplete and another one appends nothing. |
| Recovery.RecoveryManager.Analyze | src/recovery/RecoveryManager.cpp:81-111 | The loop computes the two sets of the log. |
| Recovery.RecoveryManager.Redo | src/recovery/RecoveryManager.cpp:25-42 | The redo records are the committed transactions' data records, in log order. |
| Recovery.RecoveryManager.Undo | src/recovery/RecoveryManager.cpp:44-59 | One ABORT record per incomplete id, ascending, is appended to the log. |
| Recovery.RecoveryManager.PerformRecovery | src/recovery/RecoveryManager.cpp:12-23 | All three phases on the log as it was, ending complete. |
| Transactions.TransactionManager.BeginTransaction | src/transaction/TransactionManager.cpp:13-17 | A new id, active; every id ever given out stays active or counted once. |
| Transactions.TransactionManager.CommitTransaction | src/transaction/TransactionManager.cpp:19-32 | Succeeds exactly for an active id, which becomes committed and is counted. |
| Transactions.TransactionManager.AbortTransaction | src/transaction/TransactionManager.cpp:34-47 | Succeeds exactly for an active id, which becomes aborted and is counted. |
| Transactions.TransactionManager.IsTransactionActive | src/transaction/TransactionManager.cpp:65-68 | True exactly for the active ids. |
| Transactions.TransactionManager.GetActiveTransactionIds | src/transaction/TransactionManager.cpp:70-76 | The active ids in ascending order. |
| Transactions.TransactionManager.AbortEach | src/transaction/TransactionManager.cpp:98-104 | The loop aborts those of the ids that are active, marks exactly them as aborted and leaves the others alone. |
| Transactions.TransactionManager.AbortAllTransactions | src/transaction/TransactionManager.cpp:98-104 | Nothing stays active, every id that was is marked aborted, and the aborted count grows by their number. |
| Transactions.TransactionManager.ClearCompletedTransactions | src/transaction/TransactionManager.cpp:94-96 | Forgets the completed transactions and nothing else. |
| Histories.SerialEquivalent | src/main.cpp:101-147 | When every conflict agrees with an order of the transactions, running them one after the other in that order reads the same values and leaves the same store. |
| Histories.StrictIsOrdered | src/main.cpp:278-322 | In a strict history every conflict agrees with the order of completions followed by the active transactions. |
| Histories.ConflictGraphAcyclic | src/main.cpp:101-147 | When every conflict agrees with an order, no path of conflicts returns to its start. |
| Histories.StoreIsLastWritten | src/main.cpp:139-141 | A history that replays leaves in every place what was written there last. |
| Histories.ReadsLastWritten | src/main.cpp:123-125 | Every read in it reports what was written there last. |
| EngineSafety.ActionKeepsOk | src/main.cpp:101-147 | Begin, resource creation, access, end of a transaction, checkpoint and closing an id of an earlier start each keep the engine invariant: every operation of an active transaction is covered by its locks, clashing operations are separated by a completion, the history replays to the store, and the log agrees with memory. |
| EngineSafety.RunKeepsOk | src/main.cpp:101-322 | The engine invariant in every state of every run. |
| EngineTheorems.StrictnessInEveryRun | src/main.cpp:101-147 | In every run, hierarchical ones included: after a write no other transaction reads or writes that resource or a descendant until the writer completes, and nobody writes at or above what another uncompleted transaction has accessed. |
| EngineTheorems.EveryRunIsSerializable | src/main.cpp:101-147 | In every run, replaying the transactions serially in completion order, the active ones last in any order, gives every read its value and leaves the same store. |
| EngineTheorems.EveryConflictGraphIsAcyclic | src/main.cpp:101-147 | In every run the conflict graph of executed reads and writes has no cycle. |
| EngineTheorems.LogAgreesWithMemory | src/recovery/RecoveryManager.cpp:81-111 | For the part of the log the run wrote itself, at every moment: incomplete ids are the active ones, committed ids are as many as counted and are those whose commit was executed, the two are disjoint, and every id given out is active, committed or aborted. |
| OlderLogs.AnalysisOfBoth | src/recovery/RecoveryManager.cpp:81-111 | Analysis of one log after another: the later one decides for the ids it touches, the earlier one for the others; committed ids and data records add up. |
| OlderLogs.TouchedIsKnown | src/recovery/RecoveryManager.cpp:81-111 | A run's log has a BEGIN, COMMIT or ABORT record for exactly the ids it gave out and those that recovery closed for an earlier start. |
| OlderLogs.IncompleteAgreesIff | src/main.cpp:42 | On a file that already held records: what analysis finds incomplete is what is active, if and only if the run knows every id an earlier start left open, because it gave the id out again or recovery closed it. |
| OlderLogs.CommittedAgreesIff | src/main.cpp:42 | The committed ids of the file are the run's own, and as many as counted, if and only if every id an earlier start committed was committed by this run too. |
| OlderLogs.AgreementLasts | src/main.cpp:353-372 | Once file and memory agree on what is incomplete, they agree in every later state; RECOVER makes them agree. |
| EngineTheorems.RedoIsCommittedWrites | src/recovery/RecoveryManager.cpp:25-42 | For a log the run wrote alone, the redo list is one update per executed write of a committed transaction, in execution order. |
| OlderLogs.RedoAgreesIff | src/recovery/RecoveryManager.cpp:25-42 | On a file that already held records the redo list is that list if and only if the file brings no data record of a committed id along and no id committed only by an earlier start has written in this run. |
| OlderLogs.AbortedWriteIsRedone | src/transaction/TransactionManager.cpp:3-7 | A file and a run for which it is not: ids start at 1 again, an earlier transaction 1 committed, and this start's transaction 1 writes and aborts; redo lists the aborted write. |
| EngineTheorems.RecoverIsAborting | src/main.cpp:353-372 | With a log the run wrote alone, RECOVER leaves the state of aborting every active transaction in ascending order; its undo records are exactly the ones those aborts would have written. |
| OlderLogs.RecoverOnFile | src/main.cpp:353-372 | On any file: RECOVER ends every active transaction in ascending order, its undo records are those of undo on the whole file, and nothing in the file is incomplete afterwards. |
| OlderLogs.UndoAgreesIff | src/recovery/RecoveryManager.cpp:44-59 | Undo writes ABORT records for exactly the active ids if and only if the run knows every id an earlier start left open. |
| OlderLogs.RecoverIsAbortingIff | src/main.cpp:353-372 | RECOVER is no more than aborting the active transactions under the same condition. |
| EngineLocks.EngineAnnounces | src/concurrency/LockManager.cpp:98-137 | In every run of the engine whose replacements are safe, and in particular when they all cover, whoever holds or awaits a lock announces it on the parent by a mode covering its intention. |
| EngineLocks.NoReaderAboveWriter | src/concurrency/LockManager.cpp:246-259 | In such a run, while somebody holds S on a node no other active transaction holds or awaits X below it. |
| EngineLocks.CoveringRunsLoseNoWakeup | src/concurrency/LockManager.cpp:261-290 | In every run of the engine whose replacements cover, the head of every queue conflicts with a held lock. |
| EngineLocks.FlatRunsAreCovering | src/concurrency/LockManager.cpp:60-65 | In every run in which no resource has a parent all replacements cover. |
| EngineLocks.FlatRunsLoseNoWakeup | src/concurrency/LockManager.cpp:261-290 | So in every such run the head of every queue conflicts with a held lock. |
| EngineLocks.FinishedLeavesNothingIff | src/main.cpp:278-322 | In every state after a transaction ended by COMMIT, ABORT or RECOVER it holds and awaits nothing, if and only if it ended without a request in any queue. |
| EngineLocks.LeftoverStays | src/concurrency/LockManager.cpp:286-288 | An exclusive lock that a stale request got for a finished transaction is never taken back. |
| EngineLocks.LeftoverShutsSubtree | src/concurrency/LockManager.cpp:16-26 | So it shuts the subtree for good: every later access at the resource or below it, by anybody, is refused. |
| EngineLocks.RefusalsLast | src/concurrency/LockManager.cpp:28-96 | While nobody begins or ends and replacements cover, every call that would be refused stays refused, whatever is requested or created in between. |
| AccessAnswers.AccessAnswer | src/main.cpp:112-138 | In every reachable state: a READ executes if and only if no other transaction holds X or IX on the resource or X on an ancestor; a WRITE if and only if no other transaction holds anything on the resource or S or X on an ancestor. |
| AccessAnswers.ReadersShare | src/main.cpp:112-127 | Readers share: while nobody holds X or IX on a resource or X above it, the READs of two transactions both execute. |
| AccessAnswers.ChainIsNamed | src/main.cpp:74-79 | Every ancestor of a named resource is named, by a prefix of its path. |
| AccessAnswers.CommandAnswer | src/main.cpp:101-147 | A command of an active transaction executes if and only if the locks of the others on its name and the names it begins with allow it: for a READ no X or IX on the name and no X above, for a WRITE nothing on the name and no S or X above. |
| AccessAnswers.MayStays | src/main.cpp:56-99 | Creating the missing resources of a name does not change that answer. |
| ResourceNames.SegmentsArePath | src/main.cpp:62-65 | The segments of any name are non-empty and free of dots. |
| ResourceNames.SegmentsSplit | src/main.cpp:62-65 | A name without dots is its own only segment, the empty name has none, and the segments of two names with a dot between them are those of the first followed by those of the second. |
| ResourceNames.PathIsKey | src/main.cpp:67 | Joining segments with dots loses nothing, so different paths have different keys. |
| ResourceNames.AboveIsPrefix | src/main.cpp:74-79 | One resource is an ancestor of another in the lock manager if and only if its path is a prefix of the other's. |
| ResourceNames.FlatIffUndotted | src/main.cpp:77-79 | No resource has a parent exactly while no name in use has more than one segment. |
| Schedulers.Scheduler.constructor | src/main.cpp:39-50 | The empty engine on any readable log file of whole lines, whose records are kept; no names, no labels, and both id counters at 1. |
| Schedulers.Scheduler.CreateRecord | src/main.cpp:74-84 | A new id with its name, its parent and its record: one creation step of the engine; a named record gets 10 when its name is A and 0 otherwise, and that stays true of every named resource. |
| Schedulers.Scheduler.ResolvePath | src/main.cpp:67-86 | A known path gives its id and changes nothing; a new one gets the next id under the path before it, unlocked, with 10 for A and 0 otherwise. |
| Schedulers.Scheduler.ResolveSegments | src/main.cpp:62-87 | The names afterwards are the old ones, unchanged, and every prefix of the path, each new one with its initial value. |
| Schedulers.Scheduler.EnsureResource | src/main.cpp:56-99 | The id of the name's path; only resources are added, one id for each new prefix; a name without segments gets an unused record of its own. |
| Schedulers.Scheduler.AccessRecord | src/main.cpp:112-143 | A READ is granted exactly when no other transaction holds X or IX on the resource or X above it, a WRITE exactly when no other holds anything on it or S or X above it; granted, a READ reports the stored value and a WRITE changes the record and appends one UPDATE record to the log; refused, neither changes. |
| Schedulers.Scheduler.ExecuteCommand | src/main.cpp:101-147 | Nothing for an unknown or inactive transaction; otherwise it creates missing resources, makes exactly one access, the command's own, and executes if and only if the locks that others held before on the name and the names it begins with allow it. It executes as exactly one event that matches the command, a READ reporting what was last written, or it must wait: nothing is executed or logged, and the same request would be refused again, hierarchical or not. |
| Schedulers.Scheduler.HasPendingForTxn | src/main.cpp:149-156 | True exactly when a waiting command has the label. |
| Schedulers.Scheduler.NoteResumed | src/main.cpp:171-177 | A label is noted as resumed exactly when its transaction holds a lock on the resource the command names; nothing but resources is added. |
| Schedulers.Scheduler.TryWaiting | src/main.cpp:171-185 | A waiting command of an active transaction makes exactly one access, its own, and executes as exactly one event or must wait. |
| Schedulers.Scheduler.PassOverPending | src/main.cpp:164-187 | One pass: each waiting command is kept in order, executed once as the history shows, or dropped because its transaction is not active; the pass executes in the order of the list; a pass with progress shortens the list; after a pass without, every command left belongs to an active transaction and, if the replacements of the pass cover, would be refused. |
| Schedulers.Scheduler.ProcessPending | src/main.cpp:158-188 | The passes end; every command is accounted for; every access made is one of a waiting command; every command left belongs to an active transaction and, if the replacements of the last pass cover, would be refused. |
| Schedulers.Scheduler.Begin | src/main.cpp:216-232 | Rejects empty and used labels; otherwise one begin step, a new label and one BEGIN record in the log. |
| Schedulers.Scheduler.Submit | src/main.cpp:234-276 | Rejects empty names and unknown labels; behind a waiting command of the same transaction it only joins the list; otherwise, for an active transaction, it executes as one event if and only if the locks of the others on the name and the names it begins with allow it, and joins the list if they do not. |
| Schedulers.Scheduler.EndTransaction | src/main.cpp:286-295 | Table, locks and log change as one end step, exactly when the transaction was active; the log gets one COMMIT or ABORT record. |
| Schedulers.Scheduler.EndCommand | src/main.cpp:278-322 | Unknown and inactive transactions change nothing; otherwise the transaction ends with COMMIT or ABORT and the waiting commands are processed from that state. |
| Schedulers.Scheduler.Show | src/main.cpp:324-336 | Reports what was last written to the named resource, or what it was created with: 10 for A, 0 otherwise; only resources are added; no lock is taken and the history does not change. |
| Schedulers.Scheduler.WriteCheckpoint | src/main.cpp:346-351 | One CHECKPOINT record, with id 0. |
| Schedulers.Scheduler.RecoverFromLog | src/recovery/RecoveryManager.cpp:12-59 | On a log it appends exactly its undo records and returns its redo list. |
| Schedulers.Scheduler.Recover | src/main.cpp:353-372 | On any log file: nothing waits, nothing is active and nothing in the file is incomplete afterwards; the active transactions are ended in ascending order; undo and redo are those of the whole file. |
| Schedulers.Scheduler.ServeLine | src/main.cpp:198-380 | One line has exactly the effect of its command on history, labels, names and waiting commands, and afterwards, as long as replacements cover, the first waiting command of each active transaction would be refused. |
| Schedulers.Scheduler.Serve | src/main.cpp:198-380 | Every line up to EXIT has its effect, in order; history, labels and names only grow; the state stays one that a run of the engine reaches. |
| Schedulers.FileAgreesIff | src/main.cpp:42 | The log file against memory at every line boundary, whatever it held before: both agreements with their exact conditions. |
| Schedulers.ServiceIsSerializable | src/main.cpp:101-372 | Serializability of what the scheduler has executed, at every moment. |
| Schedulers.ReadsReportLastWritten | src/main.cpp:81-84 | At every moment, every READ of a named resource has reported what was last written to it before, and 10 for A and 0 for any other name when nobody had written it. |
| Schedulers.UnwrittenIsReported | src/main.cpp:324-336 | What SHOW reports of a named resource nobody has written: 10 for A, 0 otherwise. |
| Schedulers.ServiceIsStrictByName | src/main.cpp:56-147 | After a write on a path, no other transaction reads or writes that path or a longer one until the writer has completed. |
| Schedulers.WhoWaitsFirstIsBlocked | src/main.cpp:234-322 | At every line boundary of a service whose replacements cover, and always without dotted names, the first waiting command of each active transaction would be refused, whatever own locks a scan finds. |
| Schedulers.WhoIsLeftIsBlocked | src/main.cpp:158-188 | Right after a processing the same holds for every command left, if the replacements since the last pass began cover. |
| Schedulers.UndottedIsCovering | src/main.cpp:77-79 | While no name in use is dotted, all replacements cover and the head of every queue conflicts with a held lock. |
| Deadlocks.EverybodyWaitsOnACycle | src/concurrency/WaitForGraph.cpp:19-30 | A finite graph in which every node has a successor has a cycle. |
| Deadlocks.StuckServiceHasCycle | src/concurrency/WaitForGraph.cpp:19-30 | In a covering service in which every active transaction has a waiting command, the wait-for graph of the first waiting commands has a cycle, unless one of them waits for a lock of a transaction that is no longer active. |
| Deadlocks.StuckCleanServiceHasCycle | src/concurrency/WaitForGraph.cpp:19-30 | With nothing left behind by finished transactions it has a cycle, so the cycle search on it answers yes. |

## Left out

- Printed messages, HELP, STATUS, input parsing and `input.txt`: user interface. The value a READ or SHOW prints is modelled.
- Transactions.TransactionManager.BeginTransaction: requires the id counter below 2^32, because its wrap-around is not modelled.
- Schedulers.Scheduler.Begin: requires the same, for the same reason.
- Schedulers.Scheduler.Serve: requires input short enough that the id counter stays within 2^32.
- Schedulers.Scheduler.constructor: the log file found at the start is readable and ends with a line break; a torn last line or a number that cannot be converted is not modelled.
- LockRuns.CompletedHoldNothing: is for runs of raw steps, in which a transaction may complete or release again and so lose a stale lock; the exact conditions are LockRuns.CompletionLeavesNothingIff for one completion and EngineLocks.FinishedLeavesNothingIff for all later states of an engine run.
- Resource ids are unbounded; the 32-bit wrap-around of `next_resource_id` is not modelled.
- `resource_ids` keyed by the joined name is modelled with the list of segments as key; the entry for a name without segments is never looked up and is not kept.
- `txn_held_resources` in the command loop is written and never read.
- `std::shared_ptr` handles to transactions and locks, and state changes through them, are not modelled; nor are clocks, read and write counters, access sets and error strings.
- Time stamps of log records are arbitrary inputs.
- Null log records, torn lines, buffering with `flushLogs`, and failing file operations: the file is a sequence of characters and every write is complete. Exceptions of the number conversions are an outcome of the parser.
- Numbers are parsed as on a platform with 64-bit `long`.
- `getLockType`, `getTotalTransactionCount` and the other getters are not modelled: they only report fields.
- `DataStore` and `Record` are a map from ids to bytes inside the scheduler; the size limit of a record is never reached by printed integers.
- Serializability is per resource id: a READ of a node and a WRITE below it are different resources. LockWitnesses.WeakenedIntentionHidesWriter shows a weakened intention letting a reader hold a node above a writer.
- Atomicity and data rollback: ABORT and undo restore nothing, so there is no such property to prove.
- Program order of one transaction's waiting commands, freedom from starvation and from deadlock: the code does not provide them. The wait-for graph is not connected to the command loop; `Deadlocks` says what it would find.
- Page, LSN and dirty-page recovery is named in the documents only.
