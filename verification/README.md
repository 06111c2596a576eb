# Letos Remote: a model of its SQLite layer and its protocol

This project models the parts of Letos Remote that are hard to get right by reading: the
connection pool of its SQLite library, the sessions and cursors on top of it, the bookkeeping
of one connection, and the small protocol through which a remote client runs queries.
`dafny verify dfyconfig.toml` (Dafny 4.11) checks the whole project.

Most components come twice. A functional module (`PoolSpec`, `SessionSpec`,
`StatementCacheSpec`, `Framing`) describes each lock-held section or operation as a function on
values, and the theorems about whole runs are proved on it. A class of the source's own form
(`ConnectionPool`, `Session`, `StatementCache`, `ClientHandler`) performs the same steps in
place, on linked objects, free lists and buffers, and every method is proved to do what the
function does. What native code, listeners, the clock and other threads decide is an argument of
each operation, so the theorems hold for every behaviour of theirs.

| files | what they model |
|---|---|
| `PoolSpec`, `PoolInvariant`, `PoolWake`, `PoolSteps`, `PoolEffects`, `PoolRuns`, `PoolSizes`, `PoolExcess`, `PoolWithoutCache` | the connection pool as a value, what every locked section keeps, what it does, runs of many sessions, the number of connections and exactly when it passes its maximum, and a configuration that nothing opens with |
| `WaiterLists`, `ConnectionPool` | the pool in place, with the waiter queue and the free list linked through waiter objects that are used again |
| `Configuration`, `Database` | configuration objects, and the database's setters with their rollback |
| `SqlStatements`, `SessionSpec`, `SessionRuns`, `SessionStatements`, `Session` | nested transactions, listeners, yielding, the counted connection of a session, and what each operation and each statement leaves in its log |
| `PoolSessions` | runs of many sessions on one pool, with what each does to its connection |
| `WindowFill`, `Cursor` | the native loop that fills a cursor window, the packed result, the cursor as a cache, reading a result to its end |
| `StatementCacheSpec`, `StatementCacheRuns`, `StatementCacheOrder`, `StatementCache` | prepared statements in use, in the LRU cache, which one it evicts, and used again |
| `OperationLog` | the ring of recent operations and its cookies |
| `Framing`, `ClientHandler` | request frames, the two-state reader, one response for each request, and the password before all |
| `Glob`, `Json` | globs as regular expressions and the address check; values to JSON and back |

## Where the code and its documentation disagree

The model follows the code.

- SQLiteConnectionPool.java:303-306 says that existing connections remain untouched when reopening
  fails. If the write-ahead logging mode changes too, the available ones have been closed by then
  (`PoolSteps.FailedReopenTouches`, `PoolSteps.FailedReopenLosesPrimary`).
- The check of the maximum (SQLiteConnectionPool.java:894-901) is on non-primaries only. After a
  primary was closed because of a failure, the pool can get one connection more than its maximum
  (`PoolSizes.SizeBoundIsPassed`); `PoolExcess.NextPassesExactly` tells the steps that do it.
- SQLiteCursor.java:116-124 makes sure that the row is in the window, but a move to the present
  position does not get there. After `setWindow` forgot the count, counting fills the window from
  the start, which need not reach that row (`MoveToPosition`, `Cursor.MoveToSamePlace`).
- A cancellation that arrives after the pool was closed runs off the end of the empty queue
  (SQLiteConnectionPool.java:720-724): `CancelConnectionWaiterLocked` says for which waiters, and
  `CancelAfterClose` does it. The nonce that tells a recycled waiter has 32 bits (`OnCancel`).
- SQLiteDatabase.java:1769-1772 says that `setLocale` throws if the locale could not be set. A
  connection that cannot be reconfigured is closed without an exception, so it never does while
  the database is open (`Database.SQLiteDatabase.SetLocale`).
- SQLiteDatabase.java:1796-1798 says that the statement cache can only grow. Any size from 0 to 100
  is accepted (`SetMaxSqlCacheSize`). With 0, SQLiteConnection.java:173 makes a cache that the
  platform's `LruCache` refuses: from then on no connection can be opened
  (`PoolWithoutCache.NothingOpensWithoutCache`).
- SQLiteConnection.java:893-894 hands out a cached statement without marking it as in use, though
  SQLiteConnection.java:1253-1256 wants statements in use not to be finalized. `StepExactly` tells
  the steps that do finalize one, `HitThenAcquire` shows one.
- SQLiteConnection.java:912-918 means to finalize a statement that was not cached, but asks the
  cached one when that is in use (`LeaksExactly`, `SecondInspectionLeaks`).
- A COMMIT or ROLLBACK that throws still gives the connection back (SQLiteSession.java:438-447),
  inside its transaction (`ReleasedInsideExactly`, `PoolSessions.FailedRollbackLeavesInside`).
- JsonConverter.java:101-111 leaves out map entries whose value is an infinite double or NaN
  (`RoundTripExactly`).
- Utils.java:31-54 leaves plus signs as they are, so that they repeat what comes before them
  (`Glob.KeepsMeaningExactly`).
- android_database_SQLiteConnection.cpp:689-691 says that without `countAllRows` the count is one past
  the last row copied. When the start lies past the end of the result it is the number of rows
  (`NativeExecuteForCursorWindow`, `WindowFill.FillPastTheEnd`).

## Model

| member | source | states |
|---|---|---|
| `PoolRuns.ReachableInv` | LetosRemoteProject/letosremote/src/main/java/org/sqlite/database/sqlite/SQLiteConnectionPool.java:185-996 | In every state any interleaving of sessions reaches: every connection is closed or in exactly one place, at most one primary is not marked DISCARD, configurations agree, the queue is ordered, no queued waiter could be served, and every connection in use has one owner |
| `PoolRuns.NobodyWaitsInVain` | LetosRemoteProject/letosremote/src/main/java/org/sqlite/database/sqlite/SQLiteConnectionPool.java:594-644 | No lost wake-up: in every reachable state of an open pool, serving a queued waiter's request on the spot would find nothing |
| `PoolRuns.OneOwner` | LetosRemoteProject/letosremote/src/main/java/org/sqlite/database/sqlite/SQLiteConnectionPool.java:366-391 | While the pool is open each acquired connection is held by exactly one session or assigned to exactly one waiter, never both, and is not available |
| `PoolRuns.ReleaseNeverRefused` | LetosRemoteProject/letosremote/src/main/java/org/sqlite/database/sqlite/SQLiteConnectionPool.java:366-374 | A session that releases its connection never meets the exception for a connection that was not acquired |
| `PoolRuns.SomeoneCanGoOn` | LetosRemoteProject/letosremote/src/main/java/org/sqlite/database/sqlite/SQLiteConnectionPool.java:594-644 | No deadlock: in every reachable open pool with a queue, a primary is held by a session or granted to a waiter |
| `PoolRuns.MainThreadFirst` | LetosRemoteProject/letosremote/src/main/java/org/sqlite/database/sqlite/SQLiteConnectionPool.java:627-641 | In every reachable pool the waiters of the main thread come before all others, and of two on the same side the one that came first |
| `PoolRuns.QueuedMeansFull` | LetosRemoteProject/letosremote/src/main/java/org/sqlite/database/sqlite/SQLiteConnectionPool.java:609-644 | Whoever is queued waits for a primary that is out; one that takes any connection waits only while none is idle and at least ten are acquired in write-ahead logging mode, or one otherwise |
| `PoolRuns.NestedUse` | LetosRemoteProject/letosremote/src/main/java/org/sqlite/database/sqlite/SQLiteSession.java:894-915 | Acquiring the connection that a session holds and releasing it again leaves the whole system as it was; only the last release gives the connection back |
| `PoolEffects.LastPrimaryAnswers` | LetosRemoteProject/letosremote/src/main/java/org/sqlite/database/sqlite/SQLiteConnectionPool.java:366-392 | When the last primary is released, put back or closed, the first waiter of the queue gets its answer at once |
| `PoolRuns.SizeBound` | LetosRemoteProject/letosremote/src/main/java/org/sqlite/database/sqlite/SQLiteConnectionPool.java:951-961 | In every reachable state at most max + 1 connections that are not to be discarded, and at most max - 1 idle non-primaries, where max is 10 in write-ahead logging mode and 1 otherwise |
| `PoolSizes.SizeBoundWithoutFailures` | LetosRemoteProject/letosremote/src/main/java/org/sqlite/database/sqlite/SQLiteConnectionPool.java:870-906 | In runs in which no open and no reconfiguration fails the bound is max |
| `PoolSizes.SizeBoundIsPassed` | LetosRemoteProject/letosremote/src/main/java/org/sqlite/database/sqlite/SQLiteConnectionPool.java:395-411 | With a failed reconfiguration the bound max is passed: a reachable state with max 1 and two connections |
| `PoolExcess.ServePassesExactly` | LetosRemoteProject/letosremote/src/main/java/org/sqlite/database/sqlite/SQLiteConnectionPool.java:845-906 | One request takes the pool past max exactly if it is full of non-primaries, has no primary, and opens one for the request |
| `PoolExcess.WakePassesExactly` | LetosRemoteProject/letosremote/src/main/java/org/sqlite/database/sqlite/SQLiteConnectionPool.java:783-842 | A wake-up does so exactly if there is no primary and some open succeeds with max non-primaries, or first a non-primary and then the primary is opened with max - 1 of them all in use |
| `PoolExcess.NextPassesExactly` | LetosRemoteProject/letosremote/src/main/java/org/sqlite/database/sqlite/SQLiteConnectionPool.java:185-996 | A step of a run does so exactly if it is such an acquire, or the release of the last primary, closed because it is to be discarded or cannot be reconfigured, with such a wake-up; no cancellation, reconfiguration or other release ever does |
| `PoolExcess.RunPassesExactly` | LetosRemoteProject/letosremote/src/main/java/org/sqlite/database/sqlite/SQLiteConnectionPool.java:185-996 | A run is ever past max exactly if it takes one of those steps |
| `PoolSessions.InsideExactly` | LetosRemoteProject/letosremote/src/main/java/org/sqlite/database/sqlite/SQLiteSession.java:306-453 | Over all runs of many sessions on one pool: a connection on which no COMMIT or ROLLBACK threw is inside a native transaction exactly if a session holds it and is inside one by its own log |
| `PoolSessions.AvailableOutside` | LetosRemoteProject/letosremote/src/main/java/org/sqlite/database/sqlite/SQLiteConnectionPool.java:366-391 | So none that is available or granted to a waiter is inside a native transaction |
| `PoolSessions.BetweenOperations` | LetosRemoteProject/letosremote/src/main/java/org/sqlite/database/sqlite/SQLiteSession.java:306-453 | Between its operations a session holds a connection exactly while its stack is not empty, and that one is then inside a native transaction |
| `PoolSessions.FailedRollbackLeavesInside` | LetosRemoteProject/letosremote/src/main/java/org/sqlite/database/sqlite/SQLiteSession.java:438-447 | A reachable run in which a ROLLBACK throws leaves the available primary inside a native transaction |
| `PoolSteps.OpenPoolKeeps` | LetosRemoteProject/letosremote/src/main/java/org/sqlite/database/sqlite/SQLiteConnectionPool.java:185-198 | A pool that could be opened starts in the invariant |
| `PoolSteps.OpensExactly` | LetosRemoteProject/letosremote/src/main/java/org/sqlite/database/sqlite/SQLiteConnectionPool.java:185-198 | A pool opens exactly if its first connection does, and has that one as its primary and nothing else |
| `PoolSteps.AcquireKeeps` | LetosRemoteProject/letosremote/src/main/java/org/sqlite/database/sqlite/SQLiteConnectionPool.java:594-644 | An acquire keeps the invariant, and overtakes nobody: a connection it gets at once is no use to any queued waiter |
| `PoolEffects.AcquireExactly` | LetosRemoteProject/letosremote/src/main/java/org/sqlite/database/sqlite/SQLiteConnectionPool.java:594-644 | Which exception an acquire throws and exactly when, exactly when it is queued, and otherwise what it gets: a connection nobody had, for the access asked for, and the primary only if it insists on it or nothing else is left |
| `PoolSteps.EnqueuedBehind` | LetosRemoteProject/letosremote/src/main/java/org/sqlite/database/sqlite/SQLiteConnectionPool.java:620-644 | A new waiter joins at the end, but one of the main thread before all waiters of other threads; nobody else moves |
| `PoolSteps.EnqueueQueued` | LetosRemoteProject/letosremote/src/main/java/org/sqlite/database/sqlite/SQLiteConnectionPool.java:627-641 | The queue stays sorted, the main thread first and then by arrival, when a waiter is put in, and no ticket is there twice |
| `PoolSteps.CollectKeeps` | LetosRemoteProject/letosremote/src/main/java/org/sqlite/database/sqlite/SQLiteConnectionPool.java:680-690 | A waiter's thread that takes its outcome keeps the invariant |
| `PoolEffects.CollectExactly` | LetosRemoteProject/letosremote/src/main/java/org/sqlite/database/sqlite/SQLiteConnectionPool.java:679-690 | A woken thread finds its connection, its exception, nothing yet, or that the pool is closed; nobody else's outcome is touched |
| `PoolEffects.WakesToException` | LetosRemoteProject/letosremote/src/main/java/org/sqlite/database/sqlite/SQLiteConnectionPool.java:646-690 | A queued waiter that is canceled, or whose pool is closed, finds that exception when its thread wakes up |
| `PoolSteps.CancelKeeps` | LetosRemoteProject/letosremote/src/main/java/org/sqlite/database/sqlite/SQLiteConnectionPool.java:711-737 | A cancellation keeps the invariant, the absence of servable waiters included |
| `PoolEffects.CancelAnswers` | LetosRemoteProject/letosremote/src/main/java/org/sqlite/database/sqlite/SQLiteConnectionPool.java:711-737 | A cancelled waiter that was queued finds the cancellation exception; any other cancellation changes nothing |
| `PoolSteps.ClosingNeedsNoWakeup` | LetosRemoteProject/letosremote/src/main/java/org/sqlite/database/sqlite/SQLiteConnectionPool.java:385-386 | The release branch that closes a connection without waking anyone leaves nobody who could be served |
| `PoolSteps.ReleaseAssertionHolds` | LetosRemoteProject/letosremote/src/main/java/org/sqlite/database/sqlite/SQLiteConnectionPool.java:376-379 | When the primary is put back its slot is empty |
| `PoolSteps.ReleaseKeeps` | LetosRemoteProject/letosremote/src/main/java/org/sqlite/database/sqlite/SQLiteConnectionPool.java:366-392 | A release by the owner keeps the invariant on every branch |
| `PoolSteps.ReleaseRefused` | LetosRemoteProject/letosremote/src/main/java/org/sqlite/database/sqlite/SQLiteConnectionPool.java:366-374 | A release throws exactly if the connection is not acquired, and then changes nothing |
| `PoolEffects.ReleaseExactly` | LetosRemoteProject/letosremote/src/main/java/org/sqlite/database/sqlite/SQLiteConnectionPool.java:366-411 | A released connection is closed exactly if the pool is closed, it is marked DISCARD, its reconfiguration fails, or it is a non-primary without room; otherwise it is back with the pool's configuration, or already granted again |
| `PoolSteps.ReconfigureKeeps` | LetosRemoteProject/letosremote/src/main/java/org/sqlite/database/sqlite/SQLiteConnectionPool.java:257-329 | A reconfiguration, thrown or not, keeps the invariant; the pool has the new configuration exactly if it did not throw |
| `PoolSteps.ReconfigureThrowsOnly` | LetosRemoteProject/letosremote/src/main/java/org/sqlite/database/sqlite/SQLiteConnectionPool.java:257-329 | Which exception a reconfiguration throws and when; a change of anything but open flags and foreign key mode throws nothing |
| `PoolSteps.ReconfigureTakesConfig` | LetosRemoteProject/letosremote/src/main/java/org/sqlite/database/sqlite/SQLiteConnectionPool.java:307-322 | On any state, a reconfiguration that throws leaves the pool its configuration and leaves it open or closed as it was |
| `PoolEffects.ReconfigureMarks` | LetosRemoteProject/letosremote/src/main/java/org/sqlite/database/sqlite/SQLiteConnectionPool.java:539-591 | After a reconfiguration the connections in use are all DISCARD if the open flags changed, and otherwise RECONFIGURE unless they were DISCARD already |
| `PoolEffects.ReconfigureCloses` | LetosRemoteProject/letosremote/src/main/java/org/sqlite/database/sqlite/SQLiteConnectionPool.java:297-322 | Exactly which connections a reconfiguration closes: the available ones, all if the open flags changed and otherwise those whose own reconfiguration throws; none in use |
| `PoolSteps.FailedReopenTouches` | LetosRemoteProject/letosremote/src/main/java/org/sqlite/database/sqlite/SQLiteConnectionPool.java:297-309 | When reopening fails, the available connections are untouched exactly if write-ahead logging was not to change too, or there were none |
| `PoolSteps.FailedReopenLosesPrimary` | LetosRemoteProject/letosremote/src/main/java/org/sqlite/database/sqlite/SQLiteConnectionPool.java:297-309 | A new pool asked to change that mode, whose new primary cannot be opened, is left without any connection |
| `PoolSteps.CloseKeeps` | LetosRemoteProject/letosremote/src/main/java/org/sqlite/database/sqlite/SQLiteConnectionPool.java:211-239 | Closing keeps the invariant: afterwards nothing is available and nobody is queued |
| `PoolSteps.CloseExactly` | LetosRemoteProject/letosremote/src/main/java/org/sqlite/database/sqlite/SQLiteConnectionPool.java:211-239 | Exactly the available connections are closed and every waiter is let go without an outcome; a closed pool throws |
| `PoolSteps.ShouldYieldExact` | LetosRemoteProject/letosremote/src/main/java/org/sqlite/database/sqlite/SQLiteConnectionPool.java:424-438 | True exactly if some queued waiter could use the held connection and is of the main thread, or the session is not; refused exactly if the connection is not acquired |
| `PoolSteps.BlocksFromExact` | LetosRemoteProject/letosremote/src/main/java/org/sqlite/database/sqlite/SQLiteConnectionPool.java:923-945 | The early-exit loop finds such a waiter from any position if there is one, because the queue is sorted |
| `PoolWake.WakeServesInOrder` | LetosRemoteProject/letosremote/src/main/java/org/sqlite/database/sqlite/SQLiteConnectionPool.java:783-842 | The wake-up loop with its two flags and early exit does the same as serving every waiter in order without them |
| `PoolWake.WakeKeeps` | LetosRemoteProject/letosremote/src/main/java/org/sqlite/database/sqlite/SQLiteConnectionPool.java:783-842 | Waking leaves nobody servable, keeps everything acquired, and acquires only what it grants to a dequeued waiter |
| `PoolWake.WakeOvertakesNobody` | LetosRemoteProject/letosremote/src/main/java/org/sqlite/database/sqlite/SQLiteConnectionPool.java:783-842 | If a later waiter is granted a connection and an earlier one stays queued, the earlier insists on the primary and the connection is not it |
| `PoolInvariant.ServeKeeps` | LetosRemoteProject/letosremote/src/main/java/org/sqlite/database/sqlite/SQLiteConnectionPool.java:609-619 | An attempt finds nothing exactly if the request is blocked, and otherwise acquires one connection that nobody had |
| `PoolInvariant.TryPrimaryKeeps` | LetosRemoteProject/letosremote/src/main/java/org/sqlite/database/sqlite/SQLiteConnectionPool.java:845-867 | The primary is taken from its slot or opened, and nothing is found exactly if a primary is in use |
| `PoolInvariant.TryIdleKeeps` | LetosRemoteProject/letosremote/src/main/java/org/sqlite/database/sqlite/SQLiteConnectionPool.java:870-906 | A non-primary is taken or opened, and nothing is found exactly if none is idle and the pool is full |
| `PoolEffects.PicksCached` | LetosRemoteProject/letosremote/src/main/java/org/sqlite/database/sqlite/SQLiteConnectionPool.java:875-888 | Of the idle connections the first with the statement in its cache is taken, the last one if there is none or no statement is named |
| `WaiterLists.ListsDisjoint` | LetosRemoteProject/letosremote/src/main/java/org/sqlite/database/sqlite/SQLiteConnectionPool.java:970-996 | The queue and the free list are acyclic and share no waiter object |
| `WaiterLists.CallbackObject` | LetosRemoteProject/letosremote/src/main/java/org/sqlite/database/sqlite/SQLiteConnectionPool.java:646-658 | What a cancel callback finds: a recycled object exactly if its ticket is stale, else one in the queue, answered, or abandoned by a close |
| `WaiterLists.InsertedRepresents` | LetosRemoteProject/letosremote/src/main/java/org/sqlite/database/sqlite/SQLiteConnectionPool.java:627-644 | Linking a waiter object between two neighbours is the insertion into the sorted queue |
| `WaiterLists.LeftRepresents` | LetosRemoteProject/letosremote/src/main/java/org/sqlite/database/sqlite/SQLiteConnectionPool.java:820-840 | Unlinking an object and leaving it an outcome is the departure of its waiter |
| `WaiterLists.RecycledRepresents` | LetosRemoteProject/letosremote/src/main/java/org/sqlite/database/sqlite/SQLiteConnectionPool.java:988-996 | Recycling an object ends its ticket and no other |
| `WaiterLists.TakenRepresents` | LetosRemoteProject/letosremote/src/main/java/org/sqlite/database/sqlite/SQLiteConnectionPool.java:972-976 | Taking an object off the free list ends and begins no ticket |
| `ConnectionPool.SQLiteConnectionPool.constructor` | LetosRemoteProject/letosremote/src/main/java/org/sqlite/database/sqlite/SQLiteConnectionPool.java:151-154 | A new pool has a configuration of its own, equal to the one given, and no waiters |
| `ConnectionPool.SQLiteConnectionPool.Open` | LetosRemoteProject/letosremote/src/main/java/org/sqlite/database/sqlite/SQLiteConnectionPool.java:185-198 | Opens the primary connection; usable exactly if that did not throw |
| `ConnectionPool.SQLiteConnectionPool.TryAcquirePrimaryConnectionLocked` | LetosRemoteProject/letosremote/src/main/java/org/sqlite/database/sqlite/SQLiteConnectionPool.java:845-867 | In place, the attempt for the primary |
| `ConnectionPool.SQLiteConnectionPool.TryAcquireNonPrimaryConnectionLocked` | LetosRemoteProject/letosremote/src/main/java/org/sqlite/database/sqlite/SQLiteConnectionPool.java:870-906 | In place, the attempt for a non-primary, its loop choosing the first with the statement cached |
| `ConnectionPool.SQLiteConnectionPool.ObtainConnectionWaiterLocked` | LetosRemoteProject/letosremote/src/main/java/org/sqlite/database/sqlite/SQLiteConnectionPool.java:970-986 | A waiter off the free list or a new one, filled in, without an outcome |
| `ConnectionPool.SQLiteConnectionPool.InsertWaiterLocked` | LetosRemoteProject/letosremote/src/main/java/org/sqlite/database/sqlite/SQLiteConnectionPool.java:627-644 | Walks to the first waiter of lower priority and links the new one before it; the nonce is that of this use of the object |
| `ConnectionPool.SQLiteConnectionPool.AcquireConnection` | LetosRemoteProject/letosremote/src/main/java/org/sqlite/database/sqlite/SQLiteConnectionPool.java:594-644 | The first locked section of an acquire; keeps the invariant and the waiter lists |
| `ConnectionPool.SQLiteConnectionPool.FinishWaiting` | LetosRemoteProject/letosremote/src/main/java/org/sqlite/database/sqlite/SQLiteConnectionPool.java:679-690 | The locked section of a woken thread: outcome taken and waiter recycled, or parked again; throws on a closed pool |
| `ConnectionPool.SQLiteConnectionPool.RecycleConnectionWaiterLocked` | LetosRemoteProject/letosremote/src/main/java/org/sqlite/database/sqlite/SQLiteConnectionPool.java:988-996 | The waiter goes to the head of the free list and its 32-bit nonce is counted up |
| `ConnectionPool.SQLiteConnectionPool.WakeConnectionWaitersLocked` | LetosRemoteProject/letosremote/src/main/java/org/sqlite/database/sqlite/SQLiteConnectionPool.java:783-842 | The loop over linked waiters refines the wake-up of the sorted queue, on an open and on a closed pool |
| `ConnectionPool.SQLiteConnectionPool.CancelConnectionWaiterLocked` | LetosRemoteProject/letosremote/src/main/java/org/sqlite/database/sqlite/SQLiteConnectionPool.java:711-737 | Cancels the ticket of the object's present use, if it has one; crashes exactly if the object is unanswered and in no queue, which for a waiter with a ticket means that the pool is closed |
| `ConnectionPool.SQLiteConnectionPool.OnCancel` | LetosRemoteProject/letosremote/src/main/java/org/sqlite/database/sqlite/SQLiteConnectionPool.java:653-657 | A callback is ignored exactly if the number of recyclings of its waiter since is no multiple of 2^32; at 0 it cancels its own ticket, and when the nonce has come round whoever has the object by then |
| `ConnectionPool.CancelAfterClose` | LetosRemoteProject/letosremote/src/main/java/org/sqlite/database/sqlite/SQLiteConnectionPool.java:711-737 | Two sessions ask for the primary, the pool is closed, and the one waiting is cancelled: the search ends in a null dereference |
| `WaiterLists.PresentTicket` | LetosRemoteProject/letosremote/src/main/java/org/sqlite/database/sqlite/SQLiteConnectionPool.java:711-737 | A waiter object is in the queue, answered or abandoned as its present ticket is in the pool |
| `ConnectionPool.SQLiteConnectionPool.ReleaseConnection` | LetosRemoteProject/letosremote/src/main/java/org/sqlite/database/sqlite/SQLiteConnectionPool.java:366-392 | In place, the release, with the assertion on the primary slot proved |
| `ConnectionPool.SQLiteConnectionPool.ShouldYieldConnection` | LetosRemoteProject/letosremote/src/main/java/org/sqlite/database/sqlite/SQLiteConnectionPool.java:424-438 | In place, the question whether to yield; None is the exception for a connection that is not acquired |
| `ConnectionPool.SQLiteConnectionPool.CloseExcessConnectionsLocked` | LetosRemoteProject/letosremote/src/main/java/org/sqlite/database/sqlite/SQLiteConnectionPool.java:519-526 | Closes idle connections from the end until max - 1 are left |
| `PoolSteps.CloseExcessExactly` | LetosRemoteProject/letosremote/src/main/java/org/sqlite/database/sqlite/SQLiteConnectionPool.java:519-526 | On any pool: as many idle connections are kept as there is room for, the first ones, and exactly the others are closed |
| `ConnectionPool.SQLiteConnectionPool.MarkAcquiredConnectionsLocked` | LetosRemoteProject/letosremote/src/main/java/org/sqlite/database/sqlite/SQLiteConnectionPool.java:574-591 | Collects the connections to mark, then marks them, leaving those to be discarded |
| `ConnectionPool.SQLiteConnectionPool.ReconfigureIdleLocked` | LetosRemoteProject/letosremote/src/main/java/org/sqlite/database/sqlite/SQLiteConnectionPool.java:558-570 | Reconfigures the idle connections in place while taking out those that fail |
| `ConnectionPool.SQLiteConnectionPool.Reconfigure` | LetosRemoteProject/letosremote/src/main/java/org/sqlite/database/sqlite/SQLiteConnectionPool.java:257-329 | In place, the reconfiguration; the pool keeps its configuration if it throws |
| `ConnectionPool.SQLiteConnectionPool.Close` | LetosRemoteProject/letosremote/src/main/java/org/sqlite/database/sqlite/SQLiteConnectionPool.java:223-239 | In place, the closing, with every waiter dequeued and left without an outcome |
| `Configuration.SQLiteDatabaseConfiguration.Copy` | LetosRemoteProject/letosremote/src/main/java/org/sqlite/database/sqlite/SQLiteDatabaseConfiguration.java:122-130 | A copy has the same parameters and shares none of them |
| `Configuration.SQLiteDatabaseConfiguration.UpdateParametersFrom` | LetosRemoteProject/letosremote/src/main/java/org/sqlite/database/sqlite/SQLiteDatabaseConfiguration.java:138-153 | Takes over everything but the path; updated from itself it loses its custom functions |
| `Configuration.InMemoryExactly` | LetosRemoteProject/letosremote/src/main/java/org/sqlite/database/sqlite/SQLiteDatabaseConfiguration.java:159-161 | Exactly the spellings of :memory:, each letter in either case, name a database in memory; no path of another length or with a slash in front does |
| `Database.MadeWritable` | LetosRemoteProject/letosremote/src/main/java/org/sqlite/database/sqlite/SQLiteDatabase.java:782-783 | Only the bit for read-only access is cleared |
| `Database.OtherBits` | LetosRemoteProject/letosremote/src/main/java/org/sqlite/database/sqlite/SQLiteDatabase.java:1976-2004 | Switching write-ahead logging touches no other bit of the flags |
| `Database.ReadOnlyBit` | LetosRemoteProject/letosremote/src/main/java/org/sqlite/database/sqlite/SQLiteDatabase.java:218-220 | Read-only is bit 0 of the flags |
| `Database.WalBit` | LetosRemoteProject/letosremote/src/main/java/org/sqlite/database/sqlite/SQLiteDatabase.java:248 | Write-ahead logging is bit 29 of the flags |
| `Database.SQLiteDatabase.OpenInner` | LetosRemoteProject/letosremote/src/main/java/org/sqlite/database/sqlite/SQLiteDatabase.java:807-812 | The database has a pool with its own configuration exactly if the first connection could be opened |
| `Database.SQLiteDatabase.ReopenReadWrite` | LetosRemoteProject/letosremote/src/main/java/org/sqlite/database/sqlite/SQLiteDatabase.java:771-790 | Throws exactly if the database is read-only and the new primary cannot be opened; the database's configuration stays that of its pool |
| `Database.SQLiteDatabase.AddCustomFunction` | LetosRemoteProject/letosremote/src/main/java/org/sqlite/database/sqlite/SQLiteDatabase.java:845-860 | The function is added to both configurations and nothing is thrown while the database is open |
| `Database.SQLiteDatabase.SetLocale` | LetosRemoteProject/letosremote/src/main/java/org/sqlite/database/sqlite/SQLiteDatabase.java:1774-1790 | Never throws while the database is open, and both configurations have the locale |
| `Database.SQLiteDatabase.SetMaxSqlCacheSize` | LetosRemoteProject/letosremote/src/main/java/org/sqlite/database/sqlite/SQLiteDatabase.java:1806-1825 | Takes every size from 0 to 100, and nothing else; with 0, and only then, the pool has a configuration that no connection can be opened with |
| `PoolWithoutCache.NothingOpensWithoutCache` | LetosRemoteProject/letosremote/src/main/java/org/sqlite/database/sqlite/SQLiteConnection.java:164-176 | From any reachable state with such a configuration on, over runs that do not give it another: every connection in the pool or in use was there before |
| `PoolWithoutCache.NoPoolWithoutCache` | LetosRemoteProject/letosremote/src/main/java/org/sqlite/database/sqlite/SQLiteConnection.java:164-176 | Nor can a pool be opened with it |
| `Database.SQLiteDatabase.SetForeignKeyConstraintsEnabled` | LetosRemoteProject/letosremote/src/main/java/org/sqlite/database/sqlite/SQLiteDatabase.java:1855-1871 | Throws, and changes nothing, exactly if the mode would change while a connection is in use |
| `Database.SQLiteDatabase.EnableWriteAheadLogging` | LetosRemoteProject/letosremote/src/main/java/org/sqlite/database/sqlite/SQLiteDatabase.java:1947-1985 | The exact conditions for changing, refusing and throwing; a writable database in a file without attached ones gets there unless the pool refuses, one in memory never does; the result says whether the mode is on afterwards, also when it throws |
| `Database.SQLiteDatabase.DisableWriteAheadLogging` | LetosRemoteProject/letosremote/src/main/java/org/sqlite/database/sqlite/SQLiteDatabase.java:1996-2012 | The mode is off afterwards exactly if nothing was thrown while it was on; both configurations agree either way |
| `Database.SQLiteDatabase.BeforeAttach` | LetosRemoteProject/letosremote/src/main/java/org/sqlite/database/sqlite/SQLiteDatabase.java:1664-1678 | If disabling write-ahead logging before the first ATTACH throws, the mode stays on beside an attached database, and later ones do not try again |
| `SqlStatements.PaddingKeepsType` | LetosRemoteProject/letosremote/src/main/java/org/sqlite/database/DatabaseUtils.java:1400-1437 | Blanks around a statement do not change its type |
| `SqlStatements.CaseKeepsType` | LetosRemoteProject/letosremote/src/main/java/org/sqlite/database/DatabaseUtils.java:1400-1437 | The case of the letters does not change the type of a statement, two letters outside ASCII included |
| `SqlStatements.OddLetters` | LetosRemoteProject/letosremote/src/main/java/org/sqlite/database/DatabaseUtils.java:1405-1437 | A dotless i and a long s count as I and S |
| `SqlStatements.TransactionStatements` | LetosRemoteProject/letosremote/src/main/java/org/sqlite/database/DatabaseUtils.java:1415-1422 | A text that begins with BEGIN, COMMIT, END or ROLLBACK, in any case and after any blanks, has that type |
| `SqlStatements.CachedStatements` | LetosRemoteProject/letosremote/src/main/java/org/sqlite/database/DatabaseUtils.java:1406-1412 | So has one with SELECT, INSERT, UPDATE, REPLACE or DELETE |
| `SqlStatements.SchemaStatements` | LetosRemoteProject/letosremote/src/main/java/org/sqlite/database/DatabaseUtils.java:1413-1436 | So has one with ATTACH, DETACH, ANALYZE or PRAGMA |
| `SqlStatements.DefinitionStatements` | LetosRemoteProject/letosremote/src/main/java/org/sqlite/database/DatabaseUtils.java:1425-1430 | So has one with CREATE, DROP or ALTER |
| `SqlStatements.OtherStatements` | LetosRemoteProject/letosremote/src/main/java/org/sqlite/database/DatabaseUtils.java:1431-1437 | SAVEPOINT, RELEASE and VACUUM have none of these types |
| `SessionRuns.ProtocolFollowed` | LetosRemoteProject/letosremote/src/main/java/org/sqlite/database/sqlite/SQLiteSession.java:306-453 | In every run the native commands follow BEGIN, work, one COMMIT or ROLLBACK on the connection acquired before and released after; between operations the use count is 1 inside a transaction and 0 outside |
| `SessionRuns.CommittedExactly` | LetosRemoteProject/letosremote/src/main/java/org/sqlite/database/sqlite/SQLiteSession.java:408-453 | In every run the outermost transaction is committed exactly if every transaction of its span, at every depth, was marked successful or yielded and no listener threw at its end |
| `SessionRuns.ReleasedInsideExactly` | LetosRemoteProject/letosremote/src/main/java/org/sqlite/database/sqlite/SQLiteSession.java:438-447 | Some connection goes back to the pool inside a native transaction exactly if some COMMIT or ROLLBACK threw |
| `SessionRuns.ThrowingEndReleasesInside` | LetosRemoteProject/letosremote/src/main/java/org/sqlite/database/sqlite/SQLiteSession.java:438-447 | A begin and an end whose ROLLBACK throws: the connection is released inside the native transaction |
| `SessionRuns.FailedBegin` | LetosRemoteProject/letosremote/src/main/java/org/sqlite/database/sqlite/SQLiteSession.java:306-357 | A failing begin leaves stack, connection and use count as before, and the native state too unless the ROLLBACK threw as well |
| `SessionRuns.YieldExactly` | LetosRemoteProject/letosremote/src/main/java/org/sqlite/database/sqlite/SQLiteSession.java:506-554 | Exactly when a yield ends the transaction and begins another, and what it returns or throws when it does not; if it throws after that no transaction is left |
| `SessionStatements.BeginOutside` | LetosRemoteProject/letosremote/src/main/java/org/sqlite/database/sqlite/SQLiteSession.java:306-357 | The events of an outermost begin: acquire, BEGIN in the mode asked for, and on an exception ROLLBACK if BEGIN went through, and release; and its result |
| `SessionStatements.BeginWithin` | LetosRemoteProject/letosremote/src/main/java/org/sqlite/database/sqlite/SQLiteSession.java:306-357 | A begin within a transaction issues no native command, and when it throws changes nothing |
| `SessionStatements.MarkExactly` | LetosRemoteProject/letosremote/src/main/java/org/sqlite/database/sqlite/SQLiteSession.java:374-379 | The mark goes to the innermost transaction only; illegal without one and on one that is marked |
| `SessionStatements.EndExactly` | LetosRemoteProject/letosremote/src/main/java/org/sqlite/database/sqlite/SQLiteSession.java:408-453 | The events of an end and its result: the outermost transaction is committed exactly if it was marked, no child failed and the listener did not throw, an inner one that does not end well fails its parent; the listener is told before |
| `SessionStatements.BeginStatement` | LetosRemoteProject/letosremote/src/main/java/org/sqlite/database/sqlite/SQLiteSession.java:876-880 | The text BEGIN begins an exclusive transaction without a listener |
| `SessionStatements.CommitStatement` | LetosRemoteProject/letosremote/src/main/java/org/sqlite/database/sqlite/SQLiteSession.java:882-885 | COMMIT or END marks the innermost transaction and ends it, in this order; illegal without one and on one that is marked |
| `SessionStatements.RollbackStatement` | LetosRemoteProject/letosremote/src/main/java/org/sqlite/database/sqlite/SQLiteSession.java:887-889 | ROLLBACK ends the innermost transaction and marks nothing |
| `SessionStatements.RollbackDooms` | LetosRemoteProject/letosremote/src/main/java/org/sqlite/database/sqlite/SQLiteSession.java:887-889 | Over all runs: if ROLLBACK ends a transaction that was not marked, at whatever depth, the outermost one is rolled back, whatever is done before and after |
| `SessionStatements.OtherStatement` | LetosRemoteProject/letosremote/src/main/java/org/sqlite/database/sqlite/SQLiteSession.java:611-627 | Any other text is worked on the connection held, or on one acquired for it and released, and leaves the transactions alone |
| `SessionStatements.NotSpecial` | LetosRemoteProject/letosremote/src/main/java/org/sqlite/database/sqlite/SQLiteSession.java:869-892 | Which texts those are, by the word they begin with |
| `SessionStatements.CanceledStatement` | LetosRemoteProject/letosremote/src/main/java/org/sqlite/database/sqlite/SQLiteSession.java:871-873 | A statement canceled before it began does nothing |
| `SessionRuns.StepKeeps` | LetosRemoteProject/letosremote/src/main/java/org/sqlite/database/sqlite/SQLiteSession.java:298-453 | Every operation keeps the protocol, the commit rule and the use count |
| `Session.SQLiteSession.AcquireConnection` | LetosRemoteProject/letosremote/src/main/java/org/sqlite/database/sqlite/SQLiteSession.java:894-903 | In place, the counted acquire |
| `Session.SQLiteSession.ReleaseConnection` | LetosRemoteProject/letosremote/src/main/java/org/sqlite/database/sqlite/SQLiteSession.java:905-915 | In place, the counted release |
| `Session.SQLiteSession.ObtainTransaction` | LetosRemoteProject/letosremote/src/main/java/org/sqlite/database/sqlite/SQLiteSession.java:939-952 | An object off the free list, or a new one, with no mark left over from an earlier use |
| `Session.SQLiteSession.BeginTransactionUnchecked` | LetosRemoteProject/letosremote/src/main/java/org/sqlite/database/sqlite/SQLiteSession.java:306-357 | In place, a begin at any depth; the linked objects represent the stack |
| `Session.SQLiteSession.SetTransactionSuccessful` | LetosRemoteProject/letosremote/src/main/java/org/sqlite/database/sqlite/SQLiteSession.java:374-379 | In place, the mark on the innermost transaction |
| `Session.SQLiteSession.EndTransactionUnchecked` | LetosRemoteProject/letosremote/src/main/java/org/sqlite/database/sqlite/SQLiteSession.java:408-453 | In place, the end: listener, stack, COMMIT or ROLLBACK, connection, exception |
| `Session.SQLiteSession.YieldTransaction` | LetosRemoteProject/letosremote/src/main/java/org/sqlite/database/sqlite/SQLiteSession.java:506-554 | In place, the yield |
| `Session.SQLiteSession.Execute` | LetosRemoteProject/letosremote/src/main/java/org/sqlite/database/sqlite/SQLiteSession.java:611-627 | In place, a statement, with BEGIN, COMMIT, END and ROLLBACK taken over as transaction operations |
| `SessionRuns.ExecuteKept` | LetosRemoteProject/letosremote/src/main/java/org/sqlite/database/sqlite/SQLiteSession.java:869-892 | An ordinary statement leaves the session as it was between operations |
| `WindowFill.CopyRowToWindow` | LetosRemoteProject/sqlite3mc/amalgamation/android_database_SQLiteConnection.cpp:594-652 | A row is added whole if there is room for it and its cells and its number is the next one, and otherwise not at all |
| `WindowFill.SetWindowNumColumns` | LetosRemoteProject/sqlite3mc/amalgamation/android_database_SQLiteConnection.cpp:654-665 | The window is cleared in any case |
| `WindowFill.AddRow` | LetosRemoteProject/sqlite3mc/amalgamation/android_database_SQLiteConnection.cpp:748-773 | When the required row has not been reached and there is no room, the window starts over with the row at hand, which then fails only if it does not fit alone |
| `WindowFill.NativeExecuteForCursorWindow` | LetosRemoteProject/sqlite3mc/amalgamation/android_database_SQLiteConnection.cpp:741-789 | The window holds consecutive rows, as many as fit, from the start on or from a later row that the restarts lead to, each with the first row there was no room for; the required row, or the last one if there are not so many, is among them exactly if it and every row from the start to it fits alone; the count returned is the total, or one past the last row held unless the start is past the end; a negative start is like 0 if a row is required, and otherwise fills nothing |
| `WindowFill.FillDetermined` | LetosRemoteProject/sqlite3mc/amalgamation/android_database_SQLiteConnection.cpp:741-775 | That determines start and contents of the window: two fillings with the same rows, start and required row are equal |
| `WindowFill.FillPastTheEnd` | LetosRemoteProject/sqlite3mc/amalgamation/android_database_SQLiteConnection.cpp:686-691 | A start past the end of the result: nothing is copied, and the count is the number of rows |
| `WindowFill.Concluded` | LetosRemoteProject/sqlite3mc/amalgamation/android_database_SQLiteConnection.cpp:741-775 | Whenever the loop ends, for whatever rows and sizes, the window is filled as promised |
| `WindowFill.HeldExactly` | LetosRemoteProject/sqlite3mc/amalgamation/android_database_SQLiteConnection.cpp:741-775 | A window filled from its start holds a row exactly if there is room for that row and those before it together |
| `WindowFill.PackedExactly` | LetosRemoteProject/letosremote/src/main/java/org/sqlite/database/sqlite/SQLiteConnection.java:858-862 | Of two ints packed into a long the lower always comes out; the upper does exactly if the lower is not negative, or it is -1 itself |
| `Cursor.ExecuteForCursorWindow` | LetosRemoteProject/letosremote/src/main/java/org/sqlite/database/sqlite/SQLiteConnection.java:845-868 | The window is numbered from the first row it holds |
| `Cursor.CursorPickFillWindowStartPosition` | LetosRemoteProject/letosremote/src/main/java/org/sqlite/database/DatabaseUtils.java:768-771 | A third of the capacity before the required row, or the first row if that is nearer |
| `Cursor.SQLiteCursor.SetWindow` | LetosRemoteProject/letosremote/src/main/java/org/sqlite/database/sqlite/SQLiteCursor.java:258-261 | The count is forgotten with the old window |
| `Cursor.SQLiteCursor.FillWindow` | LetosRemoteProject/letosremote/src/main/java/org/sqlite/database/sqlite/SQLiteCursor.java:153-177 | The required row is in the window exactly if all rows from the picked start to it fit; if the query throws, window and count are dropped |
| `Cursor.SQLiteCursor.OnMove` | LetosRemoteProject/letosremote/src/main/java/org/sqlite/database/sqlite/SQLiteCursor.java:116-124 | The row is covered afterwards exactly if it was before or could be filled in |
| `Cursor.SQLiteCursor.GetCount` | LetosRemoteProject/letosremote/src/main/java/org/sqlite/database/sqlite/SQLiteCursor.java:126-132 | Counts once; the count is that of the result |
| `Cursor.SQLiteCursor.MoveToPosition` | LetosRemoteProject/letosremote/src/main/java/org/sqlite/database/sqlite/SQLiteCursor.java:116-132 | In range exactly if it says so. A move to the present position that has to count first covers it exactly if there is room for the rows up to it together; any other covers it if those rows fit one by one, and only if it fits itself |
| `Cursor.MoveToSamePlace` | LetosRemoteProject/letosremote/src/main/java/org/sqlite/database/sqlite/SQLiteCursor.java:258-261 | A cursor over three rows, given another window for two and moved to the last row, where it is: the move succeeds and the row is not in the window |
| `Cursor.SQLiteCursor.GetValue` | LetosRemoteProject/letosremote/src/main/java/org/letos/letosremote/internal/QueryResults.java:71-85 | The cell of the result at the current position, exactly if the window holds it |
| `Cursor.RowMapExact` | LetosRemoteProject/letosremote/src/main/java/org/letos/letosremote/internal/QueryResults.java:62-69 | A row's map has every column name; of columns with one name the last counts |
| `Cursor.ReadRow` | LetosRemoteProject/letosremote/src/main/java/org/letos/letosremote/internal/QueryResults.java:62-69 | The row at the current position as a map, exactly if the window holds it |
| `Cursor.ReadResults` | LetosRemoteProject/letosremote/src/main/java/org/letos/letosremote/internal/QueryResults.java:24-30 | The rows of the result once, in order, whatever the window's size, up to the first that does not fit into an empty window if no execution fails; none if the cursor stands on the first row already, counted, and has lost it; if an execution throws, the rows read before |
| `StatementCacheRuns.StepExactly` | LetosRemoteProject/letosremote/src/main/java/org/sqlite/database/sqlite/SQLiteConnection.java:889-950 | A step keeps every statement from being finalized while it is outstanding exactly if it is not one of two: an acquire that evicts an unmarked outstanding statement, or a failed reset of one outstanding twice (or a close with unmarked ones) |
| `StatementCacheRuns.RunHarmsExactly` | LetosRemoteProject/letosremote/src/main/java/org/sqlite/database/sqlite/SQLiteConnection.java:889-950 | In any run some statement is finalized while outstanding exactly if the run takes one of those steps |
| `StatementCacheRuns.FinalizedUnlessBroken` | LetosRemoteProject/letosremote/src/main/java/org/sqlite/database/sqlite/SQLiteConnection.java:889-950 | In a run without such a step no statement is finalized twice or while outstanding, and after a close with none outstanding every one has been finalized but those leaked |
| `StatementCacheRuns.FinalizedExactlyOnce` | LetosRemoteProject/letosremote/src/main/java/org/sqlite/database/sqlite/SQLiteConnection.java:889-950 | It is enough that no acquire and no close happens while a cache-hit statement is outstanding |
| `StatementCacheRuns.LeaksExactly` | LetosRemoteProject/letosremote/src/main/java/org/sqlite/database/sqlite/SQLiteConnection.java:912-918 | A statement leaks exactly if its inspection throws while the cached one for the same text is in use |
| `StatementCacheRuns.SecondInspectionLeaks` | LetosRemoteProject/letosremote/src/main/java/org/sqlite/database/sqlite/SQLiteConnection.java:912-918 | A text acquired again while in use, whose inspection throws, leaves a statement that is never finalized |
| `StatementCacheRuns.HitThenAcquire` | LetosRemoteProject/letosremote/src/main/java/org/sqlite/database/sqlite/SQLiteConnection.java:890-895 | Two texts and a cache of one: the statement handed out of the cache is finalized by the next acquire while outstanding |
| `StatementCacheRuns.AcquireKeeps` | LetosRemoteProject/letosremote/src/main/java/org/sqlite/database/sqlite/SQLiteConnection.java:889-922 | The exact condition, for an acquire |
| `StatementCacheRuns.ReleaseKeeps` | LetosRemoteProject/letosremote/src/main/java/org/sqlite/database/sqlite/SQLiteConnection.java:924-945 | The exact condition, for a release |
| `StatementCacheRuns.DisposeKeeps` | LetosRemoteProject/letosremote/src/main/java/org/sqlite/database/sqlite/SQLiteConnection.java:242-245 | The exact condition, for the close of the connection |
| `StatementCacheRuns.TouchKeeps` | LetosRemoteProject/letosremote/src/main/java/org/sqlite/database/sqlite/SQLiteConnection.java:462-464 | Looking a statement up makes it the last of the cache, which holds the same statements as before |
| `StatementCacheOrder.EvictsLeastRecentlyUsed` | LetosRemoteProject/letosremote/src/main/java/org/sqlite/database/sqlite/SQLiteConnection.java:889-922 | Over all runs: a statement leaves the cache on an acquire only if the cache is full, and then it is the one whose last acquire, look-up or insertion lies furthest back; all others stay |
| `StatementCacheOrder.OrderedByUse` | LetosRemoteProject/letosremote/src/main/java/org/sqlite/database/sqlite/SQLiteConnection.java:1259-1272 | After every run, also one that finalizes statements in use, the cache is in the order of those last uses |
| `StatementCacheOrder.StepMoves` | LetosRemoteProject/letosremote/src/main/java/org/sqlite/database/sqlite/SQLiteConnection.java:889-945 | No step reorders the cache but for the statement it uses, which is the last one then |
| `StatementCacheOrder.FoundIsLast` | LetosRemoteProject/letosremote/src/main/java/org/sqlite/database/sqlite/SQLiteConnection.java:890-895 | A statement found in the cache, even one in use, is the last one then, also when the acquire throws after that; all stay |
| `StatementCacheOrder.HandedOutIsLast` | LetosRemoteProject/letosremote/src/main/java/org/sqlite/database/sqlite/SQLiteConnection.java:889-922 | What an acquire hands out is the last one of the cache, if it is cached |
| `StatementCacheOrder.CachedExactly` | LetosRemoteProject/letosremote/src/main/java/org/sqlite/database/sqlite/SQLiteConnection.java:908-911 | A new statement for a text that is not cached gets into the cache exactly if it is cacheable |
| `StatementCacheOrder.AcquiredExactly` | LetosRemoteProject/letosremote/src/main/java/org/sqlite/database/sqlite/SQLiteConnection.java:889-922 | Exactly when an acquire throws, and that it otherwise hands out one statement for the text: the cached one as it is, if that is not marked as in use, or a new one, marked |
| `StatementCacheOrder.ReleasedExactly` | LetosRemoteProject/letosremote/src/main/java/org/sqlite/database/sqlite/SQLiteConnection.java:924-945 | A released statement is finalized, and out of the cache, exactly if it was not cached or its reset throws; no other is touched |
| `StatementCacheOrder.WhatIsCacheable` | LetosRemoteProject/letosremote/src/main/java/org/sqlite/database/sqlite/SQLiteConnection.java:1043-1049 | Queries and changes of rows are cacheable, statements about transactions and the schema are not, by the word they begin with |
| `StatementCache.PreparedStatements.AcquirePreparedStatement` | LetosRemoteProject/letosremote/src/main/java/org/sqlite/database/sqlite/SQLiteConnection.java:889-922 | In place, over statement objects and an LRU cache that share them |
| `StatementCache.PreparedStatements.ReleasePreparedStatement` | LetosRemoteProject/letosremote/src/main/java/org/sqlite/database/sqlite/SQLiteConnection.java:924-945 | In place, the release: reset, removal when that fails, or finalization |
| `StatementCache.PreparedStatements.FinalizePreparedStatement` | LetosRemoteProject/letosremote/src/main/java/org/sqlite/database/sqlite/SQLiteConnection.java:947-950 | The native statement is given back and the object put on the list to be used again |
| `StatementCache.PreparedStatements.EntryRemoved` | LetosRemoteProject/letosremote/src/main/java/org/sqlite/database/sqlite/SQLiteConnection.java:1265-1272 | A statement that leaves the cache is finalized at once unless it is in use |
| `StatementCache.PreparedStatements.ObtainPreparedStatement` | LetosRemoteProject/letosremote/src/main/java/org/sqlite/database/sqlite/SQLiteConnection.java:1187-1203 | An object off the list, or a new one, for a new native statement |
| `StatementCache.PreparedStatements.Dispose` | LetosRemoteProject/letosremote/src/main/java/org/sqlite/database/sqlite/SQLiteConnection.java:234-252 | Everything is evicted |
| `OperationLog.CookiesEqual` | LetosRemoteProject/letosremote/src/main/java/org/sqlite/database/sqlite/SQLiteConnection.java:1397-1400 | The n-th and the m-th operation get the same cookie exactly if n and m agree modulo 5 * 2^24 |
| `OperationLog.OperationLog.BeginOperation` | LetosRemoteProject/letosremote/src/main/java/org/sqlite/database/sqlite/SQLiteConnection.java:1307-1345 | Records the operation at its index of the ring and leaves the other nineteen records alone |
| `OperationLog.OperationLog.NewOperationCookieLocked` | LetosRemoteProject/letosremote/src/main/java/org/sqlite/database/sqlite/SQLiteConnection.java:1397-1400 | The cookie of the operation, with a generation that wraps at 32 bits |
| `OperationLog.OperationLog.GetOperation` | LetosRemoteProject/letosremote/src/main/java/org/sqlite/database/sqlite/SQLiteConnection.java:1402-1406 | A cookie stands for its own operation exactly if fewer than twenty have begun since, and for none otherwise, unless cookies have come round |
| `OperationLog.OperationLog.FailOperation` | LetosRemoteProject/letosremote/src/main/java/org/sqlite/database/sqlite/SQLiteConnection.java:1347-1354 | The exception goes to its own operation or nowhere |
| `OperationLog.OperationLog.EndOperation` | LetosRemoteProject/letosremote/src/main/java/org/sqlite/database/sqlite/SQLiteConnection.java:1356-1362 | The end is noted on its own operation or nowhere |
| `Framing.IntRoundTrip` | LetosRemoteProject/letosremote/src/main/java/org/letos/letosremote/internal/ClientHandler.java:310-311 | A length written as four bytes, lowest first, is read back |
| `Framing.FramesRead` | LetosRemoteProject/letosremote/src/main/java/org/letos/letosremote/internal/ClientHandler.java:134-185 | Payloads of up to 10 MiB sent as frames are read as they are, in order, whatever follows |
| `Framing.OversizeNotSkipped` | LetosRemoteProject/letosremote/src/main/java/org/letos/letosremote/internal/ClientHandler.java:160-164 | After a length over the maximum the content itself is read as lengths |
| `Framing.AnsweredOnce` | LetosRemoteProject/letosremote/src/main/java/org/letos/letosremote/internal/ClientHandler.java:198-257 | Every request handled gets one response, its own, in order, except a refused authorization, after which none is handled |
| `Framing.EveryItemAnswered` | LetosRemoteProject/letosremote/src/main/java/org/letos/letosremote/internal/ClientHandler.java:134-257 | Whatever is read is answered item by item: one that is too large and one that is no request with an error of its own, until a refusal or a negative length ends the conversation |
| `Framing.PasswordFirst` | LetosRemoteProject/letosremote/src/main/java/org/letos/letosremote/internal/ClientHandler.java:198-257 | Whatever is sent to a handler that asks for a password: no result and no error about commands or databases goes out before a confirmation, a confirmation goes out exactly if a request with an accepted password was handled, and the first request without one, if none came before, is refused and the last that is handled |
| `Framing.FramesAnswered` | LetosRemoteProject/letosremote/src/main/java/org/letos/letosremote/internal/ClientHandler.java:134-257 | From bytes to answers: payloads of up to 10 MiB sent as frames are handled and answered in order |
| `Framing.FramesTellPayloads` | LetosRemoteProject/letosremote/src/main/java/org/letos/letosremote/internal/ClientHandler.java:306-320 | What is written as frames tells the responses apart, of any length |
| `ClientHandler.ClientHandler.Run` | LetosRemoteProject/letosremote/src/main/java/org/letos/letosremote/internal/ClientHandler.java:110-131 | The whole conversation: a client whose address is not allowed is left without a byte read or written; otherwise what is handled and what is written follows from the bytes received, through both states and every way to end, and nobody gets past the password |
| `ClientHandler.ClientHandler.ReadClientChannel` | LetosRemoteProject/letosremote/src/main/java/org/letos/letosremote/internal/ClientHandler.java:134-185 | One turn of the reader does not change how the conversation will end |
| `ClientHandler.ClientHandler.HandleRequest` | LetosRemoteProject/letosremote/src/main/java/org/letos/letosremote/internal/ClientHandler.java:198-238 | A request's one response, or the refusal: without authorization it serves nothing but an accepted password, and any other request is refused |
| `ClientHandler.ClientHandler.Authorize` | LetosRemoteProject/letosremote/src/main/java/org/letos/letosremote/internal/ClientHandler.java:240-257 | Authorized with a confirmation, or denied without a response |
| `ClientHandler.ClientHandler.Answer` | LetosRemoteProject/letosremote/src/main/java/org/letos/letosremote/internal/ClientHandler.java:211-238 | A service is asked exactly if the request names one of the three commands and, but for the listing, a database, and it is the service of that command; otherwise the answer says which of the three is wrong |
| `ClientHandler.ClientHandler.Send` | LetosRemoteProject/letosremote/src/main/java/org/letos/letosremote/internal/ClientHandler.java:306-320 | What is written is a frame of the response |
| `Glob.CreateRegexFromGlob` | LetosRemoteProject/letosremote/src/main/java/org/letos/letosremote/internal/Utils.java:31-54 | The loop writes the translation of every character between a circumflex and a dollar sign |
| `Glob.KeepsMeaningExactly` | LetosRemoteProject/letosremote/src/main/java/org/letos/letosremote/internal/Utils.java:31-54 | For every glob: the expression matches the strings that the glob does, where a line break is no character for star and question mark, exactly if star, question mark, dot and backslash are its only special characters; of brackets, braces, parentheses, bars, circumflexes and dollar signs only as far as the model does not read expressions with them |
| `Glob.PlusIsNotEscaped` | LetosRemoteProject/letosremote/src/main/java/org/letos/letosremote/internal/Utils.java:31-54 | The expression for a+ matches aa and not a+ |
| `Glob.TranslationParses` | LetosRemoteProject/letosremote/src/main/java/org/letos/letosremote/internal/Utils.java:31-54 | Every glob: which pieces its expression has, or that it has other constructs |
| `Glob.WithoutLineBreaks` | LetosRemoteProject/letosremote/src/main/java/org/letos/letosremote/internal/Utils.java:31-54 | On strings without line breaks a glob means the same if a line break counts as a character and if not |
| `Glob.IsIpAllowed` | LetosRemoteProject/letosremote/src/main/java/org/letos/letosremote/internal/AuthServiceImpl.java:45-70 | For all lists and any regular expression engine: allowed exactly if there is no black list, no expression of a black glob matches, or that of a white one does |
| `Glob.PlainListMatches` | LetosRemoteProject/letosremote/src/main/java/org/letos/letosremote/internal/AuthServiceImpl.java:19-33 | An expression of a list of plain globs matches an address exactly if one of the globs does |
| `Glob.AllowedExactly` | LetosRemoteProject/letosremote/src/main/java/org/letos/letosremote/internal/AuthServiceImpl.java:45-70 | By lists of plain globs an address is allowed exactly if there is no black list, no black glob matches it, or a white one does |
| `Json.HexRoundTrip` | LetosRemoteProject/letosremote/src/main/java/org/letos/letosremote/internal/Utils.java:20-29 | The hexadecimal text of a byte array tells the bytes |
| `Json.BytesToHex` | LetosRemoteProject/letosremote/src/main/java/org/letos/letosremote/internal/Utils.java:21-29 | The text written into the character array |
| `Json.ToBlobString` | LetosRemoteProject/letosremote/src/main/java/org/letos/letosremote/internal/Utils.java:14-18 | The text is a blob literal from which the bytes can be read back |
| `Json.BlobStringsDiffer` | LetosRemoteProject/letosremote/src/main/java/org/letos/letosremote/internal/Utils.java:14-18 | Different byte arrays have different texts |
| `Json.BlobText` | LetosRemoteProject/letosremote/src/main/java/org/letos/letosremote/internal/Utils.java:14-29 | Two texts: of no bytes, and of three |
| `Json.RoundTripExactly` | LetosRemoteProject/letosremote/src/main/java/org/letos/letosremote/internal/JsonConverter.java:20-74 | A value comes back from JSON, with null as its marker and a blob as a list of its text, exactly if no map in it has a number that is not finite for an entry; such entries are missing |
| `Json.PlainValues` | LetosRemoteProject/letosremote/src/main/java/org/letos/letosremote/internal/JsonConverter.java:20-74 | What JSON has for itself goes there and comes back as it is |
| `Json.InfinityIsDropped` | LetosRemoteProject/letosremote/src/main/java/org/letos/letosremote/internal/JsonConverter.java:101-111 | A map with an infinite double comes back without its entry |
| `Json.ToJsonValue` | LetosRemoteProject/letosremote/src/main/java/org/letos/letosremote/internal/JsonConverter.java:32-74 | The conversion with the loops that fill containers |
| `Json.MapToObject` | LetosRemoteProject/letosremote/src/main/java/org/letos/letosremote/internal/JsonConverter.java:101-111 | An entry whose value JSON cannot express is left out |
| `Json.FromJsonValue` | LetosRemoteProject/letosremote/src/main/java/org/letos/letosremote/internal/JsonConverter.java:20-30 | The conversion back |

## Left out

- Time, parking, the busy timeout, the leak flag, logging, dumps, statistics, CloseGuard and finalizers.
- Lock acquisition itself: each locked section is one step. That a woken thread runs at all is not modelled.
- Connection objects of the pool are values in its fields; that a session's reference and the pool's are one object is expressed by the number of the connection.
- The exception of `finishAcquireConnectionLocked` (SQLiteConnectionPool.java:916-920): setting a flag and putting into a map do not throw.
- `connection.close()` throwing: a connection that fails to close counts as closed.
- `enableLocalizedCollators`, and the weak-reference recovery of leaked connections.
- Listeners and custom functions that call back into the session in the middle of an operation. Statement objects acquired within each other are modelled in `StatementCache`.
- Statements that begin or end a native transaction without starting with one of the recognized words, such as SAVEPOINT.
- `prepare` and the typed variants of `execute` of a session, which acquire and release in the same way.
- SqlStatements.SqlStatementType: the session calls the Android class of the same name, taken to classify statements as the repository's own class does.
- ConnectionPool.SQLiteConnectionPool.ReleaseConnection: requires that the connection is not assigned to a waiter whose thread has yet to wake; no session holds such a one (`PoolRuns.OneOwner`).
- WindowFill.NativeExecuteForCursorWindow: row numbers are not bounded by 32 bits.
- Cursor.SQLiteCursor.GetValue: what the platform's window answers for a row that it does not hold; the reading ends there.
- The cursor's `requery`, `deactivate` and `close`, and changes of the result between two executions of the query.
- The size of an Android CursorWindow is a buffer from which rows and cells take arbitrary amounts; only that the first row is not the most expensive slot is assumed.
- Resizing the LRU cache, which the source does not do, and threads other than the owner's looking at it.
- Read errors of the socket other than the end of the stream, and failures of the write.
- Parsing and printing JSON text, UTF-8, the database service, and passwords: parameters of `ClientHandler`.
- Glob.KeepsMeaningExactly: an expression with groups, classes, alternatives, counts, anchors inside, or quantified quantifiers matches nothing in the model; what `Pattern` makes of such a one, or that it rejects it, is not part of it.
- PoolSessions.InsideExactly: sessions act at the granularity of their logged events; what a native command does to a connection that was left inside a transaction is told by its result alone.
- Values of other Java classes in `JsonConverter.toJsonValue`, and maps whose keys are not strings.
- JNI glue, the SQLite engine, sockets, services, `SQLiteQueryBuilder`, `SQLiteOpenHelper`, `SQLiteClosable`, pragma setters: foreign calls, or string assembly and counters that would add easy members only.
