# NvQL connection pool, transactions and statement cache: a verified model

This project models the PostgreSQL side of NvQL in Dafny and proves properties of it: the connection pool as a protocol
between any number of threads, transactions that lease from it, the prepared-statement cache that outlives them, the
multi-host connection URI, timestamps with offsets, and cursors. `dafny verify dfyconfig.toml` checks everything.

## How it is organised

- `Decimal.dfy`: decimal printing, its inverse, `Option`.
- `PoolModel.dfy`: the pool as a value, one function per critical section, and what each keeps.
- `PoolProtocol.dfy`: threads, the condition variable, and all runs. `Subsequences.dfy`: what its queue theorems need.
- `ConnectionPool.dfy`: the pool as an object with heap nodes; each method's new state is the value model's.
- `PreparedStatements.dfy`: the manager, parameters, and executing by name, over all histories.
- `PgTransaction.dfy`: the transaction object: Begin on a leased connection, Execute, Commit and Rollback, destruction.
- `PgServer.dfy`: pool with its sessions, managers and live transactions together, over all runs.
- `PoolRuns.dfy`: the server's runs are runs of the pool protocol.
- `ConnectionUri.dfy`, `Timestamps.dfy`, `Cursor.dfy`: the remaining components.

## Where the code differs from its evident intent

The model follows the code. Where that loses a property, the exact condition is proved, and the intended form is
a second value of a parameter.

- `connection_pool.cc:101-115` waits once and negates the result of `WaitWithDeadline`, which is true when the deadline
  passed. So a signalled call gives up and an expired one goes on to `front()`. `PoolProtocol.Policy` has this form
  (`AsWritten`) and the re-checking one (`Corrected`). Partition, FIFO, stale-return and idle results hold for both.
  So every ping of the pool makes all waiting calls give up.
  A wait is assumed to end by a signal or by its deadline, not both; spurious wake-ups are included.
- `pg_transaction.cc:238-241` returns the connection before the inner transaction is destroyed. `PgServer.Order` has
  this form (`ReturnFirst`) and the other one (`InnerFirst`). As written, the queue offers a connection with an open
  inner transaction exactly in runs that destroy a transaction nobody has committed or rolled back, or one in
  NonTransaction mode.
- `connection_pool.cc:182-188` queues a connection before opening it, so one whose Open failed can be leased;
  `pg_transaction.cc:293-302` then dereferences its null driver. From there on a run is undefined and ends.
- `connection_pool.cc:268-279` pops a connection before releasing it, so a release that raises loses it. After a release
  that does not raise, the node stays in the map without a connection, and the next Stop dereferences it.
- `pg_transaction.cc:232-236`: if creating the inner transaction raises, the lease is never returned. The model
  counts such leases as leaked.
- `pg_transaction.cc:265-274` registers a query before it is prepared. A failed prepare therefore leaves a key that the
  session does not know, and later executions of that query on that connection fail.
- `pg_helper.cc:48-51` applies the sign to the hours only, raises on `Z`, on an offset without minutes and on a fraction
  of a second, and reads one digit of minutes written without a colon.
- `pg_connection.cc:190-206` counts clusters in 16 bits and encodes nothing. `ConnectionUri.EncodeAll` is the other form.
- `connection_pool_config.cc:50-52` returns the minimum as the maximum; the pool never grows, so no maximum appears.
- `connection_pool.h:111` leaves `is_run_` uninitialised; the model starts it as false.
- `pg_server.cc:161-162` sets the callbacks through a member that does not exist yet; the model passes what the callback
  yields to Run.

## What comes from outside

The clock, the outcome of Open, Close and prepare, the keys and modes of created connections, the visiting order of
the hash map, and the waiter that a signal wakes are parameters or choices of a step. The hash is an arbitrary
function. Freshness of keys is a stated premise where it is needed (`PgServer.NewKeys`, `PoolProtocol.Recreates`). A
session admits one open inner transaction and refuses a second.

## Model

| member | source | states |
|---|---|---|
| PoolModel.IdleMeansWholeSeconds | src/storage/src/nvserv/storages/connection.cc:84-93 | with truncating division and nanosecond ticks, idle means that at least one whole second more than a non-negative limit has passed, and correspondingly for a negative one |
| PoolModel.TakeExactly | src/storage/src/nvserv/storages/connection_pool.cc:121-127 | the whole state after a lease, field by field: the front moves to the lease map and its acquired time is set |
| PoolModel.GiveExactly | src/storage/src/nvserv/storages/connection_pool.cc:136-154 | the whole state after a Return, field by field: the key moves to the end of the queue and its returned time is set, or nothing changes |
| PoolModel.TakeKeeps | src/storage/src/nvserv/storages/connection_pool.cc:121-127 | leasing the front keeps queue and lease map disjoint, duplicate-free and jointly complete, and the key was not leased before, so the non-overwriting emplace inserts |
| PoolModel.GiveKeeps | src/storage/src/nvserv/storages/connection_pool.cc:136-154 | a Return, accepted or not, keeps the partition |
| PoolModel.AddAllExtends | src/storage/src/nvserv/storages/connection_pool.cc:166-190 | initialization only appends to the queue and adds new keys to the map; stored entries and leases stay as they are |
| PoolModel.AddAllKeeps | src/storage/src/nvserv/storages/connection_pool.cc:166-190 | the partition holds after initialization even when a key collision or a failed Open cuts it short |
| PoolModel.RunSucceedsExactly | src/storage/src/nvserv/storages/connection_pool.cc:166-190 | initialization succeeds if and only if all created keys are new and distinct and every Open succeeds; each connection is then queued once, in order, and open |
| PoolModel.RunAddsExactly | src/storage/src/nvserv/storages/connection_pool.cc:166-190 | how far a Run gets and what it leaves: the creations in order up to a known key, which is not stored, or a failed Open, which is; each queued once, with the mode, limit, times and session it was created with |
| PoolModel.FirstRun | src/storage/src/nvserv/storages/connection_pool.cc:166-190 | a successful first Run holds as many connections as the configured minimum, one if that is zero, all free, queued in creation order |
| PoolModel.CloseAllExactly | src/storage/src/nvserv/storages/connection_pool.cc:88-93 | the close loop completes if and only if each visited entry is a live connection whose close does not raise; it resets visited entries and touches nothing else |
| PoolModel.CloseStopsExactly | src/storage/src/nvserv/storages/connection_pool.cc:88-93 | the close loop resets the entries it visits up to the first that is null or whose open session cannot be closed, and leaves that one and all others alone; which exception it ends with |
| PoolModel.StopCompletesExactly | src/storage/src/nvserv/storages/connection_pool.cc:70-96 | a Stop completes if and only if no stored entry is null and no close raises; it then restores the initial state, and any further Stop changes nothing |
| PoolModel.NullEntryExactly | src/storage/src/nvserv/storages/connection_pool.cc:88-93 | if no close raises, a Stop of a running pool dereferences a null entry if and only if the owning map has one |
| PoolModel.HaltKeeps | src/storage/src/nvserv/storages/connection_pool.cc:70-96 | after a Stop of a running pool, completed or not, nothing is queued or leased |
| PoolModel.KeptConcat | src/storage/src/nvserv/storages/connection_pool.cc:268-279 | the cleanup filter is stable: it distributes over concatenation |
| PoolModel.SweepKeeps | src/storage/src/nvserv/storages/connection_pool.cc:253-280 | a cleanup leaves leased entries alone, is the identity on a pool without Standby connections, and keeps the partition if and only if no release raises: one that does loses its connection to queue and lease map |
| PoolModel.CleanupDropsExactly | src/storage/src/nvserv/storages/connection_pool.cc:268-279 | a cleanup that no release cuts short drops exactly the queued idle Standby connections, resets their entries and touches nothing else |
| PoolModel.InterruptedExactly | src/storage/src/nvserv/storages/connection_pool.cc:268-279 | a cleanup is cut short by the first queued idle Standby connection whose open session cannot be closed, which leaves the queue; those behind it come first, and those before it were looked at |
| PoolModel.Conservation | src/storage/src/nvserv/storages/connection_pool.cc:98-160 | the number of free connections plus the number of leased ones is the number stored; nothing is free exactly when everything stored is leased |
| ConnectionPools.PgConnection.Acquire | src/storage/src/nvserv/storages/connection.cc:54-57 | sets the acquired time and nothing else |
| ConnectionPools.PgConnection.Returned | src/storage/src/nvserv/storages/connection.cc:60-63 | sets the returned time and nothing else |
| ConnectionPools.PgConnection.Open | src/postgres/src/nvserv/storages/postgres/pg_connection.cc:112-136 | raises on a second Open; otherwise a fresh session, or no session if connecting fails |
| ConnectionPools.PgConnection.Close | src/postgres/src/nvserv/storages/postgres/pg_connection.cc:138-158 | closes an open session, leaves everything else alone, and can raise only on an open session |
| ConnectionPools.PgConnection.Release | src/postgres/src/nvserv/storages/postgres/pg_connection.cc:160-167 | drops the driver and changes nothing else; if the close raises, nothing changes at all |
| ConnectionPools.PgConnection.PrepareStatement | src/postgres/src/nvserv/storages/postgres/pg_connection.cc:96-104 | registers the query with this connection's manager |
| ConnectionPools.ConnectionPool.Acquire | src/storage/src/nvserv/storages/connection_pool.cc:98-127 | waits, gives up or leases exactly as the value model says; on a lease the new state is that of leasing the front, and the returned object is the one in the front node |
| ConnectionPools.ConnectionPool.AcquireAfterWait | src/storage/src/nvserv/storages/connection_pool.cc:111-127 | the tail of Acquire with the negated wait result, including the call of front on an empty queue |
| ConnectionPools.ConnectionPool.Return | src/storage/src/nvserv/storages/connection_pool.cc:130-160 | accepted exactly for a non-null connection whose key is leased; the whole new state of nodes, times, queue and lease map |
| ConnectionPools.ConnectionPool.PingService | src/storage/src/nvserv/storages/connection_pool.cc:233-251 | leaves the queue sequence identical and pings each free connection once, in queue order |
| ConnectionPools.ConnectionPool.CleanupService | src/storage/src/nvserv/storages/connection_pool.cc:253-280 | the queue becomes the stable filter dropping idle Standby connections, whose stored entries are reset, up to the first release that raises; a connection the pool lets go of has given up its session |
| ConnectionPools.ConnectionPool.RunImpl | src/storage/src/nvserv/storages/connection_pool.cc:215-231 | refines the value model's Run on the first creations, as many as the configured minimum and one if that is zero; by so many the queue has grown if it succeeds |
| ConnectionPools.ConnectionPool.InitializePrimaryConnections | src/storage/src/nvserv/storages/connection_pool.cc:166-190 | creates as many connections as the configured minimum, one if that is zero, with its two ways of throwing; by so many the queue has grown if it succeeds |
| ConnectionPools.ConnectionPool.StopImpl | src/storage/src/nvserv/storages/connection_pool.cc:70-96 | refines the value model's Stop for the visiting order the hash map happens to have; an order cut short by an exception goes on to a whole one with the same outcome; when a Stop completes, no connection the pool held is still open |
| ConnectionPools.ConnectionPool.PointsToLive | src/storage/src/nvserv/storages/connection_pool.h:91-104 | every pointer in the queue or the lease map is the node stored under its own key, and that node still owns a connection |
| PoolProtocol.UnblockedExactly | src/storage/src/nvserv/storages/connection_pool.cc:98-251 | a blocked call stays blocked exactly until its deadline, a spurious wake-up, an accepted Return whose signal it gets, a ping of a running pool or a completed Run; its deadline makes it expired and the others signalled |
| PoolProtocol.AwakeExactly | src/storage/src/nvserv/storages/connection_pool.cc:98-127 | a call blocks exactly by entering, or in the corrected form by waking in, an exhausted running pool; it stays signalled until it wakes and expired until it resumes |
| PoolProtocol.LeasesExactly | src/storage/src/nvserv/storages/connection_pool.cc:98-127 | which steps of a call lease the front of the queue, under each waiting policy, and that all others leave the pool alone |
| PoolProtocol.PoolStepsExactly | src/storage/src/nvserv/storages/connection_pool.cc:70-280 | the other steps do to the pool what the operation of their name does |
| PoolProtocol.NothingIsForbidden | src/storage/src/nvserv/storages/connection_pool.cc:98-280 | the step model keeps no caller out: any call may enter, any key may come back, and the other operations may happen at any time |
| PoolProtocol.PingEndsWaits | src/storage/src/nvserv/storages/connection_pool.cc:98-115 | as written, a call that is blocked when a running pool is pinged ends without a lease, whatever has come free by then |
| PoolProtocol.StepKeeps | src/storage/src/nvserv/storages/connection_pool.cc:98-280 | every step of every thread, under either waiting policy, keeps the invariant, and all but an aborted Stop keep the partition |
| PoolProtocol.ReachablePartition | src/storage/src/nvserv/storages/connection_pool.cc:70-190 | lease partition over all interleavings of any number of threads; with only Primary connections and no close that raises, no stored entry is ever null and no Stop aborts |
| PoolProtocol.WaitsOnlyAtExhaustion | src/storage/src/nvserv/storages/connection_pool.cc:98-128 | an entering Acquire waits exactly when the pool runs and everything stored is leased; otherwise it gets a stored connection nobody holds |
| PoolProtocol.Fifo | src/storage/src/nvserv/storages/connection_pool.cc:121-154 | with only Primary connections created and no close that raises, over any run without Stop: leases granted followed by the queue equal the initial queue followed by everything pushed since |
| PoolProtocol.QueuePosition | src/storage/src/nvserv/storages/connection_pool.cc:121-127 | under the same conditions, the connection at queue position k is leased by exactly the (k+1)-th successful Acquire |
| PoolProtocol.FifoWithCleanups | src/storage/src/nvserv/storages/connection_pool.cc:121-154 | with Standby connections, over any run without Stop and without a release that raises: leases granted followed by the queue are, in order, the initial queue and everything pushed since, without exactly what the cleanups dropped |
| PoolProtocol.InterruptedKeepsOrder | src/storage/src/nvserv/storages/connection_pool.cc:268-279 | a cleanup cut short by a release that raises keeps the order of what it looked at and of what it did not reach |
| PoolProtocol.WakeupLostExactly | src/storage/src/nvserv/storages/connection_pool.cc:101-115 | a step loses a wake-up if and only if it takes one of two branches: a signalled call giving up when no other awake call covers the free connections, or a Run that throws before SignalAll |
| PoolProtocol.WakeupLostInRunExactly | src/storage/src/nvserv/storages/connection_pool.cc:101-115 | over all interleavings under either policy, a run passes through a state with a lost wake-up if and only if one of its steps takes one of those two branches |
| PoolProtocol.CorrectedNeverLosesWakeup | src/storage/src/nvserv/storages/connection_pool.cc:98-160 | with the wait in a loop and its result read the right way, over all interleavings with successful Runs, blocked calls never sit beside more free connections than awake calls, and front is never called on an empty queue |
| PoolProtocol.CorrectedMakesProgress | src/storage/src/nvserv/storages/connection_pool.cc:98-127 | in the intended form, over all interleavings with successful Runs: while calls are blocked and a connection is free some call is awake, and whichever awake call takes the mutex leases the front of the queue |
| PoolProtocol.AsWrittenLosesWakeup | src/storage/src/nvserv/storages/connection_pool.cc:101-115 | as written, a six-step trace leaves a call blocked beside a free connection |
| PoolProtocol.EmptyFrontExactly | src/storage/src/nvserv/storages/connection_pool.cc:111-121 | as written, front is called on an empty queue exactly when an expired call resumes in a running pool whose stored connections are all leased; corrected, never |
| PoolProtocol.EmptyFrontReachedExactly | src/storage/src/nvserv/storages/connection_pool.cc:101-121 | over all interleavings, a run calls front on an empty queue if and only if a call whose deadline passed resumes, as written, in a running pool with nothing free; in the corrected form none does |
| PoolProtocol.AsWrittenReadsEmptyFront | src/storage/src/nvserv/storages/connection_pool.cc:111-121 | as written, a legal five-step trace calls front on an empty queue |
| PoolProtocol.StandbyBreaksStop | src/storage/src/nvserv/storages/connection_pool.cc:88-93 | with a Standby connection, a legal three-step trace in which a cleanup leaves a null entry behind and the next Stop dereferences it |
| PoolProtocol.ReturnInertExactly | src/storage/src/nvserv/storages/connection_pool.cc:136-144 | a Return changes nothing if and only if its key is not leased |
| PoolProtocol.StaleReturnIsInert | src/storage/src/nvserv/storages/connection_pool.cc:70-144 | a connection leased before a Stop and returned any time after it changes nothing, whatever runs in between, unless a created connection reuses its key |
| PoolProtocol.QueuedSinceStamp | src/storage/src/nvserv/storages/connection_pool.cc:146-151 | a queued connection has been queued and unleased ever since the step its returned time records: its last Return or its creation |
| PoolProtocol.LeasedSinceStamp | src/storage/src/nvserv/storages/connection_pool.cc:121-127 | a leased connection has been leased ever since the step its acquired time records, which leased it |
| PoolProtocol.CleanupOnlyDropsIdle | src/storage/src/nvserv/storages/connection_pool.cc:268-279 | whatever a cleanup drops has been unleased for more than the configured whole seconds |
| PreparedStatements.GenerateKeyInjective | src/storage/src/nvserv/storages/prepared_statement_manager.cc:98-100 | different hashes give different statement keys |
| Decimal.PrintDigits | src/storage/src/nvserv/storages/prepared_statement_manager.cc:98-100 | the hash in a key is printed in base ten, most significant digit first and without leading zeros |
| PreparedStatements.PreparedStatementManager.Register | src/storage/src/nvserv/storages/prepared_statement_manager.cc:57-82 | refuses exactly texts of whitespace characters; otherwise reports the key, nvql_ and the decimal hash, as known, or inserts it with the query and the time |
| PreparedStatements.PreparedStatementManager.IsKeyExist | src/storage/src/nvserv/storages/prepared_statement_manager.cc:84-87 | membership of the key |
| PreparedStatements.PreparedStatementManager.IsQueryExist | src/storage/src/nvserv/storages/prepared_statement_manager.cc:89-92 | membership of the key generated from the query's hash |
| PreparedStatements.TranslateParams | src/postgres/src/nvserv/storages/postgres/pg_transaction.h:47-86 | one wire value for each parameter, in the same order, of the kind and value of each of the eight supported types; raises exactly if some parameter is a date, a time or a timestamp |
| PreparedStatements.CacheIsFirst | src/postgres/src/nvserv/storages/postgres/pg_transaction.cc:263-277 | after any history each manager and session entry is decided by the first accepted query with its hash, and it is prepared exactly if that one prepare succeeded |
| PreparedStatements.ExecuteRunsFirst | src/postgres/src/nvserv/storages/postgres/pg_transaction.cc:263-277 | what Execute sends after any history: the text of the first accepted query with the same hash, or which failure |
| PreparedStatements.ExecuteCarries | src/postgres/src/nvserv/storages/postgres/pg_transaction.cc:263-277 | whatever Execute runs carries every parameter in its place |
| PreparedStatements.DirectExactly | src/postgres/src/nvserv/storages/postgres/pg_transaction.cc:279-287 | direct execution refuses exactly the empty text and parameters of unsupported types, and otherwise sends the text itself with every parameter in its place |
| PreparedStatements.RefinesDirectExactly | src/postgres/src/nvserv/storages/postgres/pg_transaction.cc:263-287 | Execute sends what ExecuteNonPrepared sends if and only if the first accepted query with that hash is this text and could be prepared |
| PreparedStatements.RefinesDirect | src/postgres/src/nvserv/storages/postgres/pg_transaction.cc:263-287 | with a hash that tells the used queries apart and no failing prepare, prepared and direct execution agree for every non-blank query and argument list |
| PreparedStatements.BlankDiffers | src/postgres/src/nvserv/storages/postgres/pg_transaction.cc:263-287 | blank queries are where the two differ: whitespace is refused by Execute and sent by ExecuteNonPrepared |
| PreparedStatements.AgreeExactly | src/postgres/src/nvserv/storages/postgres/pg_transaction.cc:265-274 | manager and session agree if and only if the first prepare of every hash succeeded; the session's names are always among the manager's |
| PreparedStatements.AgreeWhenAllPrepare | src/postgres/src/nvserv/storages/postgres/pg_transaction.cc:265-274 | if every prepare succeeds the manager's keys are the session's names and the session text of each is the registered query |
| PreparedStatements.NoNameSentTwice | src/postgres/src/nvserv/storages/postgres/pg_transaction.cc:271-274 | no name is sent to be prepared twice, even after a failure |
| PreparedStatements.KnownExactly | src/storage/src/nvserv/storages/prepared_statement_manager.cc:57-92 | a query is reported as known exactly when an accepted query of the history has its hash |
| PgTransactions.LeaseFrom | src/postgres/src/nvserv/storages/postgres/pg_server.cc:199-206 | leases the node at the front of the queue exactly when the pool runs and has one, with the whole new pool state; the leased connection has the driver the pool stores for it |
| PgTransactions.LeaseAfterWait | src/storage/src/nvserv/storages/connection_pool.cc:111-127 | the lease of a call that had to wait, as written: taken exactly if its deadline passed and a running pool has something free, front of an empty queue exactly if it has nothing |
| PgTransactions.CreateTransaction | src/postgres/src/nvserv/storages/postgres/pg_transaction.cc:291-309 | a transaction on the leased connection exactly for the four supported modes, an open session that is not engaged, and a server that lets it begin; a null driver is dereferenced exactly in a supported mode on a connection that was never opened; otherwise it raises |
| PgTransactions.Begin | src/postgres/src/nvserv/storages/postgres/pg_transaction.cc:232-236 | raises without a server, and otherwise refines the server model's Begin on real objects: which of its answers, on which connection object, and the whole new pool state; a refused Begin leaves its connection leased |
| PgTransactions.BeginAfterWait | src/postgres/src/nvserv/storages/postgres/pg_transaction.cc:232-236 | the constructor of a call that had to wait: fails if signalled, and otherwise is the server model's Begin at that moment, except on an exhausted pool |
| PgTransactions.PgTransaction.Finish | src/postgres/src/nvserv/storages/postgres/pg_transaction.cc:243-259 | a Commit or Rollback that the session accepts ends the inner transaction and the engagement of the session; in NonTransaction mode nothing happens |
| PgTransactions.PgTransaction.ExecuteImpl | src/postgres/src/nvserv/storages/postgres/pg_transaction.cc:263-277 | new manager and session contents and the outcome, as the value model of Execute says; parameters in their places, and texts of whitespace refused |
| PgTransactions.PgTransaction.ExecutePooled | src/postgres/src/nvserv/storages/postgres/pg_transaction.cc:263-277 | executing on a connection of the pool takes the whole pool, the manager and the outcome to what the server model's Run says |
| PgTransactions.PgTransaction.ExecuteNonPreparedImpl | src/postgres/src/nvserv/storages/postgres/pg_transaction.cc:279-287 | the text itself with every parameter in its place, or which failure |
| PgTransactions.PgTransaction.ReturnConnectionToThePool | src/postgres/src/nvserv/storages/postgres/pg_server.cc:209-215 | one Return of this connection, and none on a second call; what its session was engaged in at that moment |
| PgTransactions.PgTransaction.Destroy | src/postgres/src/nvserv/storages/postgres/pg_transaction.cc:238-241 | the destructor as written: the connection is given back while its session is still engaged, and then the inner transaction ends |
| PgServer.TransactionsExactly | src/postgres/src/nvserv/storages/postgres/pg_transaction.cc:232-241 | a transaction appears exactly by a Begin in a supported mode on a running pool whose front connection has an open session without an inner transaction, and disappears with the second half of its destruction |
| PgServer.TransactionKeeps | src/postgres/src/nvserv/storages/postgres/pg_transaction.cc:238-260 | what a step changes of a live transaction: key and mode never, its inner transaction by an accepted Commit or Rollback outside NonTransaction mode or by its destruction |
| PgServer.LeakedExactly | src/postgres/src/nvserv/storages/postgres/pg_transaction.cc:232-236 | leases are lost exactly by Begins that lease and do not succeed, and forgotten by a Shutdown of a running pool |
| PgServer.PoolExactly | src/postgres/src/nvserv/storages/postgres/pg_server.cc:193-215 | what each member asks of the pool: a Begin leases the front even if it then fails, and a destruction gives the transaction's own connection back |
| PgServer.ReachableLeases | src/postgres/src/nvserv/storages/postgres/pg_transaction.cc:232-241 | over every run and both destruction orders: each lease is held by one live transaction or leaked, never both, what is held has an open session, and no session has two open inner transactions |
| PgServer.LeaseAccounting | src/postgres/src/nvserv/storages/postgres/pg_server.cc:193-215 | the number of leases is live transactions still holding one plus leaked ones; without leaks the leases are exactly theirs |
| PgServer.EveryFailedBeginLeaks | src/postgres/src/nvserv/storages/postgres/pg_transaction.cc:232-236 | without Shutdown the leaked leases are as many as the Begins that failed after leasing, and they never come back |
| PgServer.InnerFirstNeverQueuesBusy | src/postgres/src/nvserv/storages/postgres/pg_transaction.cc:238-241 | if the inner transaction ended before the return, no two transactions would carry one connection and no queued connection would have an inner transaction open |
| PgServer.InnerFirstNeedsNoGuard | src/postgres/src/nvserv/storages/postgres/pg_transaction.cc:238-241 | in that order the session never has to refuse a second inner transaction: what a Begin comes to is decided by the pool alone |
| PgServer.ReturnFirstBusyExactly | src/postgres/src/nvserv/storages/postgres/pg_transaction.cc:238-241 | as written, a run offers a connection with an open inner transaction if and only if it destroys a transaction that holds a lease and that no Commit or Rollback has closed, or that is in NonTransaction mode |
| PgServer.InnerOpenExactly | src/postgres/src/nvserv/storages/postgres/pg_transaction.cc:243-259 | as written, an inner transaction is open if and only if it is in NonTransaction mode or no Commit or Rollback has closed it |
| PgServer.ReturnFirstLeaksConnection | src/postgres/src/nvserv/storages/postgres/pg_transaction.cc:232-241 | as written, a Begin between the two halves of a destructor is refused by the session and loses the only connection for good |
| PgServer.CacheSurvivesLeases | src/postgres/src/nvserv/storages/postgres/pg_transaction.cc:263-277 | in every reachable state, the statements of a pooled connection's manager and of the session the pool stores with it are the replay of the queries executed on it, through all leases, returns, Runs, cleanups and Shutdowns |
| PgServer.EverySessionOpen | src/postgres/src/nvserv/storages/postgres/pg_server.cc:193-207 | if every Open succeeds, every queued or leased connection has an open session in every reachable state, and no null driver is dereferenced |
| PgServer.LiveTxHasSession | src/postgres/src/nvserv/storages/postgres/pg_transaction.cc:263-277 | a transaction that can execute has its lease, an open session and a manager, whatever Opens failed |
| PgServer.NullDereferencedExactly | src/postgres/src/nvserv/storages/postgres/pg_transaction.cc:291-309 | a run dereferences a null driver if and only if it has a Begin in a supported mode, on a running pool, whose front connection was never opened |
| PgServer.FailedOpenIsDereferenced | src/storage/src/nvserv/storages/connection_pool.cc:176-189 | as written, a connection whose Open failed stays queued, and the next Begin dereferences its null driver |
| PgServer.ExecuteRefinesDirect | src/postgres/src/nvserv/storages/postgres/pg_transaction.cc:263-287 | for a live transaction in any reachable state, Execute on the session the pool stores sends what ExecuteNonPrepared would, and manager and session agree |
| PoolRuns.ServerRunsArePoolRuns | src/postgres/src/nvserv/storages/postgres/pg_server.cc:193-215 | every run of the server is a legal run of the pool protocol with the corrected wait, with the same pool up to prepared statements and the same leases and returns |
| PoolRuns.TransactionsAreFifo | src/postgres/src/nvserv/storages/postgres/pg_server.cc:193-215 | with only Primary connections and no close that raises, over any run without Shutdown: the connections Begins leased, followed by the free ones, are those Connects added and destructors gave back, in order |
| PoolRuns.BeginFailsExactlyAtExhaustion | src/postgres/src/nvserv/storages/postgres/pg_server.cc:199-206 | under the same conditions, a Begin in a running pool gets no connection if and only if every stored connection is held by a live transaction or was lost by a failed Begin |
| ConnectionUri.BuildConnectionString | src/postgres/src/nvserv/storages/postgres/pg_connection.cc:182-213 | the loop with its 16-bit counter builds the text described by the recursive form |
| ConnectionUri.OneClusterText | src/postgres/src/nvserv/storages/postgres/pg_connection.cc:182-213 | the literal URI of one cluster |
| ConnectionUri.NextClusterText | src/postgres/src/nvserv/storages/postgres/pg_connection.cc:192-207 | up to 65536 clusters, each further one adds a comma, its host and its port behind the hosts before it |
| ConnectionUri.WrappedClusterText | src/postgres/src/nvserv/storages/postgres/pg_connection.cc:192-207 | the cluster after the 65536th adds a second prefix right behind the last port, and its own database |
| ConnectionUri.RoundTrip | src/postgres/src/nvserv/storages/postgres/pg_connection.cc:182-213 | for 1 to 65536 clusters with clean fields, reading the URI, percent-decoding included, gives the first cluster's user, password and database and all hosts and ports in order |
| ConnectionUri.ReadsDecoded | src/postgres/src/nvserv/storages/postgres/pg_connection.cc:182-213 | without delimiters in the fields, reading gives each field percent-decoded; a host that decodes to one with a comma is not read as one host |
| ConnectionUri.WrappedIsUnreadable | src/postgres/src/nvserv/storages/postgres/pg_connection.cc:190-207 | beyond 65536 clusters the counter wraps, the prefix is written again, and the URI reads as nothing |
| ConnectionUri.RoundTripForces | src/postgres/src/nvserv/storages/postgres/pg_connection.cc:192-213 | a list that reads back as it was meant has at most 65536 clusters and no delimiter or percent sign in any field |
| ConnectionUri.RoundTripExactly | src/postgres/src/nvserv/storages/postgres/pg_connection.cc:182-213 | the round trip holds if and only if there are at most 65536 clusters and no field contains one of the delimiters listed for it or a percent sign |
| ConnectionUri.EncodedRoundTrip | src/postgres/src/nvserv/storages/postgres/pg_connection.cc:182-213 | had the builder percent-encoded its fields, a list of up to 65536 clusters would read back, whatever its fields contain, if and only if no host contains a comma |
| Timestamps.NextDayCounts | src/postgres/src/nvserv/storages/postgres/pg_helper.cc:54-54 | the day number that specifies mktime grows by one from each date to the next, through month ends, leap days and year ends |
| Timestamps.EpochDayCounts | src/postgres/src/nvserv/storages/postgres/pg_helper.cc:54-54 | the date n days after the epoch has day number n |
| Timestamps.CalendarExactly | src/postgres/src/nvserv/storages/postgres/pg_helper.cc:54-54 | the valid dates, in numbers: month lengths and leap years; and the next day of each |
| Timestamps.NextSecondParses | src/postgres/src/nvserv/storages/postgres/pg_helper.cc:29-36 | the text of the next second, carried over minute, hour, day, month and year, parses to one second more |
| Timestamps.NextSecondParsesz | src/postgres/src/nvserv/storages/postgres/pg_helper.cc:39-56 | the same with any offset that can be read behind both |
| Timestamps.TextParsesExactly | src/postgres/src/nvserv/storages/postgres/pg_helper.cc:31-34 | a text with all digits written parses if and only if month, day, hour, minute and second are in their ranges, 60 seconds included |
| Timestamps.KnownInstants | src/postgres/src/nvserv/storages/postgres/pg_helper.cc:29-36 | the epoch parses to zero, and an instant whose fields all differ to its number of seconds |
| Timestamps.KnownInstantsz | src/postgres/src/nvserv/storages/postgres/pg_helper.cc:39-56 | the same two with any written offset behind them |
| Timestamps.ParseTimestampz | src/postgres/src/nvserv/storages/postgres/pg_helper.cc:39-56 | the method's outcome, exceptions included, as the value model says |
| Timestamps.GetTimeOfRender | src/postgres/src/nvserv/storages/postgres/pg_helper.cc:41-46 | reading a rendered local time gives its fields and stops right behind it |
| Timestamps.OffsetArithmetic | src/postgres/src/nvserv/storages/postgres/pg_helper.cc:47-52 | for every local time and written offset: right exactly when the sign is plus or the minutes are zero, otherwise early by twice the minutes |
| Timestamps.ShortOffsetRaises | src/postgres/src/nvserv/storages/postgres/pg_helper.cc:48-49 | an offset of whole hours written without minutes always raises |
| Timestamps.FractionRaises | src/postgres/src/nvserv/storages/postgres/pg_helper.cc:45-48 | a time with a fraction of a second always raises, whatever offset follows |
| Timestamps.WrittenReads | src/postgres/src/nvserv/storages/postgres/pg_helper.cc:45-52 | what a time comes to with or without a fraction and with each of nine written forms of an offset: without a colon, or with one digit of hours, only the last digit of the minutes is read, and seconds never are |
| Timestamps.SpacedReads | src/postgres/src/nvserv/storages/postgres/pg_helper.cc:45-47 | whitespace before an offset, and anything behind whitespace after it, makes no difference |
| Timestamps.ParsesExactly | src/postgres/src/nvserv/storages/postgres/pg_helper.cc:45-52 | such a text parses if and only if it has no fraction and its offset is absent or has its minutes written, and gives the time meant if and only if, further, the offset has no seconds, and its minutes are zero, or the sign is plus and they are where they are looked for or below ten |
| Timestamps.ParseTimestamp | src/postgres/src/nvserv/storages/postgres/pg_helper.cc:29-36 | the method's outcome, as the value model says |
| Timestamps.ParsersAgreeExactly | src/postgres/src/nvserv/storages/postgres/pg_helper.cc:29-56 | ParseTimestamp gives the local time whatever follows it, and ParseTimestampz agrees with it if and only if the text parses and its offset comes to nothing |
| Timestamps.InstantReads | src/postgres/src/nvserv/storages/postgres/pg_helper.cc:39-56 | an instant rendered at any offset reads back as itself minus twice the minutes of a negative offset |
| Timestamps.InstantRoundTrip | src/postgres/src/nvserv/storages/postgres/pg_helper.cc:39-56 | an instant rendered at an offset reads back as itself if and only if the offset is not negative or whole hours |
| Timestamps.RenderingsAgree | src/postgres/src/nvserv/storages/postgres/pg_helper.cc:39-56 | two renderings of one instant with offsets that are not negative parse equal |
| Cursors.RowIterator.Increment | src/postgres/src/nvserv/storages/postgres/pg_row_result_iterator.cc:29-32 | moves one row on |
| Cursors.RowIterator.Dereference | src/postgres/src/nvserv/storages/postgres/pg_row_result_iterator.cc:44-47 | the row at the index, or an exception outside the result |
| Cursors.ExecutionResult.At | src/postgres/src/nvserv/storages/postgres/pg_execution_result.cc:40-47 | the row at the offset, or an exception outside the result |
| Cursors.Enumerate | src/storage/src/nvserv/storages/execution_result.cc:40-59 | the range loop ends, never raises, and visits every row once in order |

## Left out

- PgServer.BeginOn: leasing and opening the inner transaction are one step.
- PgTransactions.Begin: a call that has to wait is reported as blocked and goes on in BeginAfterWait; what other threads do in between is in the step models only.
- ConnectionUri.Read: bracketed IPv6 hosts, and parameters other than the two the builder writes, are not part of the reader.
- Timestamps.ParseTimestampz and Timestamps.GetTime: only dates and times with all 19 characters written out; on other texts the library leaves a partly filled structure.
- Timestamps.MkTime: mktime is specified in UTC; the process time zone and its daylight rules are not modelled.
- PreparedStatements.Execute: the server's own reaction to a statement is not modelled, nor is executing on a connection that a Shutdown has closed.
- The event loop that fires Ping and Cleanup: they are steps that may happen at any time, and its Stop is not modelled.
- The methods of the class are whole critical sections; waiting and interleaving are in the step model only.
- PgSubTransaction, which nothing constructs.
- PgTransactions.PgTransaction.Finish: results of the driver's commit and abort beyond whether the session lets go of the inner transaction.
- Typed row access, Mapper, getters, configuration classes, component constructors and console output.
