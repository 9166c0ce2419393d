# MiniOJ backend: verified model

A Dafny 4.11 model of the stateful kernel of the MiniOJ judge backend, with proofs about every run of it.
`dafny verify dfyconfig.toml` checks the whole project.

| file | models | in the form of |
|---|---|---|
| `WorkerPool.dfy` | the judge's task queue, its condition variable and its drain on shutdown | interleaved steps of workers, submitters and shutdown callers, and a class whose methods are the critical sections |
| `ConnectionPool.dfy` | connections, leases and their moves, health replacement, waiting, shutdown | interleaved steps of threads and lease objects, and a class |
| `RateLimiter.dfy` | one token bucket per key, refilled lazily | histories of timed checks over `real`, and a class |
| `ProblemBank.dfy` | four tables with keys, cascades, counters and transactions, against a map from id to problem | table operations that may fail at every statement |
| `ProblemQueries.dfy` | full problems and filtered listings | the joins, against a plain filter |
| `SeedLoader.dfy` | clearing and reloading the bank, and whole histories of the bank | folds over statements and operations |
| `ProblemDao.dfy` | the loops and transactions that issue the statements | a class whose methods are proved equal to the functions above |
| `Judge.dfy` | output comparison, run classification, the judging loop | loops proved against what was measured |
| `SessionCookie.dfy` | the cookie printer and the hand-written cookie scanner | loops proved against the `;`-separated segments |
| `Accounts.dfy` | register, login, logout, "me" and the admin check | request histories over users and sessions, and a class |
| `Counting.dfy`, `Wrappers.dfy` | occurrences in a sequence; `Option` and `Result` | helpers |

## How the main results fit together

**Protocols.** An event of `WorkerPools` or `ConnectionPools` is one critical section or one action outside the
mutex, such as the gap between unlocking and notifying. A run is any sequence of enabled events for any number of
workers, threads and lease objects. `RunInv` carries the invariant to every reachable state; the theorems on wake-ups,
draining, ownership and timeouts are read off it. Each class method is one critical section, proved to take the
abstract state from `s` to `Next(s, e)`, so what holds of runs holds of the objects. A worker that finds no work goes
to sleep or leaves, and which sleeper a `notify_one` wakes is arbitrary.

**Rate limiter.** `AvailableIsLeastBudget` characterises the tokens on hand as a minimum over all earlier checks, with
the clock's total forward movement in place of elapsed time. Exact conformance and the window bound follow from it for
readings in any order; for readings in order, forward movement is elapsed time.

**Problem bank.** `Bank` reads the four tables as a map from id to problem. Tag names count up to the database's
collation, given as an arbitrary sort key. Every statement is answered by an arbitrary server, so the refinement
theorems cover every pattern of failures: an operation either does to the map what it says or leaves every row alone,
and it goes through exactly when the schema accepts the input and none of its statements meets a fault.
`HistoryRefines` carries this over whole histories, resets cut short by the server included.

**Sessions.** `SessionLifetime` relates what a session id resolves to, after any history of requests with any faults,
to the request that issued it. `CookieNamesUser` joins it to the cookie round trip.

## Where the code does less than one might expect

* A clock reading is taken before the lock, and `last` is set even when it moves backwards, so time can be refilled
  twice (`BackwardReadingRefillsAgain`). Elapsed time bounds every window exactly for readings in order
  (`ElapsedBoundsIff`); for any order the exact law counts forward movement (`Conformance`, `WindowBound`).
* The advertised retry-after is kept exactly if the capacity is not 0 (`RetryAfterIsLeast`, `ZeroCapacityNeverAllows`).
* Only the first `shutdown()` of the worker pool waits (`LateShutdownDoesNotWait`, with a run in `LateShutdownWitness`).
* A failed reconnect takes a connection away for good (`CapacityOnlyShrinks`). An open pool can still serve an acquire
  exactly while some connection is neither lost nor held by a thread whose failed reconnect is unwinding (`ServesIff`);
  `ExhaustionWitness` is a run after which nobody is ever served again.
* The memory figure of a run is the largest of all children waited for so far, because it comes from
  `getrusage(RUSAGE_CHILDREN)`: a child of an earlier submission, or of another judge worker meanwhile, decides about
  this one (`OtherChildrenDecide`, with a case in `OtherWorkerWitness`).
  The figure is cut to 32 bits of MiB, and compared correctly exactly below that (`ComparedCorrectlyIff`).
* A logout answers 200 even when the delete failed and the session lives on (`LogoutEndsSessionIff`).
* An update of a problem deleted after the existence check rolls back, unless it carries no tag and no test case; then
  it reports success (`UpdateOfVanished`). Only a direct caller of `updateProblem` can send such an input: over HTTP an
  empty `testcases` is refused (`backend/src/http/admin_request.cpp:132`).
* A clear broken off after emptying `testcases` leaves problems without test cases (`BrokenOffClear`).
* Comments in `worker_pool.cpp` speak of rejecting pending tasks; no code path does, and the model follows the code.

## Model

| member | source | states |
|---|---|---|
| `WorkerPools.RunInv` | backend/src/judge/worker_pool.cpp:79-99 | In every state of every run: FIFO order, each started task running or resolved exactly once, sleepers covered by owed notifications and awake workers, `notify_all` owed while anyone sleeps under `stopping_`, nobody exited while work is queued; `stopping_` is never reset and no accepted task withdrawn |
| `WorkerPools.StepInv` | backend/src/judge/worker_pool.cpp:51-99 | Each single step of a worker, submitter or shutdown caller keeps that invariant |
| `WorkerPools.StepWakeups` | backend/src/judge/worker_pool.hpp:44-53 | No lost wake-up: each step keeps queued tasks at most pending `notify_one` calls plus awake workers while somebody sleeps |
| `WorkerPools.FifoExactlyOnce` | backend/src/judge/worker_pool.hpp:39-55 | In every run started tasks followed by the queue are the accepted tasks, and each future is set at most once, with its own task |
| `WorkerPools.EverySubmissionIsTaken` | backend/src/judge/worker_pool.hpp:44-53 | In every run the accepted tasks are, in order, exactly those submitted before the first `shutdown()`, and a resolved task carries the outcome its own submission gave |
| `WorkerPools.ShutdownResolvesAllOffered` | backend/src/judge/worker_pool.cpp:51-68 | When the first `shutdown()` has returned, each task submitted before it has been resolved exactly once, with its own outcome |
| `WorkerPools.OnlyIdleWorkersLeave` | backend/src/judge/worker_pool.cpp:91-97 | No event but a stopping worker's test of an empty queue reduces the live workers; a throwing task does not |
| `WorkerPools.StepDecreases` | backend/src/judge/worker_pool.cpp:79-99 | Every step of the pool itself strictly decreases a measure over queue, owed notifications and worker phases |
| `WorkerPools.StoppingRunsAreBounded` | backend/src/judge/worker_pool.cpp:51-68 | Once `stopping_` is set, every run makes at most that many steps and accepts no task |
| `WorkerPools.QuietRunsAreBounded` | backend/src/judge/worker_pool.cpp:79-99 | A run that consists of the pool's internal steps alone has at most that many |
| `WorkerPools.RunsAreBounded` | backend/src/judge/worker_pool.cpp:51-99 | In every run at all the pool takes at most that many steps, plus four for each submission, one for each spurious wake-up, and a number fixed by the workers for the first shutdown |
| `WorkerPools.RestMeansDone` | backend/src/judge/worker_pool.cpp:79-99 | Wherever no step is possible, the queue is empty, every accepted task has been resolved exactly once, and the workers all sleep, or have all exited after shutdown |
| `WorkerPools.QueuedWorkIsNeverStuck` | backend/src/judge/worker_pool.hpp:44-53 | In every reachable state a non-empty queue leaves some step of the pool enabled |
| `WorkerPools.RunsToRest` | backend/src/judge/worker_pool.cpp:79-99 | From every reachable state the pool can come to rest by its own steps alone |
| `WorkerPools.IdleMeansDrained` | backend/src/judge/worker_pool.cpp:79-99 | All accepted work is done exactly when the queue is empty and no worker is running a task |
| `WorkerPools.ShutdownDrains` | backend/src/judge/worker_pool.cpp:51-68 | When the first `shutdown()` returns, all workers have exited and every accepted task has run, in every run |
| `WorkerPools.LateShutdownDoesNotWait` | backend/src/judge/worker_pool.cpp:52-56 | A later call changes nothing, and finds the pool drained exactly when it already was |
| `WorkerPools.LateShutdownWitness` | backend/src/judge/worker_pool.cpp:52-56 | A run in which a later call returns with an accepted task still queued |
| `WorkerPools.WorkerPool.constructor` | backend/src/judge/worker_pool.cpp:37-45 | All workers start awake on an empty, open pool |
| `WorkerPools.WorkerPool.Create` | backend/src/judge/worker_pool.cpp:37-45 | Zero workers is an error, any other count is not |
| `WorkerPools.WorkerPool.Submit` | backend/src/judge/worker_pool.hpp:39-55 | Rejects exactly when stopping; otherwise the task goes to the end of the queue and the ticket is its place in acceptance order; takes the protocol's submit step |
| `WorkerPools.WorkerPool.NotifyOne` | backend/src/judge/worker_pool.hpp:53 | Takes the protocol's notify step, waking a sleeper if there is one |
| `WorkerPools.WorkerPool.TakeTask` | backend/src/judge/worker_pool.cpp:80-90 | Takes the protocol's test step and hands out the oldest task |
| `WorkerPools.WorkerPool.FinishTask` | backend/src/judge/worker_pool.cpp:91-97 | The task's future is set whether it returned or threw, and the worker goes on |
| `WorkerPools.WorkerPool.BeginShutdown` | backend/src/judge/worker_pool.cpp:51-58 | True for exactly the caller that set `stopping_` |
| `WorkerPools.WorkerPool.NotifyAll` | backend/src/judge/worker_pool.cpp:62 | Wakes every sleeper and nobody else |
| `ConnectionPools.RunInv` | backend/src/db/pool.cpp:155-201 | In every state of every run each handle ever created is in exactly one place, `in_use` is live leases plus acquisitions in flight, and sleepers are covered |
| `ConnectionPools.StepOwned` | backend/src/db/pool.cpp:58-125 | Each step, moves and replacements included, keeps every handle in exactly one of idle, a lease, a health check, closed |
| `ConnectionPools.StepCounted` | backend/src/db/pool.cpp:67-78 | Each step keeps `in_use` exact, idle + `in_use` = pool size − failed reconnects while open, and idle empty once stopping |
| `ConnectionPools.StepWaiting` | backend/src/db/pool.cpp:163-186 | Each step keeps: while somebody sleeps, idle connections are at most the waiters already woken |
| `ConnectionPools.StepInv` | backend/src/db/pool.cpp:155-201 | Each step of a thread, a lease or shutdown keeps all three |
| `ConnectionPools.DecrementsNeverUnderflow` | backend/src/db/pool.cpp:180-183 | Whoever decrements `in_use` finds it positive, in both places |
| `ConnectionPools.UniqueOwnership` | backend/src/db/pool.cpp:81-125 | A connection is in at most one lease, never leased while idle, being checked or closed, never handed out after being closed, and closed at most once |
| `ConnectionPools.LeaseEvents` | backend/src/db/pool.cpp:81-125 | A new lease holds the connection its acquire took or a handle never seen before; a move carries the connection over, empties the source and gives up what the target held; a release empties the lease; no other lease changes |
| `ConnectionPools.IdleIsFifo` | backend/src/db/pool.cpp:67-78 | Over any run of an open pool connections are handed out in the order in which they became idle |
| `ConnectionPools.TeardownClosesEverything` | backend/src/db/pool.cpp:145-149 | With the pool shut down and all leases gone, every handle ever created has been closed exactly once |
| `ConnectionPools.ShutdownIsForever` | backend/src/db/pool.cpp:189-201 | After shutdown nothing is ever idle again |
| `ConnectionPools.TimeoutMeansAllInUse` | backend/src/db/pool.cpp:163-169 | An acquire that gives up with a timeout does so when every surviving connection is in use |
| `ConnectionPools.RulingIff` | backend/src/db/pool.cpp:161-176 | An acquire is served if and only if the pool is open with a surviving connection not in use, times out if and only if its wait expired with all of them in use, and never sleeps again once expired |
| `ConnectionPools.SleepersAreCovered` | backend/src/db/pool.cpp:67-78 | If somebody sleeps next to an idle connection, some woken thread's next step takes one |
| `ConnectionPools.CapacityOnlyShrinks` | backend/src/db/pool.cpp:178-185 | Over any run, connections lost to failed reconnects never come back |
| `ConnectionPools.ServesIff` | backend/src/db/pool.cpp:155-187 | From an open reachable pool with a thread and a lease some run serves an acquire if and only if failed reconnects, counted or still unwinding, do not make up the whole pool |
| `ConnectionPools.ExhaustedPoolServesNobody` | backend/src/db/pool.cpp:178-185 | With all connections lost, or the last of them held by unwinding threads, no acquire of any later run is served |
| `ConnectionPools.ExhaustionWitness` | backend/src/db/pool.cpp:178-185 | A legal run from a fresh pool of one connection after which the pool is open and nobody can be served |
| `ConnectionPools.FreshInv` | backend/src/db/pool.cpp:127-143 | A newly constructed pool satisfies the invariant, whatever its size |
| `ConnectionPools.Construct` | backend/src/db/pool.cpp:127-143 | Succeeds exactly when every connection attempt does; otherwise every handle created is closed exactly once |
| `ConnectionPools.ConnectionPool.constructor` | backend/src/db/pool.cpp:127-143 | The object starts as that pool |
| `ConnectionPools.ConnectionPool.Return` | backend/src/db/pool.cpp:67-78 | Takes the protocol's give-back: closed when stopping, otherwise idle with one waiter woken |
| `ConnectionPools.ConnectionPool.Drop` | backend/src/db/pool.cpp:119-125 | Gives the connection back if there is one; the lease ends empty |
| `ConnectionPools.ConnectionPool.Release` | backend/src/db/pool.cpp:84-86 | The destructor takes the release step and keeps the invariant |
| `ConnectionPools.ConnectionPool.MoveAssign` | backend/src/db/pool.cpp:91-98 | Move assignment, self-move included, takes its step and keeps the invariant |
| `ConnectionPools.ConnectionPool.Acquire` | backend/src/db/pool.cpp:161-176 | The locked part takes its step and rules take, sleep, time out or shut down as the rulings are characterised |
| `ConnectionPools.ConnectionPool.Shutdown` | backend/src/db/pool.cpp:189-201 | The loop closes exactly the idle connections in order and wakes everybody |
| `RateLimiting.TokensStayInBounds` | backend/src/http/rate_limiter.cpp:26-37 | Tokens stay in [0, capacity] over any history, even with readings out of order |
| `RateLimiting.AvailableIsLeastBudget` | backend/src/http/rate_limiter.cpp:14-37 | For readings in any order the tokens on hand are the least, over all earlier-or-equal checks, of capacity plus refill for the forward movement since minus allowed since |
| `RateLimiting.RemainingIsLeastBudget` | backend/src/http/rate_limiter.cpp:35-42 | The remainder a check reports, with the token it granted, is that least budget |
| `RateLimiting.Conformance` | backend/src/http/rate_limiter.cpp:13-43 | For readings in any order a check is allowed exactly when, for every earlier-or-equal check i, allowed since i plus one ≤ capacity + rate·(forward movement since i) |
| `RateLimiting.ElapsedConformance` | backend/src/http/rate_limiter.cpp:13-43 | With readings in order: exactly when, for every i, allowed since i plus one ≤ capacity + rate·(t − tᵢ) |
| `RateLimiting.ExactConformance` | backend/src/http/rate_limiter.cpp:13-48 | Both laws for one key, in any interleaving of keys and resets; the first for readings in any order |
| `RateLimiting.KeysAreIndependent` | backend/src/http/rate_limiter.cpp:17-24 | A key's bucket depends only on that key's checks since the last reset |
| `RateLimiting.WindowBound` | backend/src/http/rate_limiter.cpp:14-37 | Over any window, readings in any order: allowed checks ≤ capacity + rate·Σ forward movement; with ordered readings that is capacity + rate·T |
| `RateLimiting.BackwardReadingRefillsAgain` | backend/src/http/rate_limiter.cpp:27-33 | A history that allows twice the capacity between two equal readings |
| `RateLimiting.ElapsedBoundsIff` | backend/src/http/rate_limiter.cpp:14-33 | Elapsed time covers the allowed checks of every window, under every configuration, if and only if the readings are in order |
| `RateLimiting.DeniedChecksAreInvisible` | backend/src/http/rate_limiter.cpp:26-42 | Deleting any set of denied checks from an ordered history changes no other decision, past or future |
| `RateLimiting.RetryAfterIsLeast` | backend/src/http/rate_limiter.cpp:40-42 | After any denied check the next one is allowed s whole seconds later if and only if the capacity is at least 1 and s is at least the retry-after, which is at least 1 |
| `RateLimiting.RetryAfterRefills` | backend/src/http/rate_limiter.cpp:40-42 | The retry-after is the least s ≥ 1 with remaining + s·rate ≥ 1 |
| `RateLimiting.ZeroCapacityNeverAllows` | backend/src/http/rate_limiter.cpp:35-42 | With capacity 0 no check of any history is allowed |
| `RateLimiting.RateLimiter.constructor` | backend/src/http/rate_limiter.cpp:10-11 | Starts with no bucket |
| `RateLimiting.RateLimiter.Check` | backend/src/http/rate_limiter.cpp:13-43 | New buckets and decision are those of the history functions the theorems are about |
| `RateLimiting.RateLimiter.Reset` | backend/src/http/rate_limiter.cpp:45-48 | Forgets every bucket |
| `OutputDiff.TrimTrailingWhitespace` | backend/src/judge/diff.cpp:11-22 | A prefix, followed only by whitespace, not ending in whitespace |
| `OutputDiff.TrimIsUnique` | backend/src/judge/diff.cpp:11-22 | There is only one such prefix |
| `OutputDiff.OutputsMatch` | backend/src/judge/diff.cpp:26-28 | True exactly when the texts agree up to a point after which both are only whitespace |
| `Runner.RoundingIsExact` | backend/src/judge/runner.cpp:70-75 | For whole-MiB limits rounding up to MiB never changes the comparison, as long as the figure fits 32 bits of MiB |
| `Runner.ComparedCorrectlyIff` | backend/src/judge/runner.cpp:181 | A figure is compared correctly with every 32-bit limit if and only if it is at most 2^32 − 1 MiB |
| `Pipeline.CaseVerdicts` | backend/src/judge/runner.cpp:176-209 | Each of the verdicts AC, TLE, MLE, WA and RE of a case holds exactly under its condition on what was measured |
| `Pipeline.ReportedFigures` | backend/src/judge/runner.cpp:164-174 | The reported times are the measured ones and the memories the measured ones rounded up to MiB, case by case; the submission's are the largest over the reported runs; a case that is WA carries the expected text and the output, no other carries any |
| `Pipeline.BuildPipelineInput` | backend/src/http/handlers_public.cpp:106-121 | Test cases in their order, limit in whole MiB |
| `Pipeline.RunCase` | backend/src/judge/pipeline.cpp:79-106 | The reported case is the one its measurement determines |
| `Pipeline.JudgeCases` | backend/src/judge/pipeline.cpp:75-121 | Reports the prefix up to the first case that is not AC, indices 1..k, that case's verdict, maxima of time and memory over it; RE when there is no case |
| `Pipeline.RunPipeline` | backend/src/judge/pipeline.cpp:49-125 | The same behind compilation: CE when it fails, RE without a work directory |
| `Pipeline.ReportIsDetermined` | backend/src/judge/pipeline.cpp:49-125 | That description admits one report only |
| `Pipeline.AcceptedCutIff` | backend/src/judge/pipeline.cpp:49-121 | For any figures: AC exactly when it compiled, there is a case, and every case exited 0 in time with the expected output and a figure that, rounded up to MiB and cut to 32 bits, is within the limit |
| `Pipeline.AcceptedIff` | backend/src/judge/pipeline.cpp:49-121 | AC exactly when it compiled, there is a case, and every case exited 0 in time, within the limit in KiB, with the expected output up to trailing whitespace |
| `Pipeline.FirstFailureDecides` | backend/src/judge/pipeline.cpp:108-114 | Otherwise the verdict is that of the first case not accepted, and nothing after it is reported |
| `Pipeline.OtherChildrenDecide` | backend/src/judge/runner.cpp:164-168 | A submission whose own runs are all right is AC if and only if, at each of its figures, no other child of the server waited for so far exceeded the limit; MLE otherwise |
| `Pipeline.OtherWorkerWitness` | backend/src/judge/runner.cpp:164-168 | A submission of right runs judged MLE because of another worker's child between its two cases |
| `SessionCookies.EqualsIgnoreCase` | backend/src/http/middleware.cpp:16-28 | Equal length and, position by position, the same letter in either case |
| `SessionCookies.SameLetterIff` | backend/src/http/middleware.cpp:21-23 | Characters agree in lower case exactly if they are equal or an upper-case letter and its lower-case form |
| `SessionCookies.TrimKey` | backend/src/http/middleware.cpp:54-61 | The two loops remove a prefix and a suffix of blanks only, and what is left begins and ends with a non-blank |
| `SessionCookies.TrimIff` | backend/src/http/middleware.cpp:54-61 | There is exactly one way to cut the blanks off both ends |
| `SessionCookies.SkipBlanks` | backend/src/http/middleware.cpp:38-43 | Stops at the first position that is no blank |
| `SessionCookies.ReadPair` | backend/src/http/middleware.cpp:51-65 | The value of a pair whose trimmed key matches without case |
| `SessionCookies.ReadCookieValue` | backend/src/http/middleware.cpp:34-70 | The index-scanning loop terminates and computes the cookie value |
| `SessionCookies.CookieValueIsFirstMatch` | backend/src/http/middleware.cpp:34-70 | That value is the one of the first `;`-separated segment whose trimmed key matches case-insensitively |
| `SessionCookies.LookupIff` | backend/src/http/middleware.cpp:51-65 | A segment gives a value exactly if it is a name, an equals sign and the value, the name without blanks at its ends being the given one up to case |
| `SessionCookies.ParseSessionId` | backend/src/http/middleware.cpp:85-106 | The value of that segment if it has the shape of a session id |
| `SessionCookies.IsSessionIdShape` | backend/src/auth/session.cpp:60-70 | Exactly the strings of 64 hexadecimal digits |
| `SessionCookies.RandomHex` | backend/src/auth/session.cpp:17-45 | Fails exactly outside 1 to 32 bytes, otherwise writes each byte |
| `SessionCookies.HexEncodes` | backend/src/auth/session.cpp:39-44 | Two digits per byte that give the byte back; 32 bytes make a session id |
| `SessionCookies.HexIsLowerCase` | backend/src/auth/session.cpp:39-44 | The digits are lower-case |
| `SessionCookies.HexIsInjective` | backend/src/auth/session.cpp:39-44 | Different bytes have different writings |
| `SessionCookies.AppendFlag` | backend/src/auth/session.cpp:47-52 | Appends one more segment to the header |
| `SessionCookies.DecimalReadsBack` | backend/src/auth/session.cpp:83-86 | The digits of Max-Age read back as the number |
| `SessionCookies.FormatSessionCookie` | backend/src/auth/session.cpp:72-91 | The header is `minioj_sid=` and the id followed by the fixed attributes, Max-Age with digits that read as the ttl if that is positive, and Secure if asked; it splits into these segments |
| `SessionCookies.FormatClearSessionCookie` | backend/src/auth/session.cpp:93-106 | The header is `minioj_sid=` followed by the fixed attributes, Max-Age with digits that read as 0, and Secure if asked; it splits into these segments |
| `SessionCookies.JoinedValue` | backend/src/http/middleware.cpp:34-70 | From pairs joined as section 4.2.1 of RFC 6265 writes them, the reader gets the first pair with the name |
| `SessionCookies.CookieRoundTrip` | backend/src/auth/session.cpp:72-91 | A printed cookie's id comes back from any cookie-string that carries its pair before any other of that name |
| `SessionCookies.SessionIdIff` | backend/src/http/middleware.cpp:97-106 | A cookie-string carries an id exactly when its first pair of that name has it for value and it has the shape |
| `SessionCookies.ClearedCookieIsNoSession` | backend/src/auth/session.cpp:93-106 | The clearing cookie, sent back, is no session |
| `Accounts.HistoryInv` | backend/sql/schema.sql:59-81 | Over every history user names stay unique up to the collation and sessions belong to users |
| `Accounts.StepSessions` | backend/src/db/user_dao.cpp:166-250 | A request opens only an id not in use, deletes only the id it logs out, and leaves every other session as it was |
| `Accounts.LiveIsStored` | backend/src/db/user_dao.cpp:166-193 | A session issued and not logged out since is stored with its user and expiry |
| `Accounts.StoredIsLive` | backend/src/db/user_dao.cpp:166-250 | A stored session was issued by some request of the history and not logged out since |
| `Accounts.SessionLifetime` | backend/src/db/user_dao.cpp:195-231 | An id resolves to a user at time t exactly when a register or login issued it for that user, no logout deleted it since, and ⌊issue + ttl⌋ > ⌊t⌋ |
| `Accounts.LoginIff` | backend/src/http/handlers_auth.cpp:127-175 | Every answer to a login, faults included: 400 exactly for an empty field, 401 exactly for no user with that name and password, 500 exactly for a failing statement or a used id, otherwise a session of that user |
| `Accounts.RegisterIff` | backend/src/http/handlers_auth.cpp:77-125 | Every answer to a registration, faults included: 409 exactly for a taken name that was tried, 500 exactly for a failure on its way, otherwise a session of a new user; the account is stored even if its session is not |
| `Accounts.SessionsNeedCredentials` | backend/src/http/handlers_auth.cpp:77-175 | In every history each session was issued for the right password or by the registration that made the user |
| `Accounts.RegisteredCanLogIn` | backend/src/http/handlers_auth.cpp:77-175 | After any later history a registered user can log in with a password the stored hash verifies |
| `Accounts.AccountsAreFixed` | backend/src/db/user_dao.cpp:142-164 | No auth request changes an existing account; every account added has role user |
| `Accounts.AdminGate` | backend/src/http/admin_auth.cpp:30-62 | An admin route is passed exactly for a live session of a user who was admin at the start; 403 and 401 are decided exactly as well |
| `Accounts.RouteIff` | backend/src/http/admin_auth.cpp:16-62 | Over every history and for every path: passed outside /api/admin/; inside if and only if the cookie carries the id of a live session of a user who was an admin at the start; 401, 403 and 500 exactly as well |
| `Accounts.MeIff` | backend/src/http/handlers_auth.cpp:53-75 | Over every history "me" answers 200 as a user if and only if the cookie carries the id of a live session of that user and nothing fails, 500 exactly for a fault on an id, 401 otherwise |
| `Accounts.CookieNamesUser` | backend/src/http/handlers_auth.cpp:53-75 | The cookie printed at register or login, sent back among other cookies, names that user exactly until it expires |
| `Accounts.AuthService.LookUp` | backend/src/db/user_dao.cpp:81-110 | Finds the user with that name up to the collation, if there is one |
| `Accounts.AuthService.CreateSession` | backend/src/db/user_dao.cpp:166-193 | Stores the session with its expiry cut to whole seconds; a stored id is refused |
| `Accounts.AuthService.RegisterUser` | backend/src/http/handlers_auth.cpp:77-125 | State and reply are those of the history function, and the invariant is kept |
| `Accounts.AuthService.LogIn` | backend/src/http/handlers_auth.cpp:127-175 | State and reply are those of the history function, and the invariant is kept |
| `Accounts.AuthService.LogOut` | backend/src/http/handlers_auth.cpp:177-193 | State and reply are those of the history function, and the invariant is kept |
| `Accounts.AuthService.WhoAmI` | backend/src/http/handlers_auth.cpp:53-75 | The reply is that of the history function, and no state changes |
| `Accounts.AuthService.CheckAdminAuth` | backend/src/http/admin_auth.cpp:30-62 | The reply is that of the history function, and no state changes |
| `ProblemBank.CreateRefinesInsert` | backend/src/db/problem_dao.cpp:389-408 | A create inserts exactly what was given under a new id, or changes no row; it goes through if and only if the schema accepts the input, no duplicate tag included, and none of its statements, commit included, meets a fault; every other problem is unchanged |
| `ProblemBank.UpdateRefinesReplace` | backend/src/db/problem_dao.cpp:410-434 | An update replaces the problem by exactly what was given, or changes no row; the same if and only if |
| `ProblemBank.UpdateOfVanished` | backend/src/db/problem_dao.cpp:414-434 | If the problem is gone after the existence check, no row changes; success is reported if and only if there is neither tag nor test case and no fault |
| `ProblemBank.DeleteRefinesRemove` | backend/src/db/problem_dao.cpp:436-443 | A delete removes the problem with its links and test cases and nothing else; an absent id changes nothing |
| `ProblemBank.BankUpdated` | backend/sql/schema.sql:7-57 | Tables that differ only at one problem differ as maps only at that id |
| `ProblemBank.UpsertEffect` | backend/src/db/problem_dao.cpp:188-192 | An upsert yields a tag with the name's key and never two tags with one key |
| `ProblemBank.LinkTagsEffect` | backend/src/db/problem_dao.cpp:185-198 | The loop adds exactly the keys of the names and touches no other problem; for a stored problem it succeeds if and only if no name repeats or is linked already, each fits, and no statement meets a fault |
| `ProblemBank.InsertCasesEffect` | backend/src/db/problem_dao.cpp:200-210 | The loop appends exactly the given test cases in order and touches no other problem |
| `ProblemBank.ReplaceEffect` | backend/src/db/problem_dao.cpp:212-218 | After the replacement the problem has exactly the given tags and test cases |
| `ProblemBank.SameRowsKeep` | backend/src/db/problem_dao.cpp:150-177 | Counters left behind by a rollback are invisible to keys, bank and test cases |
| `ProblemQueries.TagsOfLists` | backend/src/db/problem_dao.cpp:70-93 | The tag query lists each linked tag once, in strictly increasing name |
| `ProblemQueries.ListingIsUnique` | backend/src/db/problem_dao.cpp:70-93 | There is only one such listing |
| `ProblemQueries.FullProblemIff` | backend/src/db/problem_dao.cpp:356-387 | A read finds exactly the problems of the bank, with their row, their tags by name, and all their test cases in id order |
| `ProblemQueries.ReadAfterCreate` | backend/src/db/problem_dao.cpp:356-408 | A created problem reads back with its fields, its test cases in input order and its tag set by name; every other problem reads as before |
| `ProblemQueries.ReadAfterUpdate` | backend/src/db/problem_dao.cpp:356-434 | The same after an update |
| `ProblemQueries.ReadAfterDelete` | backend/src/db/problem_dao.cpp:356-443 | After a delete the problem is not found; every other problem reads as before |
| `ProblemQueries.JoinYieldsAtMostOne` | backend/sql/schema.sql:37-57 | Unique names and the (problem_id, tag_id) key leave one joined row for a matching problem and none for any other |
| `ProblemQueries.JoinedOnce` | scripts/mock_server.py:113-121 | For every problem the join yields exactly the rows of the plain filter |
| `ProblemQueries.ListingIsPlainFilter` | backend/src/db/problem_dao.cpp:234-287 | A filtered listing shows each matching problem exactly once, in increasing id, and no other |
| `ProblemQueries.ListingShowsTables` | backend/src/db/problem_dao.cpp:234-287 | From the tables alone: the listing summarises exactly the problems with the difficulty and a tag of the name, each once, with their own title, limits and tag names |
| `SeedLoader.ClearEmpties` | backend/src/db/seed_loader.cpp:29-60 | A complete clear leaves empty tables and counters at 1, whatever was there |
| `SeedLoader.BrokenOffClear` | backend/src/db/seed_loader.cpp:29-60 | A clear broken off anywhere keeps the keys intact; problems are left without test cases exactly when it stops between the second and third delete of a non-empty bank |
| `SeedLoader.ResetUpToFirstFailure` | backend/src/db/seed_loader.cpp:62-98 | From any tables and under any failures of the load, with k the first entry that cannot be parsed, is refused by the schema or meets a fault in a statement, the bank is exactly entries 0..k−1 as problems 1..k; it succeeds exactly when there is no such entry |
| `SeedLoader.ResetIsTheSeed` | backend/src/db/seed_loader.cpp:62-98 | Without faults k is the first entry that cannot be parsed or stored: the reset bank is a function of the seed alone |
| `SeedLoader.ResetForgetsThePast` | backend/src/db/seed_loader.cpp:95-98 | Two resets with one seed that clear completely and stop at the same entry, without faults always, give the same ids and contents from any two states |
| `SeedLoader.UnreadableSeedEmpties` | backend/src/db/seed_loader.cpp:62-79 | A seed file that cannot be read leaves the bank empty |
| `SeedLoader.ApplyRefines` | backend/src/db/problem_dao.cpp:389-443 | Every operation under every pattern of failures keeps all keys, goes through exactly when the map and the server allow it, and does to the map what the plain operation does, a reset broken off anywhere included |
| `SeedLoader.HistoryRefines` | backend/src/db/problem_dao.cpp:389-443 | Over every history the four tables are the map the plain operations make |
| `SeedLoader.ApplyKeepsCases` | backend/src/db/problem_dao.cpp:389-443 | With validated input every operation keeps a test case for every problem |
| `SeedLoader.HistoryKeepsIntegrity` | backend/sql/schema.sql:7-57 | Over every history from an empty bank: foreign keys, unique tags, and at least one test case per problem |
| `ProblemDao.Dao.InsertProblemTags` | backend/src/db/problem_dao.cpp:185-198 | The loop ends with the tables of the tag-linking function, failing where it fails |
| `ProblemDao.Dao.InsertTestcases` | backend/src/db/problem_dao.cpp:200-210 | The loop ends with the tables of the test-case function, failing where it fails |
| `ProblemDao.Dao.Close` | backend/src/db/problem_dao.cpp:158-172 | Only a body that went through and a commit that succeeded leave the transaction's rows; otherwise they are those from before |
| `ProblemDao.Dao.CreateProblem` | backend/src/db/problem_dao.cpp:389-408 | Tables and id are those of the create the refinement is proved of |
| `ProblemDao.Dao.ReplaceTagsAndTestcases` | backend/src/db/problem_dao.cpp:212-218 | Tables and success are those of the replacement function |
| `ProblemDao.Dao.UpdateProblem` | backend/src/db/problem_dao.cpp:410-434 | False exactly for an unknown id, otherwise tables and success of the update the refinement is proved of |
| `ProblemDao.Dao.RemoveProblem` | backend/src/db/problem_dao.cpp:436-443 | Tells whether the problem was there, and removes it |
| `ProblemDao.Dao.ListAll` | backend/src/db/problem_dao.cpp:273-287 | The loop over the rows builds the listing, in increasing id |
| `ProblemDao.Dao.ClearProblemBank` | backend/src/db/seed_loader.cpp:29-60 | Stops at the first failing statement with exactly those before it done |
| `ProblemDao.Dao.LoadProblems` | backend/src/db/seed_loader.cpp:81-92 | Stops at the first entry that fails, with that index and the tables of the load |
| `ProblemDao.Dao.ResetProblemBank` | backend/src/db/seed_loader.cpp:95-98 | Tables and success are those of the reset the theorems are about |

## Left out

- Process plumbing of `compiler.cpp` and `runner.cpp` (fork, exec, pipes, `setrlimit`, `waitpid`): compilation outcomes and measurements are arbitrary inputs.
- The 32-bit cast of the elapsed milliseconds: times are arbitrary naturals.
- The MySQL client, escaping and SQL text: each statement is its effect on the tables, or a failure.
- Column widths other than those of `title` and `name`: an over-long value or number counts among the arbitrary failures of its statement.
- Ids as 32-bit numbers: counters are unbounded.
- A COMMIT or ROLLBACK whose result is lost with the connection: a failed COMMIT counts as rolled back, and ROLLBACK always works.
- Isolation between concurrent transactions: a transaction runs with no other statement in between; other clients act between operations, and before an update's transaction.
- Interleavings inside one auth request: register and login, two statements each, are one step.
- A random source that cannot be read, and an exception out of session-id generation: the bytes are a parameter.
- Hashing and verification in `password.cpp`: parameters of the account model.
- The database clock and the application clock are one clock.
- Rounding of `double`, the width of `long` and a refill rate that is not positive: the limiter computes with reals and a positive rate.
- Reading limiter settings from the environment (`rate_limit.cpp`): short parsing.
- Failure to create a thread in the worker pool's constructor, and destruction while another caller joins.
- Lease objects belong to one pool and are slots of an array; an empty slot is a lease not yet built or moved from. Reassigning a lease across pools is not modelled.
- The deadline of `wait_for`: a sleeping waiter may time out at any moment.
- `mysql_library_init` and `mysql_library_end`.
- Users and sessions are no part of the bank's tables, which no bank statement names; that a reset leaves them alone is by construction.
- `getProblemDetail` and `listFullProblems`: the same queries over the same tables, easy members.
- The mock server compares tag names exactly, the SQL by collation; the plain filter uses the collation.
- Reasons of errors: an exception's text is reduced to the kind of failure.
- JSON, DTOs, validators, CSRF, configuration, logging, signals and `main`: short checks and wiring.
- The web pages, the mock server's HTTP handler, shell and Python clients: user interface and I/O.
