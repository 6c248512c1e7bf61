# Verified model of srh-rs

srh-rs is a Redis-over-HTTP proxy. This project models its clock-driven state machines and its
exact transformations in Dafny and proves what they promise, for every run and every input.
`dafny verify dfyconfig.toml` checks the whole project.

| files | what they model |
|---|---|
| `Breaker.dfy` | the circuit breaker (class) and its runs over all permits ever issued |
| `Pool.dfy`, `PoolProtocol.dfy`, `PoolEntry.dfy` | the breaker-reporting executor (class), the acquisition protocol as interleaved steps of any number of tasks, and the pool entry (class) whose methods are those steps |
| `Bucket.dfy`, `Limiter.dfy`, `LimiterRuns.dfy` | one token bucket, the two-index rate limiter (class) refining a map with a recency list, and its runs |
| `Fred.dfy`, `FredRuns.dfy` | the MULTI/EXEC driver (class) against an abstract Redis connection, and what it guarantees |
| `Base64.dfy`, `Convert.dfy` | response budget, depth cap, JSON rendering and frame conversion |
| `Parse.dfy` | request parsing under a JSON-node budget (class) |
| `Acl.dfy` | command policy, normalization, and token claims to identity |
| `Handlers.dfy` | the pipeline and multi-exec handlers |
| `Cache.dfy`, `CacheRuns.dfy` | the introspection cache (class) refining a map with a recency list, and its runs |
| `Recency.dfy`, `Resp.dfy`, `Common.dfy` | shared vocabulary |

## Assumptions

- A critical section of a mutex, and one atomic operation, is one step. The three reads of the
  idle-eviction guard are taken as one step too.
- Clocks do not go backwards between steps. The `order` and `generation` counters do not wrap;
  the `next_client` counter and the waiter counter do.
- Settings passed configuration validation: thresholds, cooldowns, connection and waiter limits
  are at least one (`src/config.rs:445-465`).
- Rate-limit balances and instants are real numbers.
- A Redis server queues, runs and discards as Redis does; a broken or disconnected connection
  loses its transaction state, nothing is replayed, and a forced reconnection succeeds. A
  transaction runs to completion.

## Where a promise needs a condition

- A transaction leaves its connection out of MULTI only because every acquisition builds a new
  executor. An executor that has used its single reset can leave the connection inside MULTI:
  `FredRuns.ReusedExecutorWedges` gives the behaviour, `FredRuns.OutOfMultiIffFresh` the exact condition.
- Idle eviction can take a pool away from a task that was admitted but has not yet entered the
  queue: `PoolProtocol.EvictionCanOvertakeAdmission`; `PoolProtocol.EvictionFindsNobodyInside`
  says exactly which tasks it protects.
- Forgetting an idle key is not always invisible: it is exactly when the key had refilled to
  capacity (`Buckets.ForgettingIsInvisibleIffFull`, and for the whole limiter
  `LimiterRuns.SweepIsTransparentIffFull` and `LimiterRuns.SmallDebtsAreForgottenSafely`).
- Giving an identity an allowlist for the first time can open default-blocked commands:
  `Acl.NewAllowlistNarrowsIff` says exactly when it does not.

## Model

| member | source | states |
|---|---|---|
| Breakers.SecondsCeil | src/domain/breaker.rs:164-168 | the least whole number of seconds that covers a duration |
| Breakers.Breaker.constructor | src/domain/breaker.rs:49-61 | a new breaker is closed, without failures, at generation 0 |
| Breakers.Breaker.Admit | src/domain/breaker.rs:64-97 | the critical section computes the admission step on the protected record |
| Breakers.Breaker.Record | src/domain/breaker.rs:100-139 | the critical section computes the record step on the protected record |
| Breakers.Breaker.Cancel | src/domain/breaker.rs:142-154 | the critical section computes the cancel step on the protected record |
| BreakerRuns.EveryRun | src/domain/breaker.rs:64-154 | over every run and all permits ever issued: none ahead of the generation, current ones are probes iff HalfOpen and none exists while Open, probe generations distinct, counter equals the trailing accepted failures and is below the threshold, opened instant is the latest opening |
| BreakerRuns.StalePermitsAreInert | src/domain/breaker.rs:105-107 | recording or cancelling an older permit changes nothing, cancelling a non-probe never does, and a current probe is spent by either (also `src/domain/breaker.rs:142-154`) |
| BreakerRuns.OpensExactlyAtThreshold | src/domain/breaker.rs:123-138 | an accepted outcome opens the breaker exactly when the trailing failures reach the threshold |
| BreakerRuns.OpensOnlyForFailures | src/domain/breaker.rs:108-131 | the breaker opens only for a failed probe or for the failure that reaches the threshold |
| BreakerRuns.AdmissionsByState | src/domain/breaker.rs:64-97 | in every run: Closed admits without a probe and HalfOpen refuses for the seconds covering a cooldown, both unchanged; Open refuses unchanged or starts the one probe of the next generation |
| BreakerRuns.ProbeDecides | src/domain/breaker.rs:108-122 | in every run the outcome of the current probe closes the breaker with no failures and reports recovery, or opens it again, reports that and restarts the cooldown |
| BreakerRuns.CancelledProbeIsReplaced | src/domain/breaker.rs:141-154 | a cancelled probe costs no new cooldown: any later request gets the next probe at once |
| BreakerRuns.ProbesWaitOutTheCooldown | src/domain/breaker.rs:78-96 | a probe is granted exactly when Open and a full cooldown has passed since the latest opening, cancellations included |
| BreakerRuns.RetryHintIsExact | src/domain/breaker.rs:92-94 | an Open rejection of n seconds: undisturbed, a probe is granted n seconds later and refused after any fewer whole seconds |
| PoolEntries.PoolEntry.constructor | src/adapters/pool_manager.rs:137-160 | no waiters, all permits, the first client and the build instant: the protocol's initial shared state |
| PoolEntries.PoolEntry.EnterQueue | src/adapters/pool_manager.rs:187-196 | the bounded increment succeeds exactly below the limit and is the protocol's enqueue step |
| PoolEntries.PoolEntry.Touch | src/adapters/pool_manager.rs:90-93 | records the instant of use and is the protocol's lookup step |
| PoolEntries.PoolEntry.Admit | src/adapters/pool_manager.rs:172-175 | the admission step, with its answer deciding the task's next phase |
| PoolEntries.PoolEntry.LeaveQueue | src/adapters/pool_manager.rs:338-343 | dropping the waiter guard is the protocol's step, after a grant and on an early exit |
| PoolEntries.PoolEntry.TakePermit | src/adapters/pool_manager.rs:202-213 | the semaphore's grant is the protocol's step |
| PoolEntries.PoolEntry.ReturnPermit | src/adapters/pool_manager.rs:345-349 | returning the semaphore permit is the protocol's step |
| PoolEntries.PoolEntry.CancelAdmission | src/adapters/pool_manager.rs:362-368 | dropping the admission guard is the protocol's step |
| PoolEntries.PoolEntry.Unlock | src/adapters/pool_manager.rs:345-349 | releasing the client lease is the protocol's step |
| PoolEntries.PoolEntry.ScanLeases | src/adapters/pool_manager.rs:371-389 | undisturbed, the scan locks the first free client in rotation order, touches no other lease, fails only if all are locked, and ends where the protocol's own steps lead |
| Pools.RotationVisits | src/adapters/pool_manager.rs:378-382 | the rotation visits every client index |
| Pools.ScansRotate | src/adapters/pool_manager.rs:378-379 | consecutive scans begin at consecutive clients until the counter wraps |
| Pools.BreakerExecutor.constructor | src/adapters/breaker_executor.rs:19-33 | a new handle has recorded nothing |
| Pools.BreakerExecutor.Record | src/adapters/breaker_executor.rs:35-41 | one call is one outcome, failed iff some slot is a transport error or a timeout (also `src/adapters/breaker_executor.rs:79-81`) |
| Pools.BreakerExecutor.Drop | src/adapters/breaker_executor.rs:44-50 | dropping cancels the permit exactly when nothing was recorded |
| PoolProtocol.EveryReachableState | src/adapters/pool_manager.rs:167-237 | every step of every task, cancellations and drops included, keeps counters, leases, breaker history and probe ownership consistent (also `src/adapters/pool_manager.rs:333-396`) |
| PoolProtocol.AcquisitionIsSafe | src/adapters/pool_manager.rs:167-237 | in every reachable state: waiter counter is the number of live waiter guards and bounded, available plus held permits is the pool size, no shared lease, HalfOpen iff exactly one live unrecorded owner of the current probe (also `src/adapters/pool_manager.rs:333-368`) |
| PoolProtocol.StartSatisfies | src/adapters/pool_manager.rs:137-160 | a newly built pool satisfies the invariant |
| PoolProtocol.OpenBreakerConsumesNothing | src/adapters/pool_manager.rs:172-175 | a request the breaker sheds changes no shared state, and whatever the other tasks do after it they could have done without it, to the same shared state and phases |
| PoolProtocol.EvictionFindsNobodyInside | src/adapters/pool_manager.rs:253-257 | in every run the eviction guard holds exactly when more than 900 seconds have passed since the latest lookup, or the build, and no task is between its waiter increment and its permit return |
| PoolProtocol.LastUsedIsLatestLookup | src/adapters/pool_manager.rs:90-93 | in every run the instant of the last use is that of the latest lookup, or what it was if there was none |
| PoolProtocol.EvictionIsForGood | src/adapters/pool_manager.rs:253-262 | after eviction no task finds this pool again and it is not evicted twice |
| PoolProtocol.CompletionReportsOnce | src/adapters/breaker_executor.rs:35-41 | a finished call is one outcome to the breaker, failed iff some slot is a transport error or a timeout |
| PoolProtocol.EvictionCanOvertakeAdmission | src/adapters/pool_manager.rs:253-257 | a reachable state in which an admitted, not yet queued task can lose its pool (also `src/adapters/pool_manager.rs:172-196`) |
| PoolProtocol.EveryTaskCanFinish | src/adapters/pool_manager.rs:333-368 | any task can finish by its own enabled steps alone, leaving the others alone, and if it owned the probe the breaker is no longer HalfOpen (also `src/ports/mod.rs:51-75`) |
| PoolProtocol.HalfOpenIsNeverWedged | src/domain/breaker.rs:141-154 | from every reachable HalfOpen state the owner alone can end it (also `src/adapters/breaker_executor.rs:44-50`, `src/adapters/pool_manager.rs:357-368`) |
| PoolProtocol.UndisturbedScanFindsFirstFree | src/adapters/pool_manager.rs:380-389 | the stepwise scan, undisturbed, takes the first free client in rotation order |
| PoolProtocol.BlockedTaskCanWake | src/adapters/pool_manager.rs:390-395 | a task awaiting a lease can take it or waits for another task that holds it |
| PoolProtocol.FreeClientForEveryPermit | src/adapters/pool_manager.rs:371-396 | a permit holder without a client has a free one unless some lease has outlived its permit (also `src/adapters/pool_manager.rs:345-349`) |
| Buckets.RefillComposes | src/domain/rate_limit.rs:235-239 | refilling in two stages equals refilling once |
| Buckets.RefillsAtRate | src/domain/rate_limit.rs:235-239 | after t seconds a bucket has gained t times the rate up to two seconds' worth, and a clock behind it gains nothing |
| Buckets.ChargesAreExact | src/domain/rate_limit.rs:164-172 | admitted exactly at a positive balance; an admitted charge for n commands takes n, one for none takes 1, a probe or a rejection nothing |
| Buckets.ObserversAreInvisible | src/domain/rate_limit.rs:164-172 | sweeps, probes and rejected accesses change no later answer or charge (also `src/domain/rate_limit.rs:189-190`) |
| Buckets.ForgettingIsInvisibleIffFull | src/domain/rate_limit.rs:148-161 | dropping a key is invisible to all later traffic exactly when it had refilled to capacity (also `src/domain/rate_limit.rs:199-208`) |
| Buckets.IdleKeyIsFull | src/domain/rate_limit.rs:199-203 | exactly when an idle key is full again; always at a balance of at least -898 rate (also `src/domain/rate_limit.rs:9`, `src/domain/rate_limit.rs:97-101`) |
| Buckets.RetryAfterIsLeast | src/domain/rate_limit.rs:227-232 | the advertised delay is the least whole number of seconds, at least one, that clears the deficit |
| Buckets.RejectedUntilRepaid | src/domain/rate_limit.rs:164-172 | until the instant a deficit is repaid, every access is rejected, nothing is charged and that instant does not move (also `src/domain/rate_limit.rs:235-239`) |
| Buckets.RetryAfterIsExact | src/domain/rate_limit.rs:227-239 | after a rejection nothing is admitted or charged until the deficit is repaid; every access strictly after that is admitted, through any probes and sweeps up to and including the next charge; at the advertised delay the balance is not negative (also `src/domain/rate_limit.rs:164-172`) |
| Buckets.CreditOutlastsObservers | src/domain/rate_limit.rs:164-172 | a bucket in credit admits every probe and stays in credit through any probes and sweeps |
| Buckets.SpendingIsCovered | src/domain/rate_limit.rs:164-172 | charges plus final balance never exceed initial balance plus accrual, and debt stays under one largest charge (also `src/domain/rate_limit.rs:235-239`) |
| Buckets.ThroughputIsBounded | src/domain/rate_limit.rs:164-172 | the commands of admitted requests of one bucket in any window total strictly less than 2 rate + rate T + the largest request (also `src/domain/rate_limit.rs:235-239`) |
| Buckets.ChargesAreBounded | src/domain/rate_limit.rs:164-172 | the same bound on what is charged, where an empty request costs 1 |
| Buckets.BurstIsTwoSeconds | src/domain/rate_limit.rs:97-101 | a fresh key can send exactly two seconds' worth of single commands at one instant |
| Limiters.RateLimiter.constructor | src/domain/rate_limit.rs:97-106 | an empty limiter holding at least one bucket |
| Limiters.RateLimiter.Unlink | src/domain/rate_limit.rs:48-54 | removes the order from the index the flag names |
| Limiters.RateLimiter.Link | src/domain/rate_limit.rs:56-66 | assigns the next order and indexes it by the sign of the balance |
| Limiters.RateLimiter.EvictOne | src/domain/rate_limit.rs:241-255 | evicts what the recency-list model evicts, and forgives debt exactly when no entry is in credit |
| Limiters.RateLimiter.Access | src/domain/rate_limit.rs:125-162 | refines the recency-list model, keeps both indexes exact and the size bounded; on its own fields: admitted iff the refilled balance is positive, charged by exactly the number of commands (1 for none), nothing on a probe or a rejection; a forgiveness exactly when a full limiter has no credit entry |
| Limiters.RateLimiter.SweepIdle | src/domain/rate_limit.rs:178-211 | refines the recency-list model, keeps both indexes exact, returns the number removed, and on its own fields removes exactly the entries idle for 900 seconds whose refilled balance is not negative, keeping the others refilled and in order |
| LimiterRuns.EveryRunIsSound | src/domain/rate_limit.rs:33-67 | in every run: size bounded, balances at most capacity, list order is last-access order (also `src/domain/rate_limit.rs:125-211`) |
| LimiterRuns.EveryRunFromNothingIsSound | src/domain/rate_limit.rs:97-106 | from an empty limiter every run stays bounded and lists exactly the kept keys, in order of last access |
| LimiterRuns.VictimIsLeastRecentlyUsed | src/domain/rate_limit.rs:241-255 | the victim is the least recently accessed bucket not in debt, or of all only if all are in debt, which is exactly when debt is forgiven |
| LimiterRuns.KeysAreIsolated | src/domain/rate_limit.rs:125-162 | while a key is not dropped the limiter answers and charges it exactly as its own bucket would, and ends with a bucket like it |
| LimiterRuns.KeyThroughputIsBounded | src/domain/rate_limit.rs:125-172 | in whole-limiter runs the commands of a retained key's admitted requests in any window total strictly less than 2 rate + rate T + the largest request |
| LimiterRuns.RejectionIsExact | src/domain/rate_limit.rs:227-239 | the advertised delay is the least whole number of seconds, at least one, that reaches the instant of repayment; in the whole limiter all accesses of a retained key up to it are rejected uncharged and all after it admitted up to and including the next charge (also `src/http/extractors.rs:54-56`, `src/http/command.rs:106-108`) |
| LimiterRuns.SweepIsTransparentIffFull | src/domain/rate_limit.rs:178-211 | after a sweep drops a key, the limiter answers all later traffic as the kept bucket would exactly when that bucket had refilled to capacity |
| LimiterRuns.SmallDebtsAreForgottenSafely | src/domain/rate_limit.rs:178-211 | in any limiter run, a sweep that drops a key not used since leaves its later answers unchanged exactly when the balance after its last access plus the accrual since reaches capacity, which a balance of at least -898 rate always does |
| LimiterRuns.QuietKeyIsRefilled | src/domain/rate_limit.rs:189-208 | whatever sweeps and other keys do, a key neither used nor dropped keeps its last access and is only refilled |
| Fred.FredExecutor.MapTimeout | src/adapters/fred_executor.rs:83-103 | only the first timeout on a connected client resets the connection |
| Fred.FredExecutor.Send | src/adapters/fred_executor.rs:105-114 | sends one command with the fate the environment chose: a reply, a Redis error, a timeout or a transport error, and a broken connection leaves MULTI |
| Fred.FredExecutor.RunTransaction | src/adapters/fred_executor.rs:149-199 | the loop computes the specified transaction, message by message |
| Fred.FredExecutor.RunPipeline | src/adapters/fred_executor.rs:137-147 | for every finishing schedule, computes the specified flight and returns the result of command i as element i |
| FredRuns.TransactionIsAtomic | src/adapters/fred_executor.rs:149-199 | EXEC only after OK and all QUEUED in order; without EXEC nothing runs; with it all commands run in order or none; slot i converts the reply command i got; and the messages decide the result: success iff EXEC was answered with an array, else the error of the first bad answer |
| FredRuns.AgreeableTransactionSucceeds | src/adapters/fred_executor.rs:149-199 | when server and network accept and answer everything, every transaction succeeds with one slot per command |
| FredRuns.QueueAllTrace | src/adapters/fred_executor.rs:168-185 | queueing exchanges QUEUED for each command, or stops at the first other answer, reports its error and discards |
| FredRuns.ExecRunsAllOrNothing | src/adapters/fred_executor.rs:186-199 | EXEC runs the whole queue in order or none of it, whatever happens to its answer |
| FredRuns.ReusedExecutorWedges | src/adapters/fred_executor.rs:88-91 | a behaviour in which an executor with a used reset leaves the connection in MULTI (also `src/adapters/fred_executor.rs:164`) |
| FredRuns.OutOfMultiIffFresh | src/adapters/fred_executor.rs:83-103 | a transaction always ends out of MULTI exactly when its executor's reset is unused or there is nothing to send (also `src/adapters/fred_executor.rs:149-199`) |
| FredRuns.PipelineAnswersInOrder | src/adapters/fred_executor.rs:137-147 | however sending and answering interleave, commands run in request order as far as they reach the server, and slot i depends only on the reply and fate of command i |
| FredRuns.ApprovedIsPlain | src/domain/acl.rs:39-45 | what the command policy approves, normalized, holds no command that opens or ends a transaction (also `src/domain/acl.rs:176-178`) |
| FredRuns.ConnectionsComeBackClean | src/adapters/fred_executor.rs:132-199 | after any sequence of approved commands, pipelines under any schedule, transactions and readiness PINGs the connection is out of MULTI (also `src/domain/acl.rs:39-45`, `src/adapters/pool_manager.rs:299-307`) |
| Base64.RoundTrip | src/domain/convert.rs:128 | strict decoding undoes encoding for every byte string (also `src/domain/convert.rs:137`) |
| Base64.Encode | src/domain/convert.rs:155-161 | the encoded length is four per started group of three |
| Base64.KnownEncodings | src/domain/convert.rs:128 | a test vector of section 10 of RFC 4648, both paddings and the last two letters |
| Base64.Alphabet | src/domain/convert.rs:137 | the alphabet of section 4 of RFC 4648 in order |
| Convert.Base64EncodedLen | src/domain/convert.rs:155-161 | the checked length succeeds exactly when the padded length fits 64 bits, and is that length |
| Convert.ChargeWithinDepth | src/domain/convert.rs:61-98 | charging succeeds exactly when depth and rendered weight fit, and deducts exactly the rendered weight |
| Convert.ChargeAll | src/domain/convert.rs:94-97 | an array is charged exactly when all elements fit, and costs exactly their weight |
| Convert.ChargeResponseBudget | src/domain/convert.rs:53-59 | succeeds exactly when the reply nests at most 64 deep and its rendered weight fits |
| Convert.WeightCounts | src/domain/convert.rs:61-98 | a rendered reply weighs eight per node and one per byte of text |
| Convert.OverflowMeansTooHeavy | src/domain/convert.rs:78-86 | an overflowing length belongs to a reply heavier than any 64-bit budget (also `src/domain/convert.rs:155-161`) |
| Convert.RenderingRoundTrips | src/domain/convert.rs:120-153 | in base64 mode the rendered JSON of any reply reads back as that reply up to simple against bulk strings |
| Convert.PlainRenderingReadsBack | src/domain/convert.rs:120-153 | the plain form of any reply reads back as that reply with its bulk strings made text, up to simple against bulk |
| Convert.AcceptedFrames | src/adapters/fred_executor.rs:206-240 | a frame is accepted exactly when it nests within the cap and every leaf is a RESP2 value, and nothing is lost |
| Convert.RefusedFrames | src/adapters/fred_executor.rs:206-240 | a refused frame is too deep, a Redis error with its message, or a protocol violation; an array is refused by its first refused element |
| Convert.ConvertedRepliesFailOnlyOnSize | src/adapters/fred_executor.rs:202-223 | a converted reply can be refused only for its size (also `src/domain/convert.rs:61-74`) |
| Parse.Reader.ReadValue | src/http/parse.rs:311-413 | a nested value is read exactly when its nodes and keys fit what is left, which drops by exactly that |
| Parse.BuildsLastMembers | src/http/parse.rs:396-413 | an object has the keys that occur, each with its last value |
| Parse.BuildsElements | src/http/parse.rs:380-394 | an array keeps its elements one by one |
| Parse.ObjectsCostKeysAndValues | src/http/parse.rs:396-413 | an object costs one for itself, one per key and its values |
| Parse.Reader.ReadElements | src/http/parse.rs:380-398 | the elements of a nested array are read exactly when all their nodes fit |
| Parse.Reader.ReadArgument | src/http/parse.rs:205-309 | each argument equals what the shared conversion makes of it |
| Parse.ArgumentsByKind | src/domain/convert.rs:32-45 | text and digits stand as they are, the literals by name, nested values as JSON text |
| Parse.Reader.ReadArguments | src/http/parse.rs:104-127 | all arguments are read, in order, exactly when all their nodes fit |
| Parse.Reader.ReadCommand | src/http/parse.rs:77-127 | a command is read exactly when well-formed and paid for, and the limit is marked exactly when the budget ran out first (also `src/http/parse.rs:193-203`) |
| Parse.Reader.ReadCommands | src/http/parse.rs:164-186 | the element loop of a pipeline succeeds exactly on at most the maximum of paid-for commands, and marks the limit that was exceeded first |
| Parse.ParseCommand | src/http/parse.rs:30-42 | accepted iff a nonempty array with a string head within the node budget, giving the head as name and the further elements as arguments in order; otherwise too complex iff the budget ran out before the shape was known to be wrong (also `src/http/parse.rs:64-70`) |
| Parse.RunsOutOnce | src/http/parse.rs:164-186 | the budget of a pipeline runs out at one element at most |
| Parse.ParsePipeline | src/http/parse.rs:45-62 | accepted iff at most the maximum of paid-for commands; too large iff more follow the first maximum of paid-for commands; too complex iff the budget ran out at some element (also `src/http/parse.rs:164-186`) |
| Acl.PermittedIffPolicy | src/domain/acl.rs:166-251 | a named command is permitted exactly when every rule of the policy holds |
| Acl.InvalidIffUnnamed | src/domain/acl.rs:168-170 | only an empty name is invalid |
| Acl.CaseDoesNotMatter | src/domain/acl.rs:166-171 | no decision depends on the case of a command name |
| Acl.UpperIffSameWord | src/domain/acl.rs:171 | upper-casing identifies exactly the words that differ only in case |
| Acl.RefusalsNameTheCommand | src/domain/acl.rs:176-230 | a refusal names the command in capitals, except a blocking stream read, which always gets its own message however BLOCK is spelled |
| Acl.SortPatternsNeedNoPrefix | src/domain/acl.rs:195-203 | a prefixed identity may not use SORT patterns, however BY and GET are spelled |
| Acl.AdminsGainOnlyExceptions | src/domain/acl.rs:172-178 | what an administrator may do beyond others is a listed exception to a listed refusal |
| Acl.NarrowingNeverPermits | src/domain/acl.rs:166-266 | tightening any present setting never turns a denial into a permit |
| Acl.TransactionStateIsNeverPermitted | src/domain/acl.rs:39-45 | MULTI, EXEC, DISCARD, WATCH and UNWATCH are denied to everyone in every spelling (also `src/domain/acl.rs:172-178`, `src/domain/acl.rs:253-266`) |
| Acl.NewAllowlistNarrowsIff | src/domain/acl.rs:208-228 | a first allowlist narrows exactly when it names no default-blocked command that it would open |
| Acl.NormalizingOnlyLowersUnits | src/domain/compat.rs:6-15 | only the unit of a four-argument GEODIST changes, to the lower-case unit |
| Acl.NormalizingKeepsTheDecision | src/domain/compat.rs:6-15 | normalizing changes no decision and is idempotent (also `src/domain/acl.rs:166-230`) |
| JwtIdentity.BlockedClaimsTakeAwayExactly | src/adapters/jwt_auth.rs:256-295 | extra blocked-command claims take away exactly those commands, in any spelling |
| JwtIdentity.RolesDecide | src/adapters/jwt_auth.rs:256-295 | admin alone makes an administrator, admin or write lets it write, read alone is read-only, none or an unknown pool is refused with its message; the rest is carried over |
| JwtIdentity.MoreRolesNeverDeny | src/adapters/jwt_auth.rs:256-274 | more roles never turn a permit into a denial |
| Handlers.SentAtRank | src/http/pipeline.rs:48-59 | each allowed command is sent once, normalized, at its rank, and passes the check in that form |
| Handlers.SentCameFrom | src/http/pipeline.rs:48-59 | every sent command is some allowed command of the request, at its rank |
| Handlers.Screen | src/http/pipeline.rs:46-59 | screening collects exactly the normalized allowed commands and each denial's message |
| Handlers.ScreenAll | src/http/multi_exec.rs:51-53 | succeeds exactly when all commands are allowed, else gives the refusal of the first that is not |
| Handlers.Settle | src/http/pipeline.rs:85-99 | a success becomes its own value in the requested encoding and its exact charge, a Redis error its own message, a timeout and a transport error one fixed text each; too deep, too heavy or already refused fails as too large |
| Handlers.SettleAll | src/http/multi_exec.rs:67-86 | transaction results become slots in order, and fail as too large exactly when they do not fit the budget together |
| Handlers.Merge | src/http/pipeline.rs:73-107 | with one result per sent command: fails, as too large, iff the results do not fit together; otherwise slot i is command i's denial or the result of its rank |
| Handlers.SheddingSaysWhenToRetry | src/http/command.rs:163-177 | an open breaker gives its own delay, an overload the configured one, faults none |
| Handlers.FailuresKeepTheirKind | src/http/command.rs:148-161 | a failed transaction keeps its kind: the Redis error, the size, or a lost backend with the configured delay |
| Handlers.ExecutePipeline | src/http/pipeline.rs:46-108 | exactly the normalized allowed commands reach the connection, in order and under any schedule; nothing is acquired or sent for none; an acquisition failure becomes its error; slots are denials or the commands' own results, under one budget (also `src/http/command.rs:163-177`) |
| Handlers.ExecuteMulti | src/http/multi_exec.rs:46-88 | nothing is sent unless all commands are allowed, else the first refusal; an acquisition failure becomes its error; all commands run normalized and in order or none does; on success one slot per command renders the reply it got when it ran (also `src/http/command.rs:148-177`) |
| Caches.IntrospectionCache.constructor | src/adapters/jwt_auth.rs:82-100 | an empty cache with room for at least one entry |
| Caches.LookupsOnlyDropExpired | src/adapters/jwt_auth.rs:102-120 | a lookup drops only an expired answer of its own digest, and a hit moves the digest to the end |
| Caches.InsertsDropOnlyForRoom | src/adapters/jwt_auth.rs:122-147 | an insert stores the answer for its time to live in seconds and drops another exactly when full: the least recent |
| Caches.IntrospectionCache.Get | src/adapters/jwt_auth.rs:102-120 | refines the recency-list model, keeps map and ordered set equal, and hits exactly an unexpired entry with its answer |
| Caches.IntrospectionCache.Insert | src/adapters/jwt_auth.rs:122-147 | refines the recency-list model, evicting the least recent entry when full, and keeps map and ordered set equal |
| Caches.IntrospectionCache.Sweep | src/adapters/jwt_auth.rs:149-166 | removes exactly the expired entries, keeps the others as they are and returns their number |
| CacheRuns.EveryRunIsListed | src/adapters/jwt_auth.rs:102-166 | in every run the size is bounded and each entry is listed once |
| CacheRuns.EveryRunIsFaithful | src/adapters/jwt_auth.rs:102-147 | every kept answer is the latest inserted one with its expiry |
| CacheRuns.EveryRunIsComplete | src/adapters/jwt_auth.rs:102-166 | with at most the maximum of digests, every unexpired latest answer is kept |
| CacheRuns.EveryRunIsTouchOrdered | src/adapters/jwt_auth.rs:102-147 | each listed digest was touched after the latest touch of the ones before it |
| CacheRuns.HitsAreFaithful | src/adapters/jwt_auth.rs:102-120 | a hit is the latest inserted answer for that digest, not yet expired |
| CacheRuns.EqualsUnboundedMap | src/adapters/jwt_auth.rs:102-147 | with at most the maximum of digests, the cache answers like an unbounded map with a time to live |
| CacheRuns.EvictionNeedsMaxEntriesTouches | src/adapters/jwt_auth.rs:128-136 | a capacity eviction happens only when full and after at least the maximum of distinct other digests were touched |

## Left out

- The network, TLS, HTTP routing, signal handling, startup and configuration loading: they are plumbing around this logic.
- Fred's reconnection and replay internals: a connection is an abstract server with an arbitrary fate for each message.
- Transactions dropped midway by the HTTP timeout: the guarantees are for calls that run to completion.
- The interleaving of acquisitions is a state machine over steps, not threads; guard drops are its steps.
- Separate reads of the three counters by idle eviction: the guard is one step.
- Rebuilding a pool after eviction, readiness reports and shutdown: one pool entry is modelled from its build to its removal.
- The lists of denied, default-blocked, read and scripting commands and of admin exceptions are data of the model; the results hold of the lists as written.
- The breaker-reporting executor around a connection passes results through; the handlers are stated on the connection itself.
- Metrics, audit records, health endpoints and error-to-status tables: no decision depends on them.
- JSON tokenizing, number formatting, lossy UTF-8 and SHA-256: parameters of the model.
- Floating-point rounding of balances: the limiter is proved over real numbers.
- The wording of protocol-violation messages and the classification of client error text by its first word.
- Signature verification, key fetching and the introspection request of token authentication.
- Readiness clients choose a connection by the operation locks; only their PING is part of the connection's life here.
