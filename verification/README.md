# Admission control and small stateful protocols of an OAuth2 server, in Dafny

The project models the parts of the server that keep state across requests and whose guarantees are about whole
runs: the token-bucket and Redis rate limiters, the two circuit breakers, the concurrency permits and bulkheads, the
DPoP replay store, token revocation and user deletion in the SQL storage, the materialization of clients from
Client ID Metadata Documents (CIMD), and the store of pushed authorization requests.

Each component is written twice in the same file or next to it: as functions on values (a state, a step, a run over
a sequence of events) and, where the program updates something in place, as a class whose methods are proved to do
exactly what the step function says. All guarantees are lemmas over every run of the step functions.

| file | component |
|---|---|
| `Machine.dfy` | `u32` counters, clock readings, options |
| `TokenBucket.dfy`, `InMemoryLimiter.dfy`, `RedisLimiter.dfy`, `RateLimit.dfy` | rate limiting |
| `CircuitBreaker.dfy` | the atomic breaker, one step per method call |
| `BreakerHistory.dfy`, `BreakerTiming.dfy` | its counters and its trips over runs |
| `BreakerAtomics.dfy` | the atomic breaker, one step per atomic access of any number of threads |
| `BreakerOverlap.dfy`, `BreakerProbes.dfy` | exactly when the open duration and the probe limit are kept then |
| `SocialLoginBreaker.dfy` | the mutex breaker and its agreement with the atomic one |
| `BackPressure.dfy`, `Bulkhead.dfy` | permits and pools |
| `DpopReplay.dfy` | `jti` check-and-insert, statement by statement |
| `SqlStorage.dfy`, `SqlStatements.dfy`, `RevocationLedger.dfy`, `UserDeletion.dfy` | tables, constraints, revocation, `delete_user` |
| `CimdClients.dfy`, `CimdRegistry.dfy` | CIMD clients, serially and interleaved at every storage call |
| `ParStore.dfy` | pushed authorization requests |

## Modelling decisions

- `f64` is `real`, so rounding is not modelled; a duration in seconds is a natural number. `Instant` and `SystemTime`
  are `real` clock readings passed as parameters that never go back within a run. One call reads the clock once.
- `u32` counters wrap explicitly (`Inc`, `Dec`, `Advance`). `fetch_add(1) + 1` is taken with wrap-around, as in a
  release build.
- The code is followed where its comments say something else: the atomic breaker resets `failure_count` when it opens
  and when it closes, not on Open to HalfOpen as the field's comment says; the in-memory sweep evicts at exactly two
  windows of idleness, not only after; the mutex breaker's `allow_request` returns `false` in HalfOpen although its
  comment says a half-open circuit allows a probe.
- Redis is outside the repository. A key with an expiry is taken to be gone from that instant on, `EXPIRE` with zero
  seconds deletes the key, and `TTL` rounds to the nearest second. The first of these matters for
  `RedisLimiter.RetryAdvice` when a whole number of seconds is left: if a key were still there at its expiry, a check
  at the advised instant would be rejected in that case too.
- Every SQL statement and every awaited storage call is one atomic step on one primary database; foreign keys, primary
  keys and unique columns are enforced by the database.
- In `BreakerAtomics` and what builds on it, a clock reading is a step of its own: the timer check copies `opened_at`
  under the lock and reads the clock after, and a trip reads the clock before it takes the lock to store the stamp.
  Memory is sequentially consistent.

## Results that correct or sharpen what the code suggests

- The Redis limiter admits at most `2 * max_requests - 1` requests of a key in any half-open interval of one window,
  one less than two full windows, and some run reaches that for every configuration.
- Eviction in the in-memory limiter is invisible exactly when `window_secs >= 1`. With `window_secs = 0` every sweep
  forgets all buckets at once while a bucket takes a second to refill.
- "No admission within the open duration of a trip" holds for calls that do not overlap. When accesses interleave it
  fails: the state is swapped before the time stamp is written (`BreakerOverlap.OverlapAdmitsAtOnce`), and the timer
  check compares the clock with a copy of the stamp that may be old by then
  (`BreakerOverlap.DelayedRequestAdmitsAtOnce`). `BreakerOverlap.ShutIffGuarded` says exactly from which worlds it holds.
- The limit on probes in flight fails for a similar reason: the state is swapped before the probe counter is reset
  (`BreakerProbes.LateResetExceedsLimit`). It is kept exactly while no reset is on its way
  (`BreakerProbes.LimitIffNoReset`).
- One success of an earlier epoch recorded while no probe is in flight makes `probe_count` wrap, and the breaker then
  denies every request and stays HalfOpen until another outcome arrives (`BreakerHistory.StragglerStarvesProbes`).
  The counter is within its limit exactly when every outcome had its probe (`BreakerHistory.ProbesBoundedIffMatched`).
- The two breakers agree on more runs than those whose outcomes come in the epoch of their request: only outcomes
  recorded while Open, and a failure counter that wraps around, drive them apart (`SocialLoginBreaker.BreakersAgreeIff`).
- The retry advice of the Redis limiter can come up to half a second early, because TTL rounds: with 1.4 seconds left
  it advises one second, and that retry is rejected (`RedisLimiter.RetryAdvice`).
- The CIMD registry limit can be exceeded by `K - 1` rows with `K` requests in flight, and by no more.
- The client actor fills its cache by a message that may be lost. The old entry then hides a changed document that
  changes back (`CimdClients.LostMessageHidesChange`).
- A materialization that looked a row up does not look again before it writes: a row deleted and registered anew in
  between is overwritten, secret included, and an operator's edit in between is lost
  (`CimdRegistry.ReRegistrationIsTakenOver`, `CimdRegistry.DisablingIsReverted`).
- `delete_user` runs without a transaction: a token saved for the user in between makes its last statement fail and
  leaves the user with revoked tokens and deleted codes (`UserDeletion.LateTokenStopsDeletion`).

## Model

| member | source | states |
|---|---|---|
| `TokenBuckets.NewBucket` | oauth2-ratelimit/src/token_bucket.rs:18-35 | a new bucket is full, has the configured capacity and refills it in the configured window; zeros are clamped to one |
| `TokenBuckets.TryConsume` | oauth2-ratelimit/src/token_bucket.rs:38-46 | a call keeps tokens between 0 and capacity and never changes capacity or rate |
| `TokenBuckets.WindowRoundTrip` | oauth2-ratelimit/src/token_bucket.rs:57-60 | the reported window is the configured one, clamped to a second |
| `TokenBuckets.RefillCompose` | oauth2-ratelimit/src/token_bucket.rs:62-67 | refilling twice is refilling once, so polling does not change a bucket |
| `TokenBuckets.FullAfterWindow` | oauth2-ratelimit/src/token_bucket.rs:62-67 | after a window any bucket is full |
| `TokenBuckets.TokenLedger` | oauth2-ratelimit/src/token_bucket.rs:38-67 | over a run, admissions plus tokens left never exceed tokens before plus what dripped in |
| `TokenBuckets.BurstBound` | oauth2-ratelimit/src/token_bucket.rs:18-67 | every contiguous stretch of calls spanning time T admits at most capacity + rate * T, in every run, and tokens stay between 0 and capacity |
| `TokenBuckets.BurstGranted` | oauth2-ratelimit/src/token_bucket.rs:38-46 | n calls at one instant admit exactly as many as there are whole tokens |
| `TokenBuckets.RemainingExact` | oauth2-ratelimit/src/token_bucket.rs:38-46 | the reported remaining count is exactly how many more calls at that instant succeed |
| `TokenBuckets.RetryAdviceExact` | oauth2-ratelimit/src/token_bucket.rs:48-55 | after a rejection and any early polls, the next call is admitted if and only if it comes at or after the advised instant |
| `TokenBuckets.TokenBucket.Take` | oauth2-ratelimit/src/token_bucket.rs:38-46 | the mutable bucket does what the value-level call does |
| `TokenBuckets.TokenBucket.RefillNow` | oauth2-ratelimit/src/token_bucket.rs:62-67 | the mutable refill is the capped refill |
| `InMemoryLimiter.EvictedWouldBeFull` | oauth2-ratelimit/src/in_memory.rs:35-66 | a bucket the sweep dropped would answer like a newly created one |
| `InMemoryLimiter.EvictionUnobservable` | oauth2-ratelimit/src/in_memory.rs:35-82 | over every interleaving of checks on any keys with sweeps, each key sees the results of a never-evicted bucket of its own |
| `InMemoryLimiter.UnobservableIff` | oauth2-ratelimit/src/in_memory.rs:35-82 | that holds exactly for window_secs at least 1 |
| `InMemoryLimiter.LimiterBurstBound` | oauth2-ratelimit/src/in_memory.rs:56-82 | the burst bound for any stretch of one key's checks on the shared, evicting limiter |
| `InMemoryLimiter.ConfiguredBurstBound` | oauth2-ratelimit/src/in_memory.rs:56-82 | the burst bound in terms of max_requests and window_secs |
| `InMemoryLimiter.ResultsReport` | oauth2-ratelimit/src/in_memory.rs:65-81 | every result reports the configured limit, a reset one window ahead, retry advice exactly with a rejection, and as remaining exactly how many checks of the key at that instant are still allowed |
| `InMemoryLimiter.FirstCheck` | oauth2-ratelimit/src/in_memory.rs:56-81 | the first check of a key is allowed and leaves the rest of the capacity |
| `InMemoryLimiter.LimiterRetryExact` | oauth2-ratelimit/src/in_memory.rs:65-73 | the retry_after of the shared limiter is exact for the key, whatever other keys and sweeps do |
| `InMemoryLimiter.RateLimiter.CheckNow` | oauth2-ratelimit/src/in_memory.rs:56-82 | entry-or-insert, last_seen, consume and report on the shared map |
| `InMemoryLimiter.SweepMeaning` | oauth2-ratelimit/src/in_memory.rs:35-44 | after a sweep exactly the keys seen less than two windows ago are left, unchanged |
| `InMemoryLimiter.RateLimiter.CleanupNow` | oauth2-ratelimit/src/in_memory.rs:41-44 | the retain loop keeps exactly the entries seen less than two windows ago |
| `RedisLimiter.ScriptMeaning` | oauth2-ratelimit/src/redis.rs:59-92 | what the script leaves under the key and when the answer allows, counts that do not fit a u32 included |
| `RedisLimiter.ScriptHeals` | oauth2-ratelimit/src/redis.rs:54-69 | after a check every key expires within a window, also one that had no TTL, and the reported TTL is right to half a second |
| `RedisLimiter.AnswerReports` | oauth2-ratelimit/src/redis.rs:74-92 | an answer reports the configured limit and the expiry of the key to half a second, and only a count beyond a u32 is an error |
| `RedisLimiter.ExpiredKeyAdmits` | oauth2-ratelimit/src/redis.rs:59-92 | the first check at or after the expiry opens a window and is allowed |
| `RedisLimiter.RemainingExact` | oauth2-ratelimit/src/redis.rs:82-87 | the reported remaining count is exactly how many more checks at that instant succeed |
| `RedisLimiter.FixedWindowBound` | oauth2-ratelimit/src/redis.rs:50-92 | from any store, each key is admitted at most 2 * max_requests - 1 times in any half-open interval of one window |
| `RedisLimiter.BoundAttained` | oauth2-ratelimit/src/redis.rs:50-92 | for every configuration and key some run in clock order from the empty store reaches that bound |
| `RedisLimiter.RetryAdvice` | oauth2-ratelimit/src/redis.rs:82-92 | after a rejection and any polls, the next check is admitted exactly from the expiry on; the advised instant is admitted if and only if rounding to seconds did not cut the remaining time |
| `RedisLimiter.CheckedKeysExpire` | oauth2-ratelimit/src/redis.rs:54-69 | after every run a checked key expires within a window of its last check |
| `RedisLimiter.RedisRateLimiter.CheckNow` | oauth2-ratelimit/src/redis.rs:50-92 | the script step by step and the decision after it |
| `CircuitBreakers.CircuitBreaker.Transition` | oauth2-resilience/src/circuit_breaker.rs:240-282 | the state change with its resets, and nothing when the state is already there |
| `CircuitBreakers.CircuitBreaker.AllowNow` | oauth2-resilience/src/circuit_breaker.rs:148-177 | the answer and new state do not depend on how often the weak compare-exchange fails spuriously |
| `CircuitBreakers.CircuitBreaker.SucceedNow` | oauth2-resilience/src/circuit_breaker.rs:180-196 | effect of a recorded success in each state |
| `CircuitBreakers.CircuitBreaker.FailNow` | oauth2-resilience/src/circuit_breaker.rs:199-215 | effect of a recorded failure in each state |
| `CircuitBreakers.CircuitBreaker.State` | oauth2-resilience/src/circuit_breaker.rs:128-131 | looking at the state may itself move Open to HalfOpen |
| `BreakerHistory.CountersRefineHistory` | oauth2-resilience/src/circuit_breaker.rs:148-282 | after every run, state, counters and answers are those of a reference that keeps no counters but the log of the current epoch |
| `BreakerHistory.ClosedOpensAtThreshold` | oauth2-resilience/src/circuit_breaker.rs:199-215 | Closed opens exactly at the failure_threshold-th consecutive failure since the last success or entry to Closed |
| `BreakerHistory.HalfOpenClosesAtThreshold` | oauth2-resilience/src/circuit_breaker.rs:180-215 | HalfOpen closes exactly at the success_threshold-th success of the epoch and reopens at any failure |
| `BreakerHistory.ProbeLedger` | oauth2-resilience/src/circuit_breaker.rs:154-215 | probe_count is admissions minus outcomes of the epoch modulo 2^32; it is that number and within the limit when every outcome has its probe; a denied call changes nothing |
| `BreakerHistory.ProbesBoundedIffMatched` | oauth2-resilience/src/circuit_breaker.rs:154-215 | the probe counter of a reachable half-open circuit is within its limit if and only if every outcome of the epoch had a probe of it, for fewer than about 2^32 outcomes |
| `BreakerHistory.StragglerStarvesProbes` | oauth2-resilience/src/circuit_breaker.rs:186-194 | a success recorded while no probe is in flight wraps the counter, and the breaker then denies all requests and stays HalfOpen through any number of polls |
| `BreakerHistory.StarvationIsReachable` | oauth2-resilience/src/circuit_breaker.rs:148-215 | an ordinary run with one late success leads there |
| `BreakerTiming.NoAdmissionAfterTrip` | oauth2-resilience/src/circuit_breaker.rs:148-177 | whatever comes before and after a trip, no request is admitted and no trip happens within open_duration of it |
| `BreakerTiming.OpenAdmitsFromThere` | oauth2-resilience/src/circuit_breaker.rs:148-177 | and no longer: a request to an open circuit is admitted exactly from the end of open_duration on |
| `BreakerTiming.TripRateBound` | oauth2-resilience/src/circuit_breaker.rs:221-264 | any interval of length L holds at most 1 + L / open_duration trips |
| `BreakerAtomics.OpeningsConserved` | oauth2-resilience/src/circuit_breaker.rs:240-264 | under every interleaving of atomic accesses, every opening is counted or still owed by exactly one thread |
| `BreakerAtomics.TripLedger` | oauth2-resilience/src/circuit_breaker.rs:199-282 | total_trips plus the threads that swapped to Open and have not counted it equals the number of openings modulo 2^32 |
| `BreakerAtomics.TripsCountedOnce` | oauth2-resilience/src/circuit_breaker.rs:133-136 | when all threads have returned, total_trips is the number of openings |
| `BreakerAtomics.UninterruptedCall` | oauth2-resilience/src/circuit_breaker.rs:148-282 | every call whose accesses are not interrupted has exactly the method-level effect and answer, however often its compare-exchange fails spuriously |
| `BreakerAtomics.CallEnds` | oauth2-resilience/src/circuit_breaker.rs:148-282 | and it ends, after a number of accesses bounded by its spurious failures |
| `BreakerAtomics.AccessIsLocal` | oauth2-resilience/src/circuit_breaker.rs:148-282 | what a step writes and where the thread goes on depend on one atomic only, whatever other threads did to the rest |
| `BreakerAtomics.AskingAccess` | oauth2-resilience/src/circuit_breaker.rs:148-177 | a request is answered by exactly one access: it is let through, or finds the circuit open or all probes taken; after any other it asks on |
| `BreakerAtomics.StopsAskingOnlyAnswered` | oauth2-resilience/src/circuit_breaker.rs:154-174 | under every interleaving a request that stopped asking was answered so by an access of its own |
| `BreakerAtomics.CallsInARow` | oauth2-resilience/src/circuit_breaker.rs:148-282 | calls of any threads that do not overlap have the effect of the method-level run and admit exactly as many requests |
| `BreakerOverlap.GuardedShut` | oauth2-resilience/src/circuit_breaker.rs:148-282 | a guarded open circuit stays Open and admits nothing under every interleaving of accesses and clock readings over a span no longer than the open duration |
| `BreakerOverlap.ShutIffGuarded` | oauth2-resilience/src/circuit_breaker.rs:148-282 | and only a guarded one does: an old opened_at, a thread holding an old copy of it or an old reading still to be stored, a thread about to leave Open, enough successes on their way, or a request past the state check that can get room each break it |
| `BreakerOverlap.CasBelowAlways` | oauth2-resilience/src/circuit_breaker.rs:160-174 | in every reachable world a compare-exchange is tried only below the probe limit, the premise of the two exact results |
| `BreakerOverlap.OverlapAdmitsAtOnce` | oauth2-resilience/src/circuit_breaker.rs:240-264 | an old opened_at is reached for every threshold: with all readings in clock order, a request is admitted at the very instant the circuit opened |
| `BreakerOverlap.DelayedRequestAdmitsAtOnce` | oauth2-resilience/src/circuit_breaker.rs:221-238 | an old copy is reached: a request that copied opened_at and was delayed is admitted at the instant of a later trip that is over and stamped |
| `BreakerProbes.CounterBoundsFlight` | oauth2-resilience/src/circuit_breaker.rs:154-215 | within a HalfOpen epoch with no reset on its way, under every interleaving and with any outcomes, probes admitted minus probes given back never exceed the limit and probe_count is that number modulo 2^32 |
| `BreakerProbes.LimitIffNoReset` | oauth2-resilience/src/circuit_breaker.rs:154-282 | and only then: the limit on probes in flight is kept if and only if no thread has yet to reset the counter, or no probe is allowed at all |
| `BreakerProbes.LateResetExceedsLimit` | oauth2-resilience/src/circuit_breaker.rs:266-271 | right after the swap to HalfOpen, before the counter is reset, more than half_open_max_probes probes get in flight, for every threshold and in clock order |
| `SocialLoginBreaker.CircuitBreaker.AllowNow` | crates/oauth2-social-login/src/circuit_breaker.rs:54-72 | the mutex breaker's answer and new state |
| `SocialLoginBreaker.CircuitBreaker.FailNow` | crates/oauth2-social-login/src/circuit_breaker.rs:82-90 | effect of a failure on the mutex breaker |
| `SocialLoginBreaker.HistoryDictates` | crates/oauth2-social-login/src/circuit_breaker.rs:54-90 | over every run consecutive_failures is the number of failures since the last success modulo 2^32, in every state, and the state is the one the history dictates |
| `SocialLoginBreaker.OpenSinceLastOpening` | crates/oauth2-social-login/src/circuit_breaker.rs:82-90 | an open circuit counts its cooldown from the last failure that met the threshold or ended a HalfOpen |
| `SocialLoginBreaker.AdmitsIff` | crates/oauth2-social-login/src/circuit_breaker.rs:54-72 | a request is admitted exactly if Closed or Open for the cooldown, and only one then |
| `SocialLoginBreaker.BreakersAgreeIff` | crates/oauth2-social-login/src/circuit_breaker.rs:54-90 | on every run without a splitting outcome it gives the answers of the atomic breaker with one probe and one success, and exactly on these runs no request could ever tell the two apart |
| `SocialLoginBreaker.BreakersAgree` | crates/oauth2-social-login/src/circuit_breaker.rs:54-90 | on every run whose outcomes are recorded in the epoch that admitted them, it gives the same answers as the atomic breaker with one probe and one success |
| `SocialLoginBreaker.LateSuccessSplitsThem` | crates/oauth2-social-login/src/circuit_breaker.rs:75-79 | a success recorded while Open closes this breaker and is ignored by the other |
| `BackPressure.PermitLedger` | oauth2-resilience/src/back_pressure.rs:34-79 | over every run, in_flight is the permits held and within the limit, a request is rejected exactly at the limit, every rejection is counted |
| `BackPressure.NewLimiter` | oauth2-resilience/src/back_pressure.rs:34-43 | the limit is the configured one, at least one |
| `BackPressure.ConcurrencyLimiter.AcquireNow` | oauth2-resilience/src/back_pressure.rs:71-79 | taking a permit or counting a rejection |
| `Bulkheads.FirstMatch` | oauth2-resilience/src/bulkhead.rs:67-74 | the least index whose prefix the path starts with, none exactly when no prefix fits |
| `Bulkheads.PoolsDoNotInterfere` | oauth2-resilience/src/bulkhead.rs:64-84 | answers and counters of a pool equal those of a lone limiter fed only the operations whose path first-matches its prefix |
| `Bulkheads.PoolRejectsOnlyAtItsLimit` | oauth2-resilience/src/bulkhead.rs:64-84 | a pool holds at most its configured limit and rejects exactly when its own requests hold all its permits |
| `Bulkheads.UnroutedChangesNothing` | oauth2-resilience/src/bulkhead.rs:67-74 | a path that starts with no configured prefix gets no permit and changes nothing |
| `Bulkheads.NameOfPool` | oauth2-resilience/src/bulkhead.rs:42-57 | a prefix is reported under the name of the last configuration that has it |
| `Bulkheads.BulkheadRegistry.FromConfigs` | oauth2-resilience/src/bulkhead.rs:42-57 | the loop builds one separate limiter per configuration in order, and the name map |
| `Bulkheads.BulkheadRegistry.AcquireFor` | oauth2-resilience/src/bulkhead.rs:64-84 | only the first matching pool changes; an unmatched path changes nothing and yields no permit |
| `Bulkheads.BulkheadRegistry.Snapshots` | oauth2-resilience/src/bulkhead.rs:87-106 | one snapshot per pool with its name, gauge, limit and rejections |
| `DpopReplay.AcceptancesConserved` | crates/oauth2-storage-sqlx/src/sqlx.rs:2419-2457 | under every statement-level interleaving, the calls that accepted a jti number its evictions plus one if its row is present |
| `DpopReplay.SecondAcceptanceNeedsCleanup` | crates/oauth2-storage-sqlx/src/sqlx.rs:2424-2439 | a second acceptance needs a cleanup in between with a clock past the expiry the first call stored |
| `DpopReplay.ExactlyOneAccepted` | crates/oauth2-storage-sqlx/src/sqlx.rs:2415-2457 | as long as no cleanup that runs finds the stored expiry passed, exactly one of the completed calls for a jti returns true; once the row is there after such a cleanup, more than one has |
| `DpopReplay.DpopStore.CheckAndInsert` | crates/oauth2-storage-sqlx/src/sqlx.rs:2419-2457 | the two statements of one call |
| `SqlStorage.RunKeepsIntegrity` | crates/oauth2-storage-sqlx/src/sqlx.rs:353-494 | the guarantee of the database: since it refuses violating statements, every run, with those of delete_user anywhere in it, keeps all foreign keys of tokens, codes and devices valid |
| `SqlStatements.RefusedIffInconsistent` | crates/oauth2-storage-sqlx/src/sqlx.rs:328-494 | the database refuses exactly the statements that would break a primary key, a UNIQUE column or a foreign key |
| `SqlStatements.RunKeepsConsistent` | crates/oauth2-storage-sqlx/src/sqlx.rs:328-494 | so every run keeps all these constraints |
| `SqlStatements.TokenRow` | crates/oauth2-storage-sqlx/src/sqlx.rs:1039-1204 | tokens appear as saved and are never deleted; besides revocation only the family changes, exactly for the given access token |
| `SqlStatements.CodeRow` | crates/oauth2-storage-sqlx/src/sqlx.rs:1248-1357 | codes appear as saved, are marked used exactly by their value, and are deleted only with their user |
| `SqlStatements.DeviceRow` | crates/oauth2-storage-sqlx/src/sqlx.rs:1359-1535 | the last decision on a user code wins, an approval sets the user, use is remembered, nothing else changes |
| `SqlStatements.PrincipalRow` | crates/oauth2-storage-sqlx/src/sqlx.rs:656-990 | users and clients are there from their insert to their delete |
| `RevocationLedger.RevokedStays` | crates/oauth2-storage-sqlx/src/sqlx.rs:1140-1246 | a revoked token stays revoked over every run |
| `RevocationLedger.RevocationMeaning` | crates/oauth2-storage-sqlx/src/sqlx.rs:1140-1246 | each of the five revocations revokes exactly the tokens it is meant for (by value, id, family, user, client) and changes nothing else |
| `RevocationLedger.RevokedForGood` | crates/oauth2-storage-sqlx/src/sqlx.rs:1140-1246 | what a revocation meant is revoked after every continuation |
| `RevocationLedger.RevokedForAReason` | crates/oauth2-storage-sqlx/src/sqlx.rs:1140-1246 | a token revoked in the end was saved so, or some statement of the run was meant to revoke it |
| `RevocationLedger.NoTokenCountedTwice` | crates/oauth2-storage-sqlx/src/sqlx.rs:1165-1246 | the counts returned by the revocations by id, by user and by client add up to the number of distinct tokens they revoked |
| `RevocationLedger.CountIsFlips` | crates/oauth2-storage-sqlx/src/sqlx.rs:2459-2477 | such a count is the number of tokens the call was meant for and turned from valid to revoked |
| `RevocationLedger.FamilyCountsAgain` | crates/oauth2-storage-sqlx/src/sqlx.rs:1206-1225 | the family revocation also counts members revoked before, so it is not part of that ledger |
| `UserDeletion.SerialDeletion` | crates/oauth2-storage-sqlx/src/sqlx.rs:1888-1932 | undisturbed, delete_user always succeeds, leaves no reference, revokes exactly the user's tokens and changes no row of others |
| `UserDeletion.InterleavedDeletion` | crates/oauth2-storage-sqlx/src/sqlx.rs:1888-1932 | interleaved with any statements, it succeeds, with the user gone and unreferenced, if and only if no row of a table already cleared is given to the user and not taken again; otherwise the last statement changes nothing |
| `UserDeletion.OwnedAfterRun` | crates/oauth2-storage-sqlx/src/sqlx.rs:1888-1932 | over every run a row belongs to a user exactly if it did and was never taken, or was given to the user and not taken since |
| `UserDeletion.InterleavedRevokes` | crates/oauth2-storage-sqlx/src/sqlx.rs:1888-1932 | however it is interleaved and however it ends, every token the user had at the start is revoked |
| `UserDeletion.SqlxStorage.RevokeCounted` | crates/oauth2-storage-sqlx/src/sqlx.rs:1165-1246 | the returned count is the number of tokens the call newly revoked |
| `UserDeletion.LateTokenStopsDeletion` | crates/oauth2-storage-sqlx/src/sqlx.rs:1893-1911 | a token saved for the user in between makes the last statement fail and leaves a half-deleted user |
| `UserDeletion.SqlxStorage.DeleteUserNow` | crates/oauth2-storage-sqlx/src/sqlx.rs:1888-1932 | the four statements in order, none of which fails |
| `CimdClients.OwnershipKept` | crates/oauth2-actix/src/actors/client_actor.rs:584-701 | over every serial run, rows no operator touches keep their operator state, and rows with a secret or not managed do not change |
| `CimdClients.ReplyMeaning` | crates/oauth2-actix/src/actors/client_actor.rs:650-690 | a document is refused exactly if its client id is foreign, if it is new and the registry full, or if its row id is taken |
| `CimdClients.WriteMeaning` | crates/oauth2-actix/src/actors/client_actor.rs:645-697 | a new document becomes a managed row, a changed one replaces the document columns only, an unchanged one and every refusal write nothing |
| `CimdClients.DocumentStored` | crates/oauth2-actix/src/actors/client_actor.rs:645-697 | after a successful pass over the database the row carries the document and no other row changed |
| `CimdClients.RefreshWritesNothing` | crates/oauth2-actix/src/actors/client_actor.rs:622-666 | re-materializing an unchanged document writes nothing, whatever the cache holds |
| `CimdClients.CacheMeaning` | crates/oauth2-actix/src/actors/client_actor.rs:618-697 | only a matching entry younger than five minutes spares the database, and what is cached is what was stored |
| `CimdClients.FastPathRefinesSlow` | crates/oauth2-actix/src/actors/client_actor.rs:622-697 | over every run without operator edits of the client or lost cache messages, an answer from the cache is the one the database would give, without a write |
| `CimdClients.HitsAreRightIff` | crates/oauth2-actix/src/actors/client_actor.rs:622-626 | a young cache entry is right for every document if and only if it says what the row says |
| `CimdClients.LostMessageHidesChange` | crates/oauth2-actix/src/actors/client_actor.rs:692-695 | a lost cache message leaves a wrong entry: a document that changes back is not stored |
| `CimdClients.SerialRegistryBound` | crates/oauth2-actix/src/actors/client_actor.rs:668-678 | over every serial run mixed with operator edits, a registry within its limit never exceeds it |
| `CimdClients.ClientActor.MaterializeNow` | crates/oauth2-actix/src/actors/client_actor.rs:618-701 | the handler with its cache fast path; it succeeds exactly on a cache hit or an accepted document, and an error writes nothing |
| `CimdRegistry.RegistryBound` | crates/oauth2-actix/src/actors/client_actor.rs:645-697 | managed rows plus requests past the count check never exceed max_clients + K - 1, for every interleaving of the storage calls with deletions, edits and registrations by operators |
| `CimdRegistry.RegistryNeverOverflows` | crates/oauth2-actix/src/actors/client_actor.rs:669-690 | the same from any table within the limit and K idle requests |
| `CimdRegistry.BoundAttained` | crates/oauth2-actix/src/actors/client_actor.rs:669-690 | K new documents can bring a table one short of the limit to exactly max_clients + K - 1 |
| `CimdRegistry.ForeignRowSafe` | crates/oauth2-actix/src/actors/client_actor.rs:645-697 | under every interleaving, a row with a secret or not managed never changes except by an operator, if no update of it was pending at the start |
| `CimdRegistry.ForeignRowSafeIff` | crates/oauth2-actix/src/actors/client_actor.rs:645-697 | and only then: with a pending update some interleaving changes it |
| `CimdRegistry.DocumentsAlways` | crates/oauth2-actix/src/actors/client_actor.rs:645-697 | what requests carry is always marked as managed and without a secret, the premise of that result, as long as documents contain none |
| `CimdRegistry.OperatorStateSafeIff` | crates/oauth2-actix/src/actors/client_actor.rs:603-616 | requests leave the operator state of a row as it is under every interleaving if and only if no pending update carries an older one |
| `CimdRegistry.NeverWritten` | crates/oauth2-actix/src/actors/client_actor.rs:645-697 | under every interleaving an update leaves row id, client id, creation date and require_state as they are |
| `CimdRegistry.AppearsOnlyByInsert` | crates/oauth2-actix/src/actors/client_actor.rs:645-697 | a row appears only by a save past the count check or a registration, so a late update does not bring a deleted row back |
| `CimdRegistry.UndisturbedRequest` | crates/oauth2-actix/src/actors/client_actor.rs:645-697 | a request that nobody disturbs ends after at most four storage calls with the rows of the undisturbed handler |
| `CimdRegistry.ReRegistrationIsTakenOver` | crates/oauth2-actix/src/actors/client_actor.rs:650-666 | a row deleted and registered anew between lookup and update is taken over and loses its secret |
| `CimdRegistry.DisablingIsReverted` | crates/oauth2-actix/src/actors/client_actor.rs:650-666 | an operator who disables a client between lookup and update sees it enabled again |
| `ParStore.EvictionUnobservable` | crates/oauth2-actix/src/actors/auth_actor.rs:344-372 | after every run the store answers what a store that never evicts answers |
| `ParStore.NothingDeadIsKept` | crates/oauth2-actix/src/actors/auth_actor.rs:344-372 | right after any operation the store holds nothing pushed 60 seconds ago or earlier |
| `ParStore.AnswerWasPushed` | crates/oauth2-actix/src/actors/auth_actor.rs:363-372 | whatever is returned was pushed under that uri less than 60 seconds ago with this client and these parameters, and not used since |
| `ParStore.LivePushIsReturned` | crates/oauth2-actix/src/actors/auth_actor.rs:344-372 | a pushed request that is live and unused is returned |
| `ParStore.SingleUse` | crates/oauth2-actix/src/actors/auth_actor.rs:363-372 | with fresh uris, a request that was returned is never returned again |
| `ParStore.AuthActor.StorePAR` | crates/oauth2-actix/src/actors/auth_actor.rs:347-360 | evict, then insert |
| `ParStore.AuthActor.GetPAR` | crates/oauth2-actix/src/actors/auth_actor.rs:366-371 | evict, then remove and return |

## Left out

- HTTP handlers, middleware, routing, configuration and startup: assembly without state of its own.
- Tracing, metrics and the wrappers around storage and Redis that only observe.
- Database and Redis failures other than constraint violations and the u32 conversion of the Redis counter.
- Redis counters that are negative or not integers, and INCR overflow.
- The Redis cache behind the client actor, the capacity of its LRU cache (an entry may vanish at any time instead), and read replicas.
- CimdClients.OwnershipKept: stated for messages handled one after the other; `CimdRegistry.ForeignRowSafeIff` and `CimdRegistry.OperatorStateSafeIff` say what holds when they interleave.
- CimdRegistry.RegistryBound: edits and registrations by operators do not set the managed mark; an edit that writes back a row read before it was deleted and registered anew is not modelled.
- BreakerAtomics.TripLedger: weaker memory orderings than sequential consistency are not modelled.
- Columns of the SQL tables that no modelled statement reads or compares, and listing, paging, audit and denylist operations.
- The MongoDB storage, PKCE, key generation and other cryptography.
- The interning of bulkhead names, which only gives them a static lifetime.
