# Proxy Sentinel: a verified model of its state machines

Proxy Sentinel is an HTTP gateway written in Go. Its hard logic is a handful of small in-memory state
machines: a token-bucket rate limiter, an asynchronous log writer with live fan-out, a brute-force limiter
for logins, session invalidation through a cached token version, a load balancer, an IP access list, a
JSON masking scanner, an alert engine, and a filter-to-SQL builder. This project models each of them in
Dafny 4.11 and proves what it is for, over every input and every run.

`dafny verify dfyconfig.toml` checks the project.

How a component is written down:

- The effect of each operation is a function from state to state (`AllowStep`, `Appended`, `BackendStep`,
  ...). Where the source updates an object in place there is a class with the same fields, and each of its
  methods is proved to change its contents exactly by that function.
- Where calls of several goroutines interleave, a `State`, an `Event` and a `Step` describe one critical
  section or one channel operation at a time. A run is any list of enabled events; the theorems hold after
  every run.
- What these functions mean is proved apart from them, with the conditions, values and words of the source
  written out: which row a statement changes and how, when a lock ends, which backend a draw returns, which
  rows a filter lets through.
- Clock readings, random draws, outcomes of queries and of sending, the iteration order of Go maps, and
  the text parsing of libraries are parameters, so they may be anything the source could meet.

Arithmetic is exact. The rate limiter counts tokens multiplied by its window, so refilling stays an integer
and no rounding is involved.

| file | module | models |
|---|---|---|
| Buckets.dfy | Buckets | one token bucket: refill, sliding window, Retry-After |
| Limiter.dfy | Limiting | the table of buckets with its sweeps, and the middleware |
| LoginLimiter.dfy | LoginLimiting | failed logins per client address |
| LogQueue.dfy | LogQueue | buffer, wake-up channel, flusher and shutdown of the log writer |
| LogFanout.dfy | LogFanout | subscriber channels of the live log |
| Sessions.dfy | Sessions | token versions and the cache, interleaved step by step |
| SessionStore.dfy | SessionStore | the users table, the middleware and the handlers as objects |
| Balancing.dfy | Balancing | round robin, random and weighted choice, health map |
| IpAcl.dfy | IpAcl | compilation and lookup of the access list |
| Masking.dfy | Masking | the masking loop for one field |
| FieldMasking.dfy | FieldMasking | what masking does to a field, said on the text |
| FieldOrder.dfy | FieldOrder | masking fields one after the other, and taking the first one out |
| LetterCase.dfy | LetterCase | masking does not look at the case of letters |
| Stretches.dfy | Stretches | the stretches that scans read, and why their order does not matter |
| MaskOrder.dfy | MaskOrder | masking all sensitive fields: when the order does not matter, and a second pass |
| MaskExamples.dfy | MaskExamples | texts on which the order matters, or a second pass changes something |
| Alerts.dfy | Alerts | rounds of the alert engine |
| Placeholders.dfy | Placeholders | binding of `?` marks, their renumbering, and how each database reads the result |
| Queries.dfy | Queries | log and audit filters compiled to SQL |
| QueryMeaning.dfy | QueryMeaning | which rows a filter lets through, and how its conditions read |
| Collections.dfy | Collections | optional values, and helpers on sets, maps, sequences and products |

Several properties that one might expect turn out to need a condition. Each comes with a concrete input that
shows it, and with the condition:

- A call reads the clock before it takes the lock, so its reading may be older than a sweep and the call then
  gets a full bucket (`Limiting.StaleReadingSeesSweep`). The limiter serves a key as its own bucket would
  exactly when that bucket would be full whenever the table has lost it (`Limiting.ServedExactly`). It is when
  the readings are covered (`Limiting.Covered`), for which one window and a nanosecond of lateness is allowed
  (`Limiting.TimelyIsCovered`, `Limiting.PromptIsCovered`), and one nanosecond more is too much.
- A user deleted and created again under the same name starts at version 0, and an old token fits again
  (`Sessions.RecreatedUserKeepsOldToken`); equal versions mean equal credentials exactly for the same row
  (`Sessions.CredentialsExactly`).
- Thirty seconds do not bound the age of cached readings (`Sessions.SlowLookupOutlivesCache`); the bound adds
  the delays of the two requests involved (`Sessions.VerdictsBoundedlyStale`), and it is exact
  (`Sessions.BoundIsReached`).
- A change does not end all old sessions when its handler returns (`Sessions.SlowLookupOutlivesCache` is such a
  run): requests that already hold the old reading can still be accepted, and only those
  (`Sessions.InvalidationIsExact`).
- A record written while the log writer shuts down can be lost without a report (`LogQueue.LateWriteStays`);
  these are exactly the records accepted after the last flush (`LogQueue.ShutdownLossExactly`).
- A recovery that happens while alerting is disabled leaves the old failure on record, and the next failure
  is silenced (`Alerts.RecoveryWhileDisabledSilences`); `Alerts.FailureTriedExactly` says when.
- Masking the sensitive fields in the random order of a Go map gives different results for some texts, also
  well-formed ones (`MaskExamples.OrderMatters`), and a second pass can change a masked text
  (`MaskExamples.SecondPassChanges`); neither happens when the fields keep apart in the text
  (`MaskOrder.AnyOrder`, `MaskOrder.PassIdempotent`). The converse does not hold: stretches may meet without
  a visible difference (`MaskExamples.OverlapMayAgree`).
- Renumbering for PostgreSQL does not preserve every query: in `?1` the digit joins the number
  (`Placeholders.MarkBeforeDigit`), in `a?` the name takes the number along (`Placeholders.MarkBehindName`), and
  `?a` cannot be read at all from version 15 on (`Placeholders.MarkBeforeName`). It does exactly when no mark stands right behind a
  name, or right before a digit or a name, and no `$` outside a name (`Placeholders.RoundTripExactly`). In every
  built query each mark stands behind a blank, and before a blank, a `)` or the end (`Queries.Send`).

The comment on `SetBackends` says that known backends keep their health; the code makes every backend
healthy again (internal/proxy/balancer.go:154-163), and so does the model.

## Model

| member | source | states |
|---|---|---|
| Buckets.FreshIsFull | internal/ratelimit/ratelimit.go:54-55 | a bucket that was never used holds exactly the limit at its first call |
| Buckets.LevelWithinEnvelope | internal/ratelimit/ratelimit.go:53-60 | from any earlier call on, a bucket never holds more than a full burst plus the flow minus what was taken, also with time stamps out of order |
| Buckets.LevelOnSomeEnvelope | internal/ratelimit/ratelimit.go:53-60 | a bucket that started fresh always holds exactly what one of its earlier calls allows |
| Buckets.AdmitsExactly | internal/ratelimit/ratelimit.go:53-66 | a call is admitted if and only if, seen from every earlier call, the admissions fit a burst of limit plus limit per window |
| Buckets.SlidingWindow | internal/ratelimit/ratelimit.go:41-60 | any stretch of calls ending with an admitted one holds at most limit + elapsed * limit / window admissions, from any state and with any time stamps |
| Buckets.FreshBurst | internal/ratelimit/ratelimit.go:50-60 | a fresh bucket admits its first limit calls, however close together |
| Buckets.RejectionsKeepPotential | internal/ratelimit/ratelimit.go:53-66 | rejected calls lose no refill: the content grows exactly with the time between first and last reading |
| Buckets.RetryExactly | internal/ratelimit/ratelimit.go:53-66 | after a rejection and only rejected calls since, a call is admitted if and only if the missing part of a token has flowed in |
| Buckets.RetryAfterSound | internal/api/tokens.go:210-213 | waiting the announced Retry-After seconds is always enough; calling before the computed nanoseconds never is |
| Buckets.RetryAfterBounded | internal/api/tokens.go:210-213 | one refused call: with the one-minute window and a bucket that is not overdrawn the announced seconds lie between 1 and 60/limit + 1; Limiting.WaitsBounded states it for runs |
| Limiting.CallAgreesExactly | internal/ratelimit/ratelimit.go:45-66 | one call is answered, and leaves its bucket, as by the key's own bucket if and only if the key is in the table or its bucket would be full by this reading |
| Limiting.ServedExactly | internal/ratelimit/ratelimit.go:37-93 | whole runs with readings in any order: the limiter serves a key step by step as its own never-swept bucket would if and only if that bucket would be full whenever the key calls and the table has lost it |
| Limiting.KeysAreIndependent | internal/ratelimit/ratelimit.go:37-93 | under that condition all answers for the key are those of its own bucket; Remove resets that bucket only |
| Limiting.CoveredIsFullWhenMissing | internal/ratelimit/ratelimit.go:76-93 | the condition holds if the key's readings are covered: whenever it calls after some reading more than two windows later than its last, its own readings and limits alone make its bucket full; all readings may be in any order |
| Limiting.LimiterRefinesBuckets | internal/ratelimit/ratelimit.go:37-93 | so, from an empty limiter, with any limits and concurrent calls of one key in any order, such a key is answered as by a fresh bucket of its own |
| Limiting.TimelyIsCovered | internal/ratelimit/ratelimit.go:41-43 | with any limits, readings of the key that are in order and at most a window and a nanosecond behind the latest reading of any operation are covered |
| Limiting.PromptIsCovered | internal/ratelimit/ratelimit.go:41-43 | with a steady limit they need not be in order: how far the key itself has gone back just counts as lateness |
| Limiting.TimelyIsPrompt | internal/ratelimit/ratelimit.go:41-43 | for ordered readings both bounds are the same |
| Limiting.NonDecreasingIsTimely | internal/ratelimit/ratelimit.go:41-43 | a clock that does not run backwards is timely for every key |
| Limiting.StaleReadingSeesSweep | internal/ratelimit/ratelimit.go:41-52 | for every window, a reading one nanosecond later than that: the call is admitted although its own bucket would refuse |
| Limiting.AloneIsBucketRun | internal/ratelimit/ratelimit.go:37-67 | with a steady limit the answers of the key's own bucket are those of the bucket run at its call times |
| Limiting.LimiterIsSlidingWindow | internal/ratelimit/ratelimit.go:37-93 | the whole limiter admits call i of a key with a steady limit and covered readings if and only if the sliding-window policy does, whatever other keys and sweeps do |
| Limiting.WaitsBounded | internal/api/tokens.go:210-213 | over any run with any limits, every refusal of a key with timely readings announces between 1 and 60/limit + 1 seconds |
| Limiting.RetryAfterOverRuns | internal/api/tokens.go:210-213 | over any run, for a key with a steady limit and covered readings: after a refusal and only refusals since, a call the announced seconds later is admitted and one before the computed wait is refused |
| Limiting.Limiter.constructor | internal/ratelimit/ratelimit.go:29-34 | a new limiter is empty |
| Limiting.Limiter.Allow | internal/ratelimit/ratelimit.go:37-67 | answer and new table are those of AllowStep: unlimited for non-positive limits, else sweep if full, refill, take or compute the wait |
| Limiting.Limiter.EnsureCell | internal/ratelimit/ratelimit.go:45-52 | a missing key gets an empty bucket, after a sweep if the table is full; present keys are untouched |
| Limiting.Limiter.PlaceCell | internal/ratelimit/ratelimit.go:50-51 | a new key gets an empty bucket of its own |
| Limiting.Limiter.ChargeCell | internal/ratelimit/ratelimit.go:53-66 | updates one bucket in place by the refill and the charge, and no other |
| Limiting.Limiter.RemoveKey | internal/ratelimit/ratelimit.go:70-74 | forgets one key and nothing else |
| Limiting.Limiter.SweepAll | internal/ratelimit/ratelimit.go:78-83 | keeps exactly the buckets used within the last two windows |
| Limiting.Limiter.SweepLocked | internal/ratelimit/ratelimit.go:86-93 | the deleting loop keeps exactly the buckets used within the last two windows |
| Limiting.RateLimit | internal/api/tokens.go:198-222 | the token's own limit wins over the default, unset limits pass, and a refusal carries the Retry-After seconds and the limit |
| Limiting.OthersKept | internal/ratelimit/ratelimit.go:45-52 | a call changes no other bucket, and forgets exactly those unused for more than two windows when it needs room in a full table |
| LoginLimiting.ReachableInv | internal/api/auth.go:49-110 | in every reachable state an entry is locked exactly when its count reached the threshold, and then until its last failure plus the lock duration |
| LoginLimiting.WindowHolds | internal/api/auth.go:49-110 | within a window shorter than the lock and the idle time the table still knows all its failures, and failures plus attempts in flight stay within the bound |
| LoginLimiting.WindowBound | internal/api/auth.go:49-110 | with at most c attempts in flight such a window records at most maxFail + c - 1 failures since the last success, whatever eviction does |
| LoginLimiting.EveryWindowBounded | internal/api/auth.go:49-110 | the same for every closed window anywhere in a run without successes |
| LoginLimiting.ThresholdRefuses | internal/api/auth.go:49-81 | once a window holds the threshold number of failures every further check in it is refused |
| LoginLimiting.RefusalEarned | internal/api/auth.go:49-81 | and only an address with that many failures since its last success is ever refused |
| LoginLimiting.RefusalRecent | internal/api/auth.go:49-63 | and only one that failed within the last lock duration, so every lock ends |
| LoginLimiting.CheckAtEndOfLock | internal/api/auth.go:56-63 | the first check at or after the end of a lock is admitted and forgets the count, so the next failure counts as one; an earlier check changes nothing and is refused |
| LoginLimiting.CheckUnlocked | internal/api/auth.go:49-63 | an unlocked address is admitted and keeps its count |
| LoginLimiting.CleanupExactly | internal/api/auth.go:95-105 | after any run an eviction removes exactly the addresses whose last failure is older than the idle time and, at the threshold, than the lock duration |
| LoginLimiting.LockNotShortened | internal/api/auth.go:49-110 | no check, failure or eviction ends a lock before its time |
| LoginLimiting.LockHolds | internal/api/auth.go:49-110 | over whole runs a locked address is refused until the end of its lock unless an attempt already in flight succeeds |
| LoginLimiting.BoundReached | internal/api/auth.go:135-173 | some run reaches the window bound within one instant, so the bound is exact |
| LoginLimiting.Limiter.constructor | internal/api/auth.go:31-41 | a new limiter is empty and keeps the policy it was given |
| LoginLimiting.Limiter.Allowed | internal/api/auth.go:49-63 | refuses exactly while a lock runs, forgets an ended one, keeps the count of an unlocked address |
| LoginLimiting.Limiter.Fail | internal/api/auth.go:66-81 | counts the failure and locks from the threshold on; other addresses are untouched |
| LoginLimiting.Limiter.EnsureEntry | internal/api/auth.go:69-73 | a missing address gets an empty entry, present ones are untouched |
| LoginLimiting.Limiter.CountFailure | internal/api/auth.go:74-80 | one entry is updated in place, and no other |
| LoginLimiting.Limiter.Succeed | internal/api/auth.go:84-88 | forgets one address |
| LoginLimiting.Limiter.CleanupTick | internal/api/auth.go:95-105 | evicts exactly the entries whose lock is over and that are idle for longer than the idle time |
| LoginLimiting.Login | internal/api/auth.go:135-173 | one login: refused exactly while a lock runs; unknown user and wrong password count alike; success clears; malformed requests and database errors change nothing |
| LogQueue.ReachableInv | internal/logger/db.go:59-150 | the invariant of the whole protocol: conservation, one batch in flight, no lost wake-up, shutdown marks, bounded buffer |
| LogQueue.AppendConserves | internal/logger/db.go:72-85 | a write, evicting or not, keeps the accepted records split into what left the buffer and the buffer |
| LogQueue.SettleFlattens | internal/logger/db.go:116-125 | storing or losing the batch in flight changes neither order nor contents of the history |
| LogQueue.InsertExactly | internal/logger/db.go:116-125 | a transaction that commits stores exactly the batch that was taken, one that fails loses it |
| LogQueue.FatesAreEarned | internal/logger/db.go:116-125 | over any run nothing is lost unless a transaction fails, and nothing stored unless one commits |
| LogQueue.EvictionsExactly | internal/logger/db.go:72-83 | over any run each eviction takes exactly the hundred oldest records, or all of a smaller capacity; a write evicts if and only if it finds the buffer full, and never without a capacity |
| LogQueue.StoredInOrder | internal/logger/db.go:101-126 | the database holds an in-order subsequence of the accepted records |
| LogQueue.RecordsConserved | internal/logger/db.go:72-126 | in every reachable state the accepted records are exactly the evicted and handed-over stretches followed by the buffer; counts add up; a positive capacity is never exceeded |
| LogQueue.NoBatchLeftBehind | internal/logger/db.go:84-144 | a full batch in the buffer always has a wake-up pending, so at rest less than a batch is left |
| LogQueue.InternalStepsEnd | internal/logger/db.go:92-144 | every step that happens by itself uses up work, so rest is reached |
| LogQueue.NothingLeftAfterClose | internal/logger/db.go:139-150 | after shutdown without later writes the buffer is empty and every accepted record was stored, lost with a failed batch or reported as evicted |
| LogQueue.ShutdownLossExactly | internal/logger/db.go:139-150 | after shutdown, whatever was written meanwhile: exactly the records accepted before the last flush were stored, lost with a failed batch or reported as evicted, and nothing is left if and only if there are no later ones |
| LogQueue.LateWriteStays | internal/logger/db.go:72-85 | a reachable state in which a record written during shutdown stays in the buffer for good |
| LogQueue.Writer.constructor | internal/logger/db.go:43-56 | a new writer has an empty buffer and no token |
| LogQueue.Writer.Append | internal/logger/db.go:72-85 | at a positive capacity the oldest hundred records make room, the count of dropped records grows by them, and from a hundred records on a flush is asked for |
| LogQueue.Writer.Write | internal/logger/db.go:59-98 | a record is dropped exactly when sampling is on and the drawn number exceeds the rate; any other is appended, numbered for the broadcast and leaves at most one token |
| LogQueue.Writer.TakeBatch | internal/logger/db.go:102-114 | hands over the whole buffer and the drop count and resets both |
| LogQueue.Writer.Flush | internal/logger/db.go:101-126 | the batch reaches the database as a whole or not at all, and the buffer is empty |
| LogQueue.Database.InsertLogs | internal/storage/logs.go:59-85 | one transaction: all records in order, or none |
| LogFanout.ReachableInv | internal/logger/db.go:153-179 | the invariant of the fan-out: registered channels are open, broadcasts under way are pending at registered channels only |
| LogFanout.ChannelsSafe | internal/logger/db.go:153-179 | no interleaving sends on a closed channel or closes one twice; registered means open; no channel holds more than 256 records |
| LogFanout.DeliveredOnceOrMissed | internal/logger/db.go:153-179 | every broadcast that started while a channel was subscribed reached it exactly once or found it full, and nothing else was delivered |
| LogFanout.BegunExactly | internal/logger/db.go:153-163 | over any run, these broadcasts are exactly those that began while the channel was subscribed |
| LogFanout.MissedExactly | internal/logger/db.go:157-161 | over any run, a channel missed exactly the broadcasts that were offered while it held 256 records |
| LogFanout.DeliveredGrows | internal/logger/db.go:157-161 | an offer puts its record behind the others, and the reader takes the oldest |
| LogFanout.DeliveredWasSent | internal/logger/db.go:88-90 | every record in a channel is that of a broadcast, with its text |
| LogFanout.Hub.constructor | internal/logger/db.go:43-51 | no subscribers at first |
| LogFanout.Hub.Subscribe | internal/logger/db.go:166-170 | registers a new open empty channel |
| LogFanout.Hub.Cancel | internal/logger/db.go:171-178 | closes and removes the channel the first time, does nothing afterwards |
| LogFanout.Hub.Broadcast | internal/logger/db.go:153-163 | offers the record to every subscriber; a full one misses it, the others keep order |
| LogFanout.Pipe.TrySend | internal/logger/db.go:157-161 | non-blocking send to an open channel |
| LogFanout.Pipe.Close | internal/logger/db.go:173-176 | closes a channel that is still open |
| Sessions.ReachableInv | internal/auth/web_auth.go:88-127 | in every interleaving of statements, cache accesses, clock readings and comparisons: rows only grow and do not come back, tokens were held by some snapshot, readings come from the snapshot that was the table when they were taken |
| Sessions.StatementExtends | internal/storage/auth.go:128-157 | no table statement lets a version fall, changes a row under its version, or brings a row back |
| Sessions.CredentialsExactly | internal/storage/auth.go:147-157 | an issued token with the version of the table carries the current role and comes from a login against the current hash if and only if the row is the one it was made from |
| Sessions.VersionDeterminesCredentials | internal/storage/auth.go:147-157 | in particular for every row that was never deleted |
| Sessions.RecreatedUserKeepsOldToken | internal/storage/auth.go:128-144 | a reachable state in which the row was deleted and made again and an old token fits with the old role |
| Sessions.AcceptanceExactly | internal/auth/web_auth.go:88-98 | the token of an accepted request carries the credentials of the snapshot it was judged by, cache and all, if and only if that snapshot held its row |
| Sessions.HeldTokenAccepted | internal/auth/web_auth.go:88-98 | conversely a token that the snapshot held is accepted, unless the query failed |
| Sessions.StatementsStore | internal/storage/auth.go:128-157 | the whole new table after each statement: the new hash or role and the next version in the one row, all other rows as before |
| Sessions.HandlerKnowsUser | internal/api/users.go:168-173 | the handler of a change invalidates the user whose row changed |
| Sessions.NewPasswordInForce | internal/api/users.go:139-177 | over any run after a reset, every login and token with the version that the reset gave the row carries the new hash and the role the row had |
| Sessions.NewRoleInForce | internal/api/users.go:184-221 | the same for a new role |
| Sessions.LoginReadsCurrent | internal/api/auth.go:150-173 | a login reads the current row, and issues what it read only if it succeeds |
| Sessions.VerdictsBoundedlyStale | internal/auth/web_auth.go:88-122 | every request was judged by what a snapshot said while it was the table, an unknown user included, or as unknown after a failed query; a change that outdated it came after the reading, and less than 30 s plus the storing request's time from table to stamp plus the judged request's time from age check to comparison before the comparison |
| Sessions.BoundIsReached | internal/auth/web_auth.go:88-122 | for all values of the two delays, a reachable cached verdict that is exactly as outdated as the bound allows |
| Sessions.StampIsKept | internal/auth/web_auth.go:114-121 | the age of an entry counts from the clock reading of the request that stored it, however long it waits in between |
| Sessions.EveryAgeOccurs | internal/auth/web_auth.go:88-122 | and every smaller sum of the two delays and an age below 30 s occurs, too |
| Sessions.SlowLookupOutlivesCache | internal/auth/web_auth.go:114-121 | for every delay, a reachable state with a request judged from the cache by a reading outdated for that long |
| Sessions.OwnLookupAnyAge | internal/auth/web_auth.go:88-98 | a request that asked the table itself can be judged by a reading outdated for any time |
| Sessions.CleanRun | internal/auth/web_auth.go:107-127 | once nothing read before a change is cached or held by a request, it never comes back |
| Sessions.StaleRequestFinishes | internal/auth/web_auth.go:88-122 | a request that holds an old reading can go on and be judged by it |
| Sessions.InvalidationIsExact | internal/api/users.go:168-173 | after change and invalidation a request can still be judged by the old state if and only if some request on its way holds it: a fresh entry it has loaded, an answer of the table, or a reading it is about to compare |
| Sessions.OldTokensRejected | internal/api/users.go:212-217 | without such a request, a token that the change outdated is never accepted again, except for a row made again under the same name |
| SessionStore.UserTable.CreateUser | internal/storage/auth.go:138-144 | adds a row with version 0 and a new id, or fails on a taken name |
| SessionStore.UserTable.GetUserByID | internal/storage/auth.go:114-125 | finds the user with the id if and only if there is one |
| SessionStore.UserTable.UpdatePasswordHash | internal/storage/auth.go:154-157 | that row gets the new hash and the next version, and nothing else changes |
| SessionStore.UserTable.UpdateUserRole | internal/storage/auth.go:147-150 | the row with the id gets the new role and the next version, and nothing else changes |
| SessionStore.UserTable.DeleteUser | internal/storage/auth.go:128-135 | removes the row with the id and says whether there was one |
| SessionStore.WebAuth.UserState | internal/auth/web_auth.go:107-122 | a fresh entry answers without touching the cache; otherwise the table does and the answer is stored, also after a failed query |
| SessionStore.WebAuth.InvalidateUser | internal/auth/web_auth.go:125-127 | removes one user's entry |
| SessionStore.Authorize | internal/auth/web_auth.go:75-101 | passes exactly known users with the current version as seen through the cache; a missing role is a viewer's |
| SessionStore.ResetPassword | internal/api/users.go:139-177 | done exactly for a readable request with a positive id of an existing user and a password of at least six characters, when no statement fails: the row has the new hash and the next version, then that user's cache entry is gone; otherwise nothing changes |
| SessionStore.UpdateRole | internal/api/users.go:184-221 | done exactly for a known role, an existing user and not a change of one's own role, when no statement fails: the row has the new role and the next version, then that user's cache entry is gone; otherwise nothing changes |
| SessionStore.DeleteUser | internal/api/users.go:88-132 | done exactly for an existing user who is neither oneself nor the last one, when no statement fails and no other deletion of the row comes first; not found when one does; the cache entry goes only when done |
| SessionStore.FinishDelete | internal/api/users.go:119-128 | the statement on whatever the table has become: not found without a row, else row and cache entry gone |
| Balancing.PickedByDistance | internal/proxy/balancer.go:116-124 | from a start position a backend that is up is chosen if and only if only down ones lie between |
| Balancing.RoundRobinShare | internal/proxy/balancer.go:116-124 | over any n consecutive counter values a backend that is up is chosen exactly 1 + (down backends cyclically just before it) times |
| Balancing.DownNeverChosen | internal/proxy/balancer.go:118-124 | a backend that is down is never chosen while another is up |
| Balancing.ScanSelects | internal/proxy/balancer.go:105-114 | the subtracting scan selects the entry whose stretch of the number line holds the drawn number |
| Balancing.WeightedShare | internal/proxy/balancer.go:93-115 | for any list of weights, over all drawn numbers every entry is selected exactly weight times, and the scan always selects |
| Balancing.RandomShare | internal/proxy/balancer.go:82-92 | every backend that is up is selected by exactly the draw that counts the up backends before it |
| Balancing.UpUrlsAreUp | internal/proxy/balancer.go:82-92 | and every draw selects a backend that is up |
| Balancing.RoundRobinIsUp | internal/proxy/balancer.go:116-124 | round robin returns the backend whose turn it is if that is up, else one that is up if there is one, else the first; it crashes exactly for counters from 2^63 on at the wrong distance |
| Balancing.RoundRobinIsFair | internal/proxy/balancer.go:116-124 | of any n consecutive calls a backend that is up is returned once and once more for each down backend just before it |
| Balancing.RandomIsUp | internal/proxy/balancer.go:82-92 | the random choice returns a backend that is up if there is one, else the drawn one |
| Balancing.RandomIsFair | internal/proxy/balancer.go:82-92 | each of the k backends that are up is returned by exactly one of k draws |
| Balancing.WeightedIsUp | internal/proxy/balancer.go:93-115 | the weighted choice returns a backend that is up and has a positive weight, and nothing exactly when there is none |
| Balancing.WeightedIsFair | internal/proxy/balancer.go:93-115 | over all draws a backend is returned as often as its weight if it is up and the weight positive, and never otherwise |
| Balancing.Balancer.constructor | internal/proxy/balancer.go:55-72 | every backend starts healthy; unknown strategies mean round robin |
| Balancing.Balancer.Next | internal/proxy/balancer.go:74-126 | dispatches on the strategy and returns a backend that is up, for weighted choice one with a positive weight, whenever there is one; only round robin advances the 64-bit counter; no backends give the empty url |
| Balancing.Balancer.NextRandom | internal/proxy/balancer.go:82-92 | draws among the backends that are up, or among all when none is |
| Balancing.Balancer.NextWeighted | internal/proxy/balancer.go:93-115 | draws by weight, or the empty url when no weight is left; the last return is never reached |
| Balancing.Balancer.NextRoundRobin | internal/proxy/balancer.go:116-124 | scans from the counter's position; from 2^63 on the signed index crashes unless it is a multiple of n |
| Balancing.Balancer.MarkDown | internal/proxy/balancer.go:128-134 | a configured backend becomes down; unknown urls change nothing |
| Balancing.Balancer.MarkUp | internal/proxy/balancer.go:136-142 | a configured backend becomes up; unknown urls change nothing |
| Balancing.Balancer.SetBackends | internal/proxy/balancer.go:155-164 | the health map covers exactly the new list and every backend is up again |
| Balancing.Balancer.SetStrategy | internal/proxy/balancer.go:166-174 | accepts the three strategies and keeps the old one otherwise |
| Balancing.ApplyProbe | internal/proxy/balancer.go:241-271 | a probe marks its backend up exactly when it was answered with a status below 500 |
| IpAcl.MaskedContainsAlike | internal/ipacl/ipacl.go:172-176 | clearing host bits does not change what a network contains |
| IpAcl.V4NetworkCovers | internal/ipacl/ipacl.go:220-225 | an IPv4 /n and the 128-bit /(96+n) contain the same IPv4 addresses |
| IpAcl.V4NetworkInMapped | internal/ipacl/ipacl.go:226-232 | an IPv4 network covers nothing outside the mapped block |
| IpAcl.UnmapInjective | internal/ipacl/ipacl.go:184-185 | unmapping gives equal addresses exactly one representation |
| IpAcl.CoversRange | internal/ipacl/ipacl.go:172-176 | a network is the range of numbers from its base without host bits on, as many as these bits can write |
| IpAcl.AddedMatches | internal/ipacl/ipacl.go:167-185 | one more entry makes exactly its own addresses match in addition |
| IpAcl.IndexAgrees | internal/ipacl/ipacl.go:154-241 | for every entry list and address the three-way index finds the address if and only if it lies, as a 128-bit number, in the set of some entry |
| IpAcl.CompileRules | internal/ipacl/ipacl.go:154-188 | succeeds exactly when no entry is empty, repeated or unparsable, names the first bad one, and builds the index of all entries |
| IpAcl.CheckEntry | internal/ipacl/ipacl.go:158-183 | rejects an entry exactly when it is empty, repeated or unparsable |
| IpAcl.AddRule | internal/ipacl/ipacl.go:167-185 | puts a network without host bits into the list of its family and an unmapped address into the set |
| IpAcl.Compile | internal/ipacl/ipacl.go:120-151 | accepts or rejects a configuration as a whole, including the refusal of deny with an empty whitelist |
| IpAcl.Lookup | internal/ipacl/ipacl.go:211-241 | the lookup hits exactly what the index matches; text that is no address is never found |
| IpAcl.Allowed | internal/ipacl/ipacl.go:197-208 | the compiled list decides as the policy on the entries: blacklist refuses, then whitelist allows, then the default |
| IpAcl.OrderIrrelevant | internal/ipacl/ipacl.go:120-241 | the order of the entries matters neither for acceptance of a configuration nor for its decisions |
| IpAcl.WellFormedAsBag | internal/ipacl/ipacl.go:157-183 | a list compiles exactly when, as a bag, its entries parse, none is empty or repeated and no two share their text |
| IpAcl.LegacyKept | internal/ipacl/ipacl.go:63-89 | lists in the older format keep their decisions and compile exactly when their entries do, except an empty whitelist |
| Masking.MaskValue | internal/logger/models.go:23-28 | same length, at most the first two characters of a longer value readable, stars elsewhere |
| Masking.OnlyPiecesChange | internal/logger/models.go:114-116 | writing the replaced stretches back gives the original text: nothing else changed |
| Masking.LengthKept | internal/logger/models.go:114-116 | without array values the length is kept |
| Masking.FixedPlan | internal/logger/models.go:59-117 | replacing leaves a text as it is if and only if every piece is masked already |
| Masking.QuoteStays | internal/logger/models.go:85-100 | the closing quote of a masked value is found at the same place although escapes may be cut in two |
| Masking.ListCutAgain | internal/logger/models.go:101-108 | a replaced array is found again as the string of three stars |
| Masking.OtherAgain | internal/logger/models.go:109-112 | values of other kinds are passed over again |
| Masking.KeyScannerIsGood | internal/logger/models.go:59-113 | the scan for a key never reaches into a value it passed over, and finds replaced values again |
| Masking.SecondScan | internal/logger/models.go:55-118 | scanning a masked text again finds the same values at the same places |
| Masking.MaskIdempotent | internal/logger/models.go:55-118 | masking a field twice is masking it once |
| Masking.MaskedTexts | internal/logger/models.go:55-118 | a text stays as it is if and only if every value found is masked already, and masked texts are such texts |
| Masking.MaskTouchesOnlyValues | internal/logger/models.go:55-118 | the result differs from the input in the replaced values only, and not in length without arrays |
| Masking.FindValue | internal/logger/models.go:67-79 | the loop over blanks stops where the value starts |
| Masking.ReadValue | internal/logger/models.go:82-113 | the loop over a string stops at its closing quote, with escapes skipped; unclosed values give up |
| Masking.LocateNext | internal/logger/models.go:60-113 | one step of the scan finds the next replacement |
| Masking.MaskField | internal/logger/models.go:55-118 | the loop that rewrites the text it scans terminates and computes the masked text |
| Masking.Replaced | internal/logger/models.go:114-116 | the value is replaced in place, the rest kept, and what is left to scan shrinks |
| FieldMasking.NoField | internal/logger/models.go:60-63 | a text in which the quoted key stands nowhere, in any case of its letters, stays as it is |
| FieldMasking.StringFieldMasked | internal/logger/models.go:82-100 | the first key, in any case of its letters, with a string value behind its colon: exactly that string, escapes included, is masked and the scan goes on behind it |
| FieldMasking.ListFieldMasked | internal/logger/models.go:101-108 | an array up to its first closing bracket becomes three stars in quotes |
| FieldMasking.OtherFieldKept | internal/logger/models.go:109-112 | any other value is kept and the scan goes on behind the key |
| FieldMasking.KeyWithoutColon | internal/logger/models.go:67-70 | without a colon behind the key the text stays as it is |
| FieldMasking.NoValueBehind | internal/logger/models.go:72-79 | without a value behind the colon the text stays as it is |
| FieldMasking.UnclosedString | internal/logger/models.go:96-98 | a string that is never closed stops the scan |
| FieldMasking.UnclosedList | internal/logger/models.go:103-106 | an array that is never closed stops the scan |
| LetterCase.NextCutSame | internal/logger/models.go:56-63 | texts that differ only in the case of letters are cut at the same places, for every key |
| LetterCase.CaseIgnored | internal/logger/models.go:53-118 | and masking a field leaves them different only in case |
| LetterCase.PassIgnoresCase | internal/logger/models.go:41-51 | so does the whole pass |
| FieldOrder.MaskKeepsToColon | internal/logger/models.go:67-116 | masking a field leaves the text up to and including its first colon |
| FieldOrder.NextCutShift | internal/logger/models.go:59-113 | as long as the key does not occur earlier, the scan may start at any later position |
| FieldOrder.FrontClean | internal/logger/models.go:114-116 | writing one masked value makes no other key appear in front of the rest |
| FieldOrder.CutAgrees | internal/logger/models.go:60-113 | one scan step depends only on the text from the key through its value |
| FieldOrder.TakenOut | internal/logger/models.go:47-50 | the field whose stretch comes first can be taken out of any list of fields, and written in front |
| Stretches.AnyOrderBy | internal/logger/models.go:47-50 | fields whose stretches keep apart can be masked in any order, for any scans with the properties of `Good` |
| MaskOrder.KeysGood | internal/logger/models.go:55-118 | the scans for keys without colon and star have these properties |
| MaskOrder.AnyOrder | internal/logger/models.go:43-51 | over all texts and lists of fields: if the stretches of any two fields, from key through value, keep apart in the text, any order of masking gives the same |
| MaskOrder.TwoFieldsCommute | internal/logger/models.go:47-50 | in particular two such fields commute |
| MaskOrder.SensitiveAnyOrder | internal/logger/models.go:43-51 | in particular the whole masking does not depend on the order in which the map of sensitive fields is visited |
| MaskOrder.PassIdempotent | internal/logger/models.go:43-51 | under the same condition masking all fields is idempotent, and a second pass in any other order changes nothing either |
| MaskOrder.SensitivePassIdempotent | internal/logger/models.go:43-51 | in particular for the sensitive fields, in any two visiting orders of the map |
| MaskOrder.SensitiveValuesMasked | internal/logger/models.go:10-51 | after the whole pass over fields that keep apart, every string found as the value of one of the nine fields is stars except for two characters of a longer one, and no array is left |
| MaskOrder.MaskText | internal/logger/models.go:43-51 | the loop over the fields masks them one after the other in the order it meets them |
| MaskExamples.OrderMatters | internal/logger/models.go:43-51 | a JSON text with overlapping stretches whose result depends on the order |
| MaskExamples.OverlapMayAgree | internal/logger/models.go:43-51 | the converse stops at values that are stars already: stretches that meet without a visible difference |
| MaskExamples.StarredKeyAppears | internal/logger/models.go:23-28 | why keys must be free of stars: one can appear in a masked value |
| MaskExamples.SecondPassChanges | internal/logger/models.go:43-51 | a text with fields that do not keep apart, which a second pass in the same order changes again |
| MaskOrder.SensitiveMaskIdempotent | internal/logger/models.go:10-20 | idempotence holds for every one of the sensitive fields |
| Alerts.RoundAbout | internal/alert/engine.go:190-220 | one round attempts a notification for a backend exactly when its observed health changed, and an up backend has no failure on record |
| Alerts.EveryChangeAnnounced | internal/alert/engine.go:163-220 | from the start, while alerting stays enabled and a backend configured, exactly every observed failure and every recovery is attempted |
| Alerts.ChangesAlternate | internal/alert/engine.go:201-219 | failures and recoveries alternate |
| Alerts.RepeatedAlertsSpaced | internal/alert/engine.go:273-299 | over any run, successive deliveries of the error-rate alert, or of one backend's latency alert, are at least the silence period apart |
| Alerts.ErrorRateExactly | internal/alert/engine.go:223-246 | after any run the error-rate alert is attempted exactly when alerting is enabled and configured, the threshold positive, the sample sufficient, 100 * errors at least threshold * requests, and the last delivery at least the silence period old; it is delivered exactly when sending works |
| Alerts.MoreErrorsStillBreach | internal/alert/engine.go:236-241 | more errors among as many requests never end a breach |
| Alerts.LatencyExactly | internal/alert/engine.go:249-270 | the same for the latency alert of a backend and its average |
| Alerts.RecordIsOpenFailure | internal/alert/engine.go:190-220 | over any run, the record about a backend's failure is its last delivery since the last recovery that an evaluated round saw |
| Alerts.FailureTriedExactly | internal/alert/engine.go:201-211 | after any run a failure is attempted exactly when an evaluated round sees it and the last delivered failure that no seen recovery has followed is at least the silence period old |
| Alerts.RecoveryWhileDisabledSilences | internal/alert/engine.go:178-182 | a run in which a recovery during a disabled round silences the next failure |
| Alerts.Engine.constructor | internal/alert/engine.go:98-101 | nothing was sent yet and the snapshot is the first look at the backends |
| Alerts.Engine.RecordBaseline | internal/alert/engine.go:163-170 | replaces the snapshot and nothing else |
| Alerts.Engine.DeliverAlert | internal/alert/engine.go:290-299 | only a successful sending is remembered, with the time after it |
| Alerts.Engine.FireAlert | internal/alert/engine.go:273-282 | sends unless the last success is within the silence period |
| Alerts.Engine.CheckBackend | internal/alert/engine.go:201-219 | failure fires, recovery clears the failure's record and is always sent, new backends are skipped |
| Alerts.Engine.CheckBackends | internal/alert/engine.go:190-220 | compares with the previous snapshot in any order of the backends |
| Alerts.Engine.CheckErrorRate | internal/alert/engine.go:223-246 | fires exactly when 100 * errors reach threshold * requests over a sufficient sample; a rate over no requests is not below any threshold |
| Alerts.Engine.CheckLatency | internal/alert/engine.go:249-270 | fires for each backend whose average reaches the threshold |
| Alerts.Engine.Evaluate | internal/alert/engine.go:173-187 | one round: the baseline only when disabled or unconfigured, else the three checks |
| Placeholders.BindAppend | internal/storage/logs.go:143-190 | texts whose marks are matched by their own values can be joined |
| Placeholders.Rebind | internal/storage/dialect.go:19-34 | the loop numbers the marks from 1 for PostgreSQL and leaves the query alone otherwise |
| Placeholders.RenumberingRestores | internal/storage/dialect.go:23-33 | a query without `$` is restored from its numbered form, so the marks became $1..$k in order and nothing else changed |
| Placeholders.ReadAsNumberedExactly | internal/storage/dialect.go:23-33 | PostgreSQL, whose names contain digits and `$`, reads the result as parameters 1..k and the same text if and only if no mark stands right behind a name or right before a digit or a name, and no `$` outside a name |
| Placeholders.RoundTripExactly | internal/storage/dialect.go:23-33 | reading the result and turning parameters back into marks restores the query under exactly that condition |
| Placeholders.MarkBeforeDigit | internal/storage/dialect.go:23-33 | a query that breaks it: of `?1` only the parameter 11 is left |
| Placeholders.MarkBehindName | internal/storage/dialect.go:23-33 | another one: `a?` becomes one name without any parameter |
| Placeholders.MarkBeforeName | internal/storage/dialect.go:23-33 | another one: the numbered form of `?a` cannot be read by PostgreSQL 15 and later |
| Placeholders.MySQLBinds | internal/storage/dialect.go:19-22 | MySQL, which takes no `?` right before a name for a mark, reads the unchanged query as intended under that condition |
| Placeholders.SQLiteBinds | internal/storage/dialect.go:19-22 | so does SQLite if the query has no parameters of its other kinds, `?1`, `$a`, `:a`, `@a` and `#a` |
| Placeholders.RebindingPreserves | internal/storage/dialect.go:19-34 | so in every dialect the i-th mark receives the i-th value |
| Queries.CompareFits | internal/storage/logs.go:146-185 | a comparison's text with its value in place shows the comparison |
| Queries.EitherFits | internal/storage/logs.go:174-177 | so does the choice of two conditions with two values |
| Queries.Collect | internal/storage/logs.go:146-189 | appending a condition and its values keeps conditions and values aligned |
| Queries.AddCompare | internal/storage/logs.go:146-149 | appends condition and value together, or neither |
| Queries.AddEither | internal/storage/audit.go:93-96 | appends one condition and its two values, or nothing |
| Queries.AddTimes | internal/storage/logs.go:146-153 | the time conditions of both filters, each with its time |
| Queries.AddRequest | internal/storage/logs.go:154-161 | the conditions on method and path |
| Queries.AddOutcome | internal/storage/logs.go:162-173 | the conditions on status and duration, for positive bounds |
| Queries.AddOrigin | internal/storage/logs.go:174-185 | keyword in either body, backend and request id |
| Queries.AddPerson | internal/storage/audit.go:89-100 | user name, address or its beginning, and keyword of an audit filter |
| Queries.WhereText | internal/storage/logs.go:186-189 | the joined clause shows the collected conditions and is empty exactly when there are none |
| Queries.WithWhere | internal/storage/logs.go:104-108 | the clause is added only when there is one |
| Queries.BuildWhere | internal/storage/logs.go:143-190 | the clause shows exactly the conditions the filter asks for, each with its own value, and is empty when there are none |
| Queries.BuildAuditWhere | internal/storage/audit.go:78-105 | the same for audit filters |
| Queries.WithPage | internal/storage/logs.go:97-112 | adds LIMIT and OFFSET with the page size forced into 1..200 and the page to at least 1 |
| Queries.EveryRowOnOnePage | internal/storage/logs.go:97-103 | reading the pages 1, 2, ... returns every row on exactly one page |
| Queries.Send | internal/storage/dialect.go:19-34 | a query whose marks stand between blanks, or before a `)` or the end, arrives with its values in place in every dialect |
| Queries.ListLogs | internal/storage/logs.go:96-112 | for every filter and dialect the database sees the conditions, the size and the offset, each with its own value, and no value is left over |
| Queries.ListAudits | internal/storage/audit.go:31-47 | the same for the audit list |
| Queries.CountLogs | internal/storage/logs.go:88-141 | the count is taken under the same conditions as the list, with the ordering that the query builder always adds |
| Queries.CountAudits | internal/storage/audit.go:54-64 | the count is taken under the same conditions as the list |
| QueryMeaning.LogFilterMeans | internal/storage/logs.go:143-185 | a row passes the tests of a log filter if and only if it meets every bound, text and keyword that is set |
| QueryMeaning.AuditFilterMeans | internal/storage/audit.go:78-100 | the same for audit filters; an address is matched as a whole or as a beginning |
| QueryMeaning.LogFilterReads | internal/storage/logs.go:143-189 | the conditions of every log filter, word by word with their values, joined by AND |
| QueryMeaning.AuditFilterReads | internal/storage/audit.go:78-104 | the conditions of every audit filter, word by word with their values |
| QueryMeaning.ListReads | internal/storage/logs.go:96-112 | a list query is the selection, the conditions if there are any, the ordering, the size (50 outside 1..200) and the offset |
| QueryMeaning.CountReads | internal/storage/logs.go:130-141 | a count is the selection and the conditions, if there are any |

## Left out

- Floating-point rounding: the limiter computes with doubles and truncates the wait to whole nanoseconds; the model is exact, so only the rounded-up Retry-After seconds are claimed to be sufficient.
- Machine integers: weights, counts and offsets are unbounded in the model; only the 64-bit round-robin counter wraps.
- Real time, tickers and goroutine scheduling: readings are parameters and timers are events that may happen at any moment.
- HTTP forwarding, headers, body streaming, decompression and cookies.
- Password hashing, token signing and expiry: a login that succeeds is one whose password matched the hash that was read.
- Parsing of addresses, networks and JSON: the access list starts from an arbitrary parser; IPv6 zones are not part of this model.
- The SQL engines, migrations and statistics queries: tables are maps or sequences with atomic statements, and LIKE patterns are not interpreted.
- SQL string literals, dollar-quoted ones included, comments, quoted names and numbers with letters in the three databases' reading of parameters: no built query has any (`Plain` excludes their characters).
- Text outside ASCII in the masking scanner: lower-casing may change the length of such texts, and the index argument does not apply to them.
- Balancing.WeightedIsFair: like RandomIsFair and RoundRobinIsFair, for lists without a repeated address, as the settings require (internal/api/settings.go:94-113); WeightedShare, RandomShare and RoundRobinShare count entries and hold for every list.
- Masking.MaskIdempotent: for keys without a colon, which all sensitive fields are.
- MaskOrder.AnyOrder: for keys without colon and star, which all sensitive fields are; MaskExamples.StarredKeyAppears shows why. The same holds of MaskOrder.PassIdempotent.
- Alerts.EveryChangeAnnounced: speaks of attempts, since a failed sending is not tried again before the next change; it needs alerting to stay enabled and the backend to stay configured.
- `Rules.BackendDown`: the engine never reads this rule, so it is not a field of the model.
- Whether stored data can be loaded: rule persistence, settings, token management pages and the last-used throttling of tokens would only add easy members.
- A statement of a user handler that fails is taken to have changed nothing; one that fails after it took effect is not part of this model.
- The queries for a single record: one fixed text with one value.
