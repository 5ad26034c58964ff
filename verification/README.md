# RAG gateway: coalescing, rules, breaker and embedding protocol

A Dafny model of five stateful parts of the gateway and proofs about them, for all inputs and all runs.

1. **Coalescing across gateway instances** (`RedisCoalesce`, `RedisCoalesceRuns`, `MergeKey`, `SemanticRedis`,
   `SemanticRedisRuns`, `SemanticRedisGroups`, `SemanticRedisAnswers`): the lock/result protocol over Redis and the semantic groups on top of it, as step machines. Any
   number of calls, one step per Redis command, key expiry, a clock. A pipeline is not a transaction: other callers run
   between its commands.
2. **Coalescing inside one process** (`SemanticLocal`, `SemanticLocalCalls`, `SemanticLocalFlights`,
   `SemanticLocalAnswers`, `Cosine`): the leader lists as a class over Go-like slices (shared buffers, append into spare capacity, compaction in place), the
   calls around them as a step machine, the similarity as a loop, and the geometry of its threshold over the reals in
   any dimension. `SemanticScopes` joins both mergers to the key they take their partition from.
3. **Exact and regex rules** (`RuleStore`, `RuleCreation`, `ExactIndex`, `RuleList`, `RegexIndex`, `Sorting`,
   `Separators`, `RedisSets`): the Redis table with its uniqueness index, the in-memory indexes, the paged listing.
4. **Circuit breaker** (`CircuitBreaker`, `BreakerLoad`, `BreakerWindows`): the class, the wrapper that uses it, and the call rate they
   allow, for uses one after the other and for any number of concurrent ones.
5. **Framed embedding protocol** (`Bytes`, `Framing`, `Trimming`, `EmbedTrim`, `EmbeddingClient`,
   `EmbeddingService`): Go's and Python's framing, the Python loop and what it answers, and the Go client on its reused
   connection.

What the source does step by step on shared state is either a class with the source's fields and methods, each method
equal to a function of the old state, or a step machine `Enabled`/`Apply` with `Legal` runs from `Init`; the results are
lemmas about those functions and runs. Fields called history in a file's heading are there for the proofs and are read
by no step.

## Results that are not what one would expect

Where a promise fails, the model keeps the code and proves exactly when it holds.

- `specs/architecture/COALESCE_DESIGN.md` promises one downstream call per key across instances. In a timely run, and as
  long as a result stays stored, there is one, plus at most one for each caller that had read "no result" and not yet tried
  the lock when the first result was stored (`ExecutionsBounded`, and `ExecutionsAfterSet` for every later one). A second
  one is possible exactly if such a caller exists (`SecondExecutionIffPending`), and it does happen
  (`SecondExecutionHappens`).
- The lock has no owner token. In a run with at most one leader per key so far, a SETNX makes a second one exactly if a
  leader there has led for the lock's whole life (`SecondLeaderIffOverdue`); the runs with mutual exclusion throughout
  are exactly those in which no SETNX is sent beside such a leader (`ExclusionIff`). In those every DEL removes its sender's
  own entry (`DelsAreOwn`); after the first such SETNX some continuation has a DEL that removes another caller's
  (`OverdueMeansForeignDel`, `OverdueLeaderFreesForeignLock`).
- The same document promises one call for similar questions. In Redis mode that takes two things: similar calls have to be
  in one group, and fn has to run once for the group.
  - Groups. A call that is below the cap makes a group of its own if and only if each group on its listing that it reaches
    the threshold against is one whose vector it did not find or could not read (`OnItsOwnIff`); otherwise it joins the
    first of the others (`JoinsIff`). A group is on the listing exactly if it was added before and removed neither by its
    leader nor by a caller that missed its vector (`ListedIff`), and its vector is found exactly between its SET and the
    leader's DEL, within its time (`VecIsThereIff`). So equal questions are answered twice if both list before either SADD
    (`UnseenGroup`), if a caller looks for a group's vector between SADD and SET and removes the group as dead
    (`OrphanedGroup`), or if a read fails (`UnreadGroup`); `JoinsIfInOrder` is an order of commands that guarantees joining.
  - Executions. Each run contains a run of the lock/result protocol with groups as keys (`RunProjects`), so a group is no
    better off than a key: exclusion of its leaders is exactly the absence of a SETNX beside an overdue one
    (`GroupExclusionIff`); in a timely run, as long as a result stays stored, fn runs once and at most once more for each
    member then between GET and SETNX (`GroupExecutionsAfterSet`), possible exactly if there is one
    (`GroupExecutesAgainIff`). Once the group is cleaned up, and whatever becomes of its result, fn can run again exactly
    if some member is still at its GET or SETNX (`ExecutesAfterCleanupIff`). `GroupExecutesTwice` is a run in which the
    group is found and nothing expires or fails, and its two members both run fn.
- In process too, a call that has found its leader and enters the flight group only after the flight is over runs fn again:
  at most once for each such call (`FlightsAfterClose`), possibly exactly if there is one (`SecondFlightIffWaiting`).
- Scopes are not kept free of the separators. The semantic mergers put two scopes into one partition exactly if they agree
  up to their first NUL (`PrefixesAgreeIff`). Two scopes that differ after trimming can share a whole key exactly if one of
  the trimmed ones is the other, a NUL and a rest that lower-casing leaves alone and that does not begin with a space, for a
  lower-casing that works character by character (`KeysClashIff`). In the memory index two scopes can be mixed up
  exactly if one of them, followed by a NUL, begins the other (`WrongHitIff`), in the uniqueness index the same with a
  newline (`FalseConflictIff`).
- The page number of a listing is not bounded, and its product with the page size can overflow: the page is the right one
  exactly as `PageIsRightIff` says, and `OverflowExamples` has a page that repeats the first one and one that panics.
- `specs/architecture/SYS_ENG_01_BREAKER.md` describes a single trial call after the open window. In the code the count
  restarts at 0, and what reopens the breaker is the maxFailures-th failure reported from then on without a success, reports
  of calls from before the window included (`ReopensIff`); for uses one after the other, one failed call does so exactly if maxFailures
  is 1 (`TrialReopensIff`). With at most n calls out at a time, the calls let in over a span T of a success-free stretch
  number at most (maxFailures - 1 + n) * (T / openDuration + 1) (`RateBoundOfBreaker`), and no less would do
  (`LoadMeetsBound`). Uses one after the other are n = 1 (`RateBound`, `RateBoundIsMet`).
- `specs/architecture/contracts/UDS_EMBEDDING.md` requires every response to echo the request's id. The client also takes
  a response without one; that this is still the right one follows from its dropping the connection after every failure
  (`RoundTrip`), without which it would be wrong (`LateAnswer`).

## Model

| member | source | states |
|---|---|---|
| RedisCoalesce.NewConfig | internal/coalesce/redis.go:29-40 | lifetimes that are positive are taken as they are, others become 120 s for the lock and 90 s for the result |
| RedisCoalesce.StoreRoundTrip | internal/coalesce/redis.go:93-102 | an outcome is read back from the store as it was, exactly unless it is a failure with an empty message; success stays success, failure failure |
| RedisCoalesce.StepKeepsInv | internal/coalesce/redis.go:66-134 | every Redis command, of any caller at any time, keeps: each caller's phase agrees with what it executed, and each stored record is the encoded outcome of an execution on that key |
| RedisCoalesce.RunKeepsInv | internal/coalesce/redis.go:66-134 | so does every run, of any number of callers on any number of keys |
| RedisCoalesce.AnswerProvenance | internal/coalesce/redis.go:66-148 | every answer is the caller's own execution or the decoded record of another caller's execution on the same key, whatever the timing; who got a shared answer or an error has not executed |
| RedisCoalesceRuns.AnswerIs | internal/coalesce/redis.go:66-148 | in every run a caller gets exactly what its own fn returned, exactly if its fn was run; else what another caller's fn on the same key returned, a text unchanged and an error as its message; and an error of its own exactly if it gave up or timed out |
| RedisCoalesceRuns.StoredIff | internal/coalesce/redis.go:101-104 | at any point of any run a result can be read if and only if there has been a SET on the key, the last one less than ResultTTL ago |
| RedisCoalesceRuns.GetIsAnswered | internal/coalesce/redis.go:71-76 | a GET of a result that is there, a first one or a poller's, hands its sender in that step what the fn of the last SET's sender returned, a text exactly; otherwise the caller goes on to the lock, or goes on polling |
| RedisCoalesceRuns.WaitsIff | internal/coalesce/redis.go:113-134 | a poller's SETNX was refused; it may poll until LockTTL and ten seconds after that and times out exactly once that is over |
| RedisCoalesceRuns.SomeStepIsOpen | internal/coalesce/redis.go:66-134 | in every state a caller that has not returned has a step to take other than giving up |
| RedisCoalesceRuns.LateCallerGetsText | internal/coalesce/redis.go:71-73 | a run in which a caller that comes after the leader is done gets the leader's text |
| RedisCoalesceRuns.PollerGetsText | internal/coalesce/redis.go:125-128 | a run in which a caller that comes while the leader is at work polls and gets its text |
| RedisCoalesce.StepKeepsLocks | internal/coalesce/redis.go:78-106 | as long as no leader outlives its lock, every step leaves each leader's own lock in place, with the expiry its SETNX gave it |
| RedisCoalesce.MutualExclusion | internal/coalesce/redis.go:78-106 | in every timely run at most one caller per key is between SETNX and DEL, the key is locked all that time, and a DEL removes only the sender's own lock |
| RedisCoalesce.SecondLeaderIffOverdue | internal/coalesce/redis.go:78-106 | in every run from the start with at most one leader per key in each state so far, a SETNX makes a second leader on its key if and only if some leader there has led for LockTTL or longer |
| RedisCoalesce.ExclusionIff | internal/coalesce/redis.go:78-106 | a run has at most one leader per key throughout if and only if none of its SETNX is sent while a leader of that key has led for LockTTL or longer |
| RedisCoalesce.DelsAreOwn | internal/coalesce/redis.go:101-104 | in a run without such a SETNX, whoever is about to send its DEL owns the entry the DEL removes |
| RedisCoalesce.OverdueMeansForeignDel | internal/coalesce/redis.go:78-104 | after the first such SETNX of a run, some continuation leads to a DEL of the overdue leader that removes the new leader's entry |
| RedisCoalesce.HolderLetsInIffOverdue | internal/coalesce/redis.go:78-85 | beside a leader whose own lock is in place, whatever the others do, a SETNX succeeds if and only if that leader has led for LockTTL or longer |
| RedisCoalesce.OverdueLeaderFreesForeignLock | internal/coalesce/redis.go:101-104 | a concrete run in which an overdue leader's DEL leaves a second leader without its lock |
| RedisCoalesce.OnlyPendingExecute | internal/coalesce/redis.go:71-85 | while a result is stored, only callers that had missed it before can still execute |
| RedisCoalesce.LateCallersAreServed | internal/coalesce/redis.go:71-76 | while a result is stored, a caller whose GET is yet to come never executes and never waits |
| RedisCoalesce.ExecutionsAfterSet | internal/coalesce/redis.go:71-104 | at each SET of a timely run every other execution on the key has returned; as long as a result then stays stored, fn runs at most once more per caller then between GET and SETNX, and later callers are served without executing |
| RedisCoalesce.ExecutionsBounded | internal/coalesce/redis.go:71-104 | after a timely run up to the first SET on a key, and as long as a result stays stored: fn has run once plus at most once per caller then between GET and SETNX, and later callers are served without executing |
| RedisCoalesce.SecondExecutionIffPending | internal/coalesce/redis.go:71-104 | right after the SET, some continuation with the result in place runs fn again if and only if a caller is between GET and SETNX |
| RedisCoalesce.SecondExecutionHappens | internal/coalesce/redis.go:71-104 | a timely run from the start in which fn runs twice on a key although the first result is stored all the time: the bound is met |
| MergeKey.IndexOf | internal/coalesce/mergekey.go:7-7 | the first occurrence of the byte, or -1 if there is none |
| MergeKey.PrefixInvertsKey | internal/coalesce/mergekey.go:6-12 | the scope is read back from a key if and only if, trimmed, it has no NUL |
| MergeKey.PrefixesAgreeIff | internal/coalesce/mergekey.go:6-12 | two requests get the same prefix if and only if their trimmed scopes agree up to the first NUL, whatever the queries |
| MergeKey.KeysClashIff | internal/coalesce/rag.go:22-29 | two different trimmed scopes share a key for some queries if and only if one is the other, a NUL, and a rest that lower-casing leaves alone and that does not begin with a space; for any lower-casing that maps character by character, lower-case characters and NUL to themselves |
| MergeKey.SpacesAre | internal/coalesce/rag.go:25-27 | what is trimmed is white space, code point by code point as unicode.IsSpace has it |
| MergeKey.KeyIgnores | internal/coalesce/rag.go:22-29 | white space around a scope or a query and the case of a query do not change the key, and no scope and a blank scope share keys; for a lower-casing that works character by character and leaves white space alone |
| MergeKey.EqualKeys | internal/coalesce/rag.go:22-29 | for NUL-free scopes, keys are equal if and only if normalised scopes and normalised queries are |
| MergeKey.NulScopesShareKey | internal/coalesce/rag.go:22-29 | two requests with different scopes, one with a NUL, that share a key |
| MergeKey.DoAnswersItsOwnKey | internal/coalesce/redis.go:54-63 | in every run of `Do`, a shared answer is the stored form of the outcome of a call with the same key, successful texts unchanged; with NUL-free scopes, of the same scope and normalised query |
| SemanticScopes.LocalSharersAgree | internal/coalesce/semantic_local.go:49-76 | in every run of `SemanticLocal.Merge`, calls that share an answer come from requests whose trimmed scopes agree up to the first NUL, so are equal if free of NUL, and have vectors at cosine at least 2t^2 - 1 |
| SemanticScopes.RedisSharersAgree | internal/coalesce/semantic_redis.go:65-119 | the same for every run of `SemanticRedis.Merge` |
| SemanticScopes.NulScopesShareMerger | internal/coalesce/mergekey.go:6-12 | two different scopes with a NUL that fall into one partition for all queries |
| Trimming.TrimCuts | internal/coalesce/rag.go:25-27 | trimming cuts a string in three: both ends all of trimmed characters, and the middle, if any, begins and ends with others |
| Trimming.CutIsTrim | internal/coalesce/rag.go:25-27 | and it is the only such cut: whatever splits a string that way has the trimmed string in the middle |
| Cosine.CosineSimilarity | internal/coalesce/cosine.go:7-22 | defined exactly on two non-zero vectors of one length, and then the inner product over the product of the norms; the loop's three accumulators are the three inner products |
| Cosine.CauchySchwarz | internal/coalesce/cosine.go:7-22 | (a.b)^2 <= (a.a)(b.b) in any dimension |
| Cosine.CosineRange | internal/coalesce/cosine.go:7-22 | the similarity lies in [-1, 1] |
| Cosine.CosineSymmetric | internal/coalesce/cosine.go:7-22 | it does not depend on the order of the arguments |
| Cosine.CosineSelf | internal/coalesce/cosine.go:7-22 | it is 1 on a non-zero vector and itself |
| Cosine.CosineScaleInvariant | internal/coalesce/cosine.go:5-22 | it does not change when either argument is scaled by a positive factor |
| Cosine.SimilarWithoutRoots | internal/coalesce/cosine.go:21-21 | for a positive threshold t, passing the test is a.b > 0 and (a.b)^2 >= t^2 (a.a)(b.b) |
| Cosine.SharedRepresentative | internal/coalesce/semantic_local.go:55-56 | two vectors that both reach a threshold 0 < t <= 1 against one representative are at cosine at least 2t^2 - 1 |
| SemanticLocal.WithoutDropsOne | internal/coalesce/semantic_local.go:83-96 | removing an element that is in a list once leaves the list before it and the list after it, in order |
| SemanticLocal.LeaderTable.constructor | internal/coalesce/semantic_local.go:26-39 | no leader is stored at first; a threshold that is not positive becomes 0.95 |
| SemanticLocal.LeaderTable.Find | internal/coalesce/semantic_local.go:52-60 | the first leader of the scope that reaches the threshold, none if none does |
| SemanticLocal.LeaderTable.FindOrCreate | internal/coalesce/semantic_local.go:51-66 | the first critical section: the similar leader found, with the table unchanged, or else a new one, appended to its scope; other scopes keep their lists although buffers are shared with spare capacity |
| SemanticLocal.LeaderTable.RemoveLeader | internal/coalesce/semantic_local.go:83-96 | the second critical section: the scope's list without that leader, the scope forgotten once empty, other scopes untouched |
| SemanticLocal.AppendTo | internal/coalesce/semantic_local.go:64-64 | append shows the old elements and the new one, in the same buffer or a new one |
| SemanticLocal.Compact | internal/coalesce/semantic_local.go:84-90 | compaction in place, reader and writer in one buffer, leaves exactly the elements other than x, in order |
| SemanticLocalCalls.StepKeepsInv | internal/coalesce/semantic_local.go:42-81 | every step of every call keeps the invariant on leaders, flights, results and the store |
| SemanticLocalCalls.RunKeepsInv | internal/coalesce/semantic_local.go:42-81 | so does every run of any number of concurrent calls |
| SemanticLocalCalls.StoredLeaders | internal/coalesce/semantic_local.go:51-76 | in every run no two leaders of a scope reach the threshold against each other, each stored leader's maker is inside `Merge`, and with nobody inside the store is empty |
| SemanticLocalCalls.SharersAreSimilar | internal/coalesce/semantic_local.go:51-80 | in every run two calls that got one flight's result have the same text or error, the same scope, and a common leader each of them made or reached; their own vectors are then at cosine at least 2t^2 - 1 |
| SemanticLocalAnswers.AnswerIs | internal/coalesce/semantic_local.go:46-80 | in every run a call with a vector gets exactly what fn returned on its flight, its own or that of a flyer on the same leader, one without a vector exactly what its own fn returned; a call whose fn was run always gets that |
| SemanticLocalAnswers.OneReturn | internal/coalesce/semantic_local.go:68-76 | fn returns at most once for a call, so all calls on a flight get the same |
| SemanticLocalAnswers.IsolatedIff | internal/coalesce/semantic_local.go:46-48 | a call runs fn for itself, without a leader, exactly if it has no vector |
| SemanticLocalAnswers.OneFlightForBoth | internal/coalesce/semantic_local.go:42-81 | a run to the end in which two calls with one vector are on one flight and both get its text |
| SemanticLocalCalls.NoJoinAfterRemoval | internal/coalesce/semantic_local.go:68-74 | no call ever settles on a leader that has been removed |
| SemanticLocalFlights.OnlyWaitingFly | internal/coalesce/semantic_local.go:68-76 | once a leader is removed, only calls that had found it before and not yet entered its flight group can still run fn for it |
| SemanticLocalFlights.FlightsAfterClose | internal/coalesce/semantic_local.go:68-76 | at each end of a flight for a leader every other flight for it is over, and fn runs for it at most once more per call that has then found it and not entered; after the first end, at most 1 plus these in all |
| SemanticLocalFlights.SecondFlightIffWaiting | internal/coalesce/semantic_local.go:68-76 | after the end of a flight some continuation runs fn for its leader again if and only if there is such a call |
| SemanticLocalFlights.FliesTwice | internal/coalesce/semantic_local.go:68-76 | a run from the start in which two calls with one vector find one leader and both run fn |
| SemanticRedis.NewConfig | internal/coalesce/semantic_redis.go:23-42 | the defaults 0.95 and 256; a vector lives for both times as passed in and a minute, or 300 s if that is not positive; it outlives lock and result exactly if both times are given, or that default applies and exceeds the two lifetimes |
| SemanticRedis.StepKeepsInv | internal/coalesce/semantic_redis.go:61-119 | every Redis command of every caller keeps: listed ids belong to groups of that scope, a stored vector is its group's own, a settled call made or matched its group's vector, and the inner protocol's invariant |
| SemanticRedis.RunKeepsInv | internal/coalesce/semantic_redis.go:61-119 | so does every run of any number of callers |
| SemanticRedis.SharersAreSimilar | internal/coalesce/semantic_redis.go:76-119 | in every run two calls handed the answer of one execution are of the same scope and made or matched the vector of one group; their own vectors are then at cosine at least 2t^2 - 1 |
| SemanticRedisAnswers.MergedAnswerIs | internal/coalesce/semantic_redis.go:107-119 | in every run a call that went through a group gets exactly what its own fn returned, exactly if its fn was run; else what the fn of another member of the group returned, as the store carries it; and an error of its own exactly if it gave up or timed out |
| SemanticRedisAnswers.UnmergedAnswerIs | internal/coalesce/semantic_redis.go:62-74 | in every run a call that went through no group ends, for good, with exactly what its own fn returned, or with an error exactly if its SMEMBERS failed, and never with another call's answer |
| SemanticRedisAnswers.IsolatedIff | internal/coalesce/semantic_redis.go:62-74 | a call runs fn for itself, in no group, exactly if it has no vector or its SMEMBERS named maxActive groups or more |
| SemanticRedisAnswers.CleansUpIff | internal/coalesce/semantic_redis.go:109-114 | of the calls that went through a group exactly those whose fn was run delete its vector and remove it from the active set, both of it |
| SemanticRedisAnswers.AloneAtCap | internal/coalesce/semantic_redis.go:68-74 | a run in which a call at the cap gets its own fn's text |
| SemanticRedisAnswers.OneExecutionForBoth | internal/coalesce/semantic_redis.go:61-119 | a run to the end in which two calls with one vector share one execution and its text, and the group is cleaned up |
| SemanticRedis.NoJoinAfterCleanup | internal/coalesce/semantic_redis.go:107-114 | after a leader's clean-up (DEL of the vector, then SREM) no call joins that group, not even one that had listed it before |
| SemanticRedis.ActiveSetCapped | internal/coalesce/semantic_redis.go:68-74 | with at most n calls of a scope under way, its active set never has more than maxActive - 1 + n members |
| SemanticRedis.OrphanedGroup | internal/coalesce/semantic_redis.go:79-105 | a run from the start in which a group between SADD and SET is removed by another caller, and two calls with the same vector both execute fn, each in its group |
| SemanticRedis.UnseenGroup | internal/coalesce/semantic_redis.go:68-105 | the same outcome because both calls list before either SADD, with nothing ever removed |
| SemanticRedis.UnreadGroup | internal/coalesce/semantic_redis.go:78-84 | the same outcome because one GET of a vector fails |
| SemanticRedisRuns.VecIsThereIff | internal/coalesce/semantic_redis.go:98-113 | at any point of any run a GET finds a group's vector if and only if its SET came before, less than vecTTL ago, and no leader's DEL of it has |
| SemanticRedisRuns.OutsideIsTold | internal/coalesce/semantic_redis.go:79-113 | at any point of any run a group is out of its scope's active set if and only if its leader has cleaned it up or a caller that found no vector has removed it |
| SemanticRedisRuns.DropComesFromMiss | internal/coalesce/semantic_redis.go:77-83 | whoever removes a group had sent a GET that found no vector, at a point between the group's SADD and SET, or past the vector's time, or after the leader's DEL |
| SemanticRedisRuns.ListedIff | internal/coalesce/semantic_redis.go:68-71 | an SMEMBERS names a group of its scope if and only if it has been added and neither cleaned up nor removed |
| SemanticRedisRuns.JoinsIff | internal/coalesce/semantic_redis.go:76-94 | in every run, a call whose search is over has joined a group if and only if that is the first one on its listing whose vector it found, could read, and reached the threshold against |
| SemanticRedisRuns.OnItsOwnIff | internal/coalesce/semantic_redis.go:76-105 | in every run, a call below the cap makes a group of its own if and only if it found no vector, or could not read it, for each listed group it reaches the threshold against |
| SemanticRedisRuns.LeftThoughLive | internal/coalesce/semantic_redis.go:68-105 | for a similar group whose vector was there all through a call's search: the call makes a group of its own only if that group was not listed or its GET failed, and in either case is not in it |
| SemanticRedisRuns.JoinsIfInOrder | internal/coalesce/semantic_redis.go:68-105 | if a similar group's SET comes before a call's SMEMBERS, nobody has removed the group by then, and neither DEL nor expiry of the vector nor a failing GET of it intervenes, the call makes no group of its own and ends up in that group or one listed before it |
| SemanticRedisGroups.RunProjects | internal/coalesce/semantic_redis.go:107-109 | every run of semantic merging contains a legal run of the lock/result protocol with group ids as slots, settling on a group being the arrival, that ends in the same keys and calls |
| SemanticRedisGroups.ExecutorsAreMembers | internal/coalesce/semantic_redis.go:107-109 | who executes fn under a group's keys made the group's vector or reached the threshold against it |
| SemanticRedisGroups.GroupsExclude | internal/coalesce/redis.go:78-106 | in every run whose leaders are timely at most one call per group leads, its lock is there, and a DEL removes the sender's own lock |
| SemanticRedisGroups.GroupExclusionIff | internal/coalesce/redis.go:78-106 | a run has at most one leader per group throughout if and only if none of its SETNX is sent beside a leader that has led for LockTTL or longer |
| SemanticRedisGroups.GroupExecutionsAfterSet | internal/coalesce/semantic_redis.go:107-109 | at each SET of a group's result in a timely run every other execution for the group is over (at the first, fn has run once); as long as a result then stays stored, fn runs at most once more per member then between GET and SETNX, and members whose GET comes later do not execute |
| SemanticRedisGroups.GroupExecutesAgainIff | internal/coalesce/semantic_redis.go:107-109 | right after a SET of a group's result, some continuation with the result in place runs fn for the group again if and only if a member is between GET and SETNX |
| SemanticRedisGroups.OnlyLateExecute | internal/coalesce/semantic_redis.go:107-114 | after a group's clean-up, in any continuation, fn runs for it at most once more per member then at its GET or SETNX |
| SemanticRedisGroups.ExecutesAfterCleanupIff | internal/coalesce/semantic_redis.go:107-114 | and it can run again, in some continuation, if and only if there is such a member |
| SemanticRedisGroups.GroupExecutesTwice | internal/coalesce/semantic_redis.go:76-109 | a run from the start, with no time passing and nothing dropped, in which two calls with one vector join one group and both run fn although the first result is stored |
| CircuitBreaker.Breaker.constructor | internal/circuitbreaker/breaker.go:25-33 | a closed breaker with the settings passed in if positive, else with 5 failures and 30 s |
| CircuitBreaker.Breaker.Allow | internal/circuitbreaker/breaker.go:36-49 | refuses exactly inside an open window; past it, closes and restarts the count at 0 |
| CircuitBreaker.Breaker.Success | internal/circuitbreaker/breaker.go:52-57 | closed, count 0 |
| CircuitBreaker.Breaker.Fail | internal/circuitbreaker/breaker.go:60-68 | one failure more; the maxFailures-th opens a window of openDuration from now and restarts the count |
| CircuitBreaker.OpenMeansTripped | internal/circuitbreaker/breaker.go:36-68 | for any interleaving, 0 <= failures < maxFailures, never more than the failures since the last success, and an open window was opened by a failure that was at least the maxFailures-th |
| CircuitBreaker.RefusalIsEarned | internal/circuitbreaker/breaker.go:36-68 | a refusal at time t means a failure in (t - openDuration, t], at least the maxFailures-th since the last success, with no success after it |
| BreakerWindows.RefusedIff | internal/circuitbreaker/breaker.go:36-68 | for any log of operations, a call is refused at t if and only if, counting failures afresh from each success, trip, and first call let in after a window, the last fresh start is a trip (the maxFailures-th failure counted) and t lies before the end of its window |
| BreakerWindows.RefusedIffTripped | internal/circuitbreaker/breaker.go:36-68 | with a clock that does not run backwards: if and only if some failure in (t - openDuration, t] was such a trip and no success has come since |
| BreakerWindows.WindowAfterFails | internal/circuitbreaker/breaker.go:60-68 | from any state, failures reported one after the other keep counting, also while a window is open; the window ends openDuration after the last of them to complete a round of maxFailures, and those after it are counted |
| BreakerWindows.UseIsLogged | internal/downstream/circuit.go:26-37 | a use of the wrapper is these operations on the breaker: ask, and if let in, a success or failure according to what came back, when it came back |
| CircuitBreaker.Answer | internal/downstream/circuit.go:26-37 | refused without a call, or the inner result as it is and reported to the breaker |
| CircuitBreaker.Spacing | internal/downstream/circuit.go:26-37 | for uses one after the other, from any state: inner call j of a success-free stretch starts no earlier than one open window per maxFailures failures before it |
| CircuitBreaker.CallsAreSpaced | internal/downstream/circuit.go:26-37 | for uses one after the other: inner call k*maxFailures (from 0) starts at least k open windows after the first |
| CircuitBreaker.RateBound | internal/downstream/circuit.go:26-37 | for uses one after the other: inner calls whose starts span T number at most maxFailures * (floor(T / openDuration) + 1) |
| CircuitBreaker.ServeKeepsCount | internal/downstream/circuit.go:26-37 | uses of the wrapper never bring the count to maxFailures |
| CircuitBreaker.RateBoundFromStart | internal/downstream/circuit.go:26-37 | so the bound holds for every success-free stretch of uses one after the other, after any such uses of a new breaker's wrapper, successful or not |
| CircuitBreaker.TrialReopensIff | internal/circuitbreaker/breaker.go:36-68 | for uses one after the other: the first call after a window goes through, and if it fails the breaker is open again if and only if maxFailures is 1 |
| CircuitBreaker.RateBoundIsMet | internal/downstream/circuit.go:26-37 | for all settings and spans there is a stretch of uses one after the other that reaches the bound |
| BreakerLoad.SpacingUnderLoad | internal/circuitbreaker/breaker.go:36-68 | for concurrent uses with at most n calls out: call j let in during a success-free stretch starts no earlier than one open window per maxFailures - 1 + n of the failures counted, the calls out, and the calls let in before it |
| BreakerLoad.SpacedUnderLoad | internal/circuitbreaker/breaker.go:36-68 | call k*(maxFailures - 1 + n) (from 0) is let in at least k open windows after the first |
| BreakerLoad.RateBoundUnderLoad | internal/downstream/circuit.go:26-37 | calls let in over a span T number at most (maxFailures - 1 + n) * (floor(T / openDuration) + 1), from any state with a count below the threshold and a window of at most openDuration ahead |
| BreakerLoad.RateBoundOfBreaker | internal/downstream/circuit.go:26-37 | so they do after any operations on a new breaker, in any order and with up to n calls still out |
| BreakerLoad.ReopensIff | internal/circuitbreaker/breaker.go:36-68 | after a call is let in past a window, reports of failures without a success, whichever calls they are of, open the next window if and only if there are at least maxFailures of them |
| BreakerLoad.LoadMeetsBound | internal/circuitbreaker/breaker.go:36-68 | for all settings, every n and every span of whole windows there is a success-free stretch that reaches the bound |
| RuleStore.RedisExactStore.CreateRule | internal/rules/redis_store.go:43-83 | table, index and ids after a creation, or the error that refused it |
| RuleStore.RedisExactStore.UpdateRule | internal/rules/redis_store.go:129-175 | table and index after an update, the old entry gone if scope or key changed, or the error |
| RuleStore.RedisExactStore.DeleteRule | internal/rules/redis_store.go:197-213 | record, id and index entry gone, or not found |
| RuleStore.RedisExactStore.ListAll | internal/rules/redis_store.go:102-123 | the records of the listed ids, in that order, missing ones skipped |
| RuleStore.ScopeKeysAgreeIff | internal/rules/model.go:35-40 | scopes are told apart as written, except that no scope is the empty scope |
| RuleStore.CreateLeaves | internal/rules/redis_store.go:49-75 | a creation that goes through stores the rule as given, under its id, with both times now |
| RuleStore.UpdateLeaves | internal/rules/redis_store.go:140-194 | what an update that goes through leaves, field by field: text as given, key and scope trimmed, a blank scope none, what is not given as before, creation time as before, update time now |
| RuleStore.RefusedWith | internal/rules/redis_store.go:43-213 | which error refuses which operation: empty key, empty patch, unknown id, a key that is blank after the merge |
| RuleStore.OpKeepsInv | internal/rules/redis_store.go:43-213 | each operation, refused or not, keeps ids, records and index entries in one-to-one correspondence |
| RuleStore.StoreStaysConsistent | internal/rules/redis_store.go:43-213 | so does any sequence of them, and no two live rules share scope and key |
| RuleStore.RefusedChangesNothing | internal/rules/redis_store.go:45-71 | an operation that returns an error leaves the store as it was |
| RuleStore.OpTouchesOneRule | internal/rules/redis_store.go:129-213 | every other rule stays as it is; an update keeps the creation time |
| RuleStore.UpdatesCompose | internal/rules/redis_store.go:129-194 | two updates that go through leave the store, index included, that one update with both patches leaves, also when the second moves the rule back |
| RuleStore.ConflictMeansTaken | internal/rules/redis_store.go:64-71 | a creation is a conflict if and only if a live rule has that scope and key, as long as no newline makes scopes run into each other |
| RuleStore.UpdateConflictMeansTaken | internal/rules/redis_store.go:145-157 | an update is a conflict if and only if another live rule has the merged scope and key, under the same condition |
| RuleStore.FalseConflictIff | internal/rules/redis_store.go:37-40 | rules of two different scopes can block each other if and only if one scope, followed by a newline, begins the other |
| RuleStore.RulesOfListing | internal/rules/redis_store.go:102-123 | from a consistent store, a rule is in the result if and only if it is stored and its id listed |
| RuleCreation.StepRefines | internal/rules/redis_store.go:64-82 | command by command, a creation is the atomic one at its SETNX, refused exactly when that is; its other commands change nothing that counts |
| RuleCreation.InterleavedCreations | internal/rules/redis_store.go:64-82 | however creations interleave, no two records ever share scope and key, and whenever none is half-way the store is consistent |
| RuleCreation.ConsistentStart | internal/rules/redis_store.go:64-82 | any consistent store is a fit start for such a run |
| RedisSets.ListedOnce | internal/rules/redis_store.go:103-103 | a listing with as many entries as the set has members names each member once |
| ExactIndex.ExactMemoryIndex.ReplaceAll | internal/rules/memory_index.go:35-44 | the map that filling in the rules in order leaves |
| ExactIndex.ExactMemoryIndex.Lookup | internal/rules/memory_index.go:47-55 | the entry under the composite key |
| ExactIndex.IndexedIsLast | internal/rules/memory_index.go:35-44 | a key is in the index if and only if some rule has it, and its entry is the last such rule's |
| ExactIndex.LookupIsKeySearch | internal/rules/memory_index.go:26-55 | for a consistent store and any scopes, a lookup finds one of the stored rules with that composite key, and nothing exactly if there is none |
| ExactIndex.LookupIsSearch | internal/rules/memory_index.go:47-55 | for a consistent store and NUL-free scopes, a lookup finds the one stored rule with that scope and key, and nothing exactly if there is none, in whatever order the ids were listed |
| ExactIndex.LookupAfterRun | internal/rules/memory_index.go:26-55 | the same after any run of creates, updates and deletes |
| ExactIndex.CreatedIsFound | internal/rules/coordinator.go:31-38 | with NUL-free scopes, after a creation and a reload, the scope and key answer with the new rule and its text |
| ExactIndex.UpdatedIsFound | internal/rules/coordinator.go:121-128 | with NUL-free scopes before and after, after an update and a reload, the new scope and key answer with the merged text, and the old ones, if different, with nothing |
| ExactIndex.DeletedIsGone | internal/rules/coordinator.go:131-138 | with NUL-free scopes, after a deletion and a reload, the rule's scope and key answer with nothing |
| ExactIndex.WrongHitIff | internal/rules/memory_index.go:26-32 | a rule with a key can answer a non-empty query for a scope that is not its own if and only if one scope, followed by a NUL, begins the other |
| ExactIndex.ExactCoordinator.Reload | internal/rules/coordinator.go:21-28 | the index is again that of what is stored |
| ExactIndex.ExactCoordinator.Create | internal/rules/coordinator.go:31-38 | the store's answer, and store and index in step, also if refused |
| ExactIndex.ExactCoordinator.Patch | internal/rules/coordinator.go:121-128 | the same for updates |
| ExactIndex.ExactCoordinator.Delete | internal/rules/coordinator.go:131-138 | the same for deletions |
| ExactIndex.ExactCoordinator.MatchExact | internal/rules/coordinator.go:111-113 | a user's query is answered, from memory alone, with one of the stored rules under its composite key, and with nothing exactly if there is none; with NUL-free scopes that is the one rule with that scope and key |
| Sorting.SortSorts | internal/rules/coordinator.go:75-81 | the sort puts nothing before an element that should come first |
| Sorting.SortPermutes | internal/rules/coordinator.go:75-81 | and neither loses nor adds elements |
| Sorting.SortedIsUnique | internal/rules/regex_memory_index.go:53-61 | if the comparator tells different elements apart, any two sorted arrangements of the same elements are equal, so an unstable sort will do |
| RuleList.List | internal/rules/coordinator.go:49-102 | the page of the ordered rules of the scope, for page numbers from 1, 20 to a page unless given, at most 100, in Go's 64-bit arithmetic |
| RuleList.OrderedIsCanonical | internal/rules/coordinator.go:64-81 | what is paged through is sorted by update time down and id up, has each rule of the scope once and no other, and is the only such list |
| RuleList.OrderedNewestFirst | internal/rules/coordinator.go:64-81 | told by positions and fields: later update times first, at equal times smaller ids in the order of code points; and exactly the rules with the scope asked for, no scope being the empty one |
| Sorting.StringLessIff | internal/rules/coordinator.go:78-78 | ids compare by the first code point in which they differ, a proper beginning coming first |
| RuleList.ListingOrderIsIrrelevant | internal/rules/coordinator.go:60-81 | it does not depend on the order in which Redis lists its rules |
| RuleList.StoreListIsCanonical | internal/rules/coordinator.go:60-81 | so for a consistent store it is a function of the store alone |
| RuleList.PagesMakeUpTheList | internal/rules/coordinator.go:83-101 | pages 1 to n one after the other are the list up to n * pageSize, each with the full count as total; enough of them are all of it |
| RuleList.PageItems | internal/rules/coordinator.go:83-101 | item k of page p is rule (p - 1) * pageSize + k, up to the page's size or the list's end |
| RuleList.PastTheEnd | internal/rules/coordinator.go:84-91 | a page past the end is empty |
| RuleList.PageIsRightIff | internal/rules/coordinator.go:84-92 | for any page number, the page is the expected one if and only if the offset fits into 64 bits or wraps around past the end |
| RuleList.OverflowExamples | internal/rules/coordinator.go:84-92 | a page number that brings the first page again, and one that panics |
| RegexIndex.RegexMemoryIndex.ReplaceAll | internal/rules/regex_memory_index.go:31-67 | for each scope the compilable rules of that scope, ranked, and entries for no other scopes |
| RegexIndex.RegexMemoryIndex.Match | internal/rules/regex_memory_index.go:70-80 | the first match of the scope's list |
| RegexIndex.MatchIsBest | internal/rules/regex_memory_index.go:31-80 | for distinct ids, the hit is the matching compilable rule of the scope that is first by priority down, update time down, id up; a miss exactly if none matches |
| RegexIndex.MatchByFields | internal/rules/regex_memory_index.go:53-80 | told by the fields: of the rules that can answer the hit is the one with the highest priority, then the latest update time, then the first id in the order of code points |
| RegexIndex.RankingIgnoresOrder | internal/rules/regex_memory_index.go:31-80 | the hit does not depend on the order of the input |
| RegexIndex.AnySortWillDo | internal/rules/regex_memory_index.go:53-61 | whatever sorted arrangement the library's sort leaves is the ranking |
| Framing.PutUint32 | internal/embedding/frame.go:14-15 | four bytes, most significant first |
| Framing.WriteFrame | internal/embedding/frame.go:10-21 | a frame is appended, or, for a payload of more than 4194304 bytes, an error and nothing |
| Framing.ReadFrame | internal/embedding/frame.go:24-41 | the next frame's payload is taken off the stream, or the error: EOF, cut off, empty, too large |
| Framing.PyRead | ai_service/app/main.py:83-90 | the same on the Python side, with its own decoding of the length and its own errors |
| Framing.WritersAgree | ai_service/app/main.py:49-52 | Python writes the bytes Go writes for a payload, and refuses the same payloads |
| Framing.ReadersAgree | ai_service/app/main.py:83-90 | on any bytes both sides read the same payload, leave the same rest, and fail in corresponding ways |
| Framing.FramesRoundTrip | internal/embedding/frame.go:10-41 | any payloads of 1 to 4194304 bytes are read back in order from their frames, then a clean end |
| Framing.TruncatedStream | internal/embedding/frame.go:24-41 | a stream cut anywhere yields exactly the payloads that are wholly there, then an error; a plain EOF comes up exactly at a frame boundary or right behind a header |
| Framing.FrameAllConcat | internal/embedding/frame.go:10-21 | frames of two sequences of payloads one after the other are the frames of all of them |
| EmbedTrim.TrimEmbedText | internal/embedding/client.go:147-160 | Go's two loops trim blank bytes at both ends |
| EmbedTrim.GoTrimEmbedText | ai_service/app/protocol.py:12-19 | Python's two loops trim blank code points at both ends |
| Bytes.EncodedValue | ai_service/app/protocol.py:12-19 | the UTF-8 the two trims are compared under: one to four bytes in the shortest form, the code point spread over them six bits at a time |
| EmbedTrim.TrimsAgree | ai_service/app/protocol.py:12-19 | for every Unicode string, UTF-8 encoding (section 3 of RFC 3629) and then trimming as Go does is trimming as Python does and then encoding |
| EmbedTrim.EmptyTogether | ai_service/app/main.py:139-145 | the client refuses a text as empty exactly when the server would |
| EmbedTrim.TrimmedOnceIsEnough | ai_service/app/protocol.py:12-19 | trimming again changes nothing, on either side |
| EmbeddingClient.ServeOne | ai_service/app/main.py:215-237 | one turn of the loop reads one request and writes one response, or ends |
| EmbeddingClient.HandleClient | ai_service/app/main.py:208-237 | the bytes written for the bytes received: one frame for each request answered, in order, up to the first failure |
| EmbeddingClient.OneMoreRequest | ai_service/app/main.py:215-237 | on a connection in step, one more request frame adds the answer to that request and nothing else |
| EmbeddingClient.NextAnswer | internal/embedding/client.go:188-205 | on a connection in step, the frame read after writing a request is the peer's answer to it, and it is read to its end; or there is an error, exactly if that answer does not arrive whole and well-formed |
| EmbeddingClient.LateAnswer | internal/embedding/client.go:193-194 | were the connection kept after an answer came too late, the next request would read that late answer as its own |
| EmbeddingClient.Client.Close | internal/embedding/client.go:83-92 | no connection |
| EmbeddingClient.Client.EnsureConn | internal/embedding/client.go:63-73 | the connection there is, in step, or a new one, or none if dialling fails |
| EmbeddingClient.Client.Exchange | internal/embedding/client.go:188-205 | one request written and its own answer read, still in step; or the connection is dropped |
| EmbeddingClient.Client.RoundTrip | internal/embedding/client.go:162-219 | a response handed on is the peer's answer to this request, also if it carries no id; it comes through exactly when nothing goes wrong on the way; afterwards the connection is dropped or in step; local refusals leave it alone |
| EmbeddingClient.Client.Ping | internal/embedding/client.go:95-110 | sends a request of kind ping, version 1; succeeds exactly if the answer to it came and is a pong without error |
| EmbeddingClient.Client.Embed | internal/embedding/client.go:113-145 | a blank text is refused without a trip; otherwise a request of kind embed, version 1, goes out with the trimmed text, trace id and model; a vector comes back exactly if the answer to it has no error and a vector of the length it claims, and it is that vector, length and model name |
| EmbeddingService.DeliveredGoesThrough | ai_service/app/main.py:186-205 | a delivered request gets exactly the service's response to it, if that echoes its id or has none |
| EmbeddingService.EmbedFromService | ai_service/app/main.py:98-183 | Go client and Python service end to end: if nothing goes wrong on the way, `Embed` returns exactly the model's vector, its length and the model's name for the trimmed text and the model asked for, and nothing if the model raises, has no vector or no name, or the trace id is no UUID |
| EmbeddingService.PingService | ai_service/app/main.py:111-121 | `Ping` end to end: it succeeds |
| EmbeddingService.PingRefused | ai_service/app/main.py:115-120 | whatever happens on the way, a ping that the service refuses fails |

## Assumptions

- SHA-256 is injective: keys are kept as the strings that are hashed. New uuids are new ids. JSON is a round trip, in the
  embedding client a pair of partial functions. `math.Sqrt`, `strings.ToLower`, regular expressions, the order in which Redis lists
  a set, and what the Python service makes of a request are parameters, and the results hold for all of them.
- Similarities are over the reals, without rounding and NaN.
- Time is an integer, in milliseconds. Each command and each critical section reads the clock once, and it never runs backwards.
- `golang.org/x/sync/singleflight` by contract: at most one flight per group at a time, and who asks meanwhile gets its result.

## Left out

- HTTP handlers, server-sent events, routing, metrics, configuration, start-up, and the vector store and model back ends: I/O around the parts modelled here.
- `internal/vector/circuit_store.go` and `internal/embedding/circuit.go`: the discipline of `internal/downstream/circuit.go` again.
- The regex rules' Redis store and coordinator: as for exact rules, without a uniqueness index.
- `RAG.Do` in `internal/coalesce/rag.go`: one call of singleflight with the key; its key is modelled, the library is not.
- RedisCoalesce.NewConfig: does not have MergeTimeout and its default, because nothing in the model reads it: fn returns at any time with any outcome, and the timely runs are a hypothesis.
- SemanticLocal.LeaderTable.constructor: the same for its merge timeout.
- SemanticRedisRuns.JoinsIff: is about calls below the cap of active groups; at the cap, and without a vector, a call runs fn on its own by design.
- Redis failures inside a pipeline, restarts of Redis, commands carried out after the client has given up, and panics in fn: a read that fails ends the call or skips the id, but a write always takes effect.
- RedisCoalesce.AnswerProvenance: does not tell apart the errors a caller can get without an execution (cancelled, timed out, Redis), because they carry no answer.
- RuleStore.StoreStaysConsistent: takes `Update` and `Delete` as atomic, because the code reads and writes in separate commands without protection; only interleaved creations are modelled command by command.
- ExactIndex.ExactCoordinator.Reload: takes listing and replacing as atomic and always successful; two interleaved reloads can install the older rules, and the publish/subscribe notification to other instances is not modelled.
- RuleList.List: works on the rules `ListAll` returned; the empty reply to a failing Redis is not modelled.
- RegexIndex.RegexMemoryIndex.ReplaceAll: Go iterates over the groups in no fixed order; each group is ranked by itself, so the order is not visible in the result.
- EmbeddingClient.Client.RoundTrip: the mutex around it and the mapping of a read error to a deadline error are not modelled; calls come one after the other.
- EmbeddingClient.HandleClient: what the peer writes is modelled as a function of all it is sent; how far the client sees it, and when, is a parameter of each round trip.
- The wording of the service's error messages, UUID parsing, and the detection of a model that is still loading: parameters of the service, and no result depends on them.
- The fields of a response that the client does not read (protocol and server version, error details).
