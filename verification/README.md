# A model of nostrmash in Dafny

nostrmash is a Nostr indexer with a public HTTP API and a Primal-compatible gateway. This project models the parts of
it that are algorithms and protocols rather than plumbing, and proves what they are for:

- the per-client **rate limiter** with idle eviction (`RateLimiter.dfy`);
- the worker's **claim loop**: claim, bounded channel, worker pool, draining shutdown (`JobRunner.dfy`);
- the stale-while-revalidate **response cache** (`ResponseCache.dfy`), its deduplicated **rebuilds** (`CacheBuilds.dfy`),
  its **keys** (`CacheKey.dfy`), the **home-page warmer** (`HomeWarmer.dfy`) and the **shared stats snapshot**
  (`SharedStats.dfy`) on top of it;
- the buffered **gzip** response writer (`GzipWriter.dfy`);
- the merged **follows feed** (`FollowsFeed.dfy`) and the **thread** page collector (`ThreadPaging.dfy`);
- the **TLV decoder** of NIP-19 identifiers (`Nip19.dfy`);
- **moderation** of a response stream (`Moderation.dfy`), **enrichment** budgets (`Enrichment.dfy`) and the page-wide choice
  of **ranking reasons** (`RankReasons.dfy`).

`Sorting.dfy` holds the order and sorting facts several of them share, `Common.dfy` other shared definitions. `dafny verify dfyconfig.toml` checks everything.

Objects the source updates in place are classes whose methods are proved equal to functions on values; the theorems are
about those functions and about runs of them. Concurrent parts (the worker, the rebuilds, the stats fills) are transition
relations whose runs are all interleavings. Clocks, random choices, database and service answers are inputs. Times are
integers in nanoseconds.

## What came out

Several promises of the source hold only under a condition it does not state. Each condition is proved to be exact.

- *"Eviction is semantically lossless"* (rate limiter) is true of exactly the configurations in which every enabled class
  has `burst <= 10 * rpm`; under the same condition, and only then, the limiter keeps a client within a burst plus its rate
  (`EvictionLosslessInOrderIff`, `RateBoundedIff`). The limiter reads the clock before it takes its lock. With readings
  up to `d` late eviction is lossless exactly if bursts refill in ten minutes less `d` (`EvictionLosslessIff`). The rate
  bound tolerates no lateness at all (`SpanBoundedIff`): each time the clock seems to fall back it can earn again what it
  has earned before, and no more than that (`RiseBound`).
- `processJob` calls follow the claim order exactly if there is one worker (`CallsInClaimOrderIff`); only receipt from the
  channel is in order otherwise.
- A request that fills the stats cache finds its entry afterwards exactly if the cache holds that entry and those stored
  behind it: four for network, three for content, two and one for the relay windows (`ServeSharedDiscoveryStats`).
- *"Those endpoints agree until the next refresh"* (stats): network and content answers of one limit agree except while a
  fill is, or after one failed, between the two (`NetworkAndContentAgreeIff`, `PartialFillDisagrees`). Relay answers agree with
  them outside fills as long as one hashtag limit is in use (`OneLimitAgrees`, `PartialFillAgreesIff`), and not with two
  (`TwoLimitsDisagree`).
- The gzip writer sends the status a plain writer would have sent, except for handlers that set a status other than 200
  only after writing while the writer still buffers (`StatusTransparentIff`); likewise for headers
  (`HeadersTransparentIff`).
- The warmer's interval is within the grace window exactly for bundle lifetimes of thirty seconds or more
  (`IntervalWithinGraceIff`).
- The thread collector returns every reply exactly once exactly if no two page-end cursors look alike
  (`PagingCompleteIff`), which is so on stored data (`StoredThreadsAreComplete`); despite its name it collects in ascending
  order, with the comments of the first page in between.
- That quoted notes are emitted as mentions even if they are posts of the page (enrichment) holds for quotes in posts and
  reposts (`DirectQuoteIsEmittedIff`). Of the quotes inside referenced events that can be had, exactly those are emitted
  that are not of a post, or of one the page quotes itself (`NestedQuoteIsEmittedIff`, `NestedQuoteOfPostExample`).
- A profile row is left without a reason in exactly the cases of `TrendingRowHasReasonIff` and `RisingRowHasReasonIff`.

## Model

| member | source | states |
|---|---|---|
| RateLimiter.Limiter.constructor | internal/api/middleware_limits.go:84-92 | a new limiter holds no buckets and has never swept |
| RateLimiter.Limiter.SweepLocked | internal/api/middleware_limits.go:97-107 | whatever order the map is walked in, a sweep no sooner than a minute after the last keeps exactly the buckets idle for less than ten minutes |
| RateLimiter.SubIsClosest | internal/api/middleware_limits.go:97-107 | elapsed time is the difference of two instants, or the closest 64-bit duration |
| RateLimiter.Limiter.Allow | internal/api/middleware_limits.go:147-178 | one call takes the limiter's whole state to the one the step function gives, decision included |
| RateLimiter.IdleBucketIsFull | internal/api/middleware_limits.go:74-78 | a bucket idle long enough for its rate to make up a burst charges exactly like a new one |
| RateLimiter.StepSimulates | internal/api/middleware_limits.go:97-107 | one call, at most d late, keeps the evicting limiter a simulation of the never-evicting one, with the same decision |
| RateLimiter.SimulationOverRuns | internal/api/middleware_limits.go:74-82 | over every run whose clock readings arrive at most d late, with plans that refill in the eviction window less d, both limiters take the same decisions |
| RateLimiter.ChargeSpends | internal/api/middleware_limits.go:159-177 | what a charge lets through is paid for out of the bucket's level, which stays between zero and the burst |
| RateLimiter.RiseBound | internal/api/middleware_limits.go:147-178 | in any stretch of any run, in whatever order clock readings reach the lock, the calls let through for a key are at most a burst plus the rate times what the clock moves forward |
| RateLimiter.RiseIsSpanIff | internal/api/middleware_limits.go:147-178 | the clock moves forward by the time spanned exactly if it never falls back, and by more otherwise |
| RateLimiter.RateBound | internal/api/middleware_limits.go:147-178 | on a forward clock that is a burst plus the rate times the time spanned |
| RateLimiter.SpanBoundedIff | internal/api/middleware_limits.go:38-38 | for every refilling plan the bound by time spanned holds over all runs with readings up to d late if and only if d is zero |
| RateLimiter.LateRunOverruns | internal/api/middleware_limits.go:38-38 | for every plan a run, readings one nanosecond late at most, that lets more than a burst through in no time |
| RateLimiter.PacedClientIsNeverRefused | internal/api/middleware_limits.go:147-178 | a client whose calls are far enough apart for its rate to pay for each is never refused, with or without eviction, whatever other clients do and in whatever order their clock readings arrive |
| RateLimiter.LetThroughIff | internal/api/middleware_limits.go:147-178 | on a forward clock, for a plan with a burst of at most ten times its rate: a call is let through if and only if it keeps every stretch of the run that starts with a call of the same client within a burst plus the rate |
| RateLimiter.RetainedBucketsAreRecent | internal/api/middleware_limits.go:94-107 | after a limited call every bucket still held was used less than eleven minutes before |
| RateLimiter.OverdrawSeparates | internal/api/middleware_limits.go:79-82 | for every plan that does not refill, a run on which the evicting limiter exceeds its rate and decides differently |
| RateLimiter.ClientKeyInjective | internal/api/middleware_limits.go:38-38 | the bucket key determines the endpoint class, so one key always comes with one plan |
| RateLimiter.ClientKeyIs | internal/api/middleware_limits.go:34-38 | a bucket goes by the client and the name of the class; requests whose client is not known share the bucket of the class |
| RateLimiter.LateBurstSeparates | internal/api/middleware_limits.go:79-82 | for every plan that does not refill in the window less d, a run with calls d late on which the two limiters decide differently |
| RateLimiter.EvictionLosslessIff | internal/api/middleware_limits.go:74-82 | for every configuration and d: eviction changes no decision on any request sequence whose readings arrive at most d late if and only if every enabled class refills in ten minutes less d |
| RateLimiter.EvictionLosslessInOrderIff | internal/api/middleware_limits.go:74-82 | with readings in order: if and only if every enabled class has a burst of at most ten times its rate |
| RateLimiter.RateBoundedIff | internal/api/middleware_limits.go:109-145 | for every configuration and class: the rate is kept over all runs, stretches and clients if and only if that class refills within ten minutes |
| RateLimiter.PlanIs | internal/api/middleware_limits.go:109-145 | each class has its own rate if that is positive, and the default rate otherwise |
| RateLimiter.UnlimitedIsServed | internal/api/middleware_limits.go:29-33 | after any requests, one of a class for which neither its own rate nor the default is positive is served and changes no bucket |
| RateLimiter.ServedIff | internal/api/middleware_limits.go:22-44 | for every configuration and every class that refills while idle: a request is served if and only if it keeps its client, in every stretch from an earlier request for the same bucket to this one, within a burst plus the rate of the class |
| RateLimiter.LateCallOvergrantsIff | internal/api/middleware_limits.go:38-38 | for every rate and lag, evicting or not: a call behind one that is lag late is let through at the instant of the first if and only if the rate pays for a call in that lag |
| JobRunner.StartInv | cmd/worker/job_runner.go:38-46 | the state before the first claim satisfies the protocol invariant for every batch size and concurrency |
| JobRunner.InvStep | cmd/worker/job_runner.go:41-149 | every step of the loop, the channel or a worker keeps the invariant |
| JobRunner.JobsAreConserved | cmd/worker/job_runner.go:121-148 | in every reachable state each claimed job is in exactly one place: unsent, buffered, with one worker, settled or abandoned |
| JobRunner.ReturnSettlesWhatWasSent | cmd/worker/job_runner.go:47-119 | on return nothing is buffered or held; a sent job had one processJob call and one settle attempt, CompleteJob exactly if it succeeded; the rest is a tail of the last batch and untouched |
| JobRunner.ReceivedInClaimOrder | cmd/worker/job_runner.go:41-47 | workers receive jobs from the channel in the order they were claimed |
| JobRunner.SecondJobFirst | cmd/worker/job_runner.go:43-54 | for every configuration with two or more workers a reachable state in which the second job was called first |
| JobRunner.CallsInClaimOrderIff | cmd/worker/job_runner.go:43-54 | processJob calls follow the claim order in every reachable state if and only if there is one worker |
| JobRunner.Bounds | cmd/worker/job_runner.go:38-46 | in every reachable state the pool has the configured number of workers, at least one, and the channel holds at most a batch for each |
| JobRunner.ChannelCanFill | cmd/worker/job_runner.go:41-47 | that bound is reached: for every configuration a reachable state in which every worker has a job and the channel holds a batch for each |
| JobRunner.ShutdownCanAbandon | cmd/worker/job_runner.go:141-147 | for every configuration a reachable shutdown that leaves a claimed job unsent |
| JobRunner.NoBusyPolling | cmd/worker/job_runner.go:129-139 | in every run, between a claim that failed or brought nothing and the next claim the loop has waited |
| JobRunner.NoDeadlock | cmd/worker/job_runner.go:116-148 | in every reachable state before return some thread can move, also with an unbuffered channel |
| JobRunner.ShutdownProgress | cmd/worker/job_runner.go:116-148 | after cancellation every step lowers a well-founded measure of the work left |
| JobRunner.ShutdownTerminates | cmd/worker/job_runner.go:116-124 | after cancellation every schedule reaches return |
| ResponseCache.Store.constructor | internal/api/discovery_cache.go:185-194 | an empty cache with the default capacity when none is given |
| ResponseCache.Store.Get | internal/api/discovery_cache.go:202-218 | the lookup result, and removal of the entry if its stale window has closed |
| ResponseCache.Store.Set | internal/api/discovery_cache.go:220-238 | purge, make room, write, as one step on the whole state; write numbers stay distinct |
| ResponseCache.Store.DeleteExpiredLocked | internal/api/discovery_cache.go:240-246 | exactly the entries whose stale window is open remain |
| ResponseCache.Store.EvictOldestLocked | internal/api/discovery_cache.go:248-264 | exactly the entry written longest ago is removed |
| ResponseCache.RunAgrees | internal/api/discovery_cache.go:202-264 | after every run on a forward clock the entries are those of the trace, and every absent key has lapsed or was pushed out by maxEntries live keys at some time since |
| ResponseCache.HitMatchesTrace | internal/api/discovery_cache.go:196-218 | whatever the order of clock readings, a hit is the last effective set of the key, fresh exactly before its ttl |
| ResponseCache.LookupMatchesTrace | internal/api/discovery_cache.go:196-218 | on a forward clock, unless the key was pushed out, which takes maxEntries other keys stored since, the answer is exactly what the trace says |
| ResponseCache.HeldLeavesRoom | internal/api/discovery_cache.go:228-230 | a key still held has fewer than maxEntries live keys stored after it |
| ResponseCache.ServedIff | internal/api/discovery_cache.go:220-264 | in every run a key is served if and only if its window is open and at no time since it was stored could maxEntries other keys stored since be served |
| ResponseCache.ServedAge | internal/api/discovery_cache.go:165-175 | whatever the order of clock readings, a served payload is younger than its ttl plus the smaller of the ttl and five minutes |
| ResponseCache.ServedWindow | internal/api/discovery_cache.go:165-238 | a payload is served as fresh to the end of its ttl, as stale for the smaller of the ttl and five minutes more and not after that, until its key is written again or as many other keys are written as the cache has room for |
| ResponseCache.NeverWrittenMisses | internal/api/discovery_cache.go:202-207 | a key that was never written is never served |
| ResponseCache.SizeAndSequence | internal/api/discovery_cache.go:220-238 | whatever the order of clock readings, the size never exceeds the capacity, 256 if none is given, and write numbers are distinct and bounded by the counter |
| CacheBuilds.InvStep | internal/api/discovery_cache.go:330-353 | every interleaved step of lookups, direct stores and flights keeps the build log bracketed and tied to the cache trace |
| CacheBuilds.BuildsDoNotOverlap | internal/api/discovery_cache.go:326-332 | between two starts of builds of one key the first build has ended |
| CacheBuilds.NoEarlyRebuild | internal/api/discovery_cache.go:333-335 | no build starts within the ttl of any earlier store of its key unless the key was pushed out |
| CacheBuilds.StartsAreSpaced | internal/api/discovery_cache.go:330-348 | starts of successfully stored builds of one key that was not pushed out are at least a ttl apart |
| CacheBuilds.BuildRateBound | internal/api/discovery_cache.go:266-275 | under any load n + 1 builds of a key take at least n ttls, as long as builds succeed and the key is not pushed out |
| CacheBuilds.UncacheableReplacesNothing | internal/api/discovery_cache.go:336-346 | a build that fails, or whose result is not worth caching, changes the answer for no key |
| CacheBuilds.CacheableIsServed | internal/api/discovery_cache.go:344-346 | any other build is what its key is answered with, fresh, for the whole ttl |
| CacheBuilds.RebuiltIff | internal/api/discovery_cache.go:333-336 | in every run a flight that looks again starts a build if and only if the key is not fresh |
| CacheBuilds.StoreIsOpen | internal/api/discovery_cache.go:220-238 | in every run a payload can be stored at any time, and is then what its key is answered with |
| CacheBuilds.CallIsOpen | internal/api/discovery_cache.go:276-332 | in every run a key can be looked up, and a flight for it started or joined, at any time |
| CacheBuilds.RebuiltAfterTtl | internal/api/discovery_cache.go:330-348 | the bound on builds is reached: for every key a run whose second build starts exactly a ttl after the first |
| CacheBuilds.CacheablePublicPayload | internal/api/discovery_cache.go:361-380 | a payload is refused exactly if it is nil, or degraded with one of the ranked lists in it empty |
| CacheBuilds.BuildAndCachePayload | internal/api/discovery_cache.go:330-353 | a flight returns a fresh entry untouched, and a failed or empty degraded build replaces nothing |
| HomeWarmer.IntervalWithinGraceIff | internal/api/handlers_discovery_home.go:470-476 | the clamped interval is within the grace window if and only if the ttl is at least thirty seconds |
| HomeWarmer.IntervalIs | internal/api/handlers_discovery_home.go:470-476 | thirty seconds for ttls below a minute, two minutes for ttls above four, and half the ttl in between |
| HomeWarmer.LateVisitIsInFlight | internal/api/handlers_discovery_home.go:512-519 | a visit more than the closing delay after the newest entry expired was neither skipped as fresh nor has its build landed |
| HomeWarmer.WarmKeyNeverMisses | internal/api/handlers_discovery_home.go:491-532 | visits at most g apart with builds landing within d and flights leaving within e, g + d + e within the grace window, and the first gap almost a ttl longer: once the first build landed, get never misses unless the key was pushed out, although fresh entries are skipped |
| HomeWarmer.TickedVisitsAreClose | internal/api/handlers_discovery_home.go:479-488 | with a first pass that ends when the ticker is created, visits are at most an interval and a pass apart, the first two an interval and two passes |
| HomeWarmer.DefaultWarmerNeverMisses | internal/api/handlers_discovery_home.go:457-489 | with default bundles, passes of up to two minutes, calls settled within the warm timeout and flights leaving within 45 seconds, in every interleaving of the rebuild protocol a warmed bundle that is not pushed out is never missing |
| HomeWarmer.CallHasOutcome | internal/api/discovery_cache.go:330-353 | in every interleaving a call for a key joined a flight that had settled already, is not settled yet, or led to a store, a failed build or a fresh entry |
| HomeWarmer.CallIsAnswered | internal/api/discovery_cache.go:330-353 | without failed builds, a call settled within d on flights that leave within e was skipped as fresh no more than e before, has stored, or is at most d old |
| HomeWarmer.WarmedRunNeverMisses | internal/api/handlers_discovery_home.go:466-532 | the warmer's guarantee over every interleaving of passes, requests, refreshes and stores of other keys through the deduplicated builds: from the first store on a lookup never misses |
| SharedStats.KeyOfInjective | internal/api/handlers_discovery_stats.go:234-256 | the stats entries of different endpoints, limits and windows have different cache keys |
| SharedStats.QuestionsAre | internal/api/handlers_discovery_stats.go:240-256 | the endpoint and parameters each of the four entries is stored under |
| SharedStats.BatchServedIff | internal/api/handlers_discovery_stats.go:240-256 | of entries stored one after the other, each at its own time, one is served exactly while its window is open, if it and those behind it fit the capacity |
| SharedStats.FillLeavesAllIff | internal/api/handlers_discovery_stats.go:230-260 | after an undisturbed fill the i-th entry renders the snapshot if and only if the capacity is at least 4 - i and its window is open; all four if and only if it is at least four and the first window is open |
| SharedStats.RoomForEach | internal/api/handlers_discovery_stats.go:239-255 | after a fill the network answer is there if and only if the cache holds four entries, the content answer three, the daily relay answer two and the weekly one, each for its ttl and the grace window |
| SharedStats.ServedFrom | internal/api/handlers_discovery_stats.go:198-206 | a served stats payload is the rendering of the snapshot of the last store of its key |
| SharedStats.ServedSnapshotAge | internal/api/handlers_discovery_stats.go:262-285 | every served stats payload renders a snapshot stored less than two ttls, the grace window and the duration of a fill earlier |
| SharedStats.AgreeIff | internal/api/handlers_discovery_stats.go:22-25 | answers of any two stats endpoints show one snapshot if and only if the stores they come from rendered one |
| SharedStats.NetworkAndContentAgreeIff | internal/api/handlers_discovery_stats.go:22-25 | in every interleaving of fills, network and content answers of one limit agree unless a fill of it is half way or failed there; then they agree if and only if the content entry renders that fill's snapshot too |
| SharedStats.PartialFillDisagrees | internal/api/handlers_discovery_stats.go:239-255 | for every limit, two snapshots and every place inside a fill a run, with the fill at work or failed there, in which the endpoints it has stored show the one snapshot and the others the other |
| SharedStats.OneLimitAgrees | internal/api/handlers_discovery_stats.go:22-25 | while all fills are for one hashtag limit, network, content and both relay answers agree whenever no fill is, or failed, between its first and last store |
| SharedStats.PartialFillAgreesIff | internal/api/handlers_discovery_stats.go:239-255 | while a fill of the one limit is at work, an endpoint it has stored agrees with another if and only if the latter renders that fill's snapshot too |
| SharedStats.TwoLimitsDisagree | internal/api/handlers_discovery_stats.go:249-255 | for any two limits a run of complete fills after which a network answer and the relay answers show different snapshots |
| SharedStats.StatsMemo.GetFresh | internal/api/handlers_discovery_stats.go:34-44 | the memo answers exactly while it is filled and not expired |
| SharedStats.StatsMemo.Put | internal/api/handlers_discovery_stats.go:46-55 | a positive ttl replaces the memo, any other leaves it |
| SharedStats.StorePayload | internal/api/handlers_discovery_stats.go:287-298 | the payload is set under the policy key of its endpoint and parameters |
| SharedStats.FillSharedDiscoveryStats | internal/api/handlers_discovery_stats.go:230-260 | an undisturbed fill takes the memo's snapshot or a loaded one and writes its four entries, or those before the first that cannot be encoded, or nothing |
| SharedStats.ServeSharedDiscoveryStats | internal/api/handlers_discovery_stats.go:181-220 | an undisturbed request for the network, content or a relay answer, of ten hashtags if no positive number is asked for, serves what the cache holds, refreshing if stale; after a miss and a fill from the memo or a load it is served if and only if the cache has room for its entry and those stored behind it, and the entry has not lapsed meanwhile |
| CacheKey.EscapeRoundTrip | internal/api/discovery_cache.go:435-435 | query escaping loses nothing, on all byte strings |
| CacheKey.EscapeAvoidsSeparators | internal/api/discovery_cache.go:432-435 | escaped text contains neither separator |
| CacheKey.EscapeByteIs | internal/api/discovery_cache.go:435-435 | letters, digits and four marks stay, a space becomes a plus sign, every other byte two capital hexadecimal digits |
| CacheKey.BuildPublicCacheKey | internal/api/discovery_cache.go:420-438 | the key does not depend on the order in which the parameter map is walked |
| Sorting.StringLessIff | internal/api/discovery_cache.go:428-428 | one text sorts before another if and only if it is a proper prefix of it or has the smaller byte at the first place they differ |
| CacheKey.PolicyKeyInjective | internal/api/discovery_cache.go:412-438 | equal keys mean equal family, endpoint and parameters, when names carry no separator |
| CacheKey.ColonInEndpointCollides | internal/api/discovery_cache.go:416-416 | without that condition every question with one parameter shares its key with one that has none |
| GzipWriter.Writer.WriteHeader | internal/api/middleware_gzip.go:78-83 | only the first status counts; the writer stays what the calls so far ask for |
| GzipWriter.Writer.Write | internal/api/middleware_gzip.go:85-99 | bytes are buffered, passed through or compressed so that the writer stays what the calls so far ask for |
| GzipWriter.Writer.StartCompressing | internal/api/middleware_gzip.go:104-121 | commits to gzip with Content-Encoding gzip and no Content-Length exactly if the headers are textual and not encoded yet, and to passthrough otherwise, with nothing buffered lost |
| GzipWriter.Writer.StartPassthrough | internal/api/middleware_gzip.go:124-134 | commits to plain output: header first, then the buffered bytes |
| GzipWriter.Writer.Flush | internal/api/middleware_gzip.go:180-190 | after a flush the client has everything written so far, in every mode |
| GzipWriter.Writer.Finalize | internal/api/middleware_gzip.go:160-175 | whatever mode the writer ended in, the response is complete |
| GzipWriter.ServeWithGzip | internal/api/middleware_gzip.go:45-47 | for every call sequence: exactly one header, first; the body decodes to all bytes written; the response is sent as gzip, and labelled so, exactly if a write that made 1024 bytes decided it under textual headers without an encoding, and with the headers as they were otherwise |
| GzipWriter.DecisionExists | internal/api/middleware_gzip.go:85-99 | every call sequence has one place at which the mode is decided, and headers in force there |
| GzipWriter.ResponseIsLabelled | internal/api/middleware_gzip.go:104-134 | of any complete response: sent as gzip, without a length, exactly if a write decided it with textual headers that were not encoded; otherwise never as gzip of this writer and with the headers in force |
| GzipWriter.ResponseHasStatus | internal/api/middleware_gzip.go:78-83 | of any complete response: the status of the first WriteHeader before the decision, and 200 if there was none |
| GzipWriter.ModeIsFinal | internal/api/middleware_gzip.go:64-67 | once chosen, mode and header never change |
| GzipWriter.SentStatus | internal/api/middleware_gzip.go:78-83 | the status sent is the first one set before the mode was decided, else 200 |
| GzipWriter.StatusTransparentIff | internal/api/middleware_gzip.go:78-126 | the status equals that of a plain writer if and only if no status other than 200 is first set after a write while undecided |
| GzipWriter.LateStatusExample | internal/api/middleware_gzip.go:78-83 | a handler that writes a byte and then sets 404: 404 is sent, a plain writer sends 200 |
| GzipWriter.SentHeaders | internal/api/middleware_gzip.go:104-126 | the headers sent are those last set before the mode was decided, with the encoding added if compressed |
| GzipWriter.HeadersTransparentIff | internal/api/middleware_gzip.go:78-126 | but for that encoding they are those of a plain writer if and only if they are not changed after a status, write or flush while undecided |
| GzipWriter.LateHeadersExample | internal/api/middleware_gzip.go:78-83 | a handler that sets a status and then a content type, which a plain writer would not send |
| FollowsFeed.SortAndLimitEvents | internal/api_primal/primal_thread.go:206-243 | the result is the newest limit of the first readable message of each id, strictly sorted |
| FollowsFeed.FirstsAreFirsts | internal/api_primal/primal_thread.go:212-228 | deduplication keeps exactly the messages that can be read and are the first with their id, in order |
| FollowsFeed.TopIsNewest | internal/api_primal/primal_thread.go:229-237 | newest first, ties by larger id; everything if the limit is not positive or not reached, otherwise exactly limit events of which none is older than one left out |
| FollowsFeed.TopUnique | internal/api_primal/primal_thread.go:229-237 | the newest limit of a set of events is one list only, so nothing depends on the order of the input |
| FollowsFeed.LeftOutIsLater | internal/api_primal/primal_cache_dispatch_content.go:65-72 | an event its author's limited read left out is older than everything in the merged top |
| FollowsFeed.FanInIsTop | internal/api_primal/primal_cache_dispatch_content.go:63-72 | the top of the merged limited reads is the top of everything the authors wrote |
| FollowsFeed.FollowsFeed | internal/api_primal/primal_cache_dispatch_content.go:55-73 | walking the follow set in any order, the feed is exactly the newest limit events of all followed authors |
| ThreadPaging.CollectThreadReplies | internal/api_primal/primal_thread.go:69-105 | for every backend with finitely many cursors the loop ends, after at most one request more than cursors; it asks for the first page and then for each next cursor, stops exactly at a page without one, without replies or with one it has seen, returns all replies of the pages in order with the first page as the view, and returns the error if any request fails |
| ThreadPaging.WalkIsFollow | internal/api_primal/primal_thread.go:80-102 | the pages walked are those the recursive description of the loop follows |
| ThreadPaging.TrimSpaceIs | internal/api_primal/primal_thread.go:96-96 | trimming cuts off exactly the white space at both ends |
| ThreadPaging.AfterReply | internal/store/events_threads.go:126-134 | the keyset page behind a reply starts exactly behind it |
| ThreadPaging.FollowRest | internal/api_primal/primal_thread.go:80-102 | behind any reply the rest arrives in full if and only if the page-end cursors to come are fresh, and is a prefix of it otherwise |
| ThreadPaging.PagingCompleteIff | internal/api_primal/primal_thread.go:80-104 | over a keyset backend every reply arrives exactly once in ascending order, the first page's comments in between, if and only if the page-end cursors differ |
| ThreadPaging.TrimmedIdsAreFresh | internal/api_primal/primal_thread.go:96-100 | with trimmed ids the seen-cursor guard never cuts a run short |
| ThreadPaging.StoredThreadsAreComplete | internal/api_primal/primal_thread.go:69-105 | so on stored data every reply arrives exactly once, whatever the page size |
| Nip19.DecodeTLV | internal/api_primal/primal_v1_stubs.go:99-135 | on all byte strings the loop ends in bounds and absorbs exactly the complete records at the front |
| Nip19.ParseIsLossless | internal/api_primal/primal_v1_stubs.go:102-110 | every byte string is the encoding of its records followed by a truncated tail |
| Nip19.ParseInvertsEncode | internal/api_primal/primal_v1_stubs.go:102-110 | and no other records and truncated tail make up that string |
| Nip19.DecodeIsFieldwise | internal/api_primal/primal_v1_stubs.go:111-133 | the result is, field by field, the last well-sized value of each type and all relays in order |
| Nip19.UnknownRecordIgnored | internal/api_primal/primal_v1_stubs.go:111-111 | a record of unknown type changes nothing wherever it stands |
| Nip19.DecodeInvertsEncode | internal/api_primal/primal_v1_stubs.go:99-135 | an encoded nprofile, nevent or naddr decodes to itself, with its records in any order, among unknown ones, before any truncated tail |
| Nip19.PrefixesAre | internal/api_primal/primal_v1_stubs.go:88-93 | the prefix tells the three kinds of identifier apart |
| Nip19.HexRoundTrip | internal/api_primal/primal_v1_stubs.go:116-122 | the hexadecimal fields determine the bytes |
| Moderation.PrunePubkeyMap | internal/api_primal/primal_v1_moderate.go:120-149 | in the per-user maps exactly the keys of muted users are removed, and other items are left alone, whatever order they are walked in |
| Moderation.PruneRangeElements | internal/api_primal/primal_v1_moderate.go:151-198 | only a closing range is rewritten, to the entries that are not gone |
| Moderation.ModeratePrimalEvents | internal/api_primal/primal_v1_moderate.go:9-60 | the output is the input without the deleted events and those of muted authors other than the exempt one, in order; the per-user maps lose exactly the muted keys, a closing range exactly the entries of events of the page that are gone, and nothing else changes |
| Moderation.ModerationIs | internal/api_primal/primal_v1_moderate.go:9-60 | the same of the moderated stream as a function, item by item |
| Moderation.ModeratedIsSubsequence | internal/api_primal/primal_v1_moderate.go:41-58 | the output is the input without exactly the banned items, in order, each unchanged but for a pruned map or the closing range |
| Moderation.RangeIsConsistent | internal/api_primal/primal_v1_moderate.go:177-190 | the closing range lists an id if and only if it did before and the id is not that of an event missing from the page |
| Moderation.ModerationIsIdempotent | internal/api_primal/primal_v1_moderate.go:9-60 | for fixed mutes and deletion records a second pass changes nothing |
| RankReasons.SignalByCode | internal/api/discovery_rank_reasons.go:62-69 | the first signal of a row with the code |
| RankReasons.SignalMonotonic | internal/api/discovery_rank_reasons.go:49-60 | true exactly if no lower row beats the value for this code by more than the margin |
| RankReasons.EvidenceIff | internal/api/discovery_rank_reasons.go:71-76 | a reason carries its signal's code, and its figure if and only if the signal is not bare and has a metric |
| RankReasons.ChooseRankReasons | internal/api/discovery_rank_reasons.go:30-47 | each row gets its first offered admissible signal, or nothing if it has none |
| RankReasons.PrintedNumberIsNotBeaten | internal/api/discovery_rank_reasons.go:10-13 | a chosen comparable figure is not exceeded by more than the margin by any lower row carrying its code, pairwise |
| RankReasons.SkippedNumberIsBeaten | internal/api/discovery_rank_reasons.go:39-41 | an offered figure is passed over only because some lower row beats it |
| RankReasons.PageNeverRises | internal/api/discovery_rank_reasons.go:10-13 | figures printed for one code never rise down the page by more than the margin |
| RankReasons.NoteRowIsHonest | internal/api/discovery_rank_reasons.go:78-96 | note rows carry each code once and figures only on comparable signals |
| RankReasons.TrendingRowIsHonest | internal/api/discovery_rank_reasons.go:128-171 | trending rows carry each code once and figures only on comparable signals |
| RankReasons.RisingRowIsHonest | internal/api/discovery_rank_reasons.go:173-225 | rising rows carry each code once and figures only on comparable signals |
| RankReasons.NoteRowHasOneReason | internal/api/discovery_rank_reasons.go:94-95 | every note row gets exactly one reason on every page |
| RankReasons.TrendingRowHasReasonIff | internal/api/discovery_rank_reasons.go:158-170 | a trending row gets a reason if and only if it has score, engagement or a recency no lower row beats |
| RankReasons.RisingRowHasReasonIff | internal/api/discovery_rank_reasons.go:212-224 | a rising row gets a reason if and only if it has score, engagement, momentum or a recency no lower row beats |
| RankReasons.BuildNoteRankings | internal/api/discovery_rank_reasons.go:109-126 | every note is printed with one reason: the first of its own counts of replies, zaps, reactions and reposts that is positive and that no lower note exceeds, else its time if that matters and no lower note is newer, else a word that claims no number |
| RankReasons.AssignProfileRankings | internal/api/discovery_rank_reasons.go:227-255 | every profile is printed with the first admissible of its own figures for the surface, or with none; for a code the page never rises by more than the margin |
| RankReasons.NoteChoice | internal/api/discovery_rank_reasons.go:78-96 | the reason chosen for a note, in terms of the fields of the notes |
| RankReasons.TrendingChoice | internal/api/discovery_rank_reasons.go:128-171 | the reason chosen for a trending profile, in terms of the fields of the profiles |
| RankReasons.RisingChoice | internal/api/discovery_rank_reasons.go:173-225 | the reason chosen for a rising profile, in terms of the fields of the profiles |
| RankReasons.MomentumIs | internal/derivation/discovery_scores.go:386-403 | growth beyond two counts from ten on, divided by the five-hundreds of an audience above five hundred |
| Enrichment.PickProperties | internal/api_primal/primal_enrich.go:364-377 | collected ids are distinct, new and within the budget; below the budget nothing was passed over |
| Enrichment.PickInOrder | internal/api_primal/primal_enrich.go:364-377 | ids are taken in the order they are found, each at its first mention, and none is passed over before the budget is used up |
| Enrichment.QuoteListIff | internal/api_primal/primal_enrich.go:389-411 | an event is quoted if and only if a q tag, an e tag marked as mention or quote, or the content refers to it |
| Enrichment.QuotesInOrder | internal/api_primal/primal_enrich.go:389-411 | quotes come event by event, within an event tag by tag, and those in the content last |
| Enrichment.QuotedAuthorsIff | internal/api_primal/primal_enrich.go:395-399 | the authors named are the fourth fields of q tags |
| Enrichment.TargetListIff | internal/api_primal/primal_enrich.go:337-338 | the other references are the non-blank targets of e tags |
| Enrichment.QuoteReferences | internal/api_primal/primal_enrich.go:356-413 | the ids are those picked from the quotes in the order they are found; the authors are exactly those the quotes name, without a limit |
| Enrichment.CollectReferencedEventIDs | internal/api_primal/primal_enrich.go:325-354 | quotes come first, other e-tag targets share what is left of the budget |
| Enrichment.ResolveReferenced | internal/api_primal/primal_enrich.go:216-242 | events at hand first, then those the store has, each id once |
| Enrichment.ResolvedProperties | internal/api_primal/primal_enrich.go:216-261 | no more events than ids, and exactly those that are known or can be loaded |
| Enrichment.FoundInOrder | internal/api_primal/primal_enrich.go:244-261 | the events found come in the order of their ids |
| Enrichment.MissingInOrder | internal/api_primal/primal_enrich.go:222-238 | the store is asked for exactly the ids not at hand, in order |
| Enrichment.KnownIsThePage | internal/api_primal/primal_enrich.go:36-64 | the lookup table holds every event of the page and of its reposts under its id and canonical id, and nothing else |
| Enrichment.KnownIsLast | internal/api_primal/primal_enrich.go:39-64 | of several events with one id the last on the page is looked up, a reposted event after its repost |
| Enrichment.PageIdsIff | internal/api_primal/primal_enrich.go:49-56 | the ids of the page are the ids and canonical ids of its posts |
| Enrichment.InnersInOrder | internal/api_primal/primal_enrich.go:59-63 | reposted events are scanned in the order of their reposts |
| Enrichment.CollectReferences | internal/api_primal/primal_enrich.go:71-106 | all ids distinct; direct and nested quotes within 128, other references within 64, mentions within 192; the ids are the first found of the quotes of posts and reposts, the other references and the nested quotes outside the skip set, and all of them as far as the budgets go; the events are exactly those that can be had for them; the authors exactly those the quotes name |
| Enrichment.AuthorList.RememberPubkey | internal/api_primal/primal_enrich.go:204-214 | an author is appended exactly if not blank, not there yet and within the limit |
| Enrichment.AuthorList.RememberPubkeys | internal/api_primal/primal_enrich.go:194-202 | every non-blank mandatory author is appended at its first mention, nobody else is added |
| Enrichment.AuthorList.RememberOptional | internal/api_primal/primal_enrich.go:120-127 | optional authors are appended in order up to the hundredth place and not beyond |
| Enrichment.QuotedPageEventIsEmitted | internal/api_primal/primal_enrich.go:33-36 | a quote that names an event of the page is emitted from the page |
| Enrichment.EmittedIff | internal/api_primal/primal_enrich.go:71-106 | an id comes as a mention if and only if it was collected and is on the page, in a repost or in the store |
| Enrichment.DirectQuoteIsEmittedIff | internal/api_primal/primal_enrich.go:33-36 | below the budget a quote in a post or a repost comes as a mention if and only if it can be had, also of an event on the page |
| Enrichment.NestedQuoteIsEmittedIff | internal/api_primal/primal_enrich.go:87-105 | below the budget a quote inside a referenced event comes as a mention if and only if it can be had and is not of a post, unless the page quotes that post itself |
| Enrichment.NestedQuoteOfPostExample | internal/api_primal/primal_enrich.go:87-105 | a page of two posts on which the second is quoted inside a mention and does not come as one |
| Enrichment.CollectAuthors | internal/api_primal/primal_enrich.go:58-127 | the list is the post authors in page order up to the hundredth, then all mandatory authors in order, then the optional ones up to the hundredth; only mandatory authors stand beyond the hundredth place, below it nobody is left out, and everyone on it is from one of the groups |
| Enrichment.CollectPage | internal/api_primal/primal_enrich.go:28-127 | the references are those of CollectReferences for the posts; the authors are those of the posts first, then of all reposted and referenced events, those quotes name and the top zap senders, however long the page, then p-tag targets and other zap senders while there is room; below a hundred authors all of these are on the list, and nobody else ever is |

## Left out

- RateLimiter.Limiter.Allow: tokens are exact scaled integers; float64 rounding is not modelled. Path classification and client address extraction are inputs.
- JobRunner.NoDeadlock: queue calls and processJob are taken to return; logging, metrics, tracing and backoff delays are not modelled.
- ResponseCache.Store.Set: the write counter does not wrap at 64 bits and times do not overflow.
- ResponseCache.ServedIff: misses are described for runs in which clock readings reach the lock in order; hits, ages and sizes for every order.
- CacheBuilds.InvStep: a flight's context deadline, the error shared with its followers and panics inside a build are not modelled; marshalling failures count as failed builds.
- CacheBuilds.CacheablePublicPayload: a payload is nil, or its degraded flag and the lengths of the slices in it.
- HomeWarmer.WarmedRunNeverMisses: which languages a pass visits, how long a pass takes and how long a flight lasts are inputs.
- SharedStats.FillLeavesAllIff: the content payload's extra database section is part of the abstract renderer.
- SharedStats.ServeSharedDiscoveryStats: an undisturbed request; interleaved fills are the transition system of the other stats rows, and requests without a cache are not modelled.
- CacheKey.PolicyKeyInjective: values are the already normalised texts; normalisation itself (white space, the cut at 512 bytes) is not modelled.
- GzipWriter.ServeWithGzip: no hijacking, no downstream write errors, no informational 1xx statuses; the content-type test is an input and DEFLATE is known by its contract only.
- FollowsFeed.FollowsFeed: relies on each author's read being that author's newest events and on ids identifying events; the other feed modes are not modelled.
- ThreadPaging.PagingCompleteIff: the backend is the keyset query of the store on data that does not change while the pages are read; cursor keys are pairs rather than formatted strings.
- Nip19.DecodeTLV: bech32 and the 5-to-8-bit conversion are not modelled; npub and note are a length check only.
- Moderation.ModeratePrimalEvents: JSON decoding and encoding are taken to be inverse; rewriting in place of the objects shared with the caller is modelled on values.
- RankReasons.ChooseRankReasons: values are exact reals; confidence labels and whether recency matters for a window are inputs.
- Enrichment.CollectReferences: JSON, the reference pattern in content and the canonical forms are inputs; zaps, counters, media and relay hints are not modelled.
- Enrichment.EmittedIff: for canonical forms that are idempotent and a store that answers with what it holds; a failing store yields no events.
- SQL-backed handlers, admin endpoints, authentication, the store, the job queue's own SQL, scoring, account lifecycle and storage tiers: row scanning, configuration and case tables that would only add easy members.
