# KVGate routing and admission core: a verified model

KVGate is an LLM gateway. For every chat request it decides whether the tenant may be
served (token bucket, spend cap), whether a cached answer will do, and which upstream
deployment should serve it. This project models that core in Dafny 4.11 and proves what
it guarantees over all inputs, all runs and all interleavings.

| file | what it models |
|---|---|
| `Keying.dfy` | request → units → blocks → chain of cumulative hashes; exactness of the chain |
| `RequestKeys.dfy` | what of a request its chain shows: every role, token and image |
| `Affinity.dfy` | the in-memory prefix-affinity index as a class with its loops |
| `AffinityHistory.dfy` | what the index is after any run; monotonicity in cap and TTL |
| `PrefixRefinement.dfy` | the index against brute force: the longest common block prefix |
| `RedisAffinity.dfy` | the Redis-backed index over a small Redis server |
| `IndexAgreement.dfy` | both indexes, fed the same run, agree |
| `SharedRedis.dfy` | many gateways interleaving their Redis commands |
| `Forgetting.dfy`, `LosingRuns.dfy` | exactly when the shared index forgets a write that a full index would keep |
| `Deployment.dfy` | per-deployment counters and circuit breaker, against their history |
| `LatencyAverage.dfy` | the latency average as a weighted sum of the observed latencies |
| `Strategies.dfy`, `Router.dfy` | candidate pool, load guard, scoring, cold fallback, registration |
| `StickyRouting.dfy`, `TwoPicks.dfy` | a conversation stays on its replica |
| `WarmPicks.dfy` | when one warm deployment is enough for a warm pick |
| `RoundRobin.dfy` | consecutive round-robin picks take turns |
| `Service.dfy` | the failover loop of `complete`, with other requests interleaved at its await |
| `GatewayRuns.dfy` | whole runs of concurrent requests: conservation and the load bound |
| `TokenBucket.dfy` | the memory and the Redis token bucket |
| `LimiterRuns.dfy` | what the configured limits mean for whole runs, on both buckets |
| `Budget.dfy` | spend windows and how far concurrent requests overshoot a cap |
| `BudgetWindows.dfy` | when spend windows begin and end over whole runs |
| `Basics.dfy` | an option type and a fact on set sizes, shared by the others |
| `Similarity.dfy`, `Cache.dfy` | cosine similarity; exact and semantic lookup against the history of puts |

## Conventions

* Every clock is an explicit `real` argument. The theorems on runs assume that the times
  of one run do not decrease, and the cache and the breaker that they are not negative.
  Floats are `real`; rounding is not modelled.
* SHA-256 is a parameter `h`. `Keying.IdealHash` assumes that it is injective and that
  its digests hold neither separator; `Keying.IdealHashExists` shows the assumption can
  be met. The chain theorems also assume that the seed holds no chain separator, as the
  default seed does (`Keying.DefaultSeedIsClean`). That role names, tokens and image
  markers hold no separator is proved (`Keying.UnitsAreClean`).
* An OrderedDict is a sequence of (hash, time) entries, oldest first. A Redis hash is a
  map with a deadline, and is gone once the clock is past the deadline, as in Redis.
  HGETALL lists fields in any order, so ties in the trim sort fall either way.
* `Service.dfy` lets any number of other requests act on the same deployments during
  the upstream call. Each deployment keeps a ghost log of what happened to it and who
  caused it; its fields are proved to be a replay of that log, so the breaker theorem
  of `Deployment.dfy` applies to the class.
* `GatewayRuns.dfy` treats pick + start as one step, and failure + next pick + start as
  one step, because the source has no await between them. `Config.P = 0` and a large
  `Config.C` restrict nothing.

## Where the code says less than its documentation

* The shared Redis index is described as a single source of truth. It never counts too
  much (`MatchedOnlyRegistered`), and by design a full key drops what is no younger than
  anything it keeps. But it can forget a write within its TTL that a full index would
  keep, in two ways. A trim deletes what another gateway rewrote after the trim read the
  hash: two gateways and `max_blocks` + 1 distinct hashes lose the youngest write of all
  (`RewriteForgets`). And a key can expire between an HSET and the EXPIRE that follows
  it, which are separate commands: one gateway and one hash suffice
  (`LateExpireForgets`). No run forgets such a write if and only if there is one gateway
  or at most `max_blocks` distinct hashes are written for the replica, and there is no
  TTL or no time passes between HSET and EXPIRE (`NeverForgetsExactly`). While a key
  never holds more than `max_blocks` fields, and EXPIRE is prompt, it lacks nothing at all
  (`NothingForgotten`) and the match is exact (`MatchIsExact`). The theorems of
  `RedisAffinity.dfy` and `IndexAgreement.dfy` are about registers of one gateway at one
  clock value each.
* A comment in the router says that the cold path means no warm prefix anywhere. The code
  takes it when the best-scoring deployment has no match; that implies no eligible one
  has a match if and only if weight_prefix > weight_load · max_inflight_skew
  (`WarmWinsExactly`).
* The Redis token bucket holds the limit across replicas, but its 120 s expiry hands an
  idle identity a full bucket: it decides as the memory bucket does on all runs if and
  only if capacity ≤ 2·rpm (`RedisAgreesWithMemory`, `RedisDiffersBeyond`).
* A `Retry-After` header is sent on every denial, but some later check is admitted if
  and only if the refill rate is positive and the capacity at least 1
  (`RetryHelpsIffRefilled`). Then the header is exact (`RetryAfterIsExact`). A default of
  0 requests a minute with a burst of 1 fails the first condition (`NoRefillRun`), a
  negative burst the second.
* The latency average is 0 for a deployment that is unmeasured, says the strategy. It is
  0 if and only if every observed latency was 0 (`UnmeasuredExactly`, for alpha below 1).
* The semantic search starts from a similarity of −1. That loses an entry exactly when
  its similarity is −1 (`FloorMissesOnlyOpposites`), so never for a threshold above −1;
  a prompt opposite to the only cached one is such a case (`OppositeIsMissed`).

## Model

| member | source | states |
|---|---|---|
| Keying.Tokens | src/kvgate/routing/keying.py:47-48 | no token is empty or holds white space, hence no separator |
| Keying.TokensKeepText | src/kvgate/routing/keying.py:47-48 | the tokens glued together are the text without its white space |
| Keying.SplitInvertsSpacing | src/kvgate/routing/keying.py:47-48 | splitting space-separated tokens gives those tokens back |
| Keying.ImageIdentity | src/kvgate/routing/keying.py:35-44 | in bytes mode a data URI is its payload whatever its header; otherwise the whole reference identifies the image |
| Keying.UnitsAreClean | src/kvgate/routing/keying.py:58-65 | roles, tokens and image markers of every request are non-empty and hold no separator |
| Keying.RequestBlocksAreClean | src/kvgate/routing/keying.py:58-71 | the blocks of every request meet what the chain theorems assume |
| Keying.CollectUnits | src/kvgate/routing/keying.py:58-65 | the first loop yields, message by message, role, tokens and markers in order, and counts the images |
| Keying.BuildRoutingKey | src/kvgate/routing/keying.py:51-77 | the two loops produce the specified chain, unit count and image count |
| Keying.BlockAt | src/kvgate/routing/keying.py:70-71 | block i is exactly the units from i·step to (i+1)·step, clipped |
| Keying.BlockCount | src/kvgate/routing/keying.py:70 | there are ⌈units / step⌉ blocks |
| Keying.JoinInjective | src/kvgate/routing/keying.py:24-26 | joining with the block separator is injective on non-empty blocks of clean units |
| Keying.LinkInjective | src/kvgate/routing/keying.py:72-74 | previous hash + separator + joined block determines the previous hash and the block |
| Keying.ChainExact | src/kvgate/routing/keying.py:67-75 | two chains hold the same hash at i and j if and only if i = j and the first i+1 blocks agree |
| Keying.ChainHasNoRepeats | src/kvgate/routing/keying.py:67-75 | no hash occurs twice in a chain |
| Keying.DivergenceIsPermanent | src/kvgate/routing/keying.py:3-8 | after the first different block no later hash of one chain occurs anywhere in the other |
| Keying.SharedUnitsShareHashes | src/kvgate/routing/keying.py:3-8 | a common prefix of n units gives ⌊n/step⌋ common leading hashes |
| Keying.DifferentUnitsDiverge | src/kvgate/routing/keying.py:3-8 | a different unit n, such as another image marker, changes every hash from block ⌊n/step⌋ on |
| RequestKeys.UnitCount | src/kvgate/routing/keying.py:58-65 | `num_units` is messages + tokens + images |
| RequestKeys.EveryMessageShows | src/kvgate/routing/keying.py:58-65 | the units of message k are its role, each token and each image marker, in order, after those of the messages before |
| RequestKeys.DifferentTextParts | src/kvgate/routing/keying.py:58-75 | requests equal before message k with different tokens at one position of it share no hash from the block of that token on |
| RequestKeys.DifferentRolesPart | src/kvgate/routing/keying.py:58-75 | the same for different roles of message k |
| RequestKeys.MarkersShowDigests | src/kvgate/routing/keying.py:35-44 | image markers are equal if and only if the digests agree in their first 16 characters |
| RequestKeys.DifferentImagesPart | src/kvgate/routing/keying.py:58-75 | the same for an image of message k whose digest differs in the first 16 characters, after as many tokens |
| Affinity.PrefixAffinityIndex.constructor | src/kvgate/routing/affinity.py:30-34 | an empty index with a cap of at least 1 |
| Affinity.PrefixAffinityIndex.MatchedBlocks | src/kvgate/routing/affinity.py:42-54 | returns the length of the leading run of the chain that is present and unexpired |
| Affinity.PrefixAffinityIndex.Register | src/kvgate/routing/affinity.py:56-63 | moves every hash of the chain to the end with the new time, then evicts; other replicas and the invariant are kept |
| Affinity.PrefixAffinityIndex.TouchEach | src/kvgate/routing/affinity.py:57-62 | the loop of `register`: each hash in turn leaves its old place and goes last with the new time |
| Affinity.PrefixAffinityIndex.Evict | src/kvgate/routing/affinity.py:65-70 | leaves the fresh entries, cut to the most recent `max_blocks` |
| Affinity.PrefixAffinityIndex.EvictStale | src/kvgate/routing/affinity.py:66-68 | pops exactly the stale entries |
| Affinity.PrefixAffinityIndex.EvictOldest | src/kvgate/routing/affinity.py:69-70 | pops least recently used entries until the cap is met |
| Affinity.PrefixAffinityIndex.BlockCount | src/kvgate/routing/affinity.py:72-73 | the number of entries held |
| AffinityHistory.HistoryCharacterisation | src/kvgate/routing/affinity.py:56-70 | after any run the index is the registered hashes at their last occurrence, minus the stale, cut to the last `max_blocks` |
| AffinityHistory.Inclusion | src/kvgate/routing/affinity.py:39-70 | on the same run the index with smaller cap and shorter TTL is a suffix of the other |
| AffinityHistory.MatchedIsMonotone | src/kvgate/routing/affinity.py:42-54 | `matched_blocks` is monotone in the cap and in the TTL |
| AffinityHistory.MatchedAfterRegister | src/kvgate/routing/affinity.py:56-70 | right after registering a duplicate-free chain the match is its length if that fits the cap, and 0 otherwise |
| PrefixRefinement.HeldIffRegistered | src/kvgate/routing/affinity.py:42-70 | a hash is held fresh only if registered within the TTL, and exactly then when the live history fits the cap |
| PrefixRefinement.MatchedRefinesBruteForce | src/kvgate/routing/affinity.py:1-9 | `matched_blocks` is at most the longest common block prefix with a request served within the TTL, and equal to it when the live history fits the cap |
| RedisAffinity.RedisPrefixAffinityIndex.MatchedBlocks | src/kvgate/routing/affinity_redis.py:62-79 | returns the leading run of the chain found fresh in the replica's hash |
| RedisAffinity.RedisPrefixAffinityIndex.Register | src/kvgate/routing/affinity_redis.py:81-99 | writes the chain, renews the expiry, trims only over the cap; other keys unchanged |
| RedisAffinity.RedisPrefixAffinityIndex.Write | src/kvgate/routing/affinity_redis.py:86-97 | the pipeline HSET, EXPIRE, HLEN |
| RedisAffinity.RedisPrefixAffinityIndex.Trim | src/kvgate/routing/affinity_redis.py:101-120 | leaves the live fields, or a youngest `max_blocks` of them |
| RedisAffinity.ToDrop | src/kvgate/routing/affinity_redis.py:106-118 | expired fields and the oldest overflow, for any order of the listing |
| RedisAffinity.DropOldest | src/kvgate/routing/affinity_redis.py:114-118 | dropping a sorted prefix leaves exactly `max_blocks` fields, none older than a dropped one |
| IndexAgreement.MemoryCovers | src/kvgate/routing/affinity.py:56-70 | what the memory index dropped is stale, or no younger than all of a full index |
| IndexAgreement.RedisCovers | src/kvgate/routing/affinity_redis.py:81-120 | the same for the Redis index over any run, trims and whole-key expiry included |
| IndexAgreement.ExpiryIsHarmless | src/kvgate/routing/affinity_redis.py:93-94 | if each EXPIRE runs at the clock value of its HSET, the whole-key expiry never removes a fresh entry; LosingRuns.LateExpireForgets is the other case |
| IndexAgreement.CoversAgree | src/kvgate/routing/affinity_redis.py:1-23 | two such selections of one history hold equal fresh entries, or are both full and differ only among entries of the minimum time |
| IndexAgreement.MemoryAndRedisAgree | src/kvgate/routing/affinity_redis.py:1-23 | fed the same run the two indexes agree in that sense at every later time |
| IndexAgreement.MatchAlikeWithinCap | src/kvgate/routing/affinity_redis.py:62-79 | while the live history fits the cap both answer every query alike |
| IndexAgreement.MatchedForTtl | src/kvgate/routing/affinity.py:39-63 | a chain registered at t that fits the cap is matched in full until t + ttl and not at all after it; without a TTL for ever |
| IndexAgreement.MatchedForTtlOnRedis | src/kvgate/routing/affinity_redis.py:59-97 | the same for the Redis index while nothing is trimmed |
| IndexAgreement.QuietKeyGoes | src/kvgate/routing/affinity_redis.py:93-94 | a key is gone exactly int(ttl) + 1 seconds after its last registration |
| SharedRedis.RunKeepsInv | src/kvgate/routing/affinity_redis.py:81-120 | over any interleaving stored times are those of the last write, and every key over the cap has a gateway that will trim it |
| SharedRedis.MatchedOnlyRegistered | src/kvgate/routing/affinity_redis.py:62-79 | over any interleaving only hashes whose last write for the replica is within the TTL are counted |
| SharedRedis.QuiescentFitsCap | src/kvgate/routing/affinity_redis.py:97-99 | once all registers have finished no hash has more than `max_blocks` fields |
| SharedRedis.UninterruptedIsRegister | src/kvgate/routing/affinity_redis.py:81-120 | a gateway that is not interrupted performs a `register` of the single-gateway model |
| Forgetting.NothingForgotten | src/kvgate/routing/affinity_redis.py:81-120 | over any interleaving of any number of gateways: while the key of a replica never holds more than `max_blocks` fields, and there is no TTL or no time between HSET and EXPIRE, every write within the TTL is in the key |
| Forgetting.FewHashesNeverOver | src/kvgate/routing/affinity_redis.py:97-99 | in particular with at most `max_blocks` distinct hashes ever written for the replica |
| Forgetting.MatchIsExact | src/kvgate/routing/affinity_redis.py:62-79 | under that condition exactly the leading hashes written within the TTL are counted |
| Forgetting.OneGatewayForgetsNothing | src/kvgate/routing/affinity_redis.py:81-120 | one gateway, between any two commands and for any number of hashes: what the key lacks is stale or no younger than anything in a full key, if there is no TTL or no time between HSET and EXPIRE |
| LosingRuns.RewriteForgets | src/kvgate/routing/affinity_redis.py:101-120 | for every cap and any `max_blocks` + 1 distinct hashes, a run of two gateways from the empty index that ends with both idle and the youngest write deleted |
| LosingRuns.LateExpireForgets | src/kvgate/routing/affinity_redis.py:92-95 | for every cap and TTL > 0, a run of one gateway and one hash whose key expires between HSET and EXPIRE with a write within the TTL |
| LosingRuns.NeverForgetsExactly | src/kvgate/routing/affinity_redis.py:1-23 | no run of at most G gateways and n distinct hashes forgets a write that a full index would keep, if and only if G = 1 or n ≤ `max_blocks`, and there is no TTL or EXPIRE is prompt |
| Deployment.DeploymentState.OnStart | src/kvgate/routing/state.py:34-36 | the fields stay a replay of the log, extended by a start |
| Deployment.DeploymentState.OnSuccess | src/kvgate/routing/state.py:38-46 | the same for a success |
| Deployment.DeploymentState.OnFailure | src/kvgate/routing/state.py:48-54 | the same for a failure |
| Deployment.ConsecutiveIsLongestRun | src/kvgate/routing/state.py:40-50 | `consecutive_failures` is the longest run of failures without a success that ends now |
| Deployment.BreakerMatchesHistory | src/kvgate/routing/state.py:31-54 | unavailable at `now` if and only if a failure within the cooldown ended `failure_threshold` consecutive failures |
| Deployment.EachFailureReopens | src/kvgate/routing/state.py:48-54 | once open, each failure before the next success re-opens for a full cooldown |
| Deployment.AverageOfObserved | src/kvgate/routing/state.py:38-46 | the latency average is 0 until the first success and then lies within the observed latencies |
| Deployment.UnmeasuredExactly | src/kvgate/routing/state.py:38-46 | the average is 0 if and only if every observed latency was 0 |
| LatencyAverage.AverageIsWeightedSum | src/kvgate/routing/state.py:38-46 | the average is the sum of the latencies from the first positive one on, weighted 1 or alpha and once more by 1 − alpha for every later one |
| Strategies.UnmeasuredFirst | src/kvgate/routing/strategies.py:28-30 | the latency strategy takes the first unmeasured deployment, else the fastest |
| Strategies.LeastBusyPicksLeast | src/kvgate/routing/strategies.py:33-34 | least busy takes exactly the first deployment with the fewest in flight |
| Strategies.CostPicksCheapest | src/kvgate/routing/strategies.py:37-38 | cost takes exactly the first deployment of the least total price |
| Strategies.WeightedDrawsPositive | src/kvgate/routing/strategies.py:20-25 | weighted draws exactly the positive weights, and falls back to round robin exactly if there are none |
| Strategies.RoundRobinComesAround | src/kvgate/routing/strategies.py:16-17 | round robin on n deployments comes to each within n turns |
| Strategies.RoundRobinTakesTurns | src/kvgate/routing/strategies.py:16-17 | and to none twice |
| RoundRobin.PickRound | src/kvgate/routing/router.py:104-110 | n consecutive round-robin picks of one router on an unchanged pool of n pick every member |
| Strategies.Choose | src/kvgate/routing/strategies.py:16-47 | round robin by counter, a positive weight, or the first minimum of latency, load or cost |
| Router.PoolContents | src/kvgate/routing/router.py:75-85 | the pool is the untried deployments, an ejected one only if all of them are; empty exactly if all were tried |
| Router.EligibleContents | src/kvgate/routing/router.py:125-130 | the guard keeps exactly the deployments within the skew of every member of the pool |
| Router.NegativeSkewKeepsAll | src/kvgate/routing/router.py:125-130 | with a negative skew the guard keeps the whole pool |
| Router.PoolKeepsOrder | src/kvgate/routing/router.py:75-85 | the pool lists deployments in their configured order |
| Router.EligibleKeepsOrder | src/kvgate/routing/router.py:125-130 | so does the guard |
| Router.Router.CandidatePool | src/kvgate/routing/router.py:75-85 | the loops compute that pool, and fail exactly when everything was tried |
| Router.LoadGuard | src/kvgate/routing/router.py:125-130 | the list comprehension computes the eligible deployments |
| Router.BestScoreWins | src/kvgate/routing/router.py:132-139 | the highest score belongs to the first deployment whose extra matched blocks, weighted, outweigh its extra load against every other |
| Router.Router.Best | src/kvgate/routing/router.py:132-139 | the loop finds the first deployment of maximal score and its match |
| Router.Router.WarmOrCold | src/kvgate/routing/router.py:141-148 | the best deployment if it is warm, else a choice of the cold fallback |
| Router.Router.Select | src/kvgate/routing/router.py:125-150 | the two steps together, on the pool as it is |
| Router.Router.PickPrefixAware | src/kvgate/routing/router.py:113-154 | a warm winner of that comparison is picked; if the winner is cold the fallback chooses and the counter moves by one; the chain is registered on the chosen deployment only |
| Router.Router.Pick | src/kvgate/routing/router.py:87-111 | every pick comes from the pool, respects the guard in force and follows that comparison; it fails exactly when everything was tried |
| WarmPicks.WarmWinsExactly | src/kvgate/routing/router.py:132-148 | whatever was served and however the pool is loaded, one warm eligible deployment makes the pick a warm one, if and only if weight_prefix > weight_load · max_inflight_skew |
| WarmPicks.ColdDespiteWarm | src/kvgate/routing/router.py:141-143 | otherwise a request just served by a deployment that is busier by the skew is picked cold |
| StickyRouting.RecentIsHeld | src/kvgate/routing/affinity.py:56-70 | after any run a hash is held fresh if and only if its last write is within the TTL and at most `max_blocks` distinct hashes were written since, itself included |
| StickyRouting.CountedIsHeld | src/kvgate/routing/affinity.py:56-70 | in particular if at most `max_blocks` distinct hashes were registered since a registration within the TTL that served it |
| StickyRouting.FollowUpMatches | src/kvgate/routing/router.py:135-137 | a request that extends an earlier one matches at least its whole blocks where those are still held |
| StickyRouting.CountedBlocksAreHeld | src/kvgate/routing/affinity.py:56-70 | the blocks of a request are still held if it is within the TTL and at most `max_blocks` distinct hashes were registered since |
| StickyRouting.OnlyWarmIsPicked | src/kvgate/routing/router.py:132-148 | the only warm eligible deployment wins when its match outweighs the load difference |
| StickyRouting.ConversationsStick | src/kvgate/routing/router.py:113-154 | the follow-up goes to the replica that still holds the conversation's blocks |
| TwoPicks.PickTwice | src/kvgate/routing/router.py:87-154 | two calls of `pick` with any picks and state changes between: the second returns the deployment of the first when that still holds the blocks and no rival outweighs it; the first pick's chain stays in the history |
| TwoPicks.UnitsOfPrefix | src/kvgate/routing/keying.py:58-65 | messages that extend earlier messages extend their units |
| Service.GatewayService.AttemptOnce | src/kvgate/service.py:85-113 | one pass makes a legal pick and causes exactly a start and its end on that deployment, whatever other requests do meanwhile |
| Service.GatewayService.Complete | src/kvgate/service.py:61-63 | unknown models are refused; otherwise the failover guarantee, and exactly one start and one end per attempt |
| Service.GatewayService.Call | src/kvgate/service.py:91-109 | the call logs one start and one end on its deployment: a success with its latency, or a failure for a provider error |
| Service.GatewayService.Attempts | src/kvgate/service.py:82-155 | attempts are distinct and outcomes match them; giving up takes exactly as many attempts as the smaller of `max_attempts` and the number of deployments, all failed |
| Service.EjectedOnlyAsLastResort | src/kvgate/routing/router.py:82-85 | an ejected deployment is attempted only when every untried one is ejected |
| GatewayRuns.ClampNeverActs | src/kvgate/routing/state.py:38-49 | when a call ends `in_flight` is at least 1, so the clamp at 0 does nothing |
| GatewayRuns.StepConserves | src/kvgate/service.py:91-109 | every step of every request keeps conservation |
| GatewayRuns.InFlightConservation | src/kvgate/service.py:91-109 | over every interleaving `in_flight` is the number of awaiting requests and total = successes + failures + `in_flight` |
| GatewayRuns.StepKeepsBound | src/kvgate/routing/router.py:125-130 | every step keeps the load bound |
| GatewayRuns.LoadBound | src/kvgate/routing/router.py:125-154 | with at most C requests in flight and pools of at least P, no deployment holds more than ⌊(C−1)/P⌋ + skew + 1 |
| TokenBucket.MemoryRateLimiter.Check | src/kvgate/ratelimit/limiter.py:42-64 | decision, remaining tokens, retry-after and new bucket of the one identity |
| TokenBucket.RedisRateLimiter.Script | src/kvgate/ratelimit/limiter.py:67-82 | the script's decision and new bucket, an expired one read as full |
| TokenBucket.RedisRateLimiter.Check | src/kvgate/ratelimit/limiter.py:97-113 | decision, remaining tokens and retry-after from the script's answer |
| LimiterRuns.CheckEach | src/kvgate/ratelimit/limiter.py:42-64 | over a run of one identity with r requests a minute and bursts of b, read off the settings, exactly the checks are denied that would make more than b + r·s/60 in some window of s seconds |
| LimiterRuns.CheckEachOnRedis | src/kvgate/ratelimit/limiter.py:97-113 | the same on Redis when b ≤ 2·r |
| LimiterRuns.WindowsAreLimited | src/kvgate/ratelimit/limiter.py:1-5 | every window of s seconds admits at most b + r·s/60 checks |
| LimiterRuns.DrainedFor60OverR | src/kvgate/ratelimit/limiter.py:48-64 | b checks at once are admitted and drain the bucket; the next is admitted exactly from 60/r seconds later on |
| TokenBucket.LevelFormula | src/kvgate/ratelimit/limiter.py:51-59 | the level is the minimum over earlier checks u of capacity + rate·(t−u) − admissions since u |
| TokenBucket.DeniedIffWindowFull | src/kvgate/ratelimit/limiter.py:54-64 | a check is denied if and only if admitting it would break the bound of some window |
| TokenBucket.WindowBound | src/kvgate/ratelimit/limiter.py:1-5 | every window admits at most capacity + rate·length |
| TokenBucket.DeniedAreInvisible | src/kvgate/ratelimit/limiter.py:59-64 | erasing all denied checks changes no level a later check finds |
| TokenBucket.KeptAreAdmitted | src/kvgate/ratelimit/limiter.py:54-57 | every admitted check is still admitted after the erasure |
| TokenBucket.RetryAfterIsExact | src/kvgate/ratelimit/limiter.py:60-64 | after a denial a check is admitted exactly from `retry_after` on, and after int(retry_after) + 1 seconds |
| TokenBucket.NoRefillNoRetry | src/kvgate/ratelimit/limiter.py:61 | with a refill rate of 0, every check after a denied one is denied |
| TokenBucket.RetryHelpsIffRefilled | src/kvgate/ratelimit/limiter.py:60-64 | after a denial some later check is admitted if and only if the refill rate is positive and the capacity at least 1 |
| TokenBucket.NoRefillRun | src/kvgate/ratelimit/limiter.py:44-64 | with default_rpm 0 and burst 1 the second check is denied and told to retry after 60 s |
| TokenBucket.ExpiryIsFull | src/kvgate/ratelimit/limiter.py:80 | with capacity ≤ 2·rpm an expired bucket would have been full |
| TokenBucket.RedisAgreesWithMemory | src/kvgate/ratelimit/limiter.py:67-82 | with capacity ≤ 2·rpm both back ends find the same level at every check of every run |
| TokenBucket.RedisDiffersBeyond | src/kvgate/ratelimit/limiter.py:67-82 | for every larger capacity some run is decided differently |
| Budget.BudgetTracker.Roll | src/kvgate/ratelimit/budget.py:35-41 | the current window; only an expired one is overwritten |
| Budget.BudgetTracker.Check | src/kvgate/ratelimit/budget.py:43-59 | allowed exactly below the cap; disabled or uncapped tenants always |
| Budget.BudgetTracker.Record | src/kvgate/ratelimit/budget.py:61-70 | a positive cost is added to the current window and the new total returned |
| BudgetWindows.FeedTenant | src/kvgate/ratelimit/budget.py:35-70 | fed the events of a tenant, the tracker keeps a window and gathers costs in it while less than `window_s` has passed since its start, and admits a check exactly if the open window is below the cap |
| BudgetWindows.WindowsAreApart | src/kvgate/ratelimit/budget.py:35-41 | over every run a later window has the same start and no less spend, or starts at least `window_s` later |
| BudgetWindows.WindowStays | src/kvgate/ratelimit/budget.py:35-41 | until `window_s` has passed no event moves the start or lowers the spend |
| BudgetWindows.DeniedUntilReset | src/kvgate/ratelimit/budget.py:43-59 | a tenant at its cap is denied until start + `window_s`, and the first check from then on is admitted |
| Budget.SpendIsConserved | src/kvgate/ratelimit/budget.py:35-70 | over all resets the windows hold the positive costs in order, none lost or counted twice, each within its window, and the stored total is their sum |
| Budget.OvershootIsBounded | src/kvgate/api/chat.py:62-85 | with at most K requests between check and record and costs at most m, no window spends more than cap + K·m |
| Similarity.CauchySchwarz | src/kvgate/cache/embedders.py:24-26 | dot² ≤ Σx²·Σy² |
| Similarity.CosineBounds | src/kvgate/cache/embedders.py:21-29 | the similarity lies between −1 and 1 |
| Similarity.DotAddsUp | src/kvgate/cache/embedders.py:24 | the dot product is the sum of the products over all coordinates |
| Similarity.SelfSimilarity | src/kvgate/cache/embedders.py:21-29 | a non-zero vector has similarity 1 with itself and −1 with its opposite |
| Similarity.NoSimilarity | src/kvgate/cache/embedders.py:21-29 | vectors of different length, and a zero vector, have similarity 0 |
| Cache.MemoryKVStore.Get | src/kvgate/cache/memory.py:15-23 | the live value, an expired item is popped |
| Cache.MemoryKVStore.Set | src/kvgate/cache/memory.py:25-27 | stores the value with its expiry |
| Cache.CacheManager.PutResponse | src/kvgate/cache/manager.py:75-82 | keeps store and bounded index in step with the history of puts |
| Cache.CacheManager.Nearest | src/kvgate/cache/manager.py:65-73 | the earliest most similar entry of the model above −1, or none |
| Cache.CacheManager.Get | src/kvgate/cache/manager.py:45-63 | the last put under the key if unexpired, else the live response of the earliest most similar put of the model among the last `max_entries` that reaches the threshold |
| Cache.RecallIsLastPut | src/kvgate/cache/memory.py:15-27 | what is recalled for a request is the response of its last put, until `ttl` seconds after it |
| Cache.SemanticAnswerIsPutAnswer | src/kvgate/cache/manager.py:65-82 | the index entries are the last `max_entries` puts, so the semantic answer can be read off the puts |
| Cache.FloorMissesOnlyOpposites | src/kvgate/cache/manager.py:66 | the starting score −1 loses an entry exactly when its similarity is −1 |
| Cache.OppositeIsMissed | src/kvgate/cache/manager.py:57-73 | one cached prompt opposite to the query and a threshold of −1: its similarity reaches the threshold and nothing is found |

## Left out

- HTTP, providers, streaming, FastAPI wiring, CLI, metrics, dashboard: I/O or presentation.
- `stream`: no path updates `in_flight` when a stream breaks after its first piece, and its spend is never recorded; conservation, load and failover are about `complete`.
- Exceptions other than ProviderError, and cancellation: no path there updates `in_flight` either.
- SHA-256, JSON and UTF-8: `canonical_key` is a digest given with the request, the hash is injective by assumption, and the theorems are about unit sequences.
- Text that imitates a role or image marker: two messages may have equal unit sequences.
- Parts of multimodal content: a message is its flattened text and its image references.
- Image digests: a marker keeps 16 digits, and two images whose digests share them have the same marker.
- The wall clock of the Redis index: the router passes its own clock to either index, and one shared clock is assumed; clocks that go backwards or differ between hosts are not modelled.
- Non-numeric stored timestamps: `register` writes only numbers.
- SharedRedis.MatchedOnlyRegistered: bounds the match from above on every run; Forgetting.MatchIsExact says when the bound is reached. For several gateways and more than `max_blocks` fields, which fresh entries survive depends on the interleaving.
- Negative refill rates: the limiter classes accept any integer, the theorems on runs assume a rate of at least 0, and WindowBound a capacity of at least 0.
- Tenants whose keys carry different rpm or cap values: the theorems on runs fix one per tenant.
- Rounding of displayed spend, similarity and cost.
- Randomness of `weighted`: any deployment with positive weight may be chosen, and nothing is said about frequencies.
- HashingEmbedder and sentence-transformer embedders: the embedder is a parameter, and the square root is assumed only on the sums it is applied to.
- RedisKVStore: a put and a get of Redis itself.
