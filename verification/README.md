# RAUTA data plane: a Dafny model

RAUTA is an HTTP gateway. This project models the algorithms its data plane decides with, and
proves what they promise over every input, every run and every interleaving:

- **Maglev tables** (`Words`, `Fnv`, `NumberTheory`, `Maglev`): the FNV-1a hashes, double hashing over a prime
  table size, and both fill loops, with a closed form for who owns a slot.
- **Backend selection** (`Health`, `Selection`, `Stickiness`, `MovedFlow`, `Router`, `RouteTree`): the sliding-window health of a backend,
  the two probe loops, the LRU route cache (`RouteCache`), route resolution through it, and end-to-end stickiness.
- **Circuit breaker** (`CircuitBreaker`, `BreakerTiming`, `BreakerRuns`, `BreakerStamps`, `BreakerManager`): the packed word,
  the CAS loops under every interleaving, half-open episodes, timing, and the copy-on-write breaker map.
- **Token bucket** (`TokenBucket`, `BucketRuns`): fixed-point refill on a wrapping clock, the rate bound, the ideal
  bucket it refines, and CAS loops under every interleaving.
- **Connection pools** (`Http2Pool`, `Http1Pool`).

`dafny verify dfyconfig.toml` checks everything.

## How the source is read

- Machine words are natural numbers with their range in the type. Bit fields of a packed word do not overlap, so
  `<<`, `>>`, `&` and `|` on them are written as multiplication, division, remainder and addition. Exclusive or is
  defined bit by bit. The probe loop's mask is a `bv32`. `usize` is 64 bits wide.
- An object whose methods update it is a class. Where threads interleave, one system state and a `Step` datatype
  say which atomic action happens next; a step that is not enabled changes nothing, so every sequence of steps is a
  run. Each atomic word is sequentially consistent.
- A weak compare-and-swap that fails for no reason is a parameter: a count of misses in the classes, a flag on the
  step in the interleavings.
- Clocks, connect outcomes, sender readiness and the radix tree are parameters. `TryAcquireN` takes the time in
  milliseconds since creation; the breaker takes nanoseconds, of which the source stores whole microseconds.
- Health is fixed for the length of one selection, and `drain_backend`, `record_backend_response` and the
  expiry clean-up are atomic.
- Every lemma turns Dafny's automatic induction off, so that each induction is the one written in its body.

## What the proofs found

- `Closed` opens on the threshold-th failure in a row exactly for thresholds up to 65536. Above that the 16-bit counter
  wraps and the breaker never opens (`BreakerRuns.TripsExactlyAtThreshold`, `BreakerRuns.HugeThresholdNeverTrips`).
- A half-open breaker whose probes never report (a request body that is too large reports nothing) refuses every
  request for ever; that is the only way a half-open word can freeze (`BreakerRuns.FrozenIffWedged`,
  `BreakerRuns.LostProbesWedge`).
- A success that closes the breaker clears the failure time after its swap. If a failure opens the breaker in between
  and no request is left that could report, it stays open for ever (`BreakerStamps.LateClearOpensForEver`,
  `BreakerStamps.OpenForEverIff`).
- The failure time is cut to whole microseconds, so a request can pass up to 999 ns before the timeout; never, exactly
  when the failure fell on a whole microsecond (`BreakerTiming.EarlyByLessThanAMicrosecond`).
- A call that sampled the clock first and writes second refills the whole bucket
  (`BucketRuns.StaleSampleBreaksTheBound`). Which times keep the rate bound is exact (`BucketRuns.RateBoundIff`).
- A rate below 1000 / 65536 tokens per second is stored as zero, so such a bucket never refills
  (`TokenBucket.NeverRefillsIff`).
- Adding a route under a new key leaves other cached lookups stale, exactly those it shadows
  (`Router.StaleIff`, `Router.NewRouteGoesUnnoticed`).
- Appending a backend is sticky when the newcomer is eligible, which is the default for a backend without a record; an
  ineligible newcomer also moves flows whose deciding slot it took, and removing it moves them back
  (`Stickiness.AppendMovesExactly`, `Stickiness.RemoveMovesExactly`, `MovedFlow.IneligibleNewcomerMovesAFlow`).
- With a route for all methods on `/`, other routes for all methods are found only by their exact path: the root's bare
  wildcard also matches the text with the method prefix (`RouteTree.MostSpecificIff`, `RouteTree.RootHidesApi`).
- HTTP/2 pool capacity is halved at most twice, to 2, and never restored. Nothing marks a connection failed, so a pool
  whose connections reach its capacity never connects again, even if all of them are dead (`Http2Pool.FrozenIffFull`).

## Where code and comments disagree

The model follows the code.

- `drain_backend` is documented to exclude the backend after the timeout (`control/src/proxy/router.rs:612`). The probe
  loops exclude it from the moment it is recorded until the clean-up removes the expired entry.
- Table building is documented as deterministic for a backend set (`common/src/lib.rs:442`). It is for a list: the seeds
  depend on positions.

## Model

| member | source | states |
|---|---|---|
| Fnv.Fnv1aHash | common/src/lib.rs:413-425 | the loop computes the fold of the FNV-1a round over the bytes |
| Fnv.HashBackend | common/src/lib.rs:507-522 | the loop absorbs the eight key bytes, lowest first, from the seeded offset |
| Fnv.AbsorbIsInjective | common/src/lib.rs:419-423 | absorbing the same bytes keeps running hashes apart, and equal ones equal |
| Fnv.SuffixKeepsCollisions | common/src/lib.rs:413-425 | a common suffix neither creates nor removes a collision |
| Fnv.OneByteAlwaysShows | common/src/lib.rs:413-425 | replacing one byte changes the hash exactly when the byte is different |
| Fnv.SeedIsInjective | common/src/lib.rs:507-522 | for one key, seeds collide only with themselves |
| NumberTheory.StrideIsPermutation | common/src/lib.rs:499-501 | an offset/skip walk modulo a prime visits every slot exactly once |
| NumberTheory.CompactSizeIsPrime | common/src/lib.rs:24 | 4099 is prime |
| NumberTheory.FullSizeIsPrime | common/src/lib.rs:19 | 65537 is prime |
| Maglev.PermutationIsBijective | common/src/lib.rs:610-631 | every generated sequence is a permutation of the slots, for every backend and seed |
| Maglev.GeneratePermutation | common/src/lib.rs:483-504 | the loop builds that sequence and it is a permutation, for any prime table size |
| Maglev.FullPermutations | common/src/lib.rs:451-455 | one permutation per backend, seeded by list position |
| Maglev.FullPlanEntries | common/src/lib.rs:451-455 | the i-th entry is backend i with the permutation of seed i |
| Maglev.CompactPermutations | common/src/lib.rs:568-580 | the loops build the plan: one permutation per full ten of weight, at least one, the r-th of backend i seeded with 100 * i + r |
| Maglev.WeightLaw | common/src/lib.rs:568-580 | a backend has one permutation per full ten of weight, and one below ten; the r-th is seeded with 100 * position + r |
| Maglev.RaisingWeightTakesExactly | common/src/lib.rs:568-604 | raising the last backend's weight leaves each slot or gives it to that backend, exactly if an added permutation reaches it in an earlier round than the old winner |
| Maglev.FillFull | common/src/lib.rs:457-479 | ends within one round per slot; every slot holds a valid index, of the permutation of least (position of the slot, index in the list) |
| Maglev.FillCompact | common/src/lib.rs:582-606 | the same for the byte table with its separate record of filled slots |
| Maglev.BuildTable | common/src/lib.rs:443-480 | an empty list gives an empty table, any other the closed form on every slot |
| Maglev.BuildCompactTable | common/src/lib.rs:549-607 | the same for at most 32 backends, zeros for the empty list |
| Maglev.OwnerIsUnique | common/src/lib.rs:588-604 | a slot has at most one owner, so it is filled exactly once |
| Maglev.CompactTableIsDeterministic | common/src/lib.rs:549-607 | equal backend lists have equal tables |
| Maglev.AppendMovesSlotsOnlyToNewcomer | common/src/lib.rs:549-607 | appending a backend leaves each slot with its owner or gives it to the newcomer |
| Maglev.AppendTakesExactly | common/src/lib.rs:588-604 | the newcomer takes exactly the slots one of its permutations reaches in an earlier round than the old winner |
| Maglev.FullAppendMovesSlotsOnlyToNewcomer | common/src/lib.rs:443-480 | the same for the full table |
| Health.BackendHealth.RecordResponse | control/src/proxy/route_snapshot.rs:63-69 | the window drops its oldest flag when it holds 100 and appends the new one |
| Health.WindowIsRecentHistory | control/src/proxy/route_snapshot.rs:63-69 | in every run over all backends, a window is exactly the last 100 responses of its own backend |
| Health.UnhealthyIffMostRecentFailed | control/src/proxy/route_snapshot.rs:53-61 | unhealthy exactly when more than half of the flags of the last min(100, k) responses are set |
| Health.HealthOnStatuses | control/src/proxy/route_snapshot.rs:53-69 | healthy exactly when at most half of the backend's last 100 responses in the run had a status from 500 to 599 |
| Health.HealthForgetsTheRest | control/src/proxy/route_snapshot.rs:32-70 | runs with the same last 100 responses of a backend give it the same health |
| Selection.ProbeWithMask | control/src/proxy/router.rs:766-822 | mask, skip and early break return the first eligible backend of a plain scan of the 10 * n probed slots |
| Selection.ProbeWithSet | control/src/proxy/router.rs:1474-1514 | the same for the set of tried indices, which ignores active checks |
| Selection.ScanFinds | control/src/proxy/router.rs:772-819 | the scan answers the candidate of the first eligible attempt, or none beyond the limit |
| Selection.BitIsSet | control/src/proxy/router.rs:777-781 | setting one bit of the mask sets that index and no other |
| Selection.NothingLeft | control/src/proxy/router.rs:801-806 | once all backends were tried and refused, the rest of the scan finds nothing |
| Selection.SelectAnswers | control/src/proxy/router.rs:772-819 | the answer is the owner, in the table's plan, of the first of the slots (flow + attempt) mod 2^64 mod 4099 for 10 * n attempts whose owner is eligible; none if all are ineligible |
| Selection.AnswerIsUnique | control/src/proxy/router.rs:772-819 | that determines the answer |
| Selection.TrafficFollowsSlots | common/src/lib.rs:638-646 | with every backend eligible, any 4099 flows in a row give each backend exactly as many flows as it owns slots |
| Selection.EligibleIffServing | control/src/proxy/router.rs:786-801 | eligible exactly if at most half of the last 100 responses failed, it is not draining and no active check reports it down |
| Selection.SelectsServing | control/src/proxy/router.rs:759-822 | selection answers by that rule after any responses, drains and active checks |
| Stickiness.AppendIsSticky | control/src/proxy/router.rs:760-819 | through table, lookup and probe loop, appending an eligible backend leaves each routed flow or sends it to the newcomer |
| Stickiness.AppendMovesExactly | control/src/proxy/router.rs:772-819 | an eligible newcomer gets exactly the flows for which it took a slot probed up to the deciding one; an ineligible one moves a flow to the owner of the first later slot that is eligible and that it did not take |
| Stickiness.RemoveMovesExactly | control/src/proxy/router.rs:772-819 | removing the last backend, eligible or not, sends a flow of another backend to the first eligible heir of a slot it had skipped, keeps it if there is none, and drops it beyond the shorter limit; an eligible backend leaves no such heirs |
| Stickiness.RemovedFlowsMoveOn | control/src/proxy/router.rs:772-819 | a flow of the removed backend is taken by no attempt before its old one |
| MovedFlow.IneligibleNewcomerMovesAFlow | control/src/proxy/router.rs:786-806 | with real hashes: appending an ineligible backend on 10.0.0.1 moves a flow between two eligible ones, and removing it moves the flow back |
| MovedFlow.Routes | common/src/lib.rs:549-607 | the routes of that example are built by the table builder |
| Stickiness.LosingOneBackend | control/src/proxy/router.rs:786-806 | if only x stops being eligible, flows on other backends stay |
| Stickiness.RegainingOneBackend | control/src/proxy/router.rs:786-806 | if only x becomes eligible, each flow stays or moves to x |
| Stickiness.MaskAndSetAgree | control/src/proxy/router.rs:1488-1501 | both probe loops choose alike when active checks report no backend of the route down |
| Stickiness.HealthStore.DrainBackend | control/src/proxy/router.rs:620-628 | one drain entry is set, nothing else changes |
| Stickiness.HealthStore.CleanupExpired | control/src/proxy/router.rs:642-649 | exactly the entries whose deadline has passed are dropped |
| Stickiness.HealthStore.RecordBackendResponse | control/src/proxy/router.rs:657-663 | exactly the window of that backend slides |
| Stickiness.ResponseDisturbsOnlyItsBackend | control/src/proxy/router.rs:657-663 | a response of x moves no flow between two other backends |
| Stickiness.DrainMovesOnlyItsFlows | control/src/proxy/router.rs:614-628 | draining x moves exactly the flows that were on x |
| RouteCache.RouteLruCache.Get | control/src/proxy/router.rs:274-287 | a hit moves the key to the back and counts, a miss counts; the cache stays consistent |
| RouteCache.RouteLruCache.Insert | control/src/proxy/router.rs:290-309 | update in place, or evict the front when full and append |
| RouteCache.RouteLruCache.Invalidate | control/src/proxy/router.rs:312-317 | the key leaves both structures |
| RouteCache.RouteLruCache.Clear | control/src/proxy/router.rs:321-325 | entries go, statistics stay |
| RouteCache.CacheAlwaysValid | control/src/proxy/router.rs:242-253 | in every run keys and recency list are the same set without duplicates, within the maximum size (one key for a maximum of zero) |
| RouteCache.OrderIsRecency | control/src/proxy/router.rs:246-247 | in every run the list is sorted by last hit or insertion |
| RouteCache.VictimIsLeastRecent | control/src/proxy/router.rs:299-304 | the victim is the key touched longest ago |
| RouteCache.StatsCountGets | control/src/proxy/router.rs:328-331 | hits plus misses is the number of gets, and hits the number that found their key |
| Router.CacheIsTransparent | control/src/proxy/router.rs:677-748 | from the empty router, after every run of lookups, updates, and additions that shadow no cached lookup, under any evictions, cached and uncached resolution agree, if the paths in play have distinct hashes |
| Router.TransparentAfterSetup | control/src/proxy/router.rs:677-748 | routes added first, then any lookups and backend updates: the two always agree |
| Router.UpdateKeepsInv | control/src/proxy/router.rs:585-606 | replacing the backends of an existing route keeps keys, patterns and every cached answer right, also when the radix tree refuses the rebuild |
| Router.StaleIff | control/src/proxy/router.rs:585-589 | after a new key is added a lookup is answered wrongly exactly if it was cached, no exact route answered it, and the new route is its all-methods route, changes the tree's answer, or is its own route that the tree refused to rebuild |
| Router.AddKeepsInvIff | control/src/proxy/router.rs:481-592 | adding a route keeps every cached answer right exactly if it shadows no cached lookup |
| Router.NewRouteGoesUnnoticed | control/src/proxy/router.rs:585-589 | a cached answer from a less specific route hides a later exact route for all methods |
| Router.MethodsAreApart | control/src/proxy/router.rs:94-105 | method and path can be read off a lookup text of the tree, for paths that begin with a slash |
| Router.AddTakesEffect | control/src/proxy/router.rs:481-592 | after an add the key leads to the given backends and every other route is as before |
| Router.AddingTwiceIsOnce | control/src/proxy/router.rs:481-592 | adding the same backends again changes nothing, not even the cache |
| RouteTree.WhatMatches | control/src/proxy/router.rs:538-575 | under a method's prefix match the routes of that method that serve the path, and besides only the root registered for all methods |
| RouteTree.TreeLaw | control/src/proxy/router.rs:709-733 | for a tree that finds the most specific pattern: the most specific route of the request's own method; else the root if registered for all methods; else the most specific route for all methods; else none |
| RouteTree.MostSpecificIff | control/src/proxy/router.rs:720-733 | a request without a route of its own method gets the most specific route for all methods exactly if the root is not registered for all methods or is the only one that serves the path |
| RouteTree.RootHidesApi | control/src/proxy/router.rs:562-574 | with routes for all methods on / and /api, a GET of /api/x goes to the root |
| RouteTree.TreesExist | control/src/proxy/router.rs:529-575 | such trees exist |
| Router.UpdateIsSticky | control/src/proxy/router.rs:598-606 | stickiness of an appended backend for every flow, through cached resolution |
| Router.ClientsHaveDistinctFlows | control/src/proxy/router.rs:829-868 | on one path, IPv4 clients share a flow hash only if address and port are equal |
| Router.ClientShiftsPaths | control/src/proxy/router.rs:829-868 | a client shifts every path's hash by one fixed word, zero without client information, so different path hashes stay different |
| Router.ShiftOf | control/src/proxy/router.rs:837-860 | that word is the address above the port; of an IPv6 address the low 48 bits of its folded halves count |
| Router.ChoiceIsTheOwner | control/src/proxy/router.rs:759-822 | the backend chosen is the owner of the first probed slot whose owner is eligible |
| Router.Router.AddRoute | control/src/proxy/router.rs:481-592 | no change for equal backends; otherwise the built table is stored, and the tree is swapped and the key invalidated only if the tree accepts |
| Router.Router.ResolveKey | control/src/proxy/router.rs:677-744 | cache, then exact key, then all-methods key, then tree; the answer is cached |
| Router.Router.SelectBackend | control/src/proxy/router.rs:670-823 | the backend is the scan's choice on the resolved route for the flow's hash |
| CircuitBreaker.PackRoundTrips | control/src/proxy/circuit_breaker.rs:229-254 | the four fields come back, each counter modulo 2^16 |
| CircuitBreaker.WordLayout | control/src/proxy/circuit_breaker.rs:10-17 | where state and counters sit in the word, for each state |
| CircuitBreaker.EncodeFields | control/src/proxy/circuit_breaker.rs:10-17 | which fields each state occupies; the others are zero |
| CircuitBreaker.PassRefinesCall | control/src/proxy/circuit_breaker.rs:316-502 | on every word that encodes a state, a pass of each loop is one step of the three-state machine |
| CircuitBreaker.CircuitBreaker.AllowRequest | control/src/proxy/circuit_breaker.rs:316-373 | word and answer are those of one pass, after any number of spurious failures |
| CircuitBreaker.CircuitBreaker.RecordSuccess | control/src/proxy/circuit_breaker.rs:376-436 | the same, and closing clears the failure time |
| CircuitBreaker.CircuitBreaker.RecordFailure | control/src/proxy/circuit_breaker.rs:439-502 | the same, and the failure time is recorded first |
| BreakerTiming.MethodsRefineAfter | control/src/proxy/circuit_breaker.rs:316-532 | what the methods compute on words is what the timed runs say of states |
| BreakerTiming.OpenRemembersTheLatestFailure | control/src/proxy/circuit_breaker.rs:439-442 | in every run of single calls, outside Closed the timestamp is set and is that of the latest failure |
| BreakerTiming.ReopensExactlyAtTheTimeout | control/src/proxy/circuit_breaker.rs:518-532 | in Open a request passes exactly from the timeout (one nanosecond for a zero timeout) after the latest failure, cut to microseconds, and the state becomes half-open with one request |
| BreakerTiming.EarlyByLessThanAMicrosecond | control/src/proxy/circuit_breaker.rs:441-442 | never a microsecond early, and never early at all exactly for failures on a whole microsecond |
| BreakerRuns.WordInvAlways | control/src/proxy/circuit_breaker.rs:316-502 | in every interleaving the word encodes a state, the winning swaps are a run of the three-state machine, and the failure field is the streak modulo 2^16 |
| BreakerRuns.TripsExactlyAtThreshold | control/src/proxy/circuit_breaker.rs:449-482 | Closed opens exactly on the failure that makes the streak reach the threshold, for thresholds up to 65536 |
| BreakerRuns.HugeThresholdNeverTrips | control/src/proxy/circuit_breaker.rs:450-467 | above 65536 it never opens |
| BreakerRuns.ClosesExactlyOnTheThirdSuccess | control/src/proxy/circuit_breaker.rs:394-414 | in every interleaving a half-open breaker closes exactly on the third winning success of its episode and opens exactly on a winning failure |
| BreakerRuns.OpensToOneProbe | control/src/proxy/circuit_breaker.rs:327-342 | an open breaker leaves that state only by a winning request that may reset it, as the first probe of a new episode |
| BreakerRuns.EpisodeInvAlways | control/src/proxy/circuit_breaker.rs:323-431 | in every interleaving the request counter is the number of probes and no more probes reported than there are successes |
| BreakerRuns.EpisodeAdmitsAtMostThree | control/src/proxy/circuit_breaker.rs:345-369 | no half-open episode admits a fourth request |
| BreakerRuns.HalfOpenIsNeverWedged | control/src/proxy/request_handler.rs:787-811 | successes, outstanding and abandoned probes cover the admitted ones; with none abandoned a request is admitted or a probe is out |
| BreakerRuns.FrozenIffWedged | control/src/proxy/circuit_breaker.rs:316-502 | in every interleaving: the word never changes again, whatever happens, exactly if it is half-open with all probes used up and no request can still act, the outcome of timeout checks being arbitrary |
| BreakerRuns.WedgeNeedsAbandonment | control/src/proxy/request_handler.rs:806-811 | such a breaker has lost as many probes as it lacks successes |
| BreakerRuns.WedgeIsForever | control/src/proxy/circuit_breaker.rs:345-369 | from then on no step changes the word or admits a request |
| BreakerRuns.LostProbesWedge | control/src/proxy/request_handler.rs:806-811 | every run that ends Open or half-open with no request able to act is brought there if the probes it has left never report, at any threshold |
| BreakerRuns.FourRequestsWedge | control/src/proxy/request_handler.rs:806-811 | a concrete run of four requests that does it |
| BreakerStamps.Refines | control/src/proxy/circuit_breaker.rs:316-532 | with the timestamp as a second atomic word, word and requests behave as in the interleavings without it |
| BreakerStamps.OpenForEverIff | control/src/proxy/circuit_breaker.rs:518-532 | in every interleaving: an open breaker never changes again exactly if no failure time is on record and no request can still reset it or store one |
| BreakerStamps.LateClearOpensForEver | control/src/proxy/circuit_breaker.rs:405-414 | for every timeout, a success that closes the breaker and clears the time only after the next failure opened it again leaves it open for ever, at threshold one |
| BreakerStamps.TimelyClearsKeepTheRecord | control/src/proxy/circuit_breaker.rs:439-442 | outside Closed the failure time is on record, if the clearing stores come while the breaker is closed and no failure is between its store and its swap |
| BreakerManager.OneBreakerPerId | control/src/proxy/circuit_breaker.rs:575-605 | in every interleaving that never removes an id, all calls for it return the published breaker |
| BreakerManager.PublishedEntriesStay | control/src/proxy/circuit_breaker.rs:599-602 | its entry never changes, whatever is inserted or removed for other ids |
| BreakerManager.PublishTouchesOneId | control/src/proxy/circuit_breaker.rs:599-602 | a publication changes the writer's own id only: no insertion is lost |
| BreakerManager.RemovedIsGone | control/src/proxy/circuit_breaker.rs:716-726 | a removal takes its id out of the map |
| BreakerManager.PublishedIsNew | control/src/proxy/circuit_breaker.rs:594-602 | a published breaker is newer than every other, so a removed id starts afresh |
| BreakerManager.BreakersAreNotShared | control/src/proxy/circuit_breaker.rs:594-597 | different ids have different breakers |
| TokenBucket.PackRoundTrips | control/src/proxy/rate_limiter.rs:136-148 | tokens above and time below, 32 bits each, both come back modulo 2^32 |
| TokenBucket.TokenBucket.TryAcquireN | control/src/proxy/rate_limiter.rs:206-249 | one pass on the stored word decides, after any spurious failures; a refusal is written or not |
| TokenBucket.AttemptRefinesAfter | control/src/proxy/rate_limiter.rs:216-247 | the word holds level and refill time, the token field never spills out of its 32 bits, and the pass is the step of the level |
| TokenBucket.RefillFits | control/src/proxy/rate_limiter.rs:222-223 | the sum that is capped stays below 2^64 |
| TokenBucket.RateBound | control/src/proxy/rate_limiter.rs:206-249 | over any window of any run on a monotone clock, grants are at most capacity + rate * window, across the 32-bit wrap-around |
| TokenBucket.OvercreditsIff | control/src/proxy/rate_limiter.rs:220-223 | a refill exceeds what the time since the last one allows exactly if the pass is behind it by no multiple of 2^32 ms, the rate is not zero and the bucket is not full |
| TokenBucket.BoundHoldsIff | control/src/proxy/rate_limiter.rs:206-249 | whatever calls at given times ask for, grants stay within capacity plus any extra exactly if the credit of the times does; draining calls attain it |
| TokenBucket.ConfiguredRateHolds | control/src/proxy/rate_limiter.rs:177-194 | the bound in configured units: tokens granted are at most burst + tokens per second * seconds |
| TokenBucket.NeverRefillsIff | control/src/proxy/rate_limiter.rs:181-184 | the stored rate is zero exactly below 1000 / 65536 tokens per second |
| TokenBucket.FixedIsClose | control/src/proxy/rate_limiter.rs:126-128 | fixed point is within one unit of 1/65536 below 2^48 tokens and saturates at both ends |
| TokenBucket.FixedOfWhole | control/src/proxy/rate_limiter.rs:126-128 | whole tokens are exact |
| TokenBucket.FixedIsMonotone | control/src/proxy/rate_limiter.rs:126-128 | the conversion is monotone |
| TokenBucket.ConfiguredRateIsClose | control/src/proxy/rate_limiter.rs:182-183 | the stored rate is the configured one rounded down by less than a unit per millisecond |
| TokenBucket.BurstThenRate | control/src/proxy/rate_limiter.rs:177-249 | a new bucket grants exactly its burst, at most 65535, of calls for one token; drained, it grants t ms later exactly the whole tokens the rate brought, up to the burst |
| TokenBucket.RefillIsIdealIff | control/src/proxy/rate_limiter.rs:220-223 | a lazy refill is the millisecond-by-millisecond one exactly for gaps under 2^32 ms, or when the bucket fills anyway, or at rate zero |
| TokenBucket.LazyRefinesIdeal | control/src/proxy/rate_limiter.rs:206-249 | each call gets the answer of the ideal bucket, while calls come within 2^32 ms of the stored time |
| TokenBucket.RefusalsAreInvisible | control/src/proxy/rate_limiter.rs:237-246 | whether the write of a refusal lands changes no later answer |
| BucketRuns.InterleavingIsSerial | control/src/proxy/rate_limiter.rs:215-248 | every interleaving leaves the word of the serial run of the writes that landed |
| BucketRuns.InterleavedCreditBound | control/src/proxy/rate_limiter.rs:206-249 | in every interleaving and window, grants are at most capacity plus the credit of the landed times: each gap modulo 2^32 times the rate, capped by the capacity |
| BucketRuns.RateBoundIff | control/src/proxy/rate_limiter.rs:206-249 | over all interleavings whose writes land at given times, grants stay within capacity + rate * window exactly if the credit of the times does |
| BucketRuns.EveryLogHappens | control/src/proxy/rate_limiter.rs:213-248 | every sequence of writes, in any order of times, is that of some interleaving |
| BucketRuns.InterleavedRateBound | control/src/proxy/rate_limiter.rs:206-249 | writes that land in order of their sampled times meet the bound in every window |
| BucketRuns.InterleavedHonestBound | control/src/proxy/rate_limiter.rs:220-223 | writes none of which overcredits stay within capacity + rate * the time they moved forward |
| BucketRuns.HonestWritesCanExceedTheWindow | control/src/proxy/rate_limiter.rs:220-223 | the length of the window is not enough for them: four such writes in one millisecond get three tokens where two are allowed |
| BucketRuns.CallersHoldWhatTheSerialRunGrants | control/src/proxy/rate_limiter.rs:226-247 | in every interleaving the tokens callers were told they have are those the serial run grants: none lost, none made up |
| BucketRuns.CallersStayWithinTheRate | control/src/proxy/rate_limiter.rs:206-249 | so together they hold at most capacity plus credit, and at most capacity + rate * time since creation if writes land in order of their sampled times |
| BucketRuns.StaleSampleBreaksTheBound | control/src/proxy/rate_limiter.rs:213-221 | two calls in one millisecond get two tokens from a one-token bucket |
| Http2Pool.PoolInvAlways | control/src/proxy/backend_pool.rs:360-611 | in every run of connection requests and prewarms: failures stay under the rung's limit, no connection ever leaves, and the capacity is 8, or 4 with a connection open once healthy, or 2 with two |
| Http2Pool.CapacityOnlyHalvesTwice | control/src/proxy/backend_pool.rs:593-600 | in every run the capacity is 8, 4 or 2 and never rises, with at most 8 connections |
| Http2Pool.BothHalvingsHappen | control/src/proxy/backend_pool.rs:593-600 | five refusals, a connect and five refusals bring the capacity to 2 with one connection open |
| Http2Pool.FrozenIffFull | control/src/proxy/backend_pool.rs:428-473 | the connections of a pool never change again, whatever is asked of it, exactly when they have reached its capacity |
| Http2Pool.FullPoolRefusesForEver | control/src/proxy/backend_pool.rs:442-486 | from half a minute after the last connect on, a full pool answers NoCapacity exactly when none of its connections is ready, however many calls follow |
| Http2Pool.SelectionsAreDistinct | control/src/proxy/backend_pool.rs:442-460 | with m ready connections any m picks in a row are of different, ready connections |
| Http2Pool.AnswersArePicks | control/src/proxy/backend_pool.rs:442-465 | the pool's answers are its connections at the places round robin picks |
| Http2Pool.RoundRobinInEveryRun | control/src/proxy/backend_pool.rs:442-465 | in every run, as many requests in a row as there are ready connections are answered with as many different ready ones |
| Http2Pool.TenRefusalsBlockForThirtySeconds | control/src/proxy/backend_pool.rs:412-426 | ten refused connects in a row block a new pool, nine do not; for exactly 30 seconds, after which the count starts again |
| Http2Pool.ConnectResets | control/src/proxy/backend_pool.rs:563-576 | in every run a connect below capacity makes the pool healthy with no failures counted |
| Http2Pool.PrewarmFills | control/src/proxy/backend_pool.rs:360-406 | in every run prewarming an empty pool opens as many connections as succeed before the first refusal, up to the capacity |
| Http2Pool.Http2Pool.CreateConnection | control/src/proxy/backend_pool.rs:490-560 | a connection and a success, or a failure on the ladder |
| Http2Pool.Http2Pool.Prewarm | control/src/proxy/backend_pool.rs:319-406 | an empty pool gets one connection per success before the first failure, up to its capacity |
| Http2Pool.Http2Pool.FindReady | control/src/proxy/backend_pool.rs:442-460 | the first ready connection going round from the index |
| Http2Pool.Http2Pool.GetConnection | control/src/proxy/backend_pool.rs:410-487 | breaker, clean-up, round-robin choice, creation below capacity, or no capacity; never more than 8 connections |
| Http1Pool.Http1Pool.TryGet | control/src/proxy/http1_pool.rs:74-88 | the newest connection is popped; none exactly when no idle connection of the backend is fresh |
| Http1Pool.Http1Pool.Put | control/src/proxy/http1_pool.rs:93-109 | pushed if below the limit, dropped otherwise; the stack stays sorted |
| Http1Pool.StacksStaySorted | control/src/proxy/http1_pool.rs:93-109 | in every run each stack is bounded and sorted by last use |
| Http1Pool.MissMeansNothingFresh | control/src/proxy/http1_pool.rs:78-85 | in every run a lookup fails exactly when nothing idle is fresh |
| Http1Pool.EachSenderOnce | control/src/proxy/http1_pool.rs:74-109 | what was put in for a backend was handed out for it, is idle, or was dropped as too many or too old; each exactly once |
| Http1Pool.PutThenGet | control/src/proxy/http1_pool.rs:74-109 | in every run a connection put in below the limit is the next one handed out for its backend, exactly within the idle timeout, and leaves the other stacks alone |

## Left out

- The radix tree and regular expressions are third-party code; the tree is a deterministic parameter of `Router`, and in
  `RouteTree` one that answers with a most specific pattern. Paths with pattern characters of their own are not modelled.
- Route filters, header, query and method matches, redirects, timeouts and retries: they only add easy members.
- Races between cache, routes and radix tree inside one `add_route`, and lost updates between concurrent health
  writers: each of these operations is taken as one step.
- Reading the clock and storing the failure time is one step in `BreakerStamps`, and so is reading that time and the
  clock; in `BreakerRuns` the outcome of the timeout check is arbitrary.
- A request that read Closed and returns while an episode is running counts as admitted when it read the word, not as
  a probe.
- TokenBucket.TokenBucket.constructor: excludes rates of 2^32 fixed-point units per millisecond (about 65 million tokens
  per second) or more, for which the refill product can exceed 64 bits; negative rates and token counts saturate to zero.
- Floating-point rounding of rates and token counts: `ToFixed` floors a real number.
- BucketRuns.InterleavedRateBound: is the case of writes in order of their sampled times; `RateBoundIff` is the exact
  condition, and the code does not ensure it.
- Router.CacheIsTransparent: assumes that the paths in play have different 64-bit hashes; the code keys routes and cache by
  hash alone.
- Overflow of statistics counters and of the HTTP/2 failure counter.
- The per-route maps of the rate limiter, the active health checker's thresholds, listeners, TLS, sockets, workers,
  Kubernetes watchers, metrics and the admin interfaces.
- Balance of slots between backends: it depends on concrete hash values.
