# Tanugate: a verified model of the gateway's core

Tanugate is an HTTP gateway. This project models the parts of it that keep state or transform
configuration and proves what they promise:

- the three rate limiters: the in-memory token bucket with its table and eviction
  (`TokenBucket`, `MemoryLimiter`), and the sliding-window log and the leaky bucket that run as
  scripts in Redis (`SlidingWindow`, `LeakyBucket`, `RedisLimiter`), with any number of keys and
  processes on one store (`RedisRuns`). Each refines a reference that remembers every accepted
  request, and the reset times of rejections are tight;
- the circuit breaker and every interleaving of its two locked sections (`CircuitBreaker`,
  `BreakerRuns`);
- the retry loop over the breaker (`Retry`);
- resolution of middleware references with its YAML merge on shared nodes (`YamlMerge`, `Resolve`),
  the checks on single middlewares (`Settings`), semantic validation and handler construction
  (`Pipeline`), host patterns and first-match routing (`Router`), the summary of a reload
  (`ConfigDiff`), and the rewriting of JSON bodies (`BodyTransform`).

Objects that the program updates in place are classes here (`CircuitBreaker`, `BucketCell`,
`MemoryLimiter`, `Store`, `RedisLimiter`, `RetryHandler`, `Node`, `Router`), and its loops are loops.
Each such method is tied by its contract to a function on values (`AdmitStep`, `CompleteStep`,
`AllowStep`, `EvictIn`, `DropStep`, `SlidingStep`, `LeakyStep`, `Serve`, `MergeContent`, `Kept`,
...), and the lemmas about whole runs speak of those functions. A loop over a Go map takes its keys
in an arbitrary order.

Five things the repository says or suggests do not hold of its code. For each a lemma gives the
exact condition under which the code does keep the promise:

- "Only a single probe request is allowed through" in the half-open state
  (`internal/middleware/circuitbreaker/circuitbreaker.go:61-64`). A probe that outlives its
  half-open period clears the flag of a later one when it succeeds without closing the breaker. So
  the greatest number of a period's probes in flight, over all interleavings, is exactly the number
  of successes that close the breaker (`BreakerRuns.MostProbesIff`; `BreakerRuns.ProbesInFlight`
  builds the run), and it is one if and only if the configured success threshold is at most one, an
  omitted threshold being zero (`BreakerRuns.SingleProbeIff`). Under every configuration a probe of
  an earlier period may be in flight beside the current one (`BreakerRuns.SecondPeriod`).
- Eviction of idle buckets is invisible only for windows of at most the eviction time plus one
  nanosecond (`MemoryLimiter.EvictionUnnoticedIff`). The configuration accepts longer windows; what
  the limiter answers then, `MemoryLimiter.DecidedSinceEviction` says for every window.
- Renaming body keys depends on Go's map iteration order. The rewritten body is the same for every
  order if and only if what depends on it is injected over: every key from a live key's new name on,
  where that is another key to rename, and every new name that two live keys share, a key being
  live unless it is stripped (`BodyTransform.BodyIsSettledIff`, and
  `BodyTransform.OrderIsIrrelevantIff` for the loop alone). Renaming a key to itself deletes it.
  And "non-object bodies are returned unchanged"
  (`internal/middleware/transform/transform.go:121-122`) fails on JSON `null`, which decodes into a
  nil map: injecting a field panics, and padding is lost (`BodyTransform.UnchangedIff`,
  `BodyTransform.AllUnchangedIff`, `BodyTransform.NullFailsIff`).
- The port is "stripped automatically" from the request's host (line 55 of the README in the
  gateway's repository): what is cut off is whatever follows the last colon, so a host with a colon
  and without a port does not match its own pattern, which validation accepts. An exact pattern
  matches itself if and only if it has no colon (`Router.OwnHostMatchesIff`,
  `Router.BracketedHostIsCut`).
- "Retries are attempted when the circuit opens" (line 306 of the README in the gateway's
  repository). After the failure that opens the breaker the loop does go on, but an attempt that
  comes less than the breaker's timeout after it is refused, and a refused attempt ends the loop
  with 503 (`internal/middleware/retry/retry.go:157-160`). So over an upstream that always fails the
  calls stop exactly at the first attempt that comes too early (`Retry.FailingUpstream`). For a given
  breaker all attempts are made, on every run that keeps to the backoffs and that no other request
  disturbs, if and only if each backoff from the opening on lasts through the timeout even at half
  its length (`Retry.AllAttemptsMadeIff`). A configuration keeps the promise if and only if it has no retries,
  no timeout (an omitted one is zero), or a first and a last delay of at least twice the timeout
  (`Retry.RetriesAttemptedIff`). With a `timeout` of 30s that takes an `initial_delay` of a minute.

The reload summary, in turn, can be trusted because validation refuses repeated route names:
`ConfigDiff.EmptySummaryIsTrustedIff` shows that nothing less would do.

Times are integers: nanoseconds for the memory limiter and the breaker, milliseconds for the Redis
scripts. Tokens, levels, delays and multipliers are exact reals.

## Model

| member | source | states |
|---|---|---|
| TokenBucket.LevelRefills | internal/middleware/ratelimit/memory.go:65-73 | refilling in two steps is refilling in one |
| TokenBucket.LevelDecides | internal/middleware/ratelimit/memory.go:78-81 | one token is at hand exactly when every earlier accepted request leaves room for one more |
| TokenBucket.StepDecides | internal/middleware/ratelimit/memory.go:61-83 | one call on a bucket that holds the level of the accepted requests decides by that level and leaves the bucket holding the new one; a clock that runs backwards adds nothing |
| TokenBucket.LevelIsLeastRoom | internal/middleware/ratelimit/memory.go:65-73 | the capped refill is the minimum, over all accepted requests, of what a bucket full at that request would hold |
| TokenBucket.BucketHoldsLevel | internal/middleware/ratelimit/memory.go:45-84 | after any calls at any times the bucket is a function of the accepted requests alone |
| TokenBucket.AllowIsExact | internal/middleware/ratelimit/memory.go:45-84 | a request is accepted if and only if for every earlier accepted request those from it on and this one number at most the limit plus the refill since; also the remaining count and the reset time |
| TokenBucket.AlikeStep | internal/middleware/ratelimit/memory.go:65-83 | after call lists with the same accepted requests, and no token at the later of their latest times if these differ, a call has the same answer, and they stay so related |
| TokenBucket.RejectedLeavesNoTrace | internal/middleware/ratelimit/memory.go:65-83 | rejected calls are unobservable: leaving one out changes no later answer, whatever calls follow and whichever way the clock goes |
| TokenBucket.OnlyGrantedCallsCount | internal/middleware/ratelimit/memory.go:45-84 | leaving out all rejected calls at once changes no answer |
| TokenBucket.AcceptedInOrder | internal/middleware/ratelimit/memory.go:65-84 | accepted times, as running maxima, never decrease, and each was admissible after those before it |
| TokenBucket.BurstBound | internal/middleware/ratelimit/memory.go:42-44 | between any two accepted requests no more are accepted than the limit plus the refill between them, and at most twice the limit in a window |
| TokenBucket.TakeFromFull | internal/middleware/ratelimit/memory.go:49-73 | after an idle window an old bucket and a new one are indistinguishable |
| MemoryLimiter.BucketCell.constructor | internal/middleware/ratelimit/memory.go:49-55 | a new bucket is full |
| MemoryLimiter.MemoryLimiter.constructor | internal/middleware/ratelimit/memory.go:32-40 | a new limiter has no bucket |
| MemoryLimiter.BucketCell.Take | internal/middleware/ratelimit/memory.go:61-83 | the new state of the bucket object and the decision are those of AllowStep |
| MemoryLimiter.MemoryLimiter.LoadOrStore | internal/middleware/ratelimit/memory.go:49-56 | an existing bucket is returned untouched; a missing one is stored full; no two keys share a bucket |
| MemoryLimiter.MemoryLimiter.Allow | internal/middleware/ratelimit/memory.go:45-84 | the table after the call differs at the key only, where it holds the outcome of AllowStep, which is also the answer |
| MemoryLimiter.MemoryLimiter.EvictStale | internal/middleware/ratelimit/memory.go:102-115 | exactly the buckets idle for longer than the eviction time are gone and the others are untouched, in whatever order the table is visited |
| MemoryLimiter.TableIsSince | internal/middleware/ratelimit/memory.go:45-115 | for every window and any run on all keys, the table holds for a key exactly the bucket that its calls since the last eviction that dropped it would have left, and none without such calls; an eviction drops a key exactly when it comes more than the eviction time after the key's last call |
| MemoryLimiter.SinceIsTheRest | internal/middleware/ratelimit/memory.go:103-115 | those calls are the ones after the last eviction that came more than the eviction time after the call before it |
| MemoryLimiter.DecidedSinceEviction | internal/middleware/ratelimit/memory.go:45-84 | for every window each call is decided as by a limiter that serves this key alone and has seen those calls |
| MemoryLimiter.CallAgrees | internal/middleware/ratelimit/memory.go:45-84 | a call keeps the table's bucket in agreement with the one that was never evicted, and answers as that one would |
| MemoryLimiter.EvictAgrees | internal/middleware/ratelimit/memory.go:103-115 | an eviction keeps that agreement: what it drops has been idle for a window and counts as full |
| MemoryLimiter.TableHolds | internal/middleware/ratelimit/memory.go:45-115 | the agreement holds for every key after any interleaving of calls and evictions |
| MemoryLimiter.EveryKeyOnItsOwn | internal/middleware/ratelimit/memory.go:45-115 | under any interleaving of calls on all keys and evictions, a key is answered as by a limiter that never evicts and serves it alone |
| MemoryLimiter.LongWindowIsNoticed | internal/middleware/ratelimit/memory.go:102-115 | for a longer window there is a run in which eviction gives a request more than it should get |
| MemoryLimiter.EvictionUnnoticedIff | internal/middleware/ratelimit/memory.go:102-115 | eviction is invisible on all runs if and only if the window is at most the eviction time plus one |
| SlidingWindow.DecidesByHistory | internal/middleware/ratelimit/redis.go:34-53 | the trimmed set, whose key may expire, accepts if and only if fewer than limit accepted requests of the whole history lie in (now - window, now], with the remaining count and the reset time; and the new member is fresh |
| SlidingWindow.HistoryCounts | internal/middleware/ratelimit/redis.go:34-53 | in any window the history holds as many requests as the plain sliding-window rule grants on the list of request times |
| SlidingWindow.DecidesByTheRule | internal/middleware/ratelimit/redis.go:34-53 | the trimmed and expiring set answers as that rule, for any processes and requests elsewhere |
| SlidingWindow.StepKeepsInv | internal/middleware/ratelimit/redis.go:34-53 | a request, a request on another key and an expiry keep the set equal to the recent part of the history |
| SlidingWindow.ExpiryIsExact | internal/middleware/ratelimit/redis.go:45 | once its time has come, the set is there if and only if an accepted request of the history lies in the window |
| SlidingWindow.NeverOverLimit | internal/middleware/ratelimit/redis.go:31-33 | no window of the whole untrimmed history ever holds more than limit accepted requests |
| SlidingWindow.HistoryFrozen | internal/middleware/ratelimit/redis.go:47-52 | requests before the reset time of a rejection are all rejected |
| SlidingWindow.ResetIsTight | internal/middleware/ratelimit/redis.go:47-52 | after a rejection, a later request is accepted if and only if it comes at or after the reset time |
| LeakyBucket.StepMirrors | internal/middleware/ratelimit/redis.go:65-90 | one request takes states with tokens = capacity - level to such states with the same answer |
| LeakyBucket.StateMirrors | internal/middleware/ratelimit/redis.go:60-91 | on every run the stored level mirrors the token bucket's tokens, and a key that expired had been idle for a window |
| LeakyBucket.ExpiryIsExact | internal/middleware/ratelimit/redis.go:79-80 | once its time has come, the level is there if and only if the last request came less than a window ago |
| LeakyBucket.SameAsTokenBucket | internal/middleware/ratelimit/redis.go:60-91 | on every nondecreasing run, whenever the store drops the key, the leaky bucket answers as the token bucket |
| LeakyBucket.LeftMirrorsLevel | internal/middleware/ratelimit/redis.go:67-75 | the drained level is the capacity minus the level of the accepted requests |
| LeakyBucket.AcceptedFrozen | internal/middleware/ratelimit/redis.go:84-90 | requests before the reset time of a rejection change nothing that is remembered, however the drains are split |
| LeakyBucket.ResetIsTight | internal/middleware/ratelimit/redis.go:87-89 | after a rejection, a later request is accepted if and only if it comes at or after the reset time |
| LeakyBucket.AcceptedResetIsDrained | internal/middleware/ratelimit/redis.go:77-83 | the reset time of an acceptance is the first at which the bucket has drained if nothing else arrives |
| RedisLimiter.Store.Expire | internal/middleware/ratelimit/redis.go:45 | the store drops a key whose time has come and nothing else, as DropStep says of its whole contents |
| RedisLimiter.Store.ZRemRangeByScore | internal/middleware/ratelimit/redis.go:40 | exactly the members in the range go, and the key with the last of them |
| RedisLimiter.Store.OldestScore | internal/middleware/ratelimit/redis.go:48-50 | the least score of a set with members |
| RedisLimiter.Store.ZAddAndExpire | internal/middleware/ratelimit/redis.go:44-45 | the member is added, or its score replaced, and the key's expiry set |
| RedisLimiter.Store.RejectedUntil | internal/middleware/ratelimit/redis.go:48-51 | a rejection's reset time: the oldest score plus the window, or now plus the window when the set is empty |
| RedisLimiter.Store.CountAndAdd | internal/middleware/ratelimit/redis.go:41-52 | counts, then adds or rejects, as CountStep says |
| RedisLimiter.Store.HSetAndExpire | internal/middleware/ratelimit/redis.go:79-80 | both fields and the key's expiry are set, and nothing else |
| RedisLimiter.Store.SlidingWindowScript | internal/middleware/ratelimit/redis.go:34-53 | the stored set and the reply are those of SlidingStep; other keys are untouched; a key of the other kind is an error that changes nothing |
| RedisLimiter.Store.LeakyBucketScript | internal/middleware/ratelimit/redis.go:60-91 | the stored hash and the reply are those of LeakyStep; other keys are untouched; a key of the other kind is an error that changes nothing |
| RedisLimiter.RedisLimiter.constructor | internal/middleware/ratelimit/redis.go:95-120 | a new process numbers its members from the start |
| RedisLimiter.RedisLimiter.Allow | internal/middleware/ratelimit/redis.go:125-168 | the whole store after the call and the answer are those of AllowStep: dispatch on the algorithm, the member of a sliding-window request with the process's next serial number, every other key as it was, and an error that changes nothing for a key of the other kind |
| RedisRuns.SlidingKeyIsApart | internal/middleware/ratelimit/redis.go:125-151 | in any run of any processes on one store, a sliding-window key holds the set of its own run and never a hash, and the counters agree |
| RedisRuns.LeakyKeyIsApart | internal/middleware/ratelimit/redis.go:125-168 | a leaky-bucket key holds the hash of its own run and never a set |
| RedisRuns.AnswersApart | internal/middleware/ratelimit/ratelimit.go:77-85 | whatever happens on other keys, at other processes and by expiry, the whole answer, reset time included, is that of the key's own run, and never an error |
| RedisRuns.EveryKeyOnItsOwn | internal/middleware/ratelimit/redis.go:122-168 | on every clocked run a request is decided by the times of the requests on its key alone: as the sliding-window rule grants, or as a token bucket of that key would |
| CircuitBreaker.CircuitBreaker.constructor | internal/middleware/circuitbreaker/circuitbreaker.go:84-98 | a new breaker is closed with zero counters |
| CircuitBreaker.CircuitBreaker.SetState | internal/middleware/circuitbreaker/circuitbreaker.go:192-204 | the whole new state, with both counters and the flag cleared, and the report of a change |
| CircuitBreaker.CircuitBreaker.Admit | internal/middleware/circuitbreaker/circuitbreaker.go:110-143 | the section before the call follows the table AdmitStep, and a callback is owed for the transition it makes |
| CircuitBreaker.CircuitBreaker.Complete | internal/middleware/circuitbreaker/circuitbreaker.go:148-183 | the section after the call follows the table CompleteStep, and a callback is owed for the transition it makes |
| BreakerRuns.TrailingIsLastAll | internal/middleware/circuitbreaker/circuitbreaker.go:159-171 | a trailing run of n equal outcomes means that the last n outcomes are equal |
| BreakerRuns.StepKeepsCounters | internal/middleware/circuitbreaker/circuitbreaker.go:148-178 | every step keeps: the counters are the trailing runs of failures and successes since the last transition, closed means fewer failures than the threshold, half-open means none and fewer successes than the threshold, the flag is set in half-open only |
| BreakerRuns.StepKeepsProbes | internal/middleware/circuitbreaker/circuitbreaker.go:127-153 | every step keeps the bound on the probes in flight |
| BreakerRuns.StepKeepsPath | internal/middleware/circuitbreaker/circuitbreaker.go:113-183 | the log of owed callbacks is a path over the four legal edges, one entry for each change of state |
| BreakerRuns.Reachable | internal/middleware/circuitbreaker/circuitbreaker.go:110-204 | the three invariants hold in every state of every interleaving |
| BreakerRuns.CompletionMovesExactly | internal/middleware/circuitbreaker/circuitbreaker.go:159-176 | a closed breaker opens exactly when the last failureThreshold recorded outcomes are failures, a half-open one opens on any failure and closes exactly when the last successThreshold are successes, thresholds below one counting as one; an open one stays |
| BreakerRuns.ProbeBound | internal/middleware/circuitbreaker/circuitbreaker.go:127-153 | in a half-open period its probes in flight number at most one plus the probes of earlier periods that completed in it, these at most the successes counted, and so at most the successes that close the breaker; with no late probes, exactly one if the flag is set and none otherwise |
| BreakerRuns.FlagExactUpTo | internal/middleware/circuitbreaker/circuitbreaker.go:127-153 | for every prefix of a run: the flag counts the period's probes in flight exactly throughout if and only if no late success occurs in it |
| BreakerRuns.FlagExactIff | internal/middleware/circuitbreaker/circuitbreaker.go:61-64 | over a whole run the flag counts the period's probes in flight exactly if and only if no earlier period's probe reports a success that leaves the breaker half-open while a probe is out |
| BreakerRuns.LateSuccessLetsASecondProbeIn | internal/middleware/circuitbreaker/circuitbreaker.go:151-153 | after such a success the next arrival is a second probe |
| BreakerRuns.ProbesInFlight | internal/middleware/circuitbreaker/circuitbreaker.go:145-176 | for every configuration a run whose clock never goes back with exactly as many probes of one period in flight as successes close the breaker |
| BreakerRuns.MostProbesIff | internal/middleware/circuitbreaker/circuitbreaker.go:61-64 | in every interleaving at most k of a half-open period's probes are in flight, if and only if at most k successes close the breaker |
| BreakerRuns.SecondPeriod | internal/middleware/circuitbreaker/circuitbreaker.go:145-163 | under every configuration a run in which the probe of one period is still in flight when the next period's probe goes out |
| BreakerRuns.OneSuccessOneProbe | internal/middleware/circuitbreaker/circuitbreaker.go:172-175 | with a success threshold of at most one the flag counts the period's probes in flight exactly in every state of every run |
| BreakerRuns.SingleProbeIff | internal/middleware/circuitbreaker/circuitbreaker.go:61-64 | at most one of a half-open period's probes is in flight, in every interleaving, if and only if the success threshold is at most one |
| BreakerRuns.StaysOpen | internal/middleware/circuitbreaker/circuitbreaker.go:118-124 | after opening, the breaker stays open with the same opening time until an event at or after the timeout |
| BreakerRuns.Quarantine | internal/middleware/circuitbreaker/circuitbreaker.go:117-125 | no interleaving of late completions and arrivals admits a call between opening and the end of the timeout |
| BreakerRuns.OnlyACompletionFreesTheProbe | internal/middleware/circuitbreaker/circuitbreaker.go:127-136 | while the flag is set, any number of arrivals changes nothing |
| Retry.BackoffBounds | internal/middleware/retry/retry.go:186-190 | one backoff is the delay times the jitter: between any bounds of the jitter, 0.5 and 1.5 in the program, times the delay |
| Retry.GeometricClosedForm | internal/middleware/retry/retry.go:186-190 | (M - 1) times the sum of the delays is InitialDelay * (M^k - 1) |
| Retry.GeometricAtOne | internal/middleware/retry/retry.go:186-190 | with a multiplier of one every delay is the initial one |
| Retry.DelayGrows | internal/middleware/retry/retry.go:186-190 | the first delay is the initial one and each further one is the multiplier times the one before |
| Retry.SleptBounds | internal/middleware/retry/retry.go:115-124 | over k retries the total sleep is between those bounds times that sum, an omitted multiplier included |
| Retry.RetryHandler.constructor | internal/middleware/retry/retry.go:47-64 | nothing sent, nothing slept, and the set of retryable codes is that of the configured list |
| Retry.RetryHandler.Wait | internal/middleware/retry/retry.go:116-132 | a client that is gone before the sleep costs no sleep, and one gone after it ends the loop too |
| Retry.RetryHandler.Try | internal/middleware/retry/retry.go:134-176 | one attempt, with sections of other requests before it and during its call: the breaker's new state, whether the upstream was called and with which body, and whether the reply is acceptable |
| Retry.RetryHandler.TakeTurn | internal/middleware/retry/retry.go:115-176 | the body of the loop: the new breaker, what was sent and slept, and the outcome if the loop ends here |
| Retry.RetryHandler.Attempts | internal/middleware/retry/retry.go:112-184 | the loop: the outcome, the breaker, what was sent and what was slept are those of the loop on values |
| Retry.LoopSends | internal/middleware/retry/retry.go:134-139 | the loop ends as Serve says, and each of its calls sends the same body |
| Retry.LoopSleeps | internal/middleware/retry/retry.go:116-124 | the time slept is the sum of the backoffs before the retries made |
| Retry.SleepsMade | internal/middleware/retry/retry.go:115-132 | how many sleeps: one before each retry made, and one more when the breaker refuses the next attempt or the client leaves during the sleep |
| Retry.RetryHandler.ServeHTTP | internal/middleware/retry/retry.go:95-184 | an unreadable body is answered 502 and one over 10 MB 413, without a call; otherwise the same body is sent on each call and the outcome, the breaker and the sleep are those of Serve; a client that is gone is answered 499 |
| Retry.ForwardsFirstAcceptable | internal/middleware/retry/retry.go:157-176 | whatever the client does, and whatever other requests make of the shared breaker before and during each attempt, what is forwarded is the first acceptable reply, and an exhausted loop made every attempt |
| Retry.PlainOutcome | internal/middleware/retry/retry.go:112-184 | without a breaker, for any replies and any client: the calls go on exactly until a reply is not retryable, the attempts are used up or the client is gone, whichever comes first, and that decides the answer, which is never a refusal |
| Retry.PlainForwards | internal/middleware/retry/retry.go:153-176 | without a breaker, with a client that waits: the first reply whose code is not retryable is forwarded, after one call more than it has predecessors |
| Retry.PlainExhausts | internal/middleware/retry/retry.go:178-184 | and if every reply is retryable all attempts are made and the answer is 502 |
| Retry.OthersAreARun | internal/middleware/retry/retry.go:143-155 | what other requests make of the breaker is what any stretch of an interleaving of its sections does |
| Retry.RefusedInARun | internal/middleware/retry/retry.go:157-160 | an attempt is refused exactly when its arrival in the interleaving is not admitted |
| Retry.TriedInARun | internal/middleware/retry/retry.go:143-176 | an attempt that is admitted leaves the breaker that its two events in the interleaving leave, so that what is proved of all interleavings holds with retrying requests among them |
| Retry.OneCall | internal/middleware/retry/retry.go:143-176 | one attempt at a breaker that no other request reaches, in any state: refused exactly when it is open and the attempt comes within its timeout, or another probe is out; otherwise its reply moves the breaker's streak, period or opening time on |
| Retry.ExactOutcome | internal/middleware/retry/retry.go:112-184 | over a breaker that no other request reaches, in any state, for any replies, times and client: the calls go on exactly until a reply is acceptable, the attempts are used up, the client is gone or the breaker refuses, whichever comes first, and that decides the answer |
| Retry.FailingUpstream | internal/middleware/retry/retry.go:112-184 | over an upstream that always fails, from any state of the breaker and with any pauses: the calls go on up to MaxRetries + 1 and stop exactly at the first attempt that finds the breaker open (or another probe out) and comes less than the timeout after the call before; 503 if and only if there is one, else 502 |
| Retry.QuickRetries | internal/middleware/retry/retry.go:143-165 | when every retry comes within the timeout, exactly min(MaxRetries + 1, budget) calls, the budget being failureThreshold - f for a closed breaker with f failures in a row and one for a probe |
| Retry.AllAttemptsMadeIff | internal/middleware/retry/retry.go:112-190 | from a breaker that lets the first attempt through, all attempts are made on every run that keeps to the backoffs, if and only if each backoff after the opening lasts through the timeout at half its length |
| Retry.RetriesAttemptedIff | internal/middleware/retry/retry.go:112-190 | from every closed breaker all attempts are always made if and only if there are no retries, no timeout, or a first and a last delay of at least twice the timeout |
| Retry.ServeThroughBreaker | internal/middleware/retry/retry.go:77-93 | without retries any reply is forwarded and only decides what the breaker records, whatever sections other requests have during the call; a refusal is 503 |
| YamlMerge.CopyContent | internal/config/resolve.go:72-77 | fresh nodes with the same data |
| YamlMerge.PutEntry | internal/config/resolve.go:86-97 | one override entry replaces a value in place or is appended, as a copy |
| YamlMerge.PutEntries | internal/config/resolve.go:85-98 | the loop leaves the merged content on the given copies and fresh nodes only |
| YamlMerge.MergeYamlNodes | internal/config/resolve.go:53-101 | the kinds' error cases; the merged content on freshly copied nodes, with no existing node changed |
| YamlMerge.IndexKeys | internal/config/resolve.go:79-83 | the index finds each key at its last position |
| YamlMerge.KeyIsLast | internal/config/resolve.go:78-82 | a key is found where it stands last, and wherever it stands at all |
| YamlMerge.AppliedIsMerge | internal/config/resolve.go:85-98 | on distinct keys the indexed loop over the flat content is the override of lists of pairs, after any number of entries |
| YamlMerge.MergeContentIsMerge | internal/config/resolve.go:65-100 | so the whole merge of the flat content is that override |
| YamlMerge.MergeLookup | internal/config/resolve.go:43-52 | looking up a key finds the override's value if it has one, otherwise the base's |
| YamlMerge.MergeKeys | internal/config/resolve.go:52 | the base's keys keep their order, new ones follow in the override's order, no key appears twice |
| YamlMerge.MergeAssociative | internal/config/resolve.go:53-101 | overriding twice is overriding once with the merged overrides, as sequences |
| Resolve.ResolveOne | internal/config/resolve.go:14-38 | a resolved middleware has the reference's name, the definition's type and a configuration of that type |
| Resolve.DecodesIff | internal/config/resolve.go:105-154 | what is decoded, by type: the decoder's result, the zero configuration for an absent node, and sliding_window for a limiter that names no algorithm |
| Resolve.ResolvesExactly | internal/config/resolve.go:14-97 | without an override the definition's node is decoded, without a definition's node the override; of two mappings one in which every name looks up to the override's value if it has one and otherwise to the definition's, with the definition's keys in place; exactly the other nodes fail to merge, and exactly an undecodable node fails to decode |
| Resolve.ResolveAll | internal/config/resolve.go:12-41 | success means that every reference resolved, in order |
| Resolve.ResolveAllExactly | internal/config/resolve.go:12-41 | the list resolves if and only if every reference does, and otherwise with the error of the first that does not |
| Resolve.ResolveRef | internal/config/resolve.go:14-38 | one reference on heap nodes: merged, decoded, or the error that ResolveOne gives, with the definition left as it was |
| Resolve.FirstError | internal/config/resolve.go:14-41 | the first error is the result, whatever follows |
| Resolve.ResolveMiddlewares | internal/config/resolve.go:12-41 | the loop on heap nodes computes ResolveAll, first error included, and leaves every definition as it was |
| Router.HostMatchingIsLabelMatching | internal/router/router.go:100-177 | for every nonempty pattern and every request host, matching is matching of lowered labels once what follows the last colon is cut off, a wildcard standing for one nonempty label |
| Router.AnyHostMatches | internal/router/router.go:100-106 | a route without a host takes every host |
| Router.ExactHostIff | internal/router/router.go:155-177 | an exact pattern takes exactly the hosts equal to it up to case, ports cut off |
| Router.WildcardHostIff | internal/router/router.go:155-177 | a wildcard takes exactly the hosts that are one nonempty label without a dot before its suffix, up to case |
| Router.StripPort | internal/router/router.go:156-159 | what precedes the last colon, or the whole host if there is none |
| Router.PortIsStripped | internal/router/router.go:156-159 | exactly the port goes |
| Router.PortIsIgnored | internal/router/router.go:155-177 | a port changes no match, whatever the host before it |
| Router.OwnHostMatchesIff | internal/router/router.go:155-165 | a request for exactly the configured host, without a port, matches if and only if that host has no colon |
| Router.ColonHostPasses | internal/config/config.go:506-512 | validation accepts hosts with a colon, which then do not match themselves |
| Router.ValidHostIff | internal/config/config.go:483-513 | validation accepts, character by character, exactly the hosts without an empty label, or one star and a dot before such a host with a dot in it |
| Router.BracketedHostIsCut | internal/router/router.go:156-159 | the accepted pattern [::1] and the request host [::1] do not match |
| Router.ValidWildcardTakesSubdomains | internal/config/config.go:483-513 | a wildcard that passes validation takes only hosts of at least three nonempty labels, never its own suffix, for every request host with its port cut off |
| Router.JoinSplit | internal/config/config.go:499-503 | splitting on dots gives dot-free labels that join to the original |
| Router.CompileHeaders | internal/router/router.go:110-124 | exactly one rule for every configured header and no other, in any map order |
| Router.Router.constructor | internal/router/router.go:84-140 | every route is compiled in place, its header rules in any map order |
| Router.Router.HeadersMatch | internal/router/router.go:188-203 | true exactly when every rule matches |
| Router.Router.ServeHTTP | internal/router/router.go:145-240 | dispatches to the least-index route whose conditions all hold, or to none: path, host (any if none is configured, otherwise label matching), method and headers, each written out |
| Router.RulesAreConditions | internal/router/router.go:187-207 | the compiled header rules all match exactly when the configured conditions on headers hold |
| Settings.LimitErrors | internal/config/config.go:528-552 | exactly the faults of a limiter: its count, window, algorithm, backend and key source |
| Settings.ProviderErrors | internal/config/config.go:560-583 | exactly the faults of a provider list: empty, with an empty, repeated or unknown name, or with none beside others |
| Settings.SettingErrors | internal/config/config.go:520-594 | exactly the faults of one middleware by its type, and none exactly when it is faultless |
| Settings.FaultlessIff | internal/config/config.go:520-594 | a middleware has no fault exactly when, field by field, its settings are sound |
| Pipeline.ValidateResolved | internal/config/config.go:515-597 | exactly the faults of the listed middlewares, each with its middleware's name |
| Pipeline.CorsErrors | internal/config/config.go:447-459 | no error exactly when CORS is absent or first and unique; otherwise exactly the misplaced first one and the count of several |
| Pipeline.ClaimErrors | internal/config/config.go:461-474 | exactly one kind of error, for exactly the limiters keyed by a claim that no auth entry precedes |
| Pipeline.EffectiveChain | internal/config/config.go:432-445 | the validator's chain: the globals not skipped, then the route's own |
| Pipeline.ChainEntries | internal/config/config.go:432-445 | the effective chain entry by entry: every global that is not skipped behind exactly those before it, then the route's own in order, and nothing else |
| Pipeline.KeptCounts | internal/pipeline/builder.go:161-178 | every global that is not skipped is kept as often as it is listed, every other not at all |
| Pipeline.FilterSkipped | internal/pipeline/builder.go:161-178 | the builder's filter computes the same kept globals |
| Pipeline.SkipErrors | internal/config/config.go:386-420 | errors for exactly the skipped names that are no global reference |
| Pipeline.HeaderErrors | internal/config/config.go:405-413 | errors for exactly the header patterns other than `*` that do not compile, in any map order |
| Pipeline.RouteErrors | internal/config/config.go:392-475 | no error exactly when the route's patterns, skips, references, middleware settings and chain are valid, and exactly the errors owed; a route that does not resolve has no errors of settings or chain, and unresolved globals are left out of its chain |
| Pipeline.DuplicateErrors | internal/config/config.go:341-348 | errors for exactly the names that repeat |
| Pipeline.AllRouteErrors | internal/config/config.go:392-475 | exactly the errors of the routes |
| Pipeline.SemanticErrors | internal/config/config.go:338-478 | no error exactly when names are distinct, references resolve, the global settings and every route are valid, and exactly the errors owed |
| Pipeline.BuildRoute | internal/pipeline/builder.go:80-119 | succeeds exactly when every entry can be built, with transforms innermost and the rest around them; otherwise the error names an entry that cannot be built |
| Pipeline.BuildOne | internal/pipeline/builder.go:57-121 | one route: succeeds exactly when its references resolve and its chain can be built, with the handler of its effective chain |
| Pipeline.BuildRoutes | internal/pipeline/builder.go:56-122 | the loop succeeds exactly when every route does, and fills the table |
| Pipeline.BuildHandler | internal/pipeline/builder.go:26-136 | succeeds exactly when all references resolve, all entries can be built and all patterns compile; the table then holds, for each name, the handler of the last route with it |
| Pipeline.ChainTrace | internal/pipeline/builder.go:104-119 | wrapping from the last to the first makes the first outermost, and the way out mirrors the way in |
| Pipeline.TransformsTrace | internal/pipeline/builder.go:93-102 | the same for transforms, each a request and a response layer |
| Pipeline.RouteTrace | internal/pipeline/builder.go:93-119 | what a request passes through: the non-transforms, the transforms, the upstream behind its retries and breaker, and the same in reverse on the way out |
| Pipeline.TraceAt | internal/pipeline/builder.go:80-119 | on the chain itself: every entry has its event, on the way in and mirrored on the way out, behind exactly the entries of its part that come before it in the chain, transforms behind all others; the length leaves room for nothing else |
| Pipeline.PlacesInOrder | internal/pipeline/builder.go:80-119 | of two transforms, or of two others, the one listed first comes first, and every other comes before every transform |
| Pipeline.EventCounts | internal/pipeline/builder.go:80-119 | on both ways every middleware is met as often as the chain lists it |
| Pipeline.CoreAt | internal/pipeline/builder.go:141-159 | innermost is the upstream, behind retries exactly if the route configures them and behind a breaker exactly if it configures one |
| Pipeline.CorsStaysFirst | internal/pipeline/builder.go:83-91 | taking the transforms out of a chain keeps CORS first |
| Pipeline.ClaimsStayGuarded | internal/pipeline/builder.go:83-91 | taking the transforms out of a chain keeps every claim limiter behind an auth entry |
| Pipeline.ValidConfigBuilds | internal/pipeline/builder.go:49-124 | a configuration without semantic errors is built without an error |
| Pipeline.FaultlessIsServiceable | internal/config/config.go:520-583 | a limiter without faults has the positive count and window that the limiters' results ask for, and the leaky bucket has Redis; an auth entry has providers that all exist |
| Pipeline.ValidConfigServes | internal/config/config.go:381-445 | in a valid configuration every entry of every effective chain, global or of the route, is such |
| Pipeline.CheckedChainShapes | internal/config/config.go:447-474 | in the trace of a checked chain CORS is entered first and once, and every claim limiter after an auth layer |
| Pipeline.ValidConfigShapes | internal/pipeline/builder.go:55-122 | in the table built from a valid configuration every route finds its own handler, of that shape |
| ConfigDiff.StringSliceEqual | internal/config/config.go:858-868 | decides equality of the slices |
| ConfigDiff.StringMapEqual | internal/config/config.go:846-856 | visiting one map's keys in any order and comparing sizes decides equality of the maps |
| ConfigDiff.RetryEqual | internal/config/config.go:870-889 | decides equality, absent blocks included |
| ConfigDiff.CbEqual | internal/config/config.go:891-899 | decides equality, absent blocks included |
| ConfigDiff.MiddlewareRefsEqual | internal/config/config.go:831-844 | decides equality of the references position by position, nodes compared by their text |
| ConfigDiff.RouteChanged | internal/config/config.go:799-829 | decides whether the routes differ in anything but their names |
| ConfigDiff.DiffMiddlewareDefinitions | internal/config/config.go:903-926 | reports each added, modified and removed definition exactly once, and nothing else, in any map order |
| ConfigDiff.IndexRoutes | internal/config/config.go:749-753 | the routes by name, the last of a name winning |
| ConfigDiff.IndexedFinds | internal/config/config.go:749-753 | a route is found by its name unless a later one has the name too |
| ConfigDiff.AddedOrModified | internal/config/config.go:755-769 | exactly the additions and modifications, and the new routes by name |
| ConfigDiff.Removed | internal/config/config.go:771-776 | exactly the removals |
| ConfigDiff.DiffRoutes | internal/config/config.go:749-776 | reports exactly the added, modified and removed routes, each once when names are distinct |
| ConfigDiff.DiffOrder | internal/config/config.go:778-786 | one line exactly when no route changed, the lengths agree and some names differ by position |
| ConfigDiff.DiffSummary | internal/config/config.go:746-797 | the changes are exactly those owed; with distinct names none is reported twice, and none at all exactly when the configurations are the same |
| ConfigDiff.UnmarshalledIsReported | internal/config/config.go:940-947 | a node that fails to marshal is reported as changed, even against itself |
| ConfigDiff.QuietIsSame | internal/config/config.go:746-797 | with distinct names nothing is owed exactly when the route lists agree position by position and the definitions and global references agree |
| ConfigDiff.SameIsEqual | internal/config/config.go:799-844 | no setting is left out: if marshalling is total and injective, sameness is equality of the configurations |
| ConfigDiff.RepeatedNamesHideAChange | internal/config/config.go:749-769 | with a repeated name a changed route goes unreported |
| ConfigDiff.EmptySummaryIsTrustedIff | internal/config/config.go:746-797 | empty summaries of all valid successors can be trusted if and only if the old configuration's route names are distinct |
| BodyTransform.RenamesAtOnce | internal/middleware/transform/transform.go:137-142 | independent renames, made in any order, leave what renaming all at once leaves |
| BodyTransform.RenamedIsUnique | internal/middleware/transform/transform.go:137-142 | renaming all at once has one result |
| BodyTransform.OrderIsIrrelevantIff | internal/middleware/transform/transform.go:137-142 | all orders of the rename loop give the same object on all objects if and only if no two keys share a new name and no new name is another key to rename |
| BodyTransform.RenamesOnTrack | internal/middleware/transform/transform.go:134-149 | in a settled configuration, after any of the renames in any order, every key that is not injected is as if those renames had been made at once |
| BodyTransform.SettledIsRewrittenAlike | internal/middleware/transform/transform.go:134-149 | no order of the renames shows in a settled rewriting |
| BodyTransform.UnsettledShows | internal/middleware/transform/transform.go:134-149 | for every other configuration, an object and two orders with different bodies |
| BodyTransform.BodyIsSettledIff | internal/middleware/transform/transform.go:134-149 | all orders give the same body on all objects if and only if all keys downstream of a live key's new name that is itself to be renamed, and all new names that live keys share, are injected |
| BodyTransform.RewrittenField | internal/middleware/transform/transform.go:134-149 | field by field what the rewritten object holds in a settled configuration: injected, renamed, or kept when neither stripped nor renamed |
| BodyTransform.Strip | internal/middleware/transform/transform.go:134-136 | exactly the listed fields go |
| BodyTransform.Rename | internal/middleware/transform/transform.go:137-142 | the loop makes all renames in some order; independent ones come out as if made at once |
| BodyTransform.Inject | internal/middleware/transform/transform.go:143-149 | the result does not depend on the order of the loop |
| BodyTransform.TransformBody | internal/middleware/transform/transform.go:121-152 | the cases that pass through without a rewriting, and the rewritten object, the same for every map order when the configuration is settled |
| BodyTransform.UnchangedIff | internal/middleware/transform/transform.go:121-152 | a body that is no object is returned unchanged except when it is JSON null and either not spelled plainly or to be injected into |
| BodyTransform.AllUnchangedIff | internal/middleware/transform/transform.go:121-152 | with a decoder that takes some other spelling of null, all bodies that are no objects are returned unchanged if and only if no transform is configured |
| BodyTransform.NullFailsIff | internal/middleware/transform/transform.go:143-149 | the plain null panics exactly when there are fields to inject |

## Left out

- Redis client, network, query timeout, fail-open on errors: each script is one atomic step on the store, and gateway and Redis share one nondecreasing clock.
- Rounding: Go's `float64`, Lua's `tostring` and the truncation of a backoff to a `time.Duration` are exact arithmetic on reals here.
- Integer widths: `int`, `int64` and the `uint64` member counter are unbounded.
- Limits and windows that change on a live key across a reload, or differ between limiters whose route and middleware names join to the same key; windows shorter than a millisecond with Redis; limits and windows below 1.
- The gap between the idle check and the delete in `evictStale`, and the concurrency of calls on one bucket: `Allow` and `evictStale` are atomic.
- A panic inside the function that the breaker runs: it would skip the second section and leave the flag set.
- When callbacks are delivered: they fire outside the lock, so the model says only which are owed.
- CircuitBreaker.CircuitBreaker.Admit: the clock is read once per section and passed in.
- Retry.RetryHandler.Attempts: replies, client cancellation, clock, jitter and the sections of other requests on the breaker are given as a list with one entry per attempt; response headers and the wording of error bodies are not modelled.
- Regular expressions, YAML decoding and marshalling, JSON decoding and encoding, JSON Schema: parameters.
- Resolve.ResolveMiddlewares: the typed configurations carry only the fields that validation or construction looks at, and the decoders see a node with the nodes right below it.
- YamlMerge.MergeYamlNodes: anchors, comments and positions of YAML nodes; nodes below the copied level stay shared, as in the program.
- Pipeline.SemanticErrors: checks for unresolved environment variables in secrets are simple branches and are not modelled; nor are the wording, the order and the number of copies of errors.
- Pipeline.BuildHandler: recovery, request-ID, logging and metrics layers around the router, and the shared transport.
- Pipeline.RouteTrace: only requests that no layer turns away.
- Router.Router.ServeHTTP: path parameters, the route holder and the 404 body; letters are lowered in ASCII only.
- ConfigDiff.DiffSummary: the wording of the lines; a nil and an empty list or map are one value; `NonReloadableChanges` would add easy members.
- BodyTransform.TransformBody: the substitution of request variables is a fixed function for the length of one call, so two injected timestamps read the same clock; body size limits and content types around it.
- Header transforms, variable substitution and path rewriting in the proxy: sequential string replacement by library calls.
- Authentication (JWT, OIDC, API keys), CORS headers, client-IP extraction, logging, metrics, health checks, the reload loop: library wrappers or single-branch code.
