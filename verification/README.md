# Verified model of go-mini-gateway

A Dafny model of the parts of the gateway that carry state: how an upstream becomes available or not
(active health, passive health, circuit breaker), how the round-robin selector chooses among upstreams,
the rate and concurrency limiters, configuration reload, the metrics registry with its Prometheus text,
and the expansion of environment placeholders in the configuration.

`dafny verify dfyconfig.toml` checks everything.

## How to read it

Each class has the fields of the Go struct it stands for. A method that holds a mutex for its whole body
is one atomic step, and its contract equates the new state with a function of the old one. The lemmas are
about those functions, over every run: events are appended at the end of a log, and `Run` is the state after
the log. Concurrency is an interleaving of such steps.

| file | content |
|---|---|
| `CircuitBreaker.dfy` | the breaker; its state as a function of its event log (`BreakerHistory`) |
| `LoadShedding.dfy`, `WorstShedding.dfy` | how many requests a tripped breaker admits, and the runs that attain the bound |
| `PassiveHealth.dfy` | passive health against a definition by windows of the report log |
| `ActiveHealth.dfy` | the two atomic flags, one writer and many readers, load by load and store by store |
| `Upstreams.dfy` | the three filters together, and recovery |
| `RequestInterleavings.dfy` | all interleavings of requests through one upstream, late reports included |
| `RequestLogs.dfy`, `RequestShedding.dfy` | which calls requests can make on a breaker, and the load-shedding bound over all runs of requests |
| `LateReports.dfy` | the exact count of half-open slots, and runs in which a late report matters |
| `Ring.dfy`, `Selector.dfy` | cyclic probing, round-robin shares, the selector, route health |
| `SelectionInterleavings.dfy` | selections whose probes interleave with each other and with reports |
| `TokenBucket.dfy` | the token bucket against its all-windows formula, and its rate |
| `ConcurrencyLimiter.dfy` | the semaphore; nested limiters across runtime generations (`Generations`) |
| `Reload.dfy` | overlapping reloads: validation, build, swap and closing as separate steps |
| `MetricsRegistry.dfy` | running aggregates against the log of all requests |
| `LabelText.dfy`, `PrometheusHistogram.dfy`, `SampleLines.dfy` | label escaping, printed histograms and their lines, each with a reader (numerals in `Decimals.dfy`) |
| `EnvExpansion.dfy` | the placeholder scanner as one half of a parse/print pair |

Times are integer nanoseconds since Go's zero time. `m` is `halfOpenMaxRequests`, `D` is `openDuration`.

## Where the code falls short of a simple statement

* The selector's counter is a `uint64` that wraps. A selection probes every upstream exactly when the probes
  do not wrap or the number of upstreams divides 2^64 (`ProbesEveryUpstreamIff`, `FindsAvailableIff`); with
  three upstreams and the counter at its last value the third is never probed (`WrapSkipsAnUpstream`).
* The token period is a truncating quotient. The nominal rate is kept by every run exactly when the rate
  divides 10^9 (`NominalRateIff`); otherwise it can be exceeded, within the bound of `RateBound`.
* The clock is read before the lock is taken, and a failure reported to an open breaker moves its deadline, also
  backwards. If a reading can wait for the lock up to `lag`, a tripped breaker admits at most 2m-1 requests for
  each full `D - lag`, and runs of requests attain this whatever health filters are configured; the bound by full D
  holds exactly when `lag` is 0, and no bound by time holds once `lag` reaches D (`LoadSheddingBound`,
  `SentBoundIsAttained`, `SentBoundHoldsIff`, `NominalBoundHoldsIff`). The bound of 2m-1 per episode needs no clock
  (`EpisodeBound`).
* Reports carry no episode tag. A late report can free a slot or count as a success of a later half-open
  episode. The slots taken are exactly the outstanding requests of the episode if and only if no late report has
  arrived since the episode began or since it last had nothing outstanding (`SlotsAreOutstandingIff`); both cases
  occur (`LateReportFreesASlot`).
* A reload validates under one lock and swaps under a later one, so an attempt can replace a configuration that it
  was not validated against. The restart-only settings survive this (`ReloadsKeepServerWhole`).

## Model

| member | source | states |
|---|---|---|
| CircuitBreaker.CircuitBreakerState.Allow | internal/proxy/circuit_breaker.go:58-97 | the answer and the whole new state of an admission, the step from open to half-open included |
| CircuitBreaker.CircuitBreakerState.RecordSuccess | internal/proxy/circuit_breaker.go:99-122 | the whole new state after a reported success, in each of the three states |
| CircuitBreaker.CircuitBreakerState.RecordFailure | internal/proxy/circuit_breaker.go:124-151 | the whole new state after a reported failure, in each of the three states |
| CircuitBreaker.CircuitBreakerState.TakeSnapshot | internal/proxy/circuit_breaker.go:190-200 | the published availability is the answer an admission would get at that moment |
| CircuitBreaker.NewCircuitBreakerState | internal/proxy/circuit_breaker.go:33-56 | nil exactly when disabled, otherwise closed with defaulted positive limits |
| CircuitBreaker.RunKeepsInv | internal/proxy/circuit_breaker.go:58-188 | after any admissions and reports in any order: failures below the threshold while closed, exactly the threshold and a deadline D after the last failure otherwise, half-open counters within m and zero outside half-open |
| CircuitBreaker.RefusalLeavesBreakerUnchanged | internal/proxy/circuit_breaker.go:66-91 | a refused admission changes nothing |
| BreakerHistory.StateFollowsHistory | internal/proxy/circuit_breaker.go:99-188 | state, failure count, success count and last failure time are functions of the event log that use no counter and no deadline |
| BreakerHistory.LeavesExactlyWhen | internal/proxy/circuit_breaker.go:58-151 | closed opens exactly on a failure that completes a run of failureThreshold failures since closing; half-open closes exactly on its m-th success and opens exactly on a failure; open turns half-open exactly on an admission D after the last failure |
| BreakerHistory.GrantedExactlyWhen | internal/proxy/circuit_breaker.go:58-97 | an admission is granted always while closed, exactly from D after the last failure on while open, and exactly while slots are free when half-open |
| BreakerHistory.NewBreakerTrips | internal/proxy/circuit_breaker.go:33-56 | a new breaker after failures in a row is closed exactly below the configured threshold (5 by default) and then admits exactly from the configured time (ten seconds by default) after the last failure on |
| BreakerHistory.TimesFollowHistory | internal/proxy/circuit_breaker.go:99-188 | the last success time is that of the log, and a closed breaker has no deadline |
| LoadShedding.EpisodeBound | internal/proxy/circuit_breaker.go:58-172 | whatever the clock readings, a tripped breaker admits at most 2m-1 requests for each time it turns half-open |
| LoadShedding.LoadSheddingBound | internal/proxy/circuit_breaker.go:58-172 | a breaker that opens at t0 and does not close by t0+T admits at most (2m-1) * floor(T/(D-lag)) requests, for every interleaving in which no clock reading is more than lag behind an earlier one |
| WorstShedding.BoundIsAttained | internal/proxy/circuit_breaker.go:58-172 | for every configuration, every lag up to D and every k a run over k times D-lag admits k * (2m-1); at lag D all within one moment |
| WorstShedding.BoundHoldsIff | internal/proxy/circuit_breaker.go:58-172 | 2m-1 admissions per full gap bound every run exactly for the gaps up to D-lag |
| WorstShedding.NominalBoundIff | internal/proxy/circuit_breaker.go:124-151 | from every open state the bound by full D holds over all runs exactly when no reading is late |
| RequestLogs.RequestsMakeExactlyCoveredCalls | internal/proxy/upstream.go:124-167 | whatever the health filters, the call logs that requests can make on a breaker are exactly those in which every report has an earlier granted admission to itself |
| RequestShedding.SentBoundIsAttained | internal/proxy/upstream.go:124-167 | for every upstream with a breaker, every lag up to D and every k, requests from the first one on that open the breaker at t0 and then send k * (2m-1) requests within k times D-lag |
| RequestShedding.SentBoundHoldsIff | internal/proxy/upstream.go:124-167 | over all runs of requests through an upstream with a breaker, 2m-1 requests sent per full gap is a bound exactly for the gaps up to D-lag |
| RequestShedding.NominalBoundHoldsIff | internal/proxy/upstream.go:124-167 | over all those runs the bound by full D holds exactly when no reading is late |
| PassiveHealth.PassiveHealthState.RecordSuccess | internal/proxy/passive_health.go:64-88 | the whole new state after a reported success |
| PassiveHealth.PassiveHealthState.RecordFailure | internal/proxy/passive_health.go:90-118 | the whole new state after a reported failure |
| PassiveHealth.PassiveHealthState.TakeSnapshot | internal/proxy/passive_health.go:120-127 | the published availability is the one the selector acts on |
| PassiveHealth.CountersAreTrailingRuns | internal/proxy/passive_health.go:64-118 | the two counters are the lengths of the runs that end the report log |
| PassiveHealth.UnhealthyIffUnrecovered | internal/proxy/passive_health.go:64-118 | unhealthy exactly when some window of failureThreshold failures has no window of successThreshold successes after it |
| PassiveHealth.RetryDeadline | internal/proxy/passive_health.go:103-106 | while unhealthy, retryAfter is unhealthyDuration after the end of the latest failure window |
| PassiveHealth.AvailableIff | internal/proxy/passive_health.go:50-62 | from the report log alone: a request is let through exactly when no failure window is unrecovered or unhealthyDuration has passed since the end of the latest one |
| PassiveHealth.NewTrackerEjects | internal/proxy/passive_health.go:27-48 | a new tracker after failures in a row turns a request away exactly from the configured threshold on (3 by default) and before the configured time (ten seconds by default) has passed |
| PassiveHealth.TimesAreLatest | internal/proxy/passive_health.go:64-118 | the last failure and success times are those of the log |
| PassiveHealth.SuccessesNeededToRecover | internal/proxy/passive_health.go:75-87 | from any state exactly the missing number of successes brings health back |
| ActiveHealth.AvailableIsAtomic | internal/health/checker.go:116-124 | under every interleaving of loads and stores a call of Available returns what both flags say together at its last load |
| ActiveHealth.FalseOnlyOnUnhealthyReport | internal/health/checker.go:195-205 | a call returns false only if the latest report stored when it took effect was unhealthy, never because of the initial false |
| ActiveHealth.FlagsHoldLatestReport | internal/health/checker.go:195-205 | once a report is being published, healthy holds the latest report |
| Upstreams.Upstream.TryAcquire | internal/proxy/upstream.go:124-141 | granted exactly when all three filters agree, and only then does the breaker give a slot |
| Upstreams.Upstream.ReportResponse | internal/proxy/handler.go:81-89 | a response is a failure exactly from status 500 on, reported to passive health and breaker |
| Upstreams.RejectionLeavesUpstreamUnchanged | internal/proxy/upstream.go:124-141 | a rejected candidate keeps its whole state |
| Upstreams.RoundsRecover | internal/proxy/upstream.go:124-154 | from an idle state past both deadlines every probing round is admitted, and the upstream is back exactly when the rounds reach the larger remaining need |
| RequestInterleavings.ReachableSlots | internal/proxy/circuit_breaker.go:86-145 | in every interleaving the in-flight count is at most the outstanding requests of the episode and falls short of them by at most the late reports |
| RequestInterleavings.SlotsNeverLeak | internal/proxy/circuit_breaker.go:86-145 | in every reachable half-open state the count is at most m and at most the outstanding requests of the episode, and equal to them without late reports |
| RequestInterleavings.NeverStuckHalfOpen | internal/proxy/circuit_breaker.go:86-91 | a half-open breaker refuses only while at least m requests of this episode still have to report |
| LateReports.SlotsAreTheFullestWindow | internal/proxy/circuit_breaker.go:86-145 | for every call log the in-flight count of a half-open breaker is the maximum, over all windows of the stay's calls up to now, of admissions granted less reports |
| LateReports.SlotsAreOutstandingIff | internal/proxy/circuit_breaker.go:86-145 | in every reachable half-open state the count equals the outstanding requests of the episode exactly when no late report arrived since the episode began or last had nothing outstanding |
| LateReports.LateReportFreesASlot | internal/proxy/circuit_breaker.go:111-118 | for every upstream with a breaker, reachable half-open states with one late report: with m at least 2 one in which the count falls short, with m at least 3 one in which it is exact again |
| RequestInterleavings.RecoversFromEveryReachableState | internal/proxy/upstream.go:124-167 | from every reachable state with nothing under way, max(successThreshold, m) successful rounds after the deadlines are all admitted and end healthy and closed |
| RequestInterleavings.RoundIsFourSteps | internal/proxy/handler.go:47-59 | a request that is acquired and reports a success or a failure is four steps with the effect of acquiring and reporting |
| RequestInterleavings.FiltersFollowTheirLogs | internal/proxy/upstream.go:143-167 | inside an upstream passive health is the tracker of all reports it saw, failures included, and active health what was published last |
| RequestInterleavings.LetThroughIff | internal/proxy/upstream.go:129-135 | in every reachable state a request passes the health filters exactly when the published flags do not say unhealthy and the reports leave no unrecovered failure window or its time has passed |
| RequestInterleavings.AcquiresIffBothSteps | internal/proxy/upstream.go:124-141 | an upstream can be acquired exactly when a request passes the filters and then the breaker |
| RequestInterleavings.BreakerFollowsItsLog | internal/proxy/upstream.go:124-167 | inside the upstream the breaker behaves as it does alone on the calls it sees, and requests sent are admissions granted |
| RequestInterleavings.UpstreamShedsLoad | internal/proxy/upstream.go:124-167 | the load-shedding bound with lag for the requests sent to a backend |
| Ring.ProbesEveryUpstreamIff | internal/proxy/upstream.go:97-100 | a selection probes every upstream exactly when its probes do not wrap or the number of upstreams divides 2^64 |
| Ring.SkippedIndex | internal/proxy/upstream.go:97-100 | an upstream that a wrapping selection never probes, in every other case |
| Ring.FindsAvailableIff | internal/proxy/upstream.go:97-107 | a selection comes back empty-handed only when nothing is available, for all availabilities, under exactly that condition |
| Ring.WrapSkipsAnUpstream | internal/proxy/upstream.go:97-100 | three upstreams and the last counter value: the only available upstream is not found |
| Ring.ChosenIffWithinGap | internal/proxy/upstream.go:97-107 | the first available upstream in cyclic order is chosen: an available one no further ahead than its gap |
| Ring.ExactShare | internal/proxy/upstream.go:91-107 | n counters in a row choose an available upstream once plus once per unavailable upstream just before it |
| Ring.ShareOverAnyRun | internal/proxy/upstream.go:91-107 | any k counters give each available upstream its share for each full round, up to one round |
| Ring.EvenShareWhenAllAvailable | internal/proxy/upstream.go:91-107 | with all available each upstream gets floor(k/n) or ceil(k/n) of k selections, as long as the counters themselves do not wrap or n divides 2^64 |
| Selector.Handler.SelectUpstream | internal/proxy/upstream.go:91-107 | returns the first upstream in probe order that can be acquired, nil if none; only it and the counter change |
| Selector.BuildUpstreams | internal/proxy/upstream.go:12-65 | the list, or the single target without one; fails exactly when both are missing or some URL is unusable; otherwise every upstream starts fresh from the route's options with a breaker of its own |
| Selector.PicksFollowTheRing | internal/proxy/upstream.go:91-107 | selections in a row, with reports in between, pick as the ring does while availability stays the same |
| Selector.RoundRobinShare | internal/proxy/upstream.go:91-107 | the exact share, for selections one after the other |
| SelectionInterleavings.SelectionsStayOnTrack | internal/proxy/upstream.go:91-107 | however counter increments, health questions and breaker questions of any number of selections interleave with each other and with reports, each follows the ring from the counter it took, while availability stays the same |
| SelectionInterleavings.InterleavedShare | internal/proxy/upstream.go:91-107 | the exact share for n selections that interleave freely, and never more than it while some are unfinished |
| SelectionInterleavings.InterleavedEvenShare | internal/proxy/upstream.go:91-107 | floor(k/n) or ceil(k/n) for k interleaved selections with all upstreams available |
| SelectionInterleavings.SelectionAlone | internal/proxy/upstream.go:91-107 | a selection that runs alone takes the interleaved steps to the result and the state that SelectUpstream promises |
| Selector.RouteHealth | internal/server/admin.go:59-93 | the reported verdict is unhealthy exactly when the route has checkers and all are checked and unhealthy |
| Selector.UnhealthyRouteSelectsNothing | internal/server/admin.go:85-93 | a route reported unhealthy selects nothing in that state, whatever the other filters say |
| Selector.HealthyRouteIsNotBlocked | internal/server/admin.go:85-93 | a route reported healthy is never blocked by active health alone |
| SelectionInterleavings.ReportedUnhealthyPicksNothing | internal/server/admin.go:59-93 | in every reachable state of a route that is reported unhealthy no selection would succeed |
| SelectionInterleavings.ReportedUnhealthyStopsProbes | internal/server/admin.go:59-93 | in every such state no selection under way gets past the health filters of its candidate |
| TokenBucket.NewTokenBucket | internal/ratelimit/token_bucket.go:26-46 | nil exactly for a non-positive rate or burst, otherwise full |
| TokenBucket.Period | internal/ratelimit/token_bucket.go:38 | the period is the largest whole number of nanoseconds of which `rate` fit into a second |
| TokenBucket.Allow | internal/ratelimit/token_bucket.go:48-58 | nil limits nothing; otherwise granted exactly when a token is left, which it takes |
| TokenBucket.TokensAreTheTightestWindow | internal/ratelimit/token_bucket.go:41-82 | the tokens are the minimum, over all windows up to now, of burst plus ticks minus grants |
| TokenBucket.RefusedIffSomeWindowIsExhausted | internal/ratelimit/token_bucket.go:52-57 | a call is refused exactly when some window has used up its burst and its ticks |
| TokenBucket.WindowGrantsBounded | internal/ratelimit/token_bucket.go:48-82 | every window grants at most the burst plus its ticks |
| TokenBucket.RateBound | internal/ratelimit/token_bucket.go:26-58 | grants G in T nanoseconds satisfy (G - burst) * (10^9 - rate) <= rate * T, with at most one tick per truncated period |
| TokenBucket.NominalRateIff | internal/ratelimit/token_bucket.go:38 | grants stay within burst + rate * T / 10^9 in every run exactly when the rate divides 10^9 |
| ConcurrencyLimiter.TryAcquire | internal/concurrency/limiter.go:27-38 | nil lets everything through; otherwise a slot is taken exactly when one is free |
| ConcurrencyLimiter.Release | internal/concurrency/limiter.go:40-49 | a slot is given back unless none is taken |
| ConcurrencyLimiter.TakeSnapshot | internal/concurrency/limiter.go:72-83 | slots in use and slots available add up to the capacity |
| Generations.SlotsAreConserved | internal/concurrency/middleware.go:13-29 | in every run with any number of reloads each limiter of each generation counts exactly the requests that hold it, within its configured capacity |
| Generations.ReleaseGivesBackASlot | internal/concurrency/middleware.go:28 | the deferred release goes to the limiter that was entered and never meets an empty semaphore |
| Generations.GlobalLimitCoversRoutes | internal/server/runtime.go:37-52 | with a global limit the requests inside all route handlers of one generation never exceed it |
| Generations.GlobalAdmitsIff | internal/concurrency/limiter.go:27-38 | in every run an arrived request gets past the global limiter of its generation exactly when the configured limit is not positive or fewer requests hold it |
| Generations.RouteAdmitsIff | internal/concurrency/limiter.go:27-38 | the same for the limiter of its route |
| Generations.SwapConserves | internal/server/reload.go:61-78 | a swap leaves existing limiters and requests alone, and the new limiters start empty with their configured capacity |
| Generations.DrainedLimitersAreEmpty | internal/concurrency/limiter.go:51-56 | when every request has left, every limiter of every generation is empty |
| Reload.Server.ValidateReloadConfig | internal/server/reload.go:84-137 | accepted exactly when the restart-only settings are the running ones |
| Reload.Server.Swap | internal/server/reload.go:61-76 | installs the whole runtime and its configuration, and hands back what it replaces |
| Reload.Server.Reload | internal/server/reload.go:42-82 | undisturbed, a reload installs configuration and runtime whole and closes the replaced one, or fails and changes nothing; it succeeds exactly under the stated conditions |
| Reload.BuildRuntime | internal/server/runtime.go:22-66 | the runtime of a configuration: a handler per route and a bucket per rate limit, the global one included |
| Reload.ClosableOnce | internal/server/lifecycle.go:92-102 | closing a runtime reaches each of its proxy handlers and token buckets exactly once, and nothing else |
| Reload.BundleMatches | internal/server/runtime.go:22-66 | one route runtime and one proxy handler per route, and a global limiter or bucket exactly when one is configured |
| Reload.ReloadsKeepServerWhole | internal/server/reload.go:42-137 | over every interleaving of overlapping attempts the restart-only settings stay those of the start, and all fields belong to the one runtime of the configuration in force |
| Reload.AcceptedIff | internal/server/reload.go:84-137 | in every reachable state a configuration is accepted exactly when each restart-only setting equals that of the start, an empty listen address standing for :8080 and the admin address mattering only with admin enabled |
| Reload.AttemptInstalls | internal/server/reload.go:42-76 | in every reachable state an accepted configuration that builds is installed by its attempt |
| Reload.ReplacedRuntimesAreClosedOnce | internal/server/reload.go:61-82 | over every interleaving nothing is closed twice, nothing of the serving runtime or of one not yet installed is closed, and with no attempt under way everything of all other runtimes ever built is closed |
| Reload.ServingLimitsAreInForce | internal/server/reload.go:61-78 | in every run of requests through limiters swapped in as reloads install them, a new request meets the limiters of the configuration in force |
| MetricsRegistry.Bucket.RecordBucket | internal/metrics/registry.go:118-134 | the bucket has recorded one more request |
| MetricsRegistry.Registry.Record | internal/metrics/registry.go:86-116 | the record is added to the records passed in, the total and its route's bucket |
| MetricsRegistry.RegistryCountsRecords | internal/metrics/registry.go:86-134 | over the records as they were passed in: the total counts all of them, a bucket exists exactly for the routes they belong to ("unknown" without one), and each holds their number, bytes, latency with negatives as 0, the number with each status with non-positive ones under 200, the number of latencies at most each bound, and the largest latency |
| MetricsRegistry.FoldedIsSummary | internal/metrics/registry.go:118-134 | running aggregates equal the aggregates defined on the whole log: count, sums, maximum, status counts, counts per bound |
| MetricsRegistry.RegistryRefinesLog | internal/metrics/registry.go:86-134 | total and route buckets equal the aggregates of the log and of its part for the route |
| MetricsRegistry.TotalIsSumOfRoutes | internal/metrics/registry.go:107-115 | every sum of a weight over a log is the sum over its routes |
| MetricsRegistry.TotalMaxIsMaxOfRoutes | internal/metrics/registry.go:124-126 | the largest latency of a log is the largest among its routes |
| MetricsRegistry.TotalBucketAddsUp | internal/metrics/registry.go:86-134 | in every valid registry requests, bytes, latency, each count per bound and each status count of the total bucket are the sums over the route buckets |
| MetricsRegistry.TotalBucketMax | internal/metrics/registry.go:86-134 | in every valid registry the total's largest latency is the largest among the route buckets |
| MetricsRegistry.StatusCountsAddUp | internal/metrics/registry.go:119-122 | in every bucket the status counts add up to the requests |
| MetricsRegistry.CountsAreCumulative | internal/metrics/registry.go:128-133 | counts per bound never decrease with the bound and never exceed the requests |
| LabelText.EscapeIsOnePass | internal/metrics/prometheus.go:248-253 | the three replacements one after the other equal a one-pass escape |
| LabelText.ReadAfterEscape | internal/metrics/prometheus.go:248-253 | an escaped value is read back exactly up to its closing quote, so it holds no raw line feed and no bare quote |
| LabelText.EscapeAfterRead | internal/metrics/prometheus.go:248-253 | every text the reader accepts is the escape of what it read |
| LabelText.FormatLabels | internal/metrics/prometheus.go:229-246 | the labels are printed in ascending order of their names, and the empty map as the empty text |
| LabelText.LabelsRoundTrip | internal/metrics/prometheus.go:229-246 | printed labels are read back as exactly the label map, for legal names |
| LabelText.LabelTextIsUnique | internal/metrics/prometheus.go:234-245 | a label map has one text, whatever order the map is walked in |
| Text.LexIsFirstDifference | internal/metrics/prometheus.go:238 | the ascending order is that of prefixes and of the smaller character at the first difference |
| PrometheusHistogram.SnapshotHistogram | internal/metrics/registry.go:203-219 | one entry per bound with its count, and +Inf with all requests |
| PrometheusHistogram.SortedHistogramBucketLabels | internal/metrics/prometheus.go:195-210 | the bounds in increasing order, once each, with +Inf last, whatever order the map is walked in |
| PrometheusHistogram.PrintHistogram | internal/metrics/prometheus.go:138-167 | the lines printed for any record history form a valid histogram of it: the line whose `le` text reads as x seconds counts the latencies at most x, in increasing x, and +Inf equals the count |
| PrometheusHistogram.TextsReadAsBounds | internal/metrics/registry.go:11-24 | each bound's text reads, in seconds, as exactly the bound the latencies are compared with |
| PrometheusHistogram.PrintedLabelsAreReadBack | internal/metrics/prometheus.go:138-167 | a reader of the printed lines gets back each bound in order, +Inf, and the route's labels, for legal names |
| SampleLines.LineRoundTrip | internal/metrics/prometheus.go:138-167 | the printed line of an integer sample is read back as its name, labels and value |
| SampleLines.PrintedHistogramIsReadBack | internal/metrics/prometheus.go:138-167 | a reader of the bucket and count lines of a printed histogram gets each bound in order with the number of latencies at most it, and the number of all requests |
| EnvExpansion.ExpandEnvString | internal/config/env.go:99-129 | the loop computes the value of the parts of its input: literals and evaluated placeholders, or the first error |
| EnvExpansion.PrintAfterScan | internal/config/env.go:102-126 | printing the parts gives back every input |
| EnvExpansion.ScanIsCanonical | internal/config/env.go:102-126 | the parts of any input are in canonical form |
| EnvExpansion.ScanAfterPrint | internal/config/env.go:102-126 | scanning a printed canonical list gives the list back |
| EnvExpansion.ExpandFailsIff | internal/config/env.go:109-121 | expansion fails exactly when a placeholder is unclosed or does not evaluate |
| EnvExpansion.ExpandInert | internal/config/env.go:102-107 | text without a placeholder expands to itself |
| EnvExpansion.ExpandPlaceholder | internal/config/env.go:109-128 | text, a placeholder and a rest expand to the text, the placeholder's value and the expansion of the rest, or to the first error |
| EnvExpansion.ExpandUnclosed | internal/config/env.go:109-112 | text and an unclosed placeholder are an error that shows the rest |
| EnvExpansion.EvaluateWithDefault | internal/config/env.go:131-163 | blanks around the name do not matter, a default may hold colons, an empty variable counts as unset |
| EnvExpansion.EvaluateRequired | internal/config/env.go:144-153 | without a default the variable has to be set and nonempty |
| EnvExpansion.EvaluateNothing | internal/config/env.go:131-135 | an expression of blanks is an error |
| EnvExpansion.EvaluateWithoutName | internal/config/env.go:139-142 | an expression with a blank name is an error, whatever its default |

## Left out

- HTTP transport, the reverse proxy, the request multiplexer, TLS, sockets, server start and shutdown, pprof and JSON: library and I/O code. A request is an outstanding id that reports once; a protocol upgrade that fails after its response could report twice in the program.
- Log lines, reason strings and formatted times and durations: they have no effect on state.
- Machine widths of counters and sums other than the selection counter: failure counts, byte and latency sums do not overflow in the model.
- Selector.Handler.SelectUpstream: the method makes the whole loop one step; selections whose probes interleave are the subject of SelectionInterleavings.
- Selector.BuildUpstreams: URL parsing is a parameter; ids and the start of the checker goroutines are not modelled.
- RequestShedding.SentBoundIsAttained: the readings of different requests are tied to one another only by `lag`, in the order in which they reach the breaker's lock, and not in the order in which requests pass the health filters.
- Reload.BuildRuntime: the nesting of the middleware inside the handlers and the reasons for a failed build; the order in which requests meet the limiters is the subject of Generations.
- TokenBucket.RateBound: the number of ticks delivered in T nanoseconds is a hypothesis (at most one per period), since the ticker is library code; a rate above 10^9, which makes the ticker panic, is a precondition of the constructor.
- TokenBucket Close and the end of the refill goroutine: they only end the ticks, and runs without further ticks are among those covered.
- Floating point in metrics: latencies are compared with bounds in integer nanoseconds and sums are integers; averages, uptime and the rendering of fractions are not modelled.
- PrometheusHistogram.PrintHistogram: the `_sum` line's decimal fraction; the other metric families, which print one line per status or route, are not modelled. Help and type lines are constants.
- MetricsRegistry.Registry.Record: the registry's snapshot, apart from its histograms, only copies fields.
- LabelText.FormatLabels: strings are sequences of code points; input that is not valid UTF-8 is not modelled.
- EnvExpansion.ExpandEnvString: the rewriting of the individual configuration fields is a list of calls of it.
- Generations.SlotsAreConserved: rate limiters in the handler chain can only turn a request away before a concurrency limiter, which is the Abandon step or the absence of a step.
- Reload.Server.Reload: resources started by a build that then fails, which the program does not close, and closing at shutdown; reading the file and whether a build succeeds are inputs.
- Field-by-field defaults and checks of the configuration, path rewriting, the admin token check, the route-id fallback and the demo backends: single-branch code.
