# Verified models of the mail service's stateful core

This project models the parts of the mail service whose correctness depends on state that several
calls, workers or instances share, and proves what they guarantee.

* **API rate limiter** (`TokenBucket`, `LimiterSpec`, `ExpiryQueue`, `Limiter`, `LimiterRuns`,
  `LimiterRefinement`, `LimiterDivergence`, `LimiterRates`, `LimiterPairs`, `LimiterBounds`,
  `LimiterDeadlines`, `LimiterLifetimes`). The limiter is a class over a binary heap
  with back-pointers, as `container/heap` drives it; every method is one critical section and is proved
  against `LimiterSpec`, a relation between bucket tables. Runs of that relation are then compared with a
  table of buckets that are never evicted, bounded over time windows, and timed exactly. Time is integer
  nanoseconds, tokens and rates are reals.
* **Ingress** (`Ingress`, `IngressGate`). A request peeks at the instance bucket, charges its address and
  charges the instance, interleaved with every other request.
* **Settings publication** (`RateConfig`, `Settings`, `SettingsRuns`). A compare-and-set save with an audit
  record, and many services that publish what they read, possibly long after reading it.
* **Email delivery leases** (`DeliveryRow`, `DeliveryProtocol`, `DeliveryInvariant`, `DeliverySafety`,
  `DeliverySchedule`, `DeliveryWorker`). One row, any number of workers with their own clocks; every statement of a worker is a
  separate step, and leases may be stolen and workers may crash between any two of them. `DeliveryWorker` is
  the worker's code as methods over the table, tied back to the steps of the protocol.
* **Names** (`Text`, `Resolver`, `SubdomainBoundary`, `HostForms`). Resolving a recipient's host to a registered domain,
  creating a mailbox below a wildcard domain, and the proof that the two walk the same labels.
* **MIME** (`MimeTree`, `MimeWalk`, `MimeLaws`). The walk over a message that stops at the first exceeded limit, against
  the flattening of the whole tree.
* **DNS verification** (`Propagation`, `ProbePool`, `ProbeLaws`, `ProbeRecords`). The worker pool that probes all
  resolvers, and the verdict and the records it reports, under every schedule.
* **Mailbox accounting** (`Accounting`, `AccountingRuns`, `AccountingRules`). Counters in two tables, updated in the transaction
  that creates a mailbox.

`Common` holds the option type and one fact about sets.

What the proofs found about the code:

* A bucket that is evicted and made again takes the caller's policy, while a kept one looks at the revision
  and keeps the smaller of its balance and the new burst. Every decision of every run is that of an unbounded
  limiter, up to capacity refusals, if for each key a newer revision never brings a larger burst and an older
  or equal one never another rule (`Refines`). A recreated bucket is the kept one exactly when the caller's
  policy may follow the one in force in this sense (`RecreationAgreesIff`). Two valid policies whose calls mix
  freely never make any limiter differ from the unbounded one exactly if they have the same rule, or both are
  disabled, or both allow a single token that comes after the same whole number of nanoseconds
  (`AlwaysAgreeIff`). Of any other two, some run of any limiter has a call that is decided differently.
* The *records* that a DNS check reports, unlike its status and its verification, can depend on how the pool is
  scheduled. With a verifying authoritative server they do not exactly if the pool has one worker or the last
  verifying servers in the report's order agree; where all authoritative servers share one name, as they do
  here, those are all verifying servers (`OneNameTrails`). Without one they do not exactly if the first probes
  with records agree, as many of those that tie as the pool can probe at once (`RecordsAreStableIff`).
* A host that creation accepts under a parent resolves to that parent exactly when the parent takes wildcard
  mail and is not above the host's registrable root; creation itself does not look at the root
  (`ResolvesToParentIff`, `CreatedMailboxResolvesIff`). Below a domain that is above that root, as
  one registered on a public suffix is, mail to every accepted host is lost (`BelowAPublicSuffix`).
* Normalising a domain name twice is the same as once exactly if taking off its outer spaces and one star
  prefix uncovers, past any dots, neither another star nor a space (`NormalizeTwice`).

## Model

| member | source | states |
|---|---|---|
| `TokenBucket.TokensGrow` | internal/ratelimit/ratelimit.go:128-147 | between two instants a balance never falls and rises by at most rate times time |
| `TokenBucket.RefillDelayIsLeast` | internal/ratelimit/ratelimit.go:218-230 | the refill delay is the least number of nanoseconds that earns the missing tokens, unless it saturates |
| `TokenBucket.RefillDelaySaturates` | internal/ratelimit/ratelimit.go:218-230 | no delay exceeds what int64 nanoseconds hold, and one that the rate cannot earn in that time, or that has no rate, is exactly that |
| `TokenBucket.SecondEarnsRate` | internal/ratelimit/ratelimit.go:128-147 | a second, which is a thousand million nanoseconds, earns as many tokens as the rate says |
| `LimiterSpec.Configure` | internal/ratelimit/ratelimit.go:62-81 | positive options are taken as given, and otherwise there are 100,000 buckets, a batch of 1,000 and a lifetime of ten minutes |
| `ExpiryQueue.RootIsLeast` | internal/ratelimit/expiry_queue.go:8-10 | in a heap no element is smaller than the root |
| `ExpiryQueue.Queue.Swap` | internal/ratelimit/expiry_queue.go:12-15 | two slots trade places and the back-pointers of all members still name their slots |
| `ExpiryQueue.Queue.Append` | internal/ratelimit/expiry_queue.go:17-21 | a last slot is added with its back-pointer; only the new slot can be out of order |
| `ExpiryQueue.Queue.DropLast` | internal/ratelimit/expiry_queue.go:23-30 | the last slot goes, its index becomes -1 and the rest is a valid queue |
| `ExpiryQueue.Queue.Up` | internal/ratelimit/expiry_queue.go:6-15 | sifting up turns a heap with one early slot into a heap, keeping the back-pointers |
| `ExpiryQueue.Queue.Down` | internal/ratelimit/expiry_queue.go:6-15 | sifting down within a prefix restores the heap if it moves, and otherwise leaves the order as it was, touching nothing past the prefix |
| `ExpiryQueue.Queue.Push` | internal/ratelimit/ratelimit.go:181-183 | the queue stays a valid heap with exact back-pointers and gains exactly this bucket |
| `ExpiryQueue.Queue.Fix` | internal/ratelimit/ratelimit.go:183-185 | after any change to the deadline at one slot the queue is a valid heap again with the same buckets |
| `ExpiryQueue.Queue.Pop` | internal/ratelimit/ratelimit.go:188-191 | the head leaves, with index -1, and the queue stays valid with exactly the other buckets |
| `ExpiryQueue.Queue.HeadIsLeast` | internal/ratelimit/ratelimit.go:165-166 | the head of a valid queue is a bucket with the earliest deadline of the table |
| `Limiter.Limiter.Check` | internal/ratelimit/ratelimit.go:93-150 | one call, consuming or peeking, moves the bucket table and decides exactly as the relation `CheckStep` says, keeps map and queue in bijection and the size within the capacity |
| `Limiter.Limiter.FindOrCreate` | internal/ratelimit/ratelimit.go:110-122 | a bucket is made only for an enabled, consuming call that found room; nothing else is decided without a bucket |
| `Limiter.Limiter.Charge` | internal/ratelimit/ratelimit.go:123-147 | clamping the clock, adopting a newer policy, deciding and computing the retry delay amount to `Touch` |
| `Limiter.Limiter.ScheduleExpiry` | internal/ratelimit/ratelimit.go:175-186 | the bucket is stored under the deadline that `Schedule` gives, whose meaning `DeadlineIsExact` states, and queued once |
| `Limiter.Limiter.EnsureCapacity` | internal/ratelimit/ratelimit.go:161-173 | below capacity nothing changes; at capacity the head goes if it is full and otherwise the call is refused with the head's refill delay and no change |
| `Limiter.Limiter.RemoveFirst` | internal/ratelimit/ratelimit.go:188-191 | the head leaves the map and the queue together |
| `Limiter.Limiter.EvictExpiredBatch` | internal/ratelimit/ratelimit.go:203-216 | one cleanup tick moves the table as the relation `CleanupStep` says and keeps the limiter valid |
| `LimiterRuns.StepFate` | internal/ratelimit/ratelimit.go:102-216 | in any step every key is untouched, touched by its own call, made by its own call, or removed while full |
| `LimiterRuns.RunIsGood` | internal/ratelimit/ratelimit.go:102-216 | in every reachable state each bucket's parameters are its policy's and its clocks do not lie ahead |
| `LimiterRefinement.FullIsFresh` | internal/ratelimit/ratelimit.go:111-135 | making a bucket anew decides and leaves a bucket exactly as if a full one had been kept, if the caller's policy may follow the one in force |
| `LimiterRefinement.StepRefines` | internal/ratelimit/ratelimit.go:102-216 | every step of the bounded limiter keeps the simulation in which an absent key is a full bucket |
| `LimiterRefinement.FixedRulesNeverGrow` | internal/ratelimit/ratelimit.go:127-135 | one fixed rule per key, at whatever revisions, is a case of bursts that never grow |
| `LimiterRefinement.Refines` | internal/ratelimit/ratelimit.go:102-150 | over every run with a monotone clock in which no key's newer policy raises its burst and no older or equal revision brings another rule, each decision, with its retry delay, is that of a table of never-evicted buckets, except capacity refusals, which happen at capacity and change nothing |
| `LimiterRefinement.RecreationAgreesIff` | internal/ratelimit/ratelimit.go:118-135 | for every full kept bucket and every enabled caller, with a newer, equal or older revision, the recreated bucket is the kept one if and only if the caller's policy may follow the one in force |
| `LimiterDivergence.OtherBurstsDiverge` | internal/ratelimit/ratelimit.go:118-135 | in any limiter, whenever a recreated bucket's burst is not what the kept one would hold, some run has a call that exactly the limiter holding more admits |
| `LimiterDivergence.StaleDisabledDiverges` | internal/ratelimit/ratelimit.go:111-114 | in any limiter, a caller whose rule is disabled and not newer is let through once the bucket is gone, in a run where a kept bucket denies it |
| `LimiterDivergence.KeptDisabledDiverges` | internal/ratelimit/ratelimit.go:127-138 | in any limiter, a caller with an older enabled rule makes the bucket anew and drains it, in a run where the kept bucket's newer rule is disabled and admits everybody |
| `LimiterDivergence.RaisedBurstDiverges` | internal/ratelimit/ratelimit.go:118-135 | with the limiter's default options: the burst is raised from one to two after an eviction, and a call is admitted that the kept bucket denies |
| `LimiterDivergence.StaleBurstDiverges` | internal/ratelimit/ratelimit.go:118-135 | with the limiter's default options: a caller with the older burst of one recreates the bucket, and is denied what the kept bucket admits |
| `LimiterRates.RatesPart` | internal/ratelimit/ratelimit.go:218-230 | however close two rates are, some number of tokens takes a different whole number of nanoseconds |
| `LimiterRates.OtherRatesDiverge` | internal/ratelimit/ratelimit.go:118-147 | in any limiter, a caller that is not newer, with the same burst and another rate, is admitted by exactly one of the two limiters in some run, unless a single token takes both rates equally many nanoseconds |
| `LimiterPairs.TouchDue` | internal/ratelimit/ratelimit.go:123-150 | what a bucket of one token decides, and when it is due next, depends on its due time alone, not on which rate of the same delay is in force |
| `LimiterPairs.SingleTokenRefines` | internal/ratelimit/ratelimit.go:102-150 | over every run whose policies allow one token after the same whole delay, at any rates and revisions in any order, each decision is that of a table of never-evicted buckets, except capacity refusals |
| `LimiterPairs.AlwaysAgreeIff` | internal/ratelimit/ratelimit.go:102-216 | for any two valid policies and any limiter, every call of every run with just these policies is decided as the unbounded limiter decides it, capacity refusals apart, if and only if the rules are equal, or both disabled, or both of one token with the same delay |
| `LimiterBounds.WindowConservesCredit` | internal/ratelimit/ratelimit.go:102-150 | over any window, what a key may still spend plus what it spent is at most what it could spend plus what its rate earned |
| `LimiterBounds.WindowBound` | internal/ratelimit/ratelimit.go:102-216 | in any window of any run in which a key keeps one rule it is admitted at most burst + rate * time times, evictions included, whatever rules it had before |
| `LimiterBounds.LivingBucketBound` | internal/ratelimit/ratelimit.go:123-148 | a bucket that lives and stays enabled through policy changes admits at most its starting tokens plus what each rate in force earned |
| `LimiterBounds.LivingRevision` | internal/ratelimit/ratelimit.go:127-140 | a live bucket's revision never falls, a stale policy changes nothing, and a newer one leaves the smaller of the balance and the new burst, less the token the call takes |
| `LimiterDeadlines.RunIsOnTime` | internal/ratelimit/ratelimit.go:175-186 | in every reachable state each bucket is full when its deadline passes |
| `LimiterDeadlines.FullAfterDeadline` | internal/ratelimit/ratelimit.go:209-213 | from its deadline on a bucket stays full, so cleanup never has to reschedule it |
| `LimiterDeadlines.CleanupIsExact` | internal/ratelimit/ratelimit.go:203-216 | a batch removes exactly the smaller of its size and the number of expired buckets, those with the earliest deadlines, and changes no other |
| `LimiterDeadlines.RunCleanupIsExact` | internal/ratelimit/ratelimit.go:193-216 | the same, number, deadlines and all, for every cleanup of every run under valid policies |
| `LimiterDeadlines.RetryAfterIsLeast` | internal/ratelimit/ratelimit.go:137-147 | a denial's delay is positive and is exactly the least wait after which the same call is admitted if nothing else consumes |
| `LimiterDeadlines.CapacityRetryIsLeast` | internal/ratelimit/ratelimit.go:166-170 | a capacity refusal's delay is the least wait after which the head is full |
| `LimiterDeadlines.HeaderIsLeastEnough` | internal/http/api_rate_limit_middleware.go:66-67 | the Retry-After header (delay-seconds, section 10.2.3 of RFC 9110) is the least whole number of seconds, from one up, that covers the delay |
| `LimiterLifetimes.DeadlineIsExact` | internal/ratelimit/ratelimit.go:175-186 | in every reachable state and at any time since its last call, a bucket's deadline has passed if and only if it was left alone for the whole lifetime and is full |
| `LimiterLifetimes.TurnRemovesOrPutsOff` | internal/ratelimit/ratelimit.go:203-216 | one turn of the cleanup removes a full bucket, and gives any other the deadline at which it will be idle and full |
| `LimiterLifetimes.SeenAtLastCall` | internal/ratelimit/ratelimit.go:123-126 | no bucket was last seen before any call on its key |
| `LimiterLifetimes.CleanupSparesRecentCallers` | internal/ratelimit/ratelimit.go:193-216 | over every run, no cleanup removes a bucket whose key was called less than a lifetime ago |
| `LimiterLifetimes.CleanupRemovesIff` | internal/ratelimit/ratelimit.go:193-216 | with a batch large enough, a cleanup removes a bucket if and only if it was left alone for the lifetime and is full |
| `LimiterLifetimes.SizeIsBounded` | internal/ratelimit/ratelimit.go:111-122 | in every reachable state there are at most as many buckets as the capacity |
| `LimiterLifetimes.NewKeyTakesAPlace` | internal/ratelimit/ratelimit.go:161-173 | a new key takes a free place or, at capacity, that of a full bucket with the earliest deadline |
| `LimiterLifetimes.RefusalForRoom` | internal/ratelimit/ratelimit.go:161-173 | a call is refused for want of room only at capacity, with nothing changed, and waits exactly as long as the bucket with the earliest deadline takes to be full |
| `LimiterLifetimes.NewKeyFindsRoom` | internal/ratelimit/ratelimit.go:161-173 | below capacity, or if the buckets with the earliest deadline are full, a new key's charging call is admitted |
| `LimiterLifetimes.NewClientGetsItsBurst` | internal/ratelimit/ratelimit.go:118-147 | of the calls that a new client makes at one instant, exactly the first burst are admitted |
| `LimiterLifetimes.PeekForetells` | internal/ratelimit/ratelimit.go:137-147 | a peek is told what a charging call would be told, and takes no token |
| `LimiterLifetimes.DisabledAdmits` | internal/ratelimit/ratelimit.go:136-138 | a disabled rule in force admits every call |
| `LimiterLifetimes.BackwardClock` | internal/ratelimit/ratelimit.go:123-126 | a call whose clock is behind its bucket's is a call at the bucket's own time |
| `LimiterLifetimes.AnyClockIsBounded` | internal/ratelimit/ratelimit.go:123-147 | however the clock jumps, what a bucket admits is covered by what it held and what its rate earned between the earliest and the latest of its own times |
| `RateConfig.DefaultConfig` | internal/apiratelimit/policy.go:29-40 | the default configuration is valid |
| `RateConfig.RuleInBoundsIsSane` | internal/apiratelimit/policy.go:59-81 | under the validated bounds a whole refill never saturates int64 nanoseconds |
| `RateConfig.ValidateIff` | internal/apiratelimit/policy.go:59-81 | a configuration is valid if and only if each of its seven rules has 0.001 to 100,000 requests a second and a burst of 1 to 100,000 |
| `RateConfig.SlowestRefill` | internal/apiratelimit/policy.go:11-15 | a valid rule's bucket fills within a hundred million seconds, which the largest at the smallest rate takes |
| `RateConfig.DefaultsRefillInTime` | internal/apiratelimit/policy.go:29-40 | all default rules are in force, with bursts of 20, 200, 20, 10, 5, 10 and 20, and rates that refill them in 4, 4, 10, 10, 10, 5 and 10 seconds |
| `Ingress.KeysAreApart` | internal/http/api_rate_limit_middleware.go:52-54 | an instance bucket and an address bucket never share a key, whatever the address and the routes |
| `Ingress.BusinessKeysAreApart` | internal/http/api_rate_limit_middleware.go:47-54 | no business bucket shares a key with an ingress bucket |
| `Ingress.AddressesAreApart` | internal/http/api_rate_limit_middleware.go:47-54 | on one route two addresses share a bucket if and only if they are the same |
| `Ingress.IpKeyIsInjective` | internal/http/api_rate_limit_middleware.go:47-54 | address buckets are shared only by the same address on the same route, for any addresses without a slash, colons or not, and any routes that the handler makes |
| `Ingress.BusinessKeyIsInjective` | internal/http/api_rate_limit_middleware.go:47-54 | business buckets are shared only by the same profile, the same API key and the same route |
| `Ingress.RulesComeIntoForce` | internal/http/api_rate_limit_middleware.go:18-31 | after each of the three calls a bucket that is new or follows an older revision is under the caller's rule: the address's in the second call, the instance's in the others |
| `Ingress.StepKeepsBalance` | internal/http/api_rate_limit_middleware.go:18-31 | every call of any request, and any other traffic, keeps tokens taken equal to the requests that hold them |
| `Ingress.RunIsBalanced` | internal/http/api_rate_limit_middleware.go:18-31 | in every interleaving each ingress bucket gave out exactly one address token per request past the address check and one instance token per admission |
| `Ingress.InstanceTokensAreAdmissions` | internal/http/api_rate_limit_middleware.go:18-31 | instance tokens charged on a route equal requests admitted on it |
| `Ingress.AddressTokensAreRequests` | internal/http/api_rate_limit_middleware.go:18-31 | in every reachable state the tokens taken from one address's bucket on one route are that address's own requests past the address check on that route |
| `Ingress.PeekStopsForFree` | internal/http/api_rate_limit_middleware.go:23-26 | a request stopped by the peek charges nothing and makes no bucket |
| `Ingress.TakenLeavesTheBuckets` | internal/ratelimit/ratelimit.go:138-143 | the tokens counted as taken are those that leave the buckets: apart from a cut to a smaller burst, balances change by exactly what is taken |
| `Ingress.RunIsCoherent` | internal/http/api_rate_limit_middleware.go:18-31 | in every reachable state of the interleaved model every bucket is coherent at any time its clock has reached |
| `Ingress.SpentLeavesTheBuckets` | internal/http/api_rate_limit_middleware.go:18-31 | at every step of every interleaved run, what is written down as spent has left the bucket |
| `IngressGate.AllowAPIKeyIngress` | internal/http/api_rate_limit_middleware.go:18-31 | the three calls run in order, each as one limiter step on the instance's or the address's own bucket (`IpKeyIsInjective`), the first refusal ends the request, and the answer carries that refusal's header |
| `IngressGate.AllowAPIKeyBusiness` | internal/http/api_rate_limit_middleware.go:33-50 | an unregistered route is never limited, a profile without a rule is answered with an internal error, and any other makes one charging call under the rule of its profile and the key's own bucket, shared with no other key, profile or route (`BusinessKeyIsInjective`) |
| `IngressGate.RefusalWaitsLongEnough` | internal/http/api_rate_limit_middleware.go:62-71 | a refused client waits at least one second and at least as long as the limiter asked |
| `IngressGate.PathIsIngressRun` | internal/http/api_rate_limit_middleware.go:18-31 | the handler's calls are steps of the interleaved ingress model |
| `IngressGate.ProfilesHaveTheirOwnRules` | internal/apiratelimit/policy.go:42-57 | five profiles have a rule, and changing one of the five settings changes that profile's rule and no other |
| `IngressGate.BusinessRuleComesIntoForce` | internal/http/api_rate_limit_middleware.go:33-50 | a key's bucket comes under its profile's rule unless it already follows as new a revision |
| `IngressGate.DisabledRuleLetsThrough` | internal/http/api_rate_limit_middleware.go:33-50 | a disabled rule makes no bucket and lets the call through, as long as the key has none |
| `Settings.Database.EnsureSettings` | internal/db/api_rate_limit_settings.go:17-29 | the defaults are stored at revision 1 only if nothing is stored |
| `Settings.Database.SaveSettings` | internal/db/api_rate_limit_settings.go:32-85 | a save succeeds if and only if the stored row has the given revision, and then answers with what is stored, which is the given configuration, at the same revision and without a record if nothing changed and at the next one with its audit record otherwise; a conflict changes nothing |
| `Settings.Service.New` | internal/apiratelimit/service.go:26-36 | a service starts publishing what is stored, if that is acceptable |
| `Settings.Service.Apply` | internal/apiratelimit/service.go:84-101 | only an acceptable snapshot with a larger revision replaces the published one |
| `Settings.Service.Refresh` | internal/apiratelimit/service.go:43-50 | a failed read or an unacceptable snapshot keeps the published one |
| `Settings.Service.Save` | internal/apiratelimit/service.go:52-64 | an invalid configuration touches nothing; a valid one conflicts if and only if no row with the given revision is stored; a successful save answers with the given configuration, as it is now stored, one revision on exactly if something changed, and the service publishes it or something newer |
| `SettingsRuns.SaveExtendsTrail` | internal/db/api_rate_limit_settings.go:32-85 | a save extends the audit trail without breaking it, and returns what is stored |
| `SettingsRuns.AuditChain` | internal/db/api_rate_limit_settings.go:46-79 | the audit records form an unbroken before/after chain of length revision minus one, from the defaults to what is stored, and each changes something |
| `SettingsRuns.EqualRevisionsAreEqualSettings` | internal/apiratelimit/service.go:84-101 | two instances that publish the same revision, at any two times, publish the same settings |
| `SettingsRuns.PublishedRevisionsRise` | internal/apiratelimit/service.go:91-98 | an instance's published revision never falls and what it serves is always valid |
| `SettingsRuns.PublishedRulesAreSane` | internal/apiratelimit/policy.go:59-81 | every rule any instance ever serves has a refill time that int64 nanoseconds hold |
| `SettingsRuns.SaveWritesIff` | internal/db/api_rate_limit_settings.go:37-53 | a save writes if and only if it is valid, was made against the stored revision and changes something, and then adds the record of both configurations |
| `SettingsRuns.SaveAnswersIff` | internal/apiratelimit/service.go:52-64 | over every run, a save brings back settings if and only if it is valid and was made against the stored revision; they are the ones asked for, as stored, one revision on exactly if they are new |
| `SettingsRuns.NoLostUpdate` | internal/db/api_rate_limit_settings.go:37-45 | of all saves made against one revision at most one takes effect |
| `SettingsRuns.RefreshCatchesUp` | internal/apiratelimit/service.go:43-50 | a refresh read after the last save leaves its instance with what is stored, however late it and older reads arrive |
| `SettingsRuns.FreshRefreshesAgree` | internal/apiratelimit/service.go:43-64 | one fresh refresh per instance after the last save makes all of them agree with the table |
| `DeliveryRow.LastOfLast` | internal/emaildelivery/service.go:134-141 | keeping forty entries at every append keeps the same forty as keeping them at the end |
| `DeliveryInvariant.KeepsLeased` | internal/emaildelivery/worker.go:85-135 | every step keeps the row leased to its latest claim and to nobody else |
| `DeliveryInvariant.KeepsSpaced` | internal/emaildelivery/worker.go:87-119 | every step keeps claim times at least a minute apart, on unsynchronised clocks |
| `DeliveryInvariant.KeepsOwned` | internal/emaildelivery/worker.go:128-131 | every step keeps the guard matching for the latest claim only, although the claim is read back in a separate step |
| `DeliveryInvariant.KeepsCounted` | internal/emaildelivery/worker.go:147-164 | every step keeps the attempt count within the limit plus the stolen leases |
| `DeliveryInvariant.KeepsInformed` | internal/emaildelivery/worker.go:163-193 | what a lease holder remembers, and what it reads before it writes a stage, is what the row says |
| `DeliveryInvariant.StepKeepsInv` | internal/emaildelivery/worker.go:85-273 | every step of any worker keeps all of the above |
| `DeliverySafety.RunInv` | internal/emaildelivery/worker.go:85-273 | every reachable state satisfies the invariant |
| `DeliverySafety.FencingTokensIncrease` | internal/deliveryqueue/claim.go:9-13 | successive claims of one delivery, by any mix of workers, carry lock times that rise by at least a minute, which is 60,000,000,000 nanoseconds |
| `DeliverySafety.LockedIffDelivering` | internal/emaildelivery/worker.go:116-121 | the row is locked exactly while it is delivering, and then by its latest claim |
| `DeliverySafety.SupersededClaimsWriteNothing` | internal/emaildelivery/worker.go:176-179 | no write of a superseded claim changes the row, its log or its commits, not even when the same worker made both claims |
| `DeliverySafety.AttemptsAreBounded` | internal/emaildelivery/worker.go:137-174 | sends <= attempts <= limit + stolen leases, and a row to be retried is below its limit |
| `DeliverySafety.ReclaimsAreTakeovers` | internal/emaildelivery/worker.go:94-99 | what counts as a stolen lease is a claim on a row that is being delivered |
| `DeliverySafety.EndsWithinMaxAttempts` | internal/emaildelivery/worker.go:231-245 | without stolen leases there are at most as many claims as attempts allowed, and the last one ends the delivery |
| `DeliverySafety.SendFollowsFencedStart` | internal/emaildelivery/worker.go:147-169 | every send comes after its own guarded increment of the count, and no claim sends twice |
| `DeliverySafety.NoStageEntryIsLost` | internal/emaildelivery/worker.go:181-193 | the stored log is exactly the last forty entries ever written, in order, although it is read and written in separate steps |
| `DeliverySafety.CommitsExactlyOnce` | internal/emaildelivery/worker.go:195-229 | the success hook has committed once if the delivery succeeded and never otherwise |
| `DeliverySafety.TerminalIsAbsorbing` | internal/emaildelivery/worker.go:85-135 | a succeeded or failed row never changes again and is never claimed again |
| `DeliverySafety.PayloadLastsUntilTheEnd` | internal/emaildelivery/worker.go:195-273 | the message and its settings stay as they were enqueued while they can still be sent, and are erased when the delivery ends |
| `DeliverySchedule.NeverStranded` | internal/emaildelivery/worker.go:94-99 | every row that has not ended is claimable exactly from a certain time on, whoever crashed: ten minutes and a nanosecond after its latest claim, or when its next attempt is due |
| `DeliverySchedule.LeaseIsClaimableIff` | internal/emaildelivery/worker.go:87-115 | over every run, a worker may claim a row that is being delivered if and only if more than ten minutes have passed since its latest claim |
| `DeliverySchedule.WaitingIsClaimableIff` | internal/emaildelivery/worker.go:107-115 | and a waiting row, which always has a next attempt time, if and only if that time has come |
| `DeliverySchedule.EndedIsNeverClaimed` | internal/emaildelivery/worker.go:107-115 | and an ended row never |
| `DeliverySchedule.BudgetIsAsEnqueued` | internal/emaildelivery/service.go:56-76 | a delivery keeps the limit it was enqueued with, three if none was given, and until its first claim is due at once, with its payload and one log entry |
| `DeliverySchedule.WaitsAsScheduled` | internal/emaildelivery/worker.go:275-286 | the delays that can be drawn are one, five, fifteen and, from the fourth attempt on, sixty minutes, and up to a fifth more |
| `DeliverySchedule.FailureIsRetriedIff` | internal/emaildelivery/worker.go:231-273 | over every run, a failed attempt is retried if and only if its error allows it and the limit leaves another; then it waits by the number of its attempt, counted from its start, and otherwise the row has failed; the lease is given up and the entry is logged |
| `DeliveryWorker.Worker.ClaimDueDeliveries` | internal/emaildelivery/worker.go:85-135 | at most a batch of candidates (five if no size is given) is claimed in order, each by a conditional update whose condition `BatchTakesExactly` spells out, and each claimed row is handed over as it was read back |
| `DeliveryWorker.ClaimAllTakesEachOnce` | internal/emaildelivery/worker.go:107-127 | the claimable candidates, and no other rows, become locked at this time by this worker |
| `DeliveryWorker.BatchTakesExactly` | internal/emaildelivery/worker.go:107-121 | column by column: a candidate that waits is taken if its time has come or it has none, one that is being delivered if its lock is more than ten minutes old, and then status, stage, lock and owner change and nothing else |
| `DeliveryWorker.ClaimsAreHeld` | internal/emaildelivery/worker.go:125-132 | every claim handed over passes its guard when the batch ends, and no claimable candidate is missed |
| `DeliveryWorker.ClaimsAreDistinct` | internal/emaildelivery/worker.go:106-133 | no row is handed over twice |
| `DeliveryWorker.Worker.Update` | internal/emaildelivery/worker.go:176-179 | a guarded update reports whether its row matched, and changes nothing otherwise |
| `DeliveryWorker.Worker.RecordStage` | internal/emaildelivery/worker.go:181-193 | a stage is appended under the guard and dropped without it |
| `DeliveryWorker.Worker.Deliver` | internal/emaildelivery/worker.go:137-273 | a delivery whose guard does not match changes nothing; one whose guard matches leaves the row as `Delivered` says, or failed if its payload does not decode |
| `DeliveryWorker.RejectIsOneStep` | internal/emaildelivery/worker.go:139-146 | a payload that does not decode ends the row in one guarded step, with each column as stated, and a lost lease leaves it alone |
| `DeliveryWorker.LostStartIsOneStep` | internal/emaildelivery/worker.go:160-162 | a start whose guard does not match writes nothing and ends the claim without a send |
| `DeliveryWorker.DeliveryOutcome` | internal/emaildelivery/worker.go:137-273 | one delivery spends one attempt, keeps the last forty of the log with its start, stages and end in order, and ends, retries or leaves the row with each column as stated for its outcome |
| `DeliveryWorker.DeliverIsProtocolPath` | internal/emaildelivery/worker.go:137-273 | with the lease held or lost and a payload that decodes or not, the worker's code is one path of the protocol's steps, leaves the same row, and sends exactly if it holds the lease on a payload that decodes |
| `Text.TrimIsMiddle` | internal/domain/resolver.go:50-56 | trimming removes cut characters at both ends and nothing in between |
| `Text.SplitDotted` | internal/domain/resolver.go:98-107 | the labels of a dotted pair of names are the labels of the two |
| `Resolver.WildcardCandidates` | internal/domain/resolver.go:93-109 | the candidates are the label suffixes from one label dropped down to the registrable root |
| `Resolver.ResolveDomain` | internal/domain/resolver.go:58-87 | the lookup loop computes `ResolveRecipient` |
| `Resolver.ResolvesToNearest` | internal/domain/resolver.go:58-87 | a host resolves to a domain if and only if that is its nearest registered suffix within the root and it is ready; a nearer suffix that is not ready hides the rest |
| `Resolver.RecipientShape` | internal/domain/resolver.go:27-48 | an accepted recipient has a nonempty local part and a host without at sign, forbidden characters and dots at its ends |
| `Resolver.CleanRecipient` | internal/domain/resolver.go:27-48 | a clean address is taken apart into exactly its local part and its host |
| `Resolver.NormalizeIdle` | internal/domain/resolver.go:50-56 | normalisation leaves exactly the lower-case names without outer spaces, outer dots or a leading star |
| `Resolver.NormalizeTwice` | internal/domain/resolver.go:50-56 | normalising twice is normalising once if and only if taking off the value's outer spaces and one star prefix uncovers, past any dots, neither a star nor a space |
| `Resolver.StarsPeelOneAtATime` | internal/domain/resolver.go:50-56 | two leading stars take two rounds of normalisation |
| `Resolver.HostAnswersForItsMailboxes` | internal/domain/resolver.go:89-91 | asking by host, however it is written, gives the same domain as asking by any mailbox on it |
| `SubdomainBoundary.SanitizeSubdomainLabel` | internal/http/mailbox_generation.go:224-246 | the result is empty or a valid label of at most 63 characters |
| `SubdomainBoundary.SanitizedLabelFixpoint` | internal/http/mailbox_generation.go:224-246 | sanitising leaves a label as it is if and only if it is valid or empty |
| `SubdomainBoundary.SanitizeLocal` | internal/http/mailbox_generation.go:405-419 | the result is empty or a valid local part |
| `SubdomainBoundary.SanitizedLocalFixpoint` | internal/http/mailbox_generation.go:405-419 | sanitising leaves a local part as it is if and only if it is valid or empty |
| `SubdomainBoundary.RegisteredSubdomainBoundaryCandidates` | internal/http/mailbox_generation.go:273-293 | the string loop terminates and yields the label suffixes from the host down to just above the parent |
| `SubdomainBoundary.BoundaryIsStrictlyAbove` | internal/http/mailbox_generation.go:279-292 | the candidates are exactly the label suffixes of the host that are longer than the parent |
| `SubdomainBoundary.EnsureSubdomainHostAvailable` | internal/http/mailbox_generation.go:252-271 | a host is accepted if and only if no candidate is registered as another domain |
| `SubdomainBoundary.AvailableIffUnregistered` | internal/http/mailbox_generation.go:257-269 | for a registered parent that means nothing is registered between host and parent |
| `SubdomainBoundary.ResolvesToParentIff` | internal/http/mailbox_generation.go:252-293 | an accepted host resolves to its parent if and only if the parent takes wildcard mail and lies within the host's root |
| `SubdomainBoundary.CreationAgreesWithResolution` | internal/http/mailbox_generation.go:252-293 | under such a parent creation accepts a host if and only if resolution maps it to the parent |
| `SubdomainBoundary.CreatedMailboxResolvesIff` | internal/http/mailbox_generation.go:200-222 | mail to a mailbox made from any sanitised prefix and subdomain resolves to the domain it was made under if and only if that domain takes wildcard mail and lies within the new host's root |
| `SubdomainBoundary.BelowAPublicSuffix` | internal/http/mailbox_generation.go:252-271 | below a registered domain that is above a host's root, whatever else is registered, resolution finds nothing for any host that creation accepts |
| `SubdomainBoundary.AloneAcceptsAll` | internal/http/mailbox_generation.go:252-271 | where nothing else is registered, creation accepts every host below a domain |
| `SubdomainBoundary.MailToASuffixIsLost` | internal/http/mailbox_generation.go:252-271 | a concrete host of that kind: `a.co.uk` under `co.uk` |
| `HostForms.LowerIsAscii` | internal/domain/resolver.go:51 | each of the 26 capitals becomes its letter and nothing else changes |
| `HostForms.AllFormsOfADomain` | internal/domain/resolver.go:50-56 | a domain written in capitals, with a star, dots or spaces around it is normalised to its one clean name |
| `HostForms.BracketsHoldTheAddress` | internal/domain/resolver.go:28-34 | whatever stands before and after the last pair of brackets, the recipient is what they hold |
| `HostForms.StrayBracketComesOff` | internal/domain/resolver.go:34 | a bracket without its partner comes off |
| `HostForms.CapitalsDoNotMatter` | internal/domain/resolver.go:28 | recipients that differ only in capitals are the same |
| `HostForms.RecipientIsLower` | internal/domain/resolver.go:28-36 | no capital is left in the local part or the host |
| `HostForms.ParsedAddressCounts` | internal/domain/resolver.go:35-37 | what the mail library makes of an address is what counts, and the address itself if it makes nothing of it |
| `HostForms.SplitsAtLastAt` | internal/domain/resolver.go:38-46 | the last at-sign separates, both sides are trimmed, and a recipient is refused if and only if a side is empty or the host holds one of six characters |
| `HostForms.LabelIsKept` | internal/http/mailbox_generation.go:224-246 | letters, digits and inner dashes are kept, in lower case, in up to 63 characters, and a longer label is refused |
| `HostForms.LabelIsPlain` | internal/http/mailbox_generation.go:231-244 | whatever was asked for, at most 63 letters, digits and inner dashes come out |
| `HostForms.LabelEndsComeOff` | internal/http/mailbox_generation.go:226 | dots and dashes at the ends of a label come off |
| `HostForms.DottedIsRefused` | internal/http/mailbox_generation.go:227-229 | a name with a dot inside is no label |
| `HostForms.JunkIsLeftOut` | internal/http/mailbox_generation.go:231-241 | any other character inside a label is left out and the rest closes up |
| `HostForms.LocalIsKept` | internal/http/mailbox_generation.go:405-419 | letters, digits and the three inner characters of a local part are kept, in lower case |
| `HostForms.LocalIsPlain` | internal/http/mailbox_generation.go:405-419 | and nothing else comes out |
| `HostForms.LocalEndsComeOff` | internal/http/mailbox_generation.go:418 | the three characters come off the ends |
| `HostForms.OutsideIsAvailable` | internal/http/mailbox_generation.go:252-256 | without a parent, for the parent itself and for hosts that are not below it, creation asks nothing of the table |
| `HostForms.OwnRowsDoNotBlock` | internal/http/mailbox_generation.go:266-268 | a domain's own rows do not stand in its way |
| `MimeWalk.ParseState.CountPart` | internal/mail/parser.go:123-129 | a part is counted and refused past the limit |
| `MimeWalk.ParseState.CountAttachment` | internal/mail/parser.go:131-137 | an attachment is counted and refused past the limit |
| `MimeWalk.ParseEntity` | internal/mail/parser.go:139-219 | the mutable walk leaves counters, texts and attachments as the reference walk does, with the same error |
| `MimeWalk.ParseWithOptions` | internal/mail/parser.go:77-102 | parsing succeeds if and only if the whole message is within all limits, then yields the flattening, and otherwise blames an exceeded limit and yields a beginning of it |
| `MimeWalk.WalkFlattens` | internal/mail/parser.go:139-219 | from any state the walk succeeds if and only if parts, attachments, depth and leaves fit what is left of the limits, and then adds the document-order flattening |
| `MimeWalk.FailureIsHonest` | internal/mail/parser.go:139-219 | a failed walk has collected a beginning of the flattening and names a limit that the message exceeds |
| `MimeTree.FilesAreNumbered` | internal/mail/parser.go:190-191 | attachments carry consecutive sequence numbers in document order |
| `MimeLaws.FileIff` | internal/mail/parser.go:172-182 | a leaf is a file unless it is plain or HTML text, is not attached and has neither of the two names |
| `MimeLaws.FilesDescribeLeaves` | internal/mail/parser.go:190-200 | every file becomes one attachment, in document order and with its number, whose name, type, disposition, content id and encoding are the leaf's, shortened to 500, 255, 40, 255 and 40 characters, with its size, its digest and whether it is inline |
| `MimeLaws.ContentIDIsBare` | internal/mail/parser.go:278-280 | a content id loses its brackets |
| `MimeLaws.BodyLeafIsItsText` | internal/mail/parser.go:204-218 | a leaf that is not a file adds its text to the body of its own kind |
| `MimeLaws.AcceptableIff` | internal/mail/parser.go:32-42 | the limits in numbers: 32 levels, and, unless others are given, 200 parts, 100 files and two mebibytes for each body; files have no limit of their own |
| `MimeLaws.WrappingIsCounted` | internal/mail/parser.go:153-169 | each multipart around a leaf is one level and one part, and changes nothing that is read |
| `MimeLaws.FlatIsCounted` | internal/mail/parser.go:153-169 | a flat message has its leaves for parts, on one level, read in their order |
| `Propagation.LookupMXProbe` | internal/domain/dnsclient.go:199-221 | a probe is verified if and only if a record matches and, when strict, is the only one; an error verifies nothing |
| `Propagation.NormalizeOptions` | internal/domain/dnsclient.go:77-95 | normalised options have resolvers, a timeout and a pool size between 1 and the resolvers plus 20, and sound options are kept |
| `Propagation.ClassifyPropagation` | internal/domain/dnscheck.go:385-449 | the fold yields the status and verification given by which kinds of probes exist, and the records of the last verifying authoritative probe or else the first records |
| `Propagation.SortedInOrder` | internal/domain/dnsclient.go:190-195 | the report lists recursive resolvers before authoritative servers, each by source name |
| `Propagation.SortedKeeps` | internal/domain/dnsclient.go:186-196 | sorting keeps every probe exactly as often |
| `Propagation.VerdictIgnoresOrder` | internal/domain/dnscheck.go:385-449 | status and verification are the same for any completion order, and an authoritative verification reports the records of a verifying authoritative probe |
| `Propagation.LastVerifiedIsReported` | internal/domain/dnscheck.go:410-413 | among verifying authoritative probes the last in the report's order is reported, and of equal ones the one that completed last |
| `Propagation.FirstBearingIsReported` | internal/domain/dnscheck.go:394-399 | without a verifying one, the first probe with records in the report's order is reported, and of equal ones the one that completed first |
| `ProbeLaws.MatchesIff` | internal/domain/dnsclient.go:212 | a record is the expected host in any capitals, with or without a dot at the end |
| `ProbeLaws.ProbeSays` | internal/domain/dnsclient.go:199-221 | a probe reports its target, the records and the error of its lookup, and is verified if and only if the lookup brought the expected host, which a strict check wants alone |
| `ProbeLaws.StrictIsStricter` | internal/domain/dnsclient.go:217-219 | a strict check verifies no more than a lenient one, and the same on a single record |
| `ProbeLaws.OptionsAre` | internal/domain/dnsclient.go:33-95 | by default there are three public resolvers, three and a half seconds and five probes at once, and never more at once than resolvers and twenty |
| `ProbeLaws.VerifiedIff` | internal/domain/dnscheck.go:424-447 | authorities that answered decide alone whether a host is verified; if none did, any verified probe will do; verified is what the two positive words of the status say |
| `ProbeLaws.StatusSays` | internal/domain/dnscheck.go:424-447 | when the status is each of its words, in terms of the probes that exist |
| `ProbeLaws.LexAtFirstDifference` | internal/domain/dnsclient.go:194 | source names are compared at their first difference |
| `ProbeLaws.ReportOrder` | internal/domain/dnsclient.go:190-195 | no recursive probe comes after an authoritative one, and within a kind no source after a greater one |
| `ProbePool.NeverBlocked` | internal/domain/dnsclient.go:162-181 | under every schedule there are as many workers as asked for but no more than targets, a worker with a result finds room for it, at most so many are in flight, and no target is probed twice |
| `ProbePool.NeverStuck` | internal/domain/dnsclient.go:165-184 | until every worker has left somebody can move |
| `ProbePool.ScheduleIsShort` | internal/domain/dnsclient.go:165-184 | every schedule ends within two steps per target, one per worker, and two |
| `ProbePool.ProbedOnce` | internal/domain/dnsclient.go:175-189 | at the end every target handed out was probed exactly once, and without a cancellation that is every target |
| `ProbePool.VerdictIgnoresSchedule` | internal/domain/dnsclient.go:154-197 | two complete checks of the same targets, under any schedules and pool sizes, agree on status and verification |
| `ProbePool.CanFinish` | internal/domain/dnsclient.go:165-184 | every schedule can be carried on to its end and keeps the results it has |
| `ProbeRecords.RecordsAreStableIff` | internal/domain/dnsclient.go:154-197 | for any number of targets and any pool size, all complete checks report the same records if and only if the pool has one worker or the last verifying servers agree, or, with none verifying, the first record-bearing probes that tie agree, as many as the pool probes at once |
| `ProbeRecords.FirstIsEarly` | internal/domain/dnsclient.go:165-181 | under every schedule the first probe of any kind to complete is among as many of its kind, in target order, as there are workers |
| `ProbeRecords.CanBeFirst` | internal/domain/dnsclient.go:165-181 | and each of those is the first of its kind under some schedule |
| `ProbeRecords.ExtremesOfCompletion` | internal/domain/dnsclient.go:162-181 | a target can complete first of all exactly if it is handed out at the start, and last exactly if it is the last target or there are two workers |
| `ProbeRecords.OneNameTrails` | internal/domain/dnsclient.go:51-57 | where all authoritative servers share one name, every verifying one counts for the condition |
| `ProbeRecords.ThirdServerNeverShows` | internal/domain/dnsclient.go:158-161 | with two workers, what the third of three tied servers answers never shows |
| `ProbeRecords.EveryOrderHappens` | internal/domain/dnsclient.go:162-189 | with a worker for every target, every order of completion is that of some schedule |
| `ProbeRecords.TwoSchedulesTwoRecords` | internal/domain/dnscheck.go:394-413 | two complete schedules of the same two servers, both verifying or both wrong, that report different records |
| `ProbeRecords.UnverifiedRecordsFollowTheSchedule` | internal/domain/dnscheck.go:394-399 | two servers with different wrong answers: nothing verifies, and either answer is reported under some schedule |
| `Accounting.Tables.CreateMailboxWithAccounting` | internal/http/mailbox_accounting.go:14-72 | a creation answers with `Refusal` and leaves every table as it was, or commits `Committed`; the rules behind the refusal are stated by `RefusedForTheFirst`, what is committed by `CommitAddsMailbox` |
| `Accounting.Tables.ApplyMailboxAccounting` | internal/http/mailbox_accounting.go:74-126 | the domain and exactly one counter of the user go up by one, or the first violated rule is reported |
| `Accounting.Tables.IncrementUserPublicMailboxCount` | internal/http/mailbox_accounting.go:128-149 | the conditional update matches an enabled user within both daily limits, and starts a new day at one |
| `Accounting.FilterAvailablePublicDomains` | internal/http/mailbox_accounting.go:163-198 | the list offers exactly the public domains that creation has room in for this actor, and nothing to an actor that the public-domain rule bars; nobody at all is not barred |
| `Accounting.CommittedMailboxResolvesIff` | internal/http/mailbox_accounting.go:14-72 | at the commit, mail to the new mailbox's host resolves to the domain that was charged, below a wildcard domain exactly if it lies within the host's root |
| `AccountingRuns.CountersAgree` | internal/http/mailbox_accounting.go:74-149 | over any run, the domains' counters and the users' counters both add up to the number of committed creations |
| `AccountingRuns.CreationIsCounted` | internal/http/mailbox_accounting.go:137-141 | counting a creation in its user's row is counting it in the history, as long as the calendar does not go back |
| `AccountingRuns.RollbackChangesNothing` | internal/http/mailbox_accounting.go:17-71 | a creation adds a mailbox if and only if it is counted, and otherwise changes no table |
| `AccountingRuns.DailyLimitsHold` | internal/http/mailbox_accounting.go:130-136 | whoever creates a public mailbox without being an administrator has, with it, created no more that day than each positive limit in force |
| `AccountingRuns.DailyGuardIsExact` | internal/http/mailbox_accounting.go:129-136 | in every reachable state the guard on the user's row lets a public mailbox through if and only if, with it, the mailboxes the user made that day stay within each limit in force |
| `AccountingRuns.DomainLimitHolds` | internal/http/mailbox_accounting.go:109-126 | nobody but its owner and administrators takes a public domain past its limit |
| `AccountingRules.RefusedForTheFirst` | internal/http/mailbox_accounting.go:14-149 | in every reachable state a creation is refused for the first of ten rules that it violates, in the order of the source, each stated over the tables and the history of committed creations, not over the counters |
| `AccountingRules.CommitsIff` | internal/http/mailbox_accounting.go:14-149 | over every run, a creation is committed if and only if it violates none of the ten |
| `AccountingRules.CommitAddsMailbox` | internal/http/mailbox_accounting.go:37-66 | a committed creation adds this mailbox, this share and this place in the history, and changes nothing but the counters of its domain and its owner |
| `AccountingRules.PrivateDomainsServeTheirOwners` | internal/http/mailbox_accounting.go:32-36 | over every run, a creation on a private domain is committed only for that domain's owner, administrators included |
| `AccountingRules.DisabledUsersGetNone` | internal/http/mailbox_accounting.go:128-136 | over every run, no public mailbox is committed for a disabled or missing user |
| `AccountingRules.TakersContribute` | internal/http/mailbox_accounting.go:96-107 | where the rule is in force, whoever is not an administrator and gets a public mailbox owns an active public domain with verified MX or wildcard |
| `AccountingRules.SharesAreHandedOutOnce` | internal/http/mailbox_accounting.go:50-64 | a share token that is taken rolls the whole creation back, and a committed one takes its token |
| `AccountingRules.OfferedIff` | internal/http/mailbox_accounting.go:163-198 | in every state whose counters are tallies, a public domain of the list is offered to an actor if and only if a creation by it would be refused neither for the public-domain rule nor for the domain's limit |
| `AccountingRules.NobodyIsOfferedWhatHasRoom` | internal/http/mailbox_accounting.go:163-198 | without an actor the limit alone decides what is offered |
| `AccountingRules.RoomyInOrder` | internal/http/mailbox_accounting.go:190-197 | the list keeps its order |

## Left out

- `golang.org/x/time/rate` is a value of exact reals: no floating-point rounding, no sub-nanosecond truncation, no `rate.Inf`; the refinement and the bounds take bursts of at least one.
- The limiter's heap slots are a sequence field, and a bucket's policy, clocks and balance are one field; `check` is split into four methods. Which of several buckets with the same deadline is the head is left open in the relation.
- The nil limiter, the cleanup ticker's goroutine, `Len` and `Allow`: a nil limiter allows everything, the ticker is an event of the run, and the rest are one-line wrappers.
- Clocks, calendar days, random retry jitter and SMTP outcomes are inputs; every jitter the code can draw is covered. The candidate query of the delivery worker is an input: any list of keys.
- Client addresses are taken to hold no slash, and routes to be what internal/http/api_rate_limit_middleware.go:73-79 makes: a method, a colon and a path pattern, or `unmatched`.
- Ingress conservation is about requests whose settings have both rules enabled; a disabled rule charges nothing.
- Settings are read and written as values: JSON encoding, timestamps and the metrics of a publication are not modelled. Failed database statements are runs in which the step does not happen.
- Payload decoding is an input of a delivery; the 30-day cleanup of ended deliveries and the webhook worker are not part of this model.
- Lower-casing and trimming cover ASCII and the Latin-1 spaces, not all of Unicode; the public suffix list and the address parser are arbitrary functions, the latter assumed to return a plain address unchanged or to reject it.
- MIME leaves carry decoded bytes and, if the charset can be applied, their text; header decoding, transfer encodings and verification-code extraction are left to their libraries.
- Real DNS lookups: a probe's answer is an input that depends on its target alone. A cancelled check is modelled in the pool, but not what cancelled lookups answer.
- The accounting takes users' daily limits as non-negative, as internal/http/user_handlers.go:203 and 319 see to.
- `AlwaysAgreeIff` is about two policies; for three or more `Refines` and `SingleTokenRefines` give conditions under which all runs agree, not the exact one.
- Domain, user and share deletion, and the start-up repair of counters, which would change the counters the accounting is about.
- HTTP routing, sessions, OAuth, domain lifecycle and health jobs, brand icons, event streams and the front end: text and plumbing, or simple counters.
