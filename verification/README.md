# Verified models of the gateway's accounting

An LLM gateway keeps its accounting in Redis: rate limits, quotas, a durable queue of usage events,
cached permissions, leases of worker ids and login sessions. Every Lua script and every single
command is atomic there, and everything between two of them interleaves. This project models these
protocols in Dafny, statement by statement where the code changes state, and proves what every run
of them keeps.

A model comes in two layers. A class holds the state that the code changes in place, and each of its
methods has the loops and branches of the code (a Redis script is a method from what is stored under
its key to what it stores); its contract ties the new state to a specification
function of the old one. Lemmas then prove what those functions amount to over all runs: sequences
of events in which requests, workers, replicas or readers interleave, keys expire, processes crash
and clocks misbehave. Where an assumption is not obvious, a further lemma shows an input that
breaks the property without it, or the property is stated as an equivalence. What a single operation
comes to is also stated in plain numbers, with the limits and lifetimes of the code written out.

`dafny verify dfyconfig.toml` checks everything.

| file | component |
|---|---|
| `Basics.dfy` | options, truncation, bounds |
| `Sums.dfy` | sums over finite maps, used by the ledgers |
| `TokenBucket.dfy` | tokens-per-minute bucket: refill, debt, signed settlement, debt-aware expiry |
| `SlidingWindow.dfy` | requests-per-minute window and stream semaphore on sorted sets |
| `SkewedWindow.dfy` | the window when clock readings reach Redis late and out of order |
| `RateLimiter.dfy` | admission of one request against several rules, with rollback |
| `AdmissionRuns.dfy` | any number of admissions and rollbacks, interleaved step by step |
| `QuotaPeriods.dfy` | calendar periods and the lifetime of quota keys |
| `QuotaLedger.dfy` | all-or-nothing reservation, settlement, compensation |
| `QuotaRuns.dfy` | conservation, overshoot and expiry over whole runs; cost rounding |
| `Finalize.dfy` | settling or returning a request's reservations when it ends |
| `EventQueue.dfy` | claim, acknowledge, retry, dead letters, stale recovery |
| `UsageTable.dfy` | conversion to rows, batch duplicates, insert-if-absent |
| `EventRuns.dfy` | concurrent workers with crashes: nothing lost, one row per event |
| `EventFlush.dfy` | one uninterrupted flush from claim to acknowledgement, and what a crash leaves |
| `Outbox.dfy` | process-local outbox in front of the queue |
| `OutboxRuns.dfy` | any number of enqueues of one process, interleaved between pushes |
| `PermissionCache.dfy` | versioned permission snapshots and after-commit hooks |
| `Snowflake.dfy` | id generator under an adversarial clock |
| `WorkerLease.dfy` | worker-id leases of many replicas, heartbeat |
| `LeaseFence.dfy` | how long a replica mints when its renewals fail |
| `SessionStore.dfy` | session whitelist, refresh rotation, indexes with expiry |
| `Departments.dfy` | department forest, ancestor walks, concurrent moves |
| `SseUsage.dfy` | incremental usage parser of event streams |

## Modelling choices

- Integers are unbounded. Lua numbers are doubles; the scripts only get integers, and sums and
  products stay exact below 2^53, so they are integers here. Decimal costs and prices are reals.
- Times are whole milliseconds. A key that expires exists up to and including its expiry time.
- Redis and the database are the state of a class or a record; `now`, the order of steps and every
  failure that the code handles are parameters of a step.
- Random tokens, snowflake ids, JSON text and hashes are numbers or values that are never drawn
  twice where the code relies on that.

## Model

| member | source | states |
|---|---|---|
| TokenBucket.CheckScript | src/gateway/rate_limit.py:308-333 | the check script on a key that may have expired, in numbers: allowed exactly when the balance, refilled by the rate per 60,000 ms up to the burst, covers the request; then it holds the rest for 1,860,000 ms; a denied check writes nothing |
| TokenBucket.SettleScript | src/gateway/rate_limit.py:346-374 | the settle script: never creates a missing key, caps at the burst, keeps the refill timestamp, and lives 1,860,000 ms longer than the least time in which refill repays a debt |
| TokenBucket.CheckConserves | src/gateway/rate_limit.py:316-332 | a check keeps: balance plus all charges stays within burst plus refill since the bucket was created, for any timestamps |
| TokenBucket.AdmissionBound | src/gateway/rate_limit.py:308-374 | at every admission, in any interleaving of checks and signed settlements and any order of timestamps, actual tokens of settled requests plus open reservations are at most burst + rate x elapsed / 60000 |
| TokenBucket.SettledIsCharged | src/gateway/rate_limit.py:346-374 | in the runs of that bound a settled request is charged exactly its actual tokens |
| TokenBucket.ChargedWasAdmitted | src/gateway/rate_limit.py:308-333 | only admitted requests are charged, and until they settle what they asked for |
| TokenBucket.AdmittedIsCharged | src/gateway/rate_limit.py:308-333 | every admitted request is charged from then on |
| TokenBucket.BirthIsFirstAdmission | src/gateway/rate_limit.py:308-333 | the refill of the bound counts from the first admission |
| TokenBucket.StepIsTheScript | src/gateway/rate_limit.py:308-374 | the steps of a run are the two scripts on what is stored |
| TokenBucket.SettleOutlives | src/gateway/rate_limit.py:364-372 | for every rule and whatever debt a settlement leaves, the debt-aware lifetime keeps this: by the time its key expires a bucket has refilled all it owes and then as much as an empty one does in the base lifetime |
| TokenBucket.ReachedIsFullOnExpiry | src/gateway/rate_limit.py:308-374 | for every burst that the base lifetime refills, every bucket that any run of checks and settlements reaches, late ones included, would be full when its key expires |
| TokenBucket.ExpiryInvisibleIff | src/gateway/rate_limit.py:57-65 | an expiring bucket answers every timely run exactly as one that never expires if and only if the base lifetime refills an empty bucket |
| TokenBucket.TimelyIsTheDeadline | src/gateway/rate_limit.py:57-65 | a settlement is timely up to 1,860,000 ms after its check, and no longer |
| TokenBucket.BurstOf31Minutes | src/gateway/rate_limit.py:65 | in particular for every burst up to 31 times the per-minute limit |
| TokenBucket.ShortTtlShows | src/gateway/rate_limit.py:308-333 | for every larger burst past that bound, a two-request run on which expiry admits what the lasting bucket denies |
| TokenBucket.AdmissionBoundThroughExpiry | src/gateway/rate_limit.py:308-374 | the admission bound when keys do expire: for every timely run and every burst that the base lifetime refills |
| TokenBucket.LateSettlementIsDropped | src/gateway/rate_limit.py:353-355 | the settlement deadline is needed: one millisecond later the deduction is lost, for every rule |
| TokenBucket.RollbackOffers | src/gateway/rate_limit.py:452-456 | without expiry, a reservation taken and given back leaves a bucket that offers at every later time the same or exactly one token less, never more |
| TokenBucket.RollbackIsCheapIff | src/gateway/rate_limit.py:438-456 | through expiry, that holds for every reachable bucket, request and later time if and only if the burst is at most what the base lifetime and 1 ms refill, or one token more at a rate for which 60000 - rate mod 60000 divides 60000 |
| TokenBucket.RollbackOffersThroughExpiry | src/gateway/rate_limit.py:452-456 | the sufficient half: within that bound, at most one token less and never more |
| TokenBucket.RollbackOffersFarLess | src/gateway/rate_limit.py:330-331 | for every rule past the bound, a reachable bucket from which a rollback takes two tokens or more |
| TokenBucket.RollbackOffersMore | src/gateway/rate_limit.py:364-372 | for every burst two tokens or more past the refill, a reachable bucket in debt whose rollback resets the extended lifetime and so gains tokens |
| SlidingWindow.OldestScore | src/gateway/rate_limit.py:294-298 | the least score in a set, -1 for an empty one |
| SlidingWindow.WindowScript | src/gateway/rate_limit.py:279-305 | the window script, in numbers: admits exactly when fewer than the limit were added in the last 60,000 ms to a key that is still there, forgets the others, and keeps the key for 61,000 ms; a refusal names the oldest entry left |
| SlidingWindow.SemaphoreScript | src/gateway/rate_limit.py:377-395 | the semaphore script, in numbers: acquires exactly when fewer than the limit were added in the last 2,100,000 ms, forgets the others, and keeps the key for 2,110,000 ms |
| SlidingWindow.EveryWindowHoldsAtMostLimit | src/gateway/rate_limit.py:279-305 | after any run with rollbacks on a nondecreasing clock, every 60-second window contains at most the limit of admitted requests |
| SlidingWindow.RetryAfterIsLeast | src/gateway/rate_limit.py:480-484 | for a full window, the returned seconds are the least (at least 1) after which an otherwise untouched window admits |
| SlidingWindow.RefusalsNameTheLeastWait | src/gateway/rate_limit.py:476-491 | that holds for every refusal in every run |
| SlidingWindow.ActiveAreKept | src/gateway/rate_limit.py:385-386 | evicting stale entries evicts no active stream younger than the timeout |
| SlidingWindow.ActiveStreamsKeepTheirSlots | src/gateway/rate_limit.py:67-75 | in every run whose streams end in under 2,100,000 ms, active streams never exceed the limit and all still hold their slot |
| SlidingWindow.PromptMeansYoung | src/gateway/rate_limit.py:67-75 | what that asks of a run: no stream is 2,100,000 ms old |
| SlidingWindow.StreamStepIsTheScript | src/gateway/rate_limit.py:377-395 | in those runs a start counts as active exactly if the script gave it a slot, and an end gives exactly that slot back |
| SlidingWindow.OverlongStreamIsEvicted | src/gateway/rate_limit.py:384-393 | in every state in which the slots are held, for every limit: an active stream keeps its slot at the next start exactly if it is younger than the timeout |
| SlidingWindow.LimitHoldsExactlyWhenNoneIsStale | src/gateway/rate_limit.py:67-75 | with all slots taken by active streams, the next start keeps them within the limit exactly if none is as old as the timeout |
| SkewedWindow.SafeSpansAreShorterByTheDelay | src/gateway/rate_limit.py:429-492 | the clock is read before the script runs: with readings up to `delay` ms old, the spans of time that hold at most the limit of admitted requests in every run are exactly those of at most 60000 - delay ms |
| SkewedWindow.OverfullSpan | src/gateway/rate_limit.py:279-305 | for every limit and delay, a run that admits one request too many into any longer span |
| SkewedWindow.NoDelayIsTheScript | src/gateway/rate_limit.py:279-305 | with fresh readings the runs are those of the window script |
| RateLimiter.Store.ReleaseRpm | src/gateway/rate_limit.py:573-593 | removes the member from the windows of the given rules that have such a limit, and from nothing else |
| RateLimiter.Store.ReleaseConcurrent | src/gateway/rate_limit.py:596-611 | the same for semaphores |
| RateLimiter.Store.SettleTpm | src/gateway/rate_limit.py:614-655 | settles the bucket of each rule with a token limit once, with its own burst and rate, and touches no other bucket; a zero delta changes nothing |
| RateLimiter.Store.Rollback | src/gateway/rate_limit.py:438-458 | restores every window and semaphore from what the earlier gates took, a set's lifetime being as before or that of an addition now; gives back every reservation and touches no other bucket |
| RateLimiter.Store.AskWindow | src/gateway/rate_limit.py:468-492 | asks one rule's window and touches no other: it takes the request with a renewed lifetime, or is full and names a wait, which is the least after which it has a slot again |
| RateLimiter.Store.AskSemaphore | src/gateway/rate_limit.py:522-532 | asks one rule's semaphore and touches no other: it takes the request with a renewed lifetime, or is full and only forgets what is stale |
| RateLimiter.Store.WindowGate | src/gateway/rate_limit.py:467-492 | open exactly when the window as it was at the start admits; records what was taken, with its lifetime |
| RateLimiter.Store.BucketGate | src/gateway/rate_limit.py:494-520 | open exactly when the bucket as it was at the start covers the estimate; skipped for no limit or no estimate |
| RateLimiter.Store.SemaphoreGate | src/gateway/rate_limit.py:522-541 | open exactly when the semaphore as it was at the start admits, with its lifetime; only for streams |
| RateLimiter.Store.RuleGates | src/gateway/rate_limit.py:463-541 | the outcome names the first closed gate of the rule, with what is taken so far |
| RateLimiter.Store.CheckRateLimits | src/gateway/rate_limit.py:403-570 | alone: allowed exactly when every gate of every rule is open; a denial names the first closed gate and leaves the request nowhere, other entries and lifetimes restored, the buckets of passed rules given back and all others untouched; an allowed request holds every slot, in keys that live a full lifetime from now, and every reservation, and touches no other bucket |
| RateLimiter.TokenRuleInNumbers | src/gateway/rate_limit.py:494-520 | one rule with n tokens a minute, on an unused bucket: admits an estimate exactly up to the burst, which is n when not set or zero, and then holds the rest |
| RateLimiter.RefillInNumbers | src/gateway/rate_limit.py:494-520 | what is left of it grows by n a minute up to the burst, and that is what later requests are admitted against |
| RateLimiter.SettleInNumbers | src/gateway/rate_limit.py:614-655 | a settlement moves it by the difference, up to the same burst |
| RateLimiter.RequestRuleInNumbers | src/gateway/rate_limit.py:467-492 | one rule with n requests a minute admits exactly when fewer than n were added in the last 60,000 ms |
| RateLimiter.StreamRuleInNumbers | src/gateway/rate_limit.py:522-541 | one rule with n streams admits anything but a stream, and a stream exactly when fewer than n started in the last 2,100,000 ms |
| RateLimiter.RollbackRestores | src/gateway/rate_limit.py:452-458 | removing a fresh member wherever it was taken, and harmlessly elsewhere, restores every set up to entries that no longer counted and a renewed lifetime |
| RateLimiter.SettlementRepays | src/gateway/rate_limit.py:454-456 | giving back what was reserved repays the bucket of every passed rule with a token limit and touches no other |
| RateLimiter.DenialCostsAtMostOneToken | src/gateway/rate_limit.py:403-570 | whatever requests with whatever rules are denied, each reachable bucket then offers, at every later time and through expiry, what it would have offered or exactly one token less, if and only if the bucket's rule is within the bound of TokenBucket.RollbackIsCheapIff; past it, a request whose window gate is closed after its bucket gate takes two tokens or more |
| AdmissionRuns.DeniedLeavesNoEntry | src/gateway/rate_limit.py:434-541 | under every interleaving of any number of requests, a denied request ends in no window and no semaphore |
| AdmissionRuns.RunKeepsAccount | src/gateway/rate_limit.py:434-541 | at every moment an entry belongs to a request that still may be there, under a key of its own rules: held, being undone, or admitted |
| AdmissionRuns.StartsAtTheFirstGate | src/gateway/rate_limit.py:429-467 | a request starts at the first gate of its first rule with nothing taken |
| AdmissionRuns.WindowGateIsTheScript | src/gateway/rate_limit.py:467-492 | a window gate is the window script on the shared set and records the rule when it admits; a refusal starts the rollback |
| AdmissionRuns.BucketGateOnlyAnswers | src/gateway/rate_limit.py:494-520 | a bucket gate touches no window and no semaphore |
| AdmissionRuns.SemaphoreGateIsTheScript | src/gateway/rate_limit.py:522-541 | a semaphore gate is the semaphore script, for streams only |
| AdmissionRuns.LastGatePasses | src/gateway/rate_limit.py:463-541 | a request past all gates of all rules has passed |
| AdmissionRuns.UndoingRemovesOnly | src/gateway/rate_limit.py:573-611 | a step of the rollback takes the request out of one set and takes nothing else out |
| AdmissionRuns.RefusalEnds | src/gateway/rate_limit.py:438-458 | a refused request that is left to run ends denied |
| QuotaPeriods.NextMonthIsNext | src/gateway/quota.py:391-393 | the December rule names the following month for every month |
| QuotaPeriods.YearsHaveTheirDays | src/gateway/quota.py:376-395 | the calendar behind the periods: 365 days from January to January, 366 in leap years |
| QuotaPeriods.MonthsHaveTheirDays | src/gateway/quota.py:376-395 | every month of every year is as long as in the Gregorian calendar |
| QuotaPeriods.PeriodsAreCalendar | src/gateway/quota.py:375-395 | a daily period is the whole days since 1970, a monthly one the calendar month that contains the moment |
| QuotaPeriods.TtlRunsToEnd | src/gateway/quota.py:385-395 | the lifetime is the whole seconds to the end of the current period, at least one, plus the grace |
| QuotaPeriods.EndsInOrder | src/gateway/quota.py:376-395 | every moment lies before the end of its period, and later moments have later ends |
| QuotaPeriods.KeyOutlivesPeriod | src/gateway/quota.py:16-24 | a key outlives the period it was named for by more than 2,099,000 ms, even when the period turns over between naming it, computing its lifetime and storing it |
| QuotaPeriods.MarginIsTight | src/gateway/quota.py:385-395 | that margin cannot be improved: whole seconds lose up to 999 ms |
| QuotaLedger.ReserveEffect | src/gateway/quota.py:26-51 | the script passes exactly when every enforced counter stays within its limit with what the items up to it reserve; a pass adds precisely the reservations, a failure changes no counter value |
| QuotaLedger.OneItem | src/gateway/quota.py:26-51 | one item: passes exactly within its limit, moves its counter by the reservation or not at all, gives a counter that was zero its lifetime and keeps any other, and touches no other counter |
| QuotaRuns.TokenAskIsExact | src/gateway/quota.py:132-190 | a token quota counts the estimate, at least 1: it passes exactly when the counter plus that is within the limit, and then the counter has exactly that much more, held for 2,099,000 ms |
| QuotaRuns.CostAskIsExact | src/gateway/quota.py:150-163 | a cost quota does the same with millionths of the estimated cost, rounded down and at least 1, against its limit times 1,000,000 |
| QuotaRuns.RequestAskIsExact | src/gateway/quota.py:268-270 | a request quota does the same with 1 |
| Basics.Truncate | src/gateway/quota.py:273-274 | conversion to a counter unit drops the fraction, toward zero for either sign |
| QuotaLedger.QuotaStore.Check | src/gateway/quota.py:324-343 | the loop with its nested rollback loop computes the script |
| QuotaLedger.QuotaStore.Settle | src/gateway/quota.py:212-235 | every counter moves by the sum of actual minus reserved over the reservations on it; no key gains, loses or changes a lifetime, and one that is created has none |
| QuotaLedger.QuotaStore.Compensate | src/gateway/quota.py:248-256 | every counter gives back what the reservations hold on it, with lifetimes kept in the same way |
| Finalize.EstimateTokens | src/gateway/rate_limit.py:143-207 | an upfront estimate is at least 100 and at most 204,000 tokens, and covers the input at four characters a token up to the cap |
| Finalize.EstimateInNumbers | src/gateway/rate_limit.py:143-207 | up to 403 characters count as 100 tokens, up to 16,000 as a quarter of the characters, more as 4000; the output limit is added as far as it lies in 0..200,000 |
| Finalize.RequestContext.SettleQuota | src/gateway/finalize.py:81-125 | compensates a request without tokens, settles any other, and does either at most once, with lifetimes kept |
| Finalize.RequestContext.SettleTpm | src/gateway/finalize.py:265-292 | moves every rule's bucket by reserved minus used, with 100 for a missing estimate; equal amounts move nothing |
| Finalize.SettlementReplacesEstimate | src/gateway/finalize.py:271-282 | for every request and any actual usage: if nothing else runs on the bucket in between, a settlement leaves it with exactly what it offered at admission minus the actual usage, in debt or not; after the key expired it is dropped |
| Finalize.RefundIsCutOffAtTheBurst | src/gateway/rate_limit.py:357-362 | on whatever other requests have left, a settlement moves the balance by its whole difference exactly if that stays within the burst; of a larger refund the rest is lost |
| Finalize.CheckInBetweenCutsRefund | src/gateway/rate_limit.py:316-362 | for every rule with a burst of two or more, a check in between that refills the bucket makes a full refund lose all but one token |
| QuotaRuns.CountersAreConserved | src/gateway/quota.py:212-256 | at every reachable state each counter is the sum of open reservations and settled charges on it; failed checks and compensations contribute nothing. Deadlines are asked only of reservations on this key, and of none on a total quota |
| QuotaRuns.Charged | src/gateway/quota.py:279-290 | a settled reservation counts what a request counts (what it reserved), the actual tokens, or the truncated micro-cost |
| QuotaRuns.EndsExactly | src/gateway/quota.py:212-256 | a settlement moves its counter, and no other, from what was reserved to what was used, and a compensation takes back what was reserved |
| QuotaRuns.LiveIsExact | src/gateway/quota.py:16-24 | exactly the counters whose time has not passed are there |
| QuotaRuns.CheckStepIsTheScript | src/gateway/quota.py:101-190 | a check of a run is the script on those |
| QuotaRuns.TimelySettlementFindsItsKey | src/gateway/quota.py:16-24 | a settlement within 2099 s of its check, or at any time on a total quota, finds a live key with its lifetime intact |
| QuotaRuns.TimelyIsTheDeadline | src/gateway/quota.py:16-24 | what the results about runs ask for: reservations on the key end by their deadline, other keys may be late |
| QuotaRuns.NoCounterLivesForEver | src/gateway/quota.py:39-41 | no run that ends a key's reservations in time leaves that daily or monthly counter without a lifetime, or with one that ends before every settlement is due |
| QuotaRuns.LateSettlementOrphans | src/gateway/quota.py:226-256 | for every settlement or compensation in a good state: all keys keep the lifetime they must have exactly if its own key has not expired or nothing is to be added |
| QuotaRuns.LateSettlementHappens | src/gateway/quota.py:16-24 | for every daily or monthly quota, a check that passes and a settlement after the key expired leave a counter that never expires |
| QuotaRuns.AdmittedWithinLimit | src/gateway/quota.py:44-49 | right after an admitted check every enforced counter it names is within its limit |
| QuotaRuns.OvershootIsBounded | src/gateway/quota.py:115-124 | at every state a counter with a fixed enforced limit exceeds it by at most what settlements added beyond reservations since the last admission |
| QuotaRuns.MicroCostRoundsDown | src/gateway/usage.py:14-20 | the charge is the priced token count in micro-units, rounded down |
| QuotaRuns.PricesArePerMillion | src/gateway/usage.py:14-20 | input and output tokens are each charged at their own price per million |
| QuotaRuns.CostShortfall | src/gateway/quota.py:286-289 | a cost counter is at most the exact cost and falls short by less than one micro-unit per settled request |
| EventQueue.EventStore.ClaimBatch | src/gateway/events.py:238-269 | claims the oldest pending payloads in order, one per clock reading, until the list is empty |
| EventQueue.EventStore.ClaimNext | src/gateway/events.py:84-103 | the claim script: the oldest payload becomes a claim |
| EventQueue.EventStore.Ack | src/gateway/events.py:272-283 | each envelope is one claim less, counted with multiplicity; the other lists stay |
| EventQueue.EventStore.RetryOrDlq | src/gateway/events.py:286-312 | appends the retried payloads to pending and the exhausted ones to the dead letters, and each envelope is one claim less |
| EventQueue.RetryingSplits | src/gateway/events.py:292-310 | retried are exactly the payloads with one more attempt and fewer than 3, exhausted exactly the others, together as many as the claims |
| EventQueue.RetryAppends | src/gateway/events.py:286-312 | an event that has failed fewer than two times goes to the end of what is retried with one more failure counted, any other to the end of what is dead; what is not an object is wrapped |
| EventQueue.EventStore.Bury | src/gateway/events.py:315-329 | appends each claim's payload unchanged and in order to the dead letters, and each envelope is one claim less |
| EventQueue.EventStore.Recover | src/gateway/events.py:106-139 | the loop over a snapshot that removes by value computes the recovery that the next four rows describe, and counts what it moved |
| EventQueue.RecoveryRequeues | src/gateway/events.py:106-139 | the payloads of exactly the claims with a time up to the cutoff are appended to pending, in order |
| EventQueue.RecoveryLeaves | src/gateway/events.py:106-139 | exactly the claims after the cutoff stay inflight, in order |
| EventQueue.RecoveryLeavesYoung | src/gateway/events.py:106-139 | with multiplicity: an envelope stays as often as it was there if it is a claim after the cutoff, and not at all otherwise |
| EventQueue.RecoveryBuries | src/gateway/events.py:106-139 | exactly the malformed envelopes are appended to the dead letters, in order |
| EventQueue.RecoveredLoopEffect | src/gateway/events.py:106-139 | removal by value moves each envelope once although duplicates may exist |
| EventQueue.ClaimConserves | src/gateway/events.py:84-103 | a claim keeps the combined multiset of payloads |
| EventQueue.RecoverConserves | src/gateway/events.py:106-139 | so does a recovery |
| EventQueue.SecondRecoveryIsNoOp | src/gateway/events.py:332-367 | a second pass with the same cutoff finds nothing, so no claim is requeued twice |
| UsageTable.BuildRows | src/gateway/usage_batch.py:83-112 | the rows of a batch without its duplicates, failing exactly when one of them lacks a required column |
| UsageTable.ColumnsMatchNames | src/gateway/usage_batch.py:119-148 | every column of a row holds the event's value of the same name, or the default |
| UsageTable.UsageStore.BulkInsert | src/gateway/usage_batch.py:83-116 | writes what inserting every record one by one would, all or nothing, and counts the new rows |
| UsageTable.DistinctIsEnough | src/gateway/usage_batch.py:95-107 | dropping duplicates within the batch never changes what the unique index keeps |
| UsageTable.FirstOfEachIdIsKept | src/gateway/usage_batch.py:95-107 | of each request id the first record of a batch is kept, and every record whose id is missing, zero or empty |
| UsageTable.InsertAllEffect | src/db/bulk.py:23-67 | a batch keeps ids unique, keeps old rows, gives every id it names a row and adds nothing else |
| UsageTable.InsertAppends | src/db/bulk.py:23-67 | a row is appended exactly if it has no id or one that no row so far has |
| UsageTable.SecondInsertIsNoOp | src/db/bulk.py:23-67 | writing a batch of rows with ids a second time changes nothing, whatever the table held |
| UsageTable.RetryKeepsRow | src/gateway/events.py:425-434 | a retry raises the counter by exactly one and changes neither the row nor the id |
| EventRuns.NoEventIsLost | src/gateway/usage_batch.py:33-80 | in every interleaving of workers, with crashes between any two steps and writes that look failed although stored, every enqueued event has its row or is in pending, inflight or the dead letters |
| EventRuns.EnqueuedEventIsKept | src/gateway/usage_batch.py:33-80 | from the history alone: whenever an event was enqueued, from then on the table has exactly its row, or the lists hold it under its request id |
| EventRuns.OneRowPerEvent | src/gateway/usage_batch.py:83-148 | every row is the one built from the event as first enqueued, and its id occurs once |
| EventRuns.AttemptsAreBounded | src/gateway/events.py:286-305 | no pending event has 3 or more attempts, no dead letter more than 3 |
| EventRuns.StepKeepsInv | src/gateway/usage_batch.py:33-80 | every step of a worker, a crash, a recovery and an enqueue keep the invariant behind the three results |
| EventRuns.EnqueueAppends | src/gateway/events.py:150-172 | an enqueued event joins the end of pending |
| EventFlush.QuietFlushStores | src/gateway/usage_batch.py:33-80 | a flush that nobody interrupts and whose write succeeds inserts the rows of its records in order, buries the other payloads, takes them out of pending and leaves no claim |
| EventFlush.QuietFlushRetries | src/gateway/usage_batch.py:64-78 | one whose write looks failed, stored or not, puts every event back or among the dead letters and leaves no claim |
| EventFlush.CrashedClaimsComeBack | src/gateway/events.py:106-139 | after a crash at any point the next recovery past the claim times puts every claimed payload back in order; an earlier one leaves them |
| Outbox.Sender.Flush | src/gateway/events.py:181-197 | replays in order exactly the pushes before the first failing one and puts the failed event back in front |
| Outbox.Sender.Enqueue | src/gateway/events.py:150-178 | gets through exactly if the pushes of the whole outbox and its own work; received followed by the outbox is the enqueue order minus evicted events; an event is evicted exactly when the first push fails on a full outbox of 10,000, and it is the oldest |
| Outbox.LoseOne | src/gateway/events.py:59-68 | forgetting one event removes it from the survivors and moves no other |
| Outbox.EvictOldest | src/gateway/events.py:59-68 | what is evicted is the first event of the outbox, and only that |
| OutboxRuns.EveryEventIsInOnePlace | src/gateway/events.py:150-197 | however enqueues interleave and pushes fail, every enqueued event is in exactly one place: received once, parked, in the hands of one enqueue, or lost to a full outbox |
| OutboxRuns.StepLoses | src/gateway/events.py:166-197 | exactly what each step loses: a failed replay the event it puts back, if the outbox has at most one place left, and also the newest, if it is full; a failed push of its own event on a full outbox the oldest |
| OutboxRuns.NewestIsLostIff | src/gateway/events.py:190-197 | the newest parked event is lost exactly by a failed replay that finds the outbox full again |
| OutboxRuns.NewestIsDropped | src/gateway/events.py:190-197 | from every reachable full outbox: two enqueues whose replays fail in the other order lose the newest event while older ones stay |
| OutboxRuns.NewestIsLost | src/gateway/events.py:150-197 | a whole run of 10,002 enqueues in which that happens |
| OutboxRuns.AloneInOrder | src/gateway/events.py:150-197 | an enqueue that nobody interleaves replays oldest first until a push fails, and its event follows the others |
| PermissionCache.Session.AddAfterCommitHook | src/db/session.py:63-74 | hooks are kept in order of registration |
| PermissionCache.Session.Commit | src/db/session.py:77-98 | hooks run in order, only after a successful commit, up to the first that raises; none is left either way |
| PermissionCache.Cache.LoadSnapshot | src/auth/perm_cache.py:121-146 | for every pattern of Redis failures: a hit returns the cached snapshot, everything else the current one; the cache stays sound |
| PermissionCache.BumpIsSound | src/auth/perm_cache.py:149-175 | an increment after the commit keeps every cached snapshot as new as its key claims |
| PermissionCache.ReaderStepKeepsInv | src/core/cache.py:30-65 | generation read, GET, load and late SET of a reader each keep the invariant, with any other steps between them |
| PermissionCache.SharedStepKeepsInv | src/auth/perm_cache.py:149-175 | commits, bumps and evictions keep it |
| PermissionCache.ReadsAreFresh | src/auth/perm_cache.py:107-175 | a read returns a snapshot loaded at or after the commit of every mutation whose bump its generations count, in every interleaving |
| PermissionCache.FreshAfterBump | src/auth/perm_cache.py:107-175 | in every history in which the next hook of a writer, a bump of a user or of all, succeeds: every read of that user that begins later returns a version that includes what the writer committed |
| PermissionCache.NoReadMissesTheMutation | src/auth/perm_cache.py:107-175 | the same from the commit on: no such read returns a version from before the mutation |
| PermissionCache.HooksRunInOrder | src/db/session.py:77-98 | the hooks of a commit run in order of registration, none left out |
| PermissionCache.CommitLeavesHooks | src/db/session.py:77-98 | a commit makes the next version and all of its hooks are due after it |
| PermissionCache.BumpMisses | src/auth/perm_cache.py:149-175 | a bump makes exactly the snapshots of the user, or of everybody, unreachable |
| PermissionCache.QuietRead | src/auth/perm_cache.py:121-146 | a read that nobody interrupts, for every pattern of Redis failures: it returns the cached snapshot, or the current one, which it caches only if nothing failed |
| PermissionCache.EarlyBumpServesStale | src/db/session.py:63-74 | bumping before the commit would let a stale snapshot be served after it: why the bump is an after-commit hook |
| Snowflake.Next | src/core/snowflake.py:102-110 | the least unused stamp at a millisecond |
| Snowflake.Generator.SetWorkerId | src/core/snowflake.py:64-70 | accepts 0..1023 and nothing else |
| Snowflake.Generator.NextId | src/core/snowflake.py:77-116 | for any readings: refuses exactly on a first reading more than 1000 ms behind, leaving the state as it was; otherwise waits for the first reading with an unused stamp and takes the least one there |
| Snowflake.CallIsExact | src/core/snowflake.py:77-116 | in numbers: the refusal, the first reading with an unused number below 4096, and the number taken there |
| Snowflake.DecodeEncode | src/core/snowflake.py:30-41 | timestamp, worker and sequence decode back; the id is a positive 64-bit number exactly for 41-bit timestamps |
| Snowflake.EncodeInjective | src/core/snowflake.py:112-116 | equal ids have equal worker and stamp |
| Snowflake.FieldsDoNotOverlap | src/core/snowflake.py:112-116 | shifting and or-ing the fields in 64 bits is adding them, and shifts and masks recover them |
| Snowflake.IdsStrictlyIncrease | src/core/snowflake.py:77-116 | successive ids strictly increase for any sequence of calls and clock readings |
| Snowflake.SteadyClockMints | src/core/snowflake.py:77-116 | on a clock that goes on from call to call every call mints, with the time since the epoch, the worker and number 0 |
| WorkerLease.Registry.TryClaim | src/core/worker_id.py:179-184 | SET NX EX: succeeds exactly on a missing or expired key |
| WorkerLease.Registry.Renew | src/core/worker_id.py:67-73 | extends exactly a lease that still stores the token |
| WorkerLease.Registry.Release | src/core/worker_id.py:77-83 | deletes exactly a lease that still stores the token |
| WorkerLease.Registry.Acquire | src/core/worker_id.py:200-211 | with a clock reading of its own for each attempt: takes the least id that is free when it is asked for, and fails only when each of the 1024 was held at its turn |
| WorkerLease.ClaimTakesEffect | src/core/worker_id.py:179-184 | in a run: a claim takes an id that nobody holds for a whole lifetime and does nothing to any other |
| WorkerLease.HoldingTakesEffect | src/core/worker_id.py:67-83 | a renewal by the holder starts the lifetime again, a release by the holder frees the id, and nobody else can do either |
| WorkerLease.MintTakesEffect | src/core/snowflake.py:77-116 | a mint adds one id with the current millisecond |
| WorkerLease.IdsAreUnique | src/core/worker_id.py:179-211 | ids minted by any number of replicas are pairwise distinct in every interleaving of claim, renew, release, expiry and mint, when a released id is re-claimed at a later millisecond than its last id |
| WorkerLease.ExpiryIsSpaced | src/core/worker_id.py:120-163 | after an expiry that spacing holds by itself |
| WorkerLease.SpacingIsExact | src/core/worker_id.py:166-211 | in every reachable state, a claim can never lead to a repeated id if and only if it is spaced: after any other claim of a released id the new holder repeats an id by minting in that millisecond |
| WorkerLease.HandoverWithinOneMillisecond | src/core/worker_id.py:166-176 | the shortest such run: release and claim within one millisecond give the same id twice |
| WorkerLease.MintIsNew | src/core/snowflake.py:77-116 | an id minted by a lease holder differs from every id minted before |
| WorkerLease.ReplacedForGood | src/core/worker_id.py:67-83 | in every run from the start, handovers within one millisecond included: a replica that lost its lease never gets it back, mints nothing, and its renewals and releases change no lease |
| WorkerLease.Heartbeat.Beats | src/core/worker_id.py:120-163 | shuts down at the first beat at which the lease is lost or nothing was renewed for a whole TTL, and at no other |
| WorkerLease.FencesAfterATtl | src/core/worker_id.py:120-163 | in numbers: a beat fences exactly if the lease is lost, or it failed a whole lifetime after the last renewed beat or the start |
| WorkerLease.FenceIsPrompt | src/core/worker_id.py:131-150 | a beat that does not fence comes less than a TTL after the last renewal |
| LeaseFence.MintsEndSoonAfterTheLease | src/core/worker_id.py:120-163 | minting goes on until the heartbeat fences, renewals and answers may fail, other replicas may do anything else: every id is minted before the expiry that Redis last stored for this replica, plus the gap between answers and the lag of an answer |
| LeaseFence.BoundIsReached | src/core/worker_id.py:120-163 | that bound is exact: for every setting some run mints in the last millisecond before it |
| LeaseFence.RenewalIsKnown | src/core/worker_id.py:120-163 | a renewal that is answered keeps the holder going and fences a replica that lost its lease; one that is not counts as failed |
| LeaseFence.ReplacedIsFenced | src/core/worker_id.py:152-161 | when the key is another replica's, the next answered renewal fences |
| SessionStore.SessionStore.CreateSession | src/core/session_store.py:106-141 | stores exactly both records with their lifetimes, adds the token to the user's index and sets its lifetime, lists the user, and changes nothing else |
| SessionStore.SessionStore.RevokeAccess | src/core/session_store.py:151-170 | removes the access record, its index entry, an empty index and its bound refresh token; nothing if it is gone |
| SessionStore.RevokeAccessIsExact | src/core/session_store.py:151-170 | afterwards the access token has no record and its bound refresh token is not accepted; every other token is as before; nothing happens for a token that is gone |
| SessionStore.RevokeAccessUnindexes | src/core/session_store.py:163-168 | the token is in no index, and its user stays listed exactly if another token is indexed |
| SessionStore.SessionStore.ConsumeRefresh | src/core/session_store.py:174-210 | accepts a stored refresh token, removes it and leaves a marker, and changes nothing else; a marker without token revokes all sessions of its user; anything else is invalid and changes nothing |
| SessionStore.SessionStore.RevokeAllSessions | src/core/session_store.py:214-230 | the loop removes the records of all indexed tokens and the refresh tokens bound to the live ones |
| SessionStore.SessionStore.ListUserSessions | src/core/session_store.py:234-253 | exactly one entry for every live token in the user's index, and prunes exactly the dead ones |
| SessionStore.SessionStore.ListAllSessions | src/core/session_store.py:255-274 | exactly one entry for every live access record of anybody, while pruning |
| SessionStore.SessionStore.PruneUserIndex | src/core/session_store.py:276-280 | unlists a user exactly when its index is gone |
| SessionStore.ListingPrunesExactly | src/core/session_store.py:234-253 | after a listing the index holds exactly the live tokens of the user, and is gone and the user unlisted exactly if there are none |
| SessionStore.TickIsExact | src/core/session_store.py:106-141 | keys go exactly when the clock has passed their expiry |
| SessionStore.EventsAreTheOperations | src/core/session_store.py:106-280 | the events of the runs are the operations of the store |
| SessionStore.IndexAgreesWithRecords | src/core/session_store.py:106-141 | in every run, with expiry and pruning anywhere, the indexes cover all live records (what the listing needs), if and only if access tokens live no longer than refresh tokens |
| SessionStore.LongAccessEscapes | src/core/session_store.py:214-230 | for all longer access lifetimes, a token that outlives its index survives a revocation of all its user's sessions |
| SessionStore.RefreshIsAcceptedOnce | src/core/session_store.py:174-210 | in every run and for any lifetimes, no refresh token is accepted twice |
| SessionStore.RevokeAllIsExact | src/core/session_store.py:214-230 | revoking a user leaves no live access token of that user, touches no other, and removes exactly the refresh tokens bound to its live access records |
| SessionStore.RevokeAllUnlists | src/core/session_store.py:229-230 | it also empties the index of the user and unlists it, and nobody else |
| SessionStore.RefreshOfExpiredSessionSurvives | src/core/session_store.py:219-222 | a refresh token whose access record has expired survives that and is still accepted |
| SessionStore.ReplayIsCaught | src/core/session_store.py:193-210 | whatever happens in between, a refresh token submitted again while its marker lives is recognised; with access lifetimes at most refresh lifetimes no access token of its user is then left |
| Departments.DepartmentService.CreateDepartment | src/admin/departments/service.py:78-100 | adds the row unless the parent is not active |
| Departments.DepartmentService.ValidateReparent | src/admin/departments/service.py:159-175 | on any rows, even cyclic ones: accepts exactly no parent, or an active parent outside the department's own subtree |
| Departments.DepartmentService.UpdateDepartment | src/admin/departments/service.py:102-112 | missing first, then the parent check, then both changes at once |
| Departments.DepartmentService.DeleteDepartment | src/admin/departments/service.py:114-129 | deletes exactly an active department without active children and members, says why not, and changes no other row |
| Departments.DepartmentService.BatchDelete | src/admin/departments/service.py:131-157 | deletes in order after dropping repetitions; reports as skipped what is not deletable when its turn comes |
| Departments.BatchGoesOn | src/admin/departments/service.py:131-157 | id by id: deleted exactly if by then active, without active child and without members, reported otherwise |
| Departments.DistinctGoesOn | src/admin/departments/service.py:135-137 | the ids of a batch keep the order of their first occurrence |
| Departments.BatchReportIsExact | src/admin/departments/service.py:131-157 | a batch deletes exactly the ids it does not report as skipped and changes no other row |
| Departments.DepartmentService.ListDepartments | src/admin/departments/service.py:47-71 | with a keyword, exactly the matches and their ancestors in the original order, on any rows |
| Departments.KeepIsInOrder | src/admin/departments/service.py:71 | filtering keeps the order |
| Departments.ContainsSomewhere | src/admin/departments/service.py:58 | a name matches exactly when the keyword occurs somewhere in it |
| Departments.WalkedAncestors | src/admin/departments/service.py:60-69 | a walk that stops at a root, a missing parent or a visited department has visited exactly the ancestors |
| Departments.MoveKeepsForest | src/admin/departments/service.py:159-175 | an accepted parent keeps every chain of parents finite and active |
| Departments.DeleteKeepsForest | src/admin/departments/service.py:122-128 | deleting a department without active children keeps it too |
| Departments.AlwaysAForest | src/admin/departments/service.py:78-157 | after every sequence of creates, updates, deletes and batch deletes, active departments form a forest with active parents |
| Departments.EventsTakeEffect | src/admin/departments/service.py:78-157 | the operations of those sequences with their conditions spelled out |
| Departments.ConcurrentMovesIff | src/admin/departments/service.py:159-175 | two moves validated before either is written leave a forest exactly when the new parents are not below each other's department |
| Departments.ConcurrentMovesMakeACycle | src/admin/departments/service.py:159-175 | the shortest case that makes a cycle |
| Departments.MoveAndDeleteIff | src/admin/departments/service.py:114-175 | a move and a deletion validated before either is written leave a forest exactly if the department is not moved under the deleted one |
| SseUsage.Accumulator.Accumulate | src/gateway/router.py:1223-1291 | folds the complete lines into the usage, keeps the rest in the buffer whether or not it stops, stops at the first event that cannot be read |
| SseUsage.SplitJoin | src/gateway/router.py:1237-1238 | splitting at line feeds loses nothing |
| SseUsage.SplitGoesOn | src/gateway/router.py:1234-1238 | splitting can stop anywhere and go on from the last piece |
| SseUsage.ChunkingDoesNotMatter | src/gateway/router.py:1223-1291 | however a text is cut into chunks, usage, buffer and failure are those of the whole text |
| SseUsage.AnthropicUsageIsLast | src/gateway/router.py:1247-1258 | after any chunks: the last input count, the last output count, and their sum as total |
| SseUsage.GeminiUsageIsLast | src/gateway/router.py:1283-1291 | after any chunks: the last usage reported with a total |
| SseUsage.AnthropicPaths | src/gateway/router.py:1223-1258 | counts are read, from any JSON value that int() takes, from message.usage.input_tokens of a message_start and usage.output_tokens of a message_delta; zero counts and other events say nothing |
| SseUsage.UnreadableBreaks | src/gateway/router.py:1241-1291 | an event that is not an object, or whose count is not a number, ends the parsing |
| SseUsage.HoldersAreObjects | src/gateway/router.py:1248-1291 | a message or usage that is null, false, zero or empty says nothing, any other that is not an object ends the parsing |
| SseUsage.MissingCountSaysNothing | src/gateway/router.py:1248-1258 | a count that is missing from its object is zero and says nothing |
| SseUsage.MissingCountsAreZero | src/gateway/router.py:1248-1291 | so it is for Gemini, where an event without prompt and completion counts still reports its total |
| SseUsage.OnlyDataLinesAreEvents | src/gateway/router.py:1239-1246 | exactly the lines that begin with `data: ` and go on with JSON are events |
| SseUsage.GeminiPaths | src/gateway/router.py:1261-1291 | the three counts are read from their places under usageMetadata; without it, or with a total of zero, an event says nothing |

## Left out

- The Redis-error path of admission and its process-local emergency cap: an emergency-admitted request is settled without having reserved, so bucket conservation is stated without Redis errors.
- The remaining-count fields of the admission result, the fixed waits of 10 and 5 seconds that it names for tokens and streams, the estimate of tokens from the request body, and metrics.
- AdmissionRuns.DeniedLeavesNoEntry: bucket answers are left open while requests interleave, and a key expires by a step of its own; rolled-back tokens are covered for a request that runs alone.
- RateLimiter.Store.CheckRateLimits: asks for rules with distinct keys, since every key holds the rule's primary key.
- SlidingWindow.EveryWindowHoldsAtMostLimit: readings arrive in order; `SkewedWindow.SafeSpansAreShorterByTheDelay` says what holds when they do not.
- SlidingWindow.ActiveStreamsKeepTheirSlots: only for streams that do release; the upstream-error branches of the routers end a stream without releasing its slot.
- QuotaLedger.QuotaStore.Check: is the loop of the script and of its fallback for clients without scripts; interleavings within the fallback are not modelled. Soft-limit warnings and log lines are left out.
- QuotaRuns.TokenAskIsExact: limits are not negative, as in `CostAskIsExact` and `RequestAskIsExact`; the schema (`src/admin/quota/schemas.py`) takes positive ones only.
- QuotaRuns.CountersAreConserved: names of scopes, ids and models within a key are one number each.
- Finalize.RequestContext.SettleQuota: a settlement that fails in Redis is recorded among the billing dead letters and not retried by the code; that path is not modelled. Neither is a second finalization, which would settle token buckets again.
- Queue commands that fail half-way inside a worker are modelled as a crash of that worker; `observability.py` follows the same protocol for log events.
- OutboxRuns.EveryEventIsInOnePlace: a push that fails is taken as not stored, and cancelling an enqueue in the middle of a push is not modelled. The outbox is process memory: a restart loses it.
- EventRuns.OneRowPerEvent: an event enters with a request id of its own that is not empty; rows without one are inserted each time.
- The conversion of an event's values to column types, and generated row ids.
- PermissionCache.ReadsAreFresh: a failed increment leaves a snapshot in place until its lifetime ends, so only successful increments count; expiry of snapshots is the eviction step. `src/gateway/cache.py` and `response_cache.py` read generations again when storing, so the result does not carry over to them.
- WorkerLease.IdsAreUnique: minting happens while the token is in Redis. During a partition the delay bounded by `LeaseFence.MintsEndSoonAfterTheLease` is what holds. The single-process fallback to worker 0 is left out.
- LeaseFence.MintsEndSoonAfterTheLease: a fenced replica is asked to shut down; ids it mints while it drains its last requests are not part of the model.
- SessionStore: operations are atomic, and records parse since the store wrote them.
- Departments.AlwaysAForest: operations follow each other; what two concurrent moves can do is stated separately. Row locks, sort order and audit columns are left out.
- SseUsage.ChunkingDoesNotMatter: chunks are cut between characters; a chunk boundary inside a multi-byte character decodes to replacement characters. Numbers that are not finite and errors other than a failed parse are left out.
- Channel health, login throttling, client addresses, endpoints, provider calls, cryptography, migrations and the other admin modules.
