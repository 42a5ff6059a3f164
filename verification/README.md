# Mellomting: a Dafny model of its admission, scheduling, accounting and publication logic

Mellomting is a reverse proxy for inference servers. This project models the state machines and
byte-level parsers at its core and proves what they keep. Code that works by changing state is a class or a
method with loops; concurrent protocols are transition systems whose runs are arbitrary interleavings; what
comes from outside (clocks, map iteration order, contexts, backends, system calls and other processes) is a
parameter, so every theorem holds for all of it.

| file | what it models |
|---|---|
| `InitCommit.dfy` | the `init` transaction: three files created, filled, linked and unlinked, with rollback, under any schedule of failing system calls and of changes by other processes |
| `Limiter.dfy`, `KeyLimits.dfy` | token buckets, per-key concurrency bounds, both carried over key-store reloads, and requests on old and new generations using them at once; the bounded per-source limiter |
| `SmoothRoundRobin.dfy`, `Routing.dfy` | the five routing strategies, exclusion and passive health |
| `Dispatch.dfy` | the gates, the retry and fallback loop, its single outcome and its single accounting call |
| `Admission.dfy` | a backend's concurrency and queue slots: acquire, every exit of `Forward`, racing calls of `Close` on a result, drain |
| `ByteBudget.dfy` | the compare-and-swap budget for buffered bodies and a request's reservations against it |
| `TokenQuota.dfy`, `QuotaOvershoot.dfy` | hour and day token windows, their replay from the log, and how far concurrent requests can overshoot a limit |
| `Charging.dfy` | the startup check on quotas, the request gates, the output cap, the reservation, settlement and the record of it |
| `UsageWriter.dfy` | the usage-log queue, its consumer, `Close`, and the overflow alert |
| `Scanner.dfy` | the bounded line scanner and the replay of a file's tail |
| `Sse.dfy`, `JsonString.dfy`, `Peer.dfy` | the server-sent-event splitter, the strict JSON string decoder, the forwarded-address walk |
| `Affinity.dfy` | the bounded table that pins responses to backends |
| `Bytes.dfy`, `Int64.dfy`, `Options.dfy`, `Sums.dfy` | octets and lines, 64-bit wrap-around, optional values, weighted sums |

## Where the code and its promises part

Each of these is a lemma or an `ensures` clause below.

- The byte budget is exact in every interleaving if and only if no sum `Acquire` forms leaves int64
  (`ByteBudget.ExactIffNoWrap`); `2 * total <= MaxInt64` is enough (`ByteBudget.HalfIsEnough`), but validation
  does not require it.
- A temporary whose `fstat` fails right after its exclusive create is unknown to the run and stays behind. A
  rollback whose own calls work restores the directory if and only if the schedule of calls has no such failure
  (`InitCommit.Commit` with `LeavesBehind`; `OneFstatFailureLeavesAFile` runs one such schedule). On success the
  directory's descriptor stays open.
- The config can end up visible without its two companions. The rollback removes its name first, but ignores a failure
  to do so and removes the others all the same. A run ends that way, or ever shows that state, if and only if the config
  was published, a later call failed, the rollback's `lstat` or `unlink` of the config's name fails, and both calls for
  one of the other two names work: a condition on the schedule of calls (`InitCommit.Commit` with `Exposes`,
  `InitCommit.Rollback` with `Bares`). It takes two failing calls (`CommitUnderOneFailure`);
  `TwoFailuresBareTheConfig` runs one such schedule.
- A settlement and its record read the clock separately, and a settlement may take the lock late. A complete log
  restores a window exactly if and only if as many tokens were recorded in it that landed in another window as landed in
  it and were recorded in another, or both counts are saturated (`TokenQuota.ReplayEqualsLiveIff`). Whatever the writer
  drops or reorders, replay stays within the live count if and only if the former are not more than the latter, or the
  live count is saturated (`ReplayWithinLiveIff`); so it does when no window boundary falls between the two readings
  (`ReplayNeverExceedsLive`). `LateSettleIsOvercounted` and `BoundaryRecordIsOverRestored` are the two ways to differ.
- The sharp overshoot of a token limit L with N concurrency slots and reservations R is L + (N - 1) * R when no
  settlement exceeds its reservation, for every R from 1 to the tightest limit (`QuotaOvershoot.OvershootBound`,
  `BoundIsReached`); exact usage can exceed it, and then the excess counts once for every slot.
- After `Close` every completed `Enqueue` is written or counted as dropped if and only if no `Enqueue` was between
  its check and its send when `Close` returned (`UsageWriter.NothingLostIff`; a writer's queue has room for at least one record).
- Round robin is exact over any round unless the counter wraps 2^64 inside it, and then if and only if the number of
  replicas divides 2^64 (`Routing.RoundRobinFairIff`).
- The branch that leaves the retry loop because nothing can be selected is dead for named backends
  (`Dispatch.GivesUpForCause`).
- A backend that reports a negative token count and nothing positive makes the request free, because its usage
  object counts as present; that is the only free success under a configuration the quota check accepts
  (`Charging.SuccessIsCharged`, `NegativeReportIsFree`).
- Settlement looks at the status only when usage is unknown: an answer below 200 with a positive report is
  charged, and nothing else that is not a success (`Charging.ErrorsSettleNothing`).
- The JSON string decoder accepts an unescaped quotation mark inside the literal, and accepts exactly the strings of
  section 7 of RFC 8259 otherwise (`JsonString.StrictIff`, `BareQuoteAccepted`). Its comment says it fails closed on
  invalid UTF-8. It does not look at UTF-8: what it accepts comes out valid if and only if it went in valid
  (`JsonString.ValidOutIffValidIn`, `InvalidUtf8Accepted`); `validModelID` refuses the rest afterwards.
- Tail replay discards its opening fragment with a single `ReadSlice`; a fragment at least as long as the buffer
  and shorter than two buffers leaves its rest to be visited as if it were a line (`Scanner.TailReplayExact`).

## Model

| member | source | states |
|---|---|---|
| InitCommit.Commit | cmd/mellomting/init.go:692-837 | with no other process at work: whether it commits is a condition on the schedule of calls (next row); success leaves exactly the three new names, complete, and no temporary; a refusal changes nothing; a rollback whose own calls work restores the directory exactly if and only if no fstat failed right after a create, a condition on the schedule of calls, and otherwise adds that one temporary; without name clashes the call before a rollback failed; every state shows our config name only with both authentication files visible and complete, if and only if the schedule does not make the run fail after the config is published, the rollback's lstat or unlink of its name fail, and the removal of another name work; a run on such a schedule ends with the config bare |
| InitCommit.CommitsIffSucceeds | cmd/mellomting/init.go:700-837 | that condition spelled out: the directory passes every check, the names are free, and every one of the calls works, except that an fchown need not be permitted and then has no fchmod after it |
| InitCommit.CommitUnderOneFailure | cmd/mellomting/init.go:692-837 | when at most one call of a run does not work, the run commits or leaves the directory as it was, unless that call was an fstat after a create; and the config is never seen without its companions |
| InitCommit.TwoFailuresBareTheConfig | cmd/mellomting/init.go:816-874 | for every directory with the six names free, the run in which only the last sync and the rollback's unlink of the config fail ends with the config visible and a companion missing |
| InitCommit.OneFstatFailureLeavesAFile | cmd/mellomting/init_commit_linux.go:57-68 | for every directory with the names free, the run in which only that fstat fails leaves the temporary behind |
| InitCommit.Rollback | cmd/mellomting/init.go:857-874 | only inodes this run created are unlinked, even with foreign changes, if none falls between an lstat and the unlink after it; when all its calls work the result is the entries without our finals and temporaries; the config name goes first: when it was not out, or both calls for its name work, every state is safe whatever the other calls do; from three published files the rollback shows and leaves the config bare if and only if one of those two calls fails and both calls for another name work |
| InitCommit.Publish | cmd/mellomting/init.go:839-855 | publishing keeps the run restorable and safe at every step and marks the file published exactly when its name was linked |
| InitCommit.Directory.Create | cmd/mellomting/init_commit_linux.go:57-68 | exclusive create followed by fstat, each of which may fail, with the state after each call |
| InitCommit.RollbackRestores | cmd/mellomting/init.go:857-874 | from every state a run can reach, removing our finals and then our temporaries gives back the initial entries, plus a file left behind |
| InitCommit.ExactlyPublished | cmd/mellomting/init.go:816-836 | once all three are linked and their temporaries gone, the directory is the initial one plus three new, distinct names |
| InitCommit.HeldIsSafe | cmd/mellomting/init.go:814-829 | the invariant of a run implies the safety of what another process sees: config present means both authentication files present and complete |
| Limiter.RateBound | internal/limiter/limiter.go:39-73 | for any timestamps, also backwards ones, the level stays in 0..cap, the clock never moves back, and a run of calls admits at most cap plus rate times the elapsed time |
| Limiter.DeniedExactlyWhenBoundWouldBreak | internal/limiter/limiter.go:56-73 | a call is denied if and only if admitting it would break the rate bound of some window of calls or of the whole history |
| Limiter.LevelIsLeastSlack | internal/limiter/limiter.go:56-73 | the bucket's level is the least slack over all windows that end now: the lazy form computes the sliding-window bound exactly |
| Limiter.RetryAfterIsExact | internal/limiter/limiter.go:67-73 | a denied call that waits d is admitted if and only if d is at least the reported wait |
| Limiter.Bucket.Allow | internal/limiter/limiter.go:56-73 | refines the level function the bounds are proved about |
| Limiter.Concurrency.Acquire | internal/limiter/limiter.go:93-103 | takes a slot if and only if one is free; holders never exceed the limit |
| KeyLimits.SameStateThroughReloads | internal/limiter/limiter.go:170-257 | a materialised key that every reload keeps with unchanged limits gets the same bucket and the same concurrency bound on that generation and every later one, however requests on old and new generations interleave; its holders over all generations together never exceed its limit |
| KeyLimits.RateAcrossReloads | internal/limiter/limiter.go:150-170 | between any two moments of such a history the key's requests let through are at most capacity plus rate times the time its clock advanced: no reload grants a fresh burst |
| KeyLimits.FirstLookUpShares | internal/limiter/limiter.go:201-257 | such a history starts with the key's first look-up, however many other requests have loaded that generation |
| KeyLimits.RefusedByRateIff | internal/limiter/limiter.go:56-73 | over any such history, a request is refused at its rate check if and only if letting it through would break the bound of some window of the key's checks on all generations, or of the whole history |
| KeyLimits.UnlimitedRate | internal/limiter/limiter.go:233-257 | without a rate limit no request is refused at that check |
| KeyLimits.RefusedASlotIff | internal/limiter/limiter.go:93-103 | and refused a slot if and only if the limit is set and that many requests, over all generations, hold one |
| Limiter.DerivedBurstIs | internal/limiter/limiter.go:224-231 | a burst that is set stands; otherwise it is the whole part of the rate, and at least one |
| Limiter.MaterialisingKeepsPromise | internal/limiter/limiter.go:201-257 | materialising any key, on any generation, keeps what the generation promises a key, and hands out the promised state |
| Limiter.ReloadKeepsPromise | internal/httpapi/server.go:124-129 | a reload passes the promise of a kept key on and carries state of no other key |
| Limiter.Registry.Carrying | internal/limiter/limiter.go:170-197 | builds the next generation the reload theorems speak of |
| Limiter.Registry.For | internal/limiter/limiter.go:201-257 | materialises a key by the rule the reload theorems speak of, reusing carried state only under equal limits |
| SourceLimiter.SourceRegistry.EvictOldest | internal/limiter/limiter.go:338-353 | for every map order, the victim is the least recently touched of the probed sources |
| SourceLimiter.SourceRegistry.Allow | internal/limiter/limiter.go:310-334 | the table never exceeds its cap; other sources are untouched except one victim, the true oldest when the cap is at most 64 |
| SourceLimiter.SourceRateBound | internal/limiter/limiter.go:310-353 | in every run of calls for any sources, between two moments between which a source is not evicted, its calls let through are at most the burst plus rate times the time its bucket's clock advanced |
| SmoothRoundRobin.NextWrr | internal/routing/router.go:243-271 | one call raises every eligible counter by its weight, picks the first largest and charges it the total |
| SmoothRoundRobin.PicksTheFirstLargest | internal/routing/router.go:243-271 | in numbers: no eligible replica's counter plus weight exceeds the pick's, and an earlier one's falls short |
| SmoothRoundRobin.CountersSumToZero | internal/routing/router.go:243-271 | from zero, counters sum to zero after every call, for arbitrary changing eligible sets |
| SmoothRoundRobin.Proportional | internal/routing/router.go:243-271 | with a fixed eligible set of total weight W, after k calls each counter is k*w - W*picks and above -W, so no replica is a full pick ahead of its share |
| SmoothRoundRobin.FullRound | internal/routing/router.go:243-271 | after exactly W calls every replica was picked exactly its weight times and all counters are zero again |
| Routing.Router.Select | internal/routing/router.go:153-241 | with the clock as each replica is looked at and the load as each comparison reads it: the target is a replica that was not tried and is in no cooldown, chosen by the model's strategy (the first such; the smallest load; the smallest load for its weight, compared by cross-multiplying; or the round robins of the other rows), only that strategy's state moves, and no target is returned exactly for an unknown model, when no replica is eligible, or for a strategy that is not implemented |
| Routing.RoundRobinTurn | internal/routing/router.go:173-195 | a round-robin selection, whatever is excluded or cooling down: the counter, zero at first, advances by one in a uint64, and the pick is the usable replica nearest to it round the ring |
| Routing.WeightedTurn | internal/routing/router.go:196-200 | a weighted selection is one call of the smooth scheme on the model's own counters, zero at first or when its replicas changed |
| Routing.RoundRobinFairIff | internal/routing/router.go:173-195 | while all n replicas are eligible, n consecutive calls pick each exactly once if and only if the uint64 counter does not wrap between them or n divides 2^64 |
| Routing.Router.RecordFailure | internal/routing/router.go:356-367 | one step of the failure history below |
| Routing.Router.RecordSuccess | internal/routing/router.go:370-375 | the other step: the streak is forgotten |
| Routing.CooldownSchedule | internal/routing/router.go:356-367 | the capped shift is the schedule 5, 10, 20, 40, 60 seconds |
| Routing.UnavailableExactlyInCooldown | internal/routing/router.go:349-375 | over any history of reports, a backend is unavailable exactly while the cooldown of its own current failure streak runs |
| Dispatch.Dispatch | internal/proxy/proxy.go:207-519 | the trace of a whole request: a gate's refusal, or attempts that follow the selection rules and an ending that is right for what the world answered, then one accounting call with the outcome's status |
| Dispatch.SingleOutcome | internal/proxy/proxy.go:215-258 | every run has exactly one outcome and one accounting call, and at most max(1, max_attempts) forwards, all before the outcome |
| Dispatch.RepeatsOnlyWhenForced | internal/proxy/proxy.go:346-361 | a backend is asked twice only if it is pinned or the router had nothing left to offer, and then it is the last one that failed |
| Dispatch.GateStatuses | internal/proxy/errors.go:26-53 | the HTTP status of each refusal of a gate |
| Dispatch.Ask | internal/proxy/proxy.go:346-361 | what the loop is offered is an answer of the modelled router |
| Dispatch.RouterHonoursExclusion | internal/routing/router.go:153-171 | what the router may answer, in any state and at any time, is never an excluded backend, which is what the previous row asks of it |
| Dispatch.RoutedRepeatsOnlyWhenForced | internal/proxy/proxy.go:346-361 | so with the router in the loop no run repeats a backend otherwise |
| Dispatch.RetriesExactlyTransient | internal/proxy/errors.go:99-135 | an attempt is followed by another only after a failure to connect, a dial timeout, a full or timed-out queue, or an upstream 429, 502, 503 or 504; a run with a named backend whose last error is one of these gives up only with max(1, max_attempts) attempts made |
| Dispatch.BackendsByTheRules | internal/proxy/proxy.go:343-361 | every attempt goes to the pinned backend, or to the router's offer given those already tried, or, without one, to the last that failed, and only after the client, the encoding, the backoff and the backend were found in order |
| Dispatch.MarksForCause | internal/proxy/proxy.go:362-470 | health is marked down exactly for failures to connect and dial timeouts, up exactly for answers, and the loop backs off exactly before a repeat |
| Dispatch.AnswerOfEachError | internal/proxy/errors.go:99-135 | the HTTP status of the envelope, error by error, and the same status accounted |
| Dispatch.AnswerOfEachEnding | internal/proxy/proxy.go:296-519 | what the client gets and what is accounted for every other ending: 499 when it left, 503 without a backend, 500 or 400 for internal failures, the response otherwise |
| Dispatch.GivesUpForCause | internal/proxy/proxy.go:348-361 | giving up means a failure that may not be retried or a spent budget |
| Dispatch.RetryAfterIsTheFinalAttempts | internal/proxy/proxy.go:434-447 | a forwarded Retry-After is the final attempt's own, on its own 429, and every 429 carries one |
| Admission.TokensConserved | internal/backend/backend.go:556-753 | in every interleaving of requests, exits and closes, concurrency tokens are exactly the live holds and queue tokens exactly the callers in the wait section, both within capacity |
| Admission.AnswerIff | internal/backend/backend.go:556-616 | in every state of every run, what acquire can answer a thread that moves alone: admission if and only if a slot is free (at the fast path, and nothing else unless the client left; and for a waiter); each refusal if and only if its cause holds |
| Admission.EveryAnswerHasItsCause | internal/backend/backend.go:556-616 | in every interleaving: who is refused as canceled is, as draining after the drain, as finding the queue full after finding every slot taken and then the queue full, as timing out after waiting in the queue; who is admitted found a free slot |
| Admission.EndIff | internal/backend/backend.go:619-753 | how `Forward` can end from every state: handing on a stream only when one was asked for and answered with status 200, an upstream error exactly from status 300 on, a timeout only for a bounded stream request |
| Admission.ReadOrHanded | internal/backend/backend.go:680-753 | a body is read into memory exactly unless it is a requested event stream with status 200 |
| Admission.ReleasedExactlyOnce | internal/backend/backend.go:521-553 | a hold is given back at most once; exactly once by the time any exit of `Forward` that keeps it returns; a handed-on hold not before somebody closes the Result, and exactly once as soon as any of any number of racing `Close` calls has returned |
| Admission.SomeCloserMoves | internal/backend/backend.go:521-536 | `Close` cannot deadlock: while one call on a Result has not returned, a call on it can move |
| Admission.NoAdmissionAfterDrain | internal/backend/backend.go:556-570 | an acquire that starts after drain never holds or queues |
| Admission.DrainReleasesWaiters | internal/backend/backend.go:556-616 | once drained, every caller inside acquire has an enabled step of its own, and each of its steps brings its return nearer |
| Admission.ReleaseNeverBlocks | internal/backend/backend.go:543-553 | the token a release or a leave takes out is always there |
| Admission.InflightCounts | internal/backend/backend.go:814-824 | the reported number is every active or waiting request once, plus those admitted from the queue whose deferred leave has not run |
| ByteBudget.ExactIffNoWrap | internal/proxy/budget.go:32-51 | the counter is 16 times the live reservations and within the budget in every interleaving, if and only if no sum can wrap int64 |
| ByteBudget.BodiesAreCovered | internal/proxy/proxy.go:717-761 | when no sum wraps, in every interleaving sixteen times the bytes of body in memory are within what is reserved and within the budget, declared or chunked; each body is exactly as long as what its request holds, and within the limit |
| ByteBudget.ReservedBeforeReading | internal/proxy/proxy.go:734-745 | while a body is read, its declared length, or the whole limit for a chunked body, is reserved |
| ByteBudget.AcquiresIffItFits | internal/proxy/budget.go:32-45 | an undisturbed request gets its reservation if and only if it fits what the live requests leave of the budget |
| ByteBudget.EntersFor | internal/proxy/proxy.go:724-745 | who is refused before the counter is looked at, and why |
| ByteBudget.ReadsFor | internal/proxy/proxy.go:1188-1200 | too large exactly for a body over the limit, declared or sent |
| ByteBudget.ReadsAnyBody | internal/proxy/proxy.go:747-759 | every body within the limit can be read, and the excess of its reservation is given back |
| ByteBudget.ReadMayFail | internal/proxy/proxy.go:747-753 | a read may fail instead, and what was reserved stays held until the release |
| ByteBudget.AllReturned | internal/proxy/proxy.go:717-761 | when every request has run its deferred release nothing stays reserved |
| ByteBudget.WrappingBreaks | internal/proxy/budget.go:32-45 | when a sum can wrap, some run ends inexact |
| ByteBudget.HalfIsEnough | internal/proxy/budget.go:32-45 | no sum wraps when twice the total fits int64 |
| TokenQuota.Quota.Admit | internal/accounting/quota.go:73-88 | exactly which window refuses, and that admission only rolls windows |
| TokenQuota.OverIff | internal/accounting/quota.go:73-88 | a limited window refuses if and only if count plus reservation exceed its limit, although the subtraction is in int64 |
| TokenQuota.Quota.Settle | internal/accounting/quota.go:92-101 | adds to both windows of one key |
| TokenQuota.Quota.Replay | internal/accounting/quota.go:248-280 | rebuilds the windows the replay theorems speak of, one record at a time |
| TokenQuota.SatAddClamps | internal/accounting/quota.go:40-55 | saturating addition is exact addition clamped to 0..MaxInt64, in wrapping arithmetic |
| TokenQuota.WindowKeyMonotone | internal/accounting/record.go:217-225 | window keys never move backwards in time |
| TokenQuota.LiveCounts | internal/accounting/quota.go:92-134 | a live window holds the clamped sum of what was settled into it, for any clock values |
| TokenQuota.ReplayCounts | internal/accounting/quota.go:257-280 | a replayed window holds the clamped sum of what the records stamped in it are worth, for any log: charged tokens, or the total of a record without them |
| TokenQuota.ReplayEqualsLiveIff | internal/accounting/quota.go:92-280 | for any interleaving of admits and settles at times up to now, with a time of its own in each settle's record: a complete log in any order restores a window exactly if and only if the charges recorded in it that landed elsewhere add up to those that landed in it and were recorded elsewhere, or both counts are saturated; for the hour and the day |
| TokenQuota.ReplayWithinLiveIff | internal/accounting/quota.go:92-280 | replaying at now any log that holds some of their records in any order never counts more than the live state rolled to now, if and only if the former add up to no more than the latter, or the live window is saturated |
| TokenQuota.ReplayNeverExceedsLive | internal/accounting/quota.go:92-280 | so it never counts more when no boundary of the window falls between the two clock readings of a settle |
| TokenQuota.ReplayEqualsLiveInOrder | internal/accounting/quota.go:92-280 | and a complete log then restores everything when the calls' times do not go backwards |
| TokenQuota.LateSettleIsOvercounted | internal/accounting/quota.go:105-134 | a settle stamped in an earlier hour than an admit that went before it is live in the new hour and restored to none |
| TokenQuota.BoundaryRecordIsOverRestored | internal/proxy/proxy.go:1408-1413 | a settle in one hour whose record is stamped in a later one is restored to the later hour, where nothing is live |
| QuotaOvershoot.OvershootBound | internal/httpapi/server.go:221-350 | in every interleaving of slot, admission, settlement and release, settled plus outstanding tokens never exceed limit + (slots - 1) * reservation, plus what settlements exceed their reservations by |
| QuotaOvershoot.BoundIsReached | internal/accounting/quota.go:73-101 | for every setting of the limits and every reservation up to the tightest one, some run reaches the bound |
| QuotaOvershoot.UnboundedWithoutSlots | internal/limiter/limiter.go:93-103 | without a concurrency limit no number bounds it |
| Charging.CheckQuotaEnforceable | cmd/mellomting/serve.go:407-451 | computes the verdict the next row characterises, for every map order |
| Charging.CheckIsExact | cmd/mellomting/serve.go:407-440 | given a key with a quota, a configuration is accepted if and only if every request the gates let through reserves a positive amount |
| Charging.PassesExactly | internal/proxy/proxy.go:576-657 | a request passes the gates if and only if, by model, it is configured, allowed and of the endpoint's type, streams only where tokens are generated, and continues in its model, or, by response ID, this key owns the response under a model it may still use; it then goes to the owning backend |
| Charging.Body.PrepareOutbound | internal/proxy/proxy.go:1246-1367 | which bodies are refused, what is reserved, and the exact change to the body, field by field; under the setting, every streamed chat or completion request leaves asking for usage |
| Charging.CappedIsWithinCap | internal/proxy/proxy.go:1255-1284 | every forwarded generative body states a limit within the cap under some field and none above it, and a client's own fields are unchanged; a body without a limit gets the cap itself |
| Charging.Account | internal/proxy/proxy.go:1398-1433 | settlement and the record of one request |
| Charging.Serve | internal/proxy/proxy.go:287-305 | a whole request, from its gates over preparation and admission to settlement, computes the outcome the next rows speak of; what it sends stays within the output cap and asks for usage where it must |
| Charging.ServedIs | internal/proxy/proxy.go:262-305 | what any request comes out as, from the request, the quota state and the answer alone: the status of each refusal, 429 exactly when a limited window would be exceeded; otherwise the report's total within 2^40, or the sum of its parts, or the fallback, is charged and recorded |
| Charging.CapAcceptsIff | internal/proxy/proxy.go:1255-1284 | limit fields are accepted if and only if each one present is an integer from 0 to the cap |
| Charging.CheckNamesTheCause | cmd/mellomting/serve.go:407-451 | without a quota only ineffective settings are refused; the models a refusal names are exactly those some servable request of which reserves nothing |
| Charging.SuccessIsCharged | internal/proxy/proxy.go:1237-1288 | a model-routed success is charged the configuration's fallback when usage is unknown, whatever the client wrote, and exactly the reported amount otherwise; under an accepted configuration with a quota it is charged something if and only if it does not report negative counts only |
| Charging.ReplayChargesWhatWasSettled | internal/accounting/quota.go:257-265 | every record account writes replays as exactly the amount that was settled |
| Charging.QuotaAlwaysAdvances | cmd/mellomting/serve.go:419-440 | under an accepted configuration with a quota, every model-routed success whose usage stays unknown moves both windows of its key |
| Charging.ErrorsSettleNothing | internal/proxy/proxy.go:1393-1409 | a request that does not end in success settles nothing, except an answer below 200 with a positive report, which is charged that |
| UsageWriter.RecordsConserved | internal/accounting/writer.go:92-195 | completed enqueues equal written, dropped, queued and in hand; records keep their order |
| UsageWriter.DropsForCause | internal/accounting/writer.go:92-215 | every drop has one of four causes: a closed writer, a full queue, a failed write, or being left behind at Close |
| UsageWriter.SubmittersGetIn | internal/accounting/writer.go:92-117 | an enqueue is dropped exactly when it finds the writer closed or, at its send, the queue full |
| UsageWriter.WriteMayFail | internal/accounting/writer.go:132-195 | a failed write drops its record and the consumer goes on |
| UsageWriter.ConsumerWritesAll | internal/accounting/writer.go:132-195 | from every reachable state the consumer alone, while writes work, writes all that is queued, in order |
| UsageWriter.CloseReturns | internal/accounting/writer.go:198-215 | from every reachable state with the consumer running, Close can return with all of that written and nothing more dropped |
| UsageWriter.SubmittedIsWrittenOrDropped | internal/accounting/writer.go:198-215 | when no enqueue is at its send as Close returns, every record submitted then or later is written or dropped |
| UsageWriter.QuietAfterClose | internal/accounting/writer.go:92-125 | after that no enqueue reaches its send again |
| UsageWriter.NothingLostIff | internal/accounting/writer.go:198-215 | whatever follows, every completed enqueue is written or counted as dropped if and only if no enqueue was at its send when Close returned |
| UsageWriter.LateSendIsLost | internal/accounting/writer.go:92-215 | from any state in which Close returns with an enqueue at its send, that record can be lost |
| AlertCadence.AlertsSpaced | internal/accounting/writer.go:119-125 | alerts claimed under contention are at least the cadence apart, whatever the callers' clocks say |
| AlertCadence.ToldForCause | internal/accounting/writer.go:119-125 | each claim is told to exactly one caller, and another is turned away only because it was early or somebody claimed since it looked |
| AlertCadence.AloneIsTold | internal/accounting/writer.go:119-125 | a caller that is not early and is undisturbed is told to alert, and the next is due thirty seconds after it |
| Scanner.ScanBounded | internal/accounting/quota.go:216-246 | visits, in order, exactly the lines shorter than the buffer, also when the last has no newline or reading fails, and ends |
| Scanner.VisitsAreFittingLines | internal/accounting/quota.go:212-246 | that is splitting at every newline and filtering by length |
| Scanner.Replay | internal/accounting/quota.go:151-203 | what is visited for every size and window, also when reading fails, which is reported |
| Scanner.TailReplayExact | internal/accounting/quota.go:170-198 | tail replay visits exactly the whole lines inside its window, the first included on a boundary, if and only if no over-long opening fragment leaks |
| Scanner.TailReplayOfRecords | internal/accounting/quota.go:151-203 | when every line fits, it is exact |
| Sse.SseParser.NextEvent | internal/proxy/sse.go:50-114 | refines the step function the stream theorems speak of, and leaves the parser reset |
| Sse.ParserIsReference | internal/proxy/sse.go:50-159 | for every byte stream, the events and the error are those of normalising CR, LF and CRLF, splitting into lines and grouping nonblank lines, with the final unterminated group flushed |
| Sse.RelayIsIdempotent | internal/proxy/sse.go:44-114 | parsing what was relayed gives the same events again |
| Sse.NothingLost | internal/proxy/sse.go:44-102 | no nonblank line of a cleanly parsed stream is dropped, altered or reordered |
| Sse.EventsBounded | internal/proxy/sse.go:18-24 | every event is nonempty and within its bound |
| Sse.Progress | internal/proxy/sse.go:50-102 | every call that returns an event consumes input |
| Sse.ReadIsFirstLine | internal/proxy/sse.go:115-159 | reading a line with any terminator reads the first line of the normalised stream, within the line bound, or says why not |
| JsonString.DecodeJsonString | internal/discovery/discovery.go:221-295 | refines the decoder the next rows speak of |
| JsonString.JsonHex16 | internal/discovery/discovery.go:297-314 | accepts exactly hexadecimal digits in either case and computes their value in 16 bits |
| JsonString.ShortEscapes | internal/discovery/discovery.go:246-266 | the eight short escapes by code point, and no other |
| JsonString.DigitsAreTheirPositions | internal/discovery/discovery.go:297-314 | the sixteen hexadecimal digits in either case stand for their positions, and no other byte is one |
| JsonString.DecodeInvertsSpelling | internal/discovery/discovery.go:221-295 | any text, with each character raw, short, as \uXXXX or as a pair, decodes to its UTF-8 |
| JsonString.AcceptsExactlyTheGrammar | internal/discovery/discovery.go:228-292 | nothing else decodes |
| JsonString.LoneSurrogateRefused | internal/discovery/discovery.go:272-287 | after any well-formed beginning a surrogate escape without its partner refuses the literal |
| JsonString.EveryPairReached | internal/discovery/discovery.go:280-281 | pairs reach every character beyond the basic plane, and only those |
| JsonString.StrictIff | internal/discovery/discovery.go:230-239 | the strings of section 7 of RFC 8259 are exactly those accepted without a bare quotation mark |
| JsonString.BareQuoteAccepted | internal/discovery/discovery.go:230-239 | one with a bare quotation mark is accepted |
| JsonString.ValidOutIffValidIn | internal/discovery/discovery.go:217-239 | an accepted body comes out as valid UTF-8 if and only if it was valid UTF-8 |
| JsonString.ValidUtf8IsEncodedText | internal/discovery/discovery.go:217-220 | valid UTF-8 is exactly what some sequence of Unicode scalar values encodes to |
| JsonString.InvalidUtf8Accepted | internal/discovery/discovery.go:217-239 | a body of one byte FF is accepted as it is |
| Peer.Peers.ClientIP | internal/httpapi/peer.go:66-97 | a peer in no trusted prefix is the client whatever the headers say; behind a trusted one it is the hop of the next row |
| Peer.Peers.ClientIsTheAnswer | internal/httpapi/peer.go:66-97 | the result is the socket peer when no trusted prefix contains it; behind a trusted peer it is the rightmost untrusted hop when it is within 32 hops and everything to its right parses and is trusted, else the socket peer |
| Peer.Peers.IgnoresLeft | internal/httpapi/peer.go:61-97 | replacing everything left of the hops that decide, in any header split, changes nothing |
| Peer.Peers.AnswerIgnoresLeft | internal/httpapi/peer.go:61-97 | in particular everything left of the answer |
| Peer.HopsOfJoin | internal/httpapi/peer.go:75-96 | several header values mean the same as one value joined by commas |
| Peer.SplitOfJoin | internal/httpapi/peer.go:77-95 | cutting from the right at each comma is the split of a value into its hops |
| Affinity.AffinityTable.Put | internal/proxy/affinity.go:51-61 | the table stays within max; only expired entries and at most one live one go, and that one has the earliest expiry of those probed |
| Affinity.AffinityTable.Get | internal/proxy/affinity.go:65-77 | a hit is the latest unexpired put for that exact pair; an expired entry is removed |
| Affinity.AffinityTable.Evict | internal/proxy/affinity.go:88-112 | for every map order: what is dropped, that room is made, and when probing may stop early |
| Affinity.SmallTablesLoseTheOldest | internal/proxy/affinity.go:79-112 | with at most 64 entries the live victim has the earliest expiry of the whole table |

## Left out

- Floating-point rounding: rates, levels and load scores are exact reals, and time differences neither truncate nor saturate.
- Integer overflow of a burst derived from an enormous rate, and Unix times before 1970.
- Routing.Router.Select: health reports that land while one call looks at its replicas are not modelled.
- KeyLimits.SameStateThroughReloads: starts once the key is materialised; a key first materialised in an old generation after the next one was built gets fresh state there, in the code too. Limit objects of other keys are taken to be other objects.
- Limiter.Concurrency.Acquire: one slot object is modelled by its methods called one after another; a channel send is atomic, so no interleaving inside a call is lost. The closures it returns become `Release`, whose caller must hold a slot.
- Admission.DrainReleasesWaiters: shows that a step is enabled, not that the scheduler takes it.
- Admission.TokensConserved: what the HTTP exchange yields is arbitrary; panics are not modelled.
- ByteBudget.BodiesAreCovered: the read of the body is one step that yields a length or an error; that a body with a declared length ends there is the HTTP library's promise, and bytes read before an error or while reading is under way are not counted.
- UsageWriter.RecordsConserved: writing is one step that succeeds or drops; fsync policy, its ticker and the error `Close` returns are not modelled.
- InitCommit.Commit: failures of `fsync` are modelled as failing calls, not as lost data; process crashes and power loss are not modelled; file modes are not, since umask, group and chmod are foreign calls with an outcome only; temporaries' descriptors stay open after a failed run, as in the code, and nothing is claimed about them.
- Dispatch.Dispatch: panics, the detail text attached to a relayed upstream error, logging and the live view are not modelled; the backoff's length is not, only whether the client outlived it.
- Charging.Body.PrepareOutbound: JSON values are opaque, read and written by functions; the per-key choice to inject stream usage is a parameter.
- Charging.CheckQuotaEnforceable: the error names a set of models; the code sorts them into a message.
- Sse.SseParser.NextEvent: the scratch field holding the last line is not modelled, nor is the relay loop around the parser with its deadlines.
- Scanner.Replay: opening, measuring and seeking the file are taken to work, and the file not to change meanwhile; when they fail the code returns the error before visiting anything.
- JsonString.DecodeJsonString: starts from the literal that whitespace trimming leaves.
- Peer.Peers.ClientIP: address syntax and prefix matching are library functions and enter as parameters.
- Affinity.AffinityTable.Put: durations are unbounded integers. A put that renews a key in a full table still evicts, as in the code.
- HTTP, TLS, DNS, YAML and general JSON decoding, key hashing, sandboxing, the command line, `top` and per-field configuration validation are not part of this model.
