# InterGate service layer: a verified model

InterGate is an API gateway that spreads requests for AI models over a pool of upstream keys. Its
service layer is a set of small stateful components. This project models them in Dafny and proves
what they guarantee over whole runs.

Each component appears twice. A *specification* gives one call as a function on values; a *class*
with the same fields does the call step by step, loops included, and each of its methods is proved to
move the class exactly as the specification says. The theorems are then about every run of the
specification: every sequence of calls, every interleaving, every clock reading the caller may make.
Clock readings, calendar dates, random draws and upstream answers are parameters.

| file | component | source |
|---|---|---|
| `Prelude.dfy`, `Sorting.dfy` | sequences and sets, dates, string order, Python's stable sort | |
| `Cache.dfy`, `CacheTheorems.dfy` | LRU and TTL response cache | `services/cache.py` |
| `SlidingWindow.dfy`, `RateLimiter.dfy`, `Admission.dfy`, `Verdicts.dfy` | sliding windows, admission, adaptive token limit | `services/rate_limiter.py` |
| `Tables.dfy`, `TableTheorems.dfy`, `WriterProtocol.dfy` | tables, batch flush, writer thread protocol | `db/database.py` |
| `ApiKey.dfy`, `KeyManager.dfy`, `KeyTheorems.dfy`, `Persistence.dfy` | key record, its four-state life, memory and key table | `models/api_key.py`, `services/key_manager.py` |
| `Quota.dfy` | usage counters, ledger, exhaustion | `services/quota.py` |
| `LoadBalancer.dfy` | strategies, rotation, in-flight counts | `services/load_balancer.py` |
| `Gateway.dfy`, `Failover.dfy` | key selection, failover loop | `gateway.py` |
| `Sync.dfy`, `PublicIds.dfy`, `SyncRaces.dfy` | merging listings, public model ids, removals during a sync | `services/sync.py` |
| `Pricing.dfy` | longest-prefix price lookup | `config/pricing.py` |

## Where the code and its promises differ

The model follows the code. Where a promise of the documentation, or a natural expectation, does not
hold, a lemma says exactly when it does, and another gives an input or a run for which it fails.

- `list_active` promises that EXHAUSTED and INACTIVE keys never recover by themselves
  (`services/key_manager.py:89-92`). A failure of a request still in flight turns such a key into an
  ERROR key, which then recovers: `KeyTheorems.FailureRevivesExactly` gives the condition,
  `KeyTheorems.ExhaustedKeyComesBack` a run, `KeyTheorems.DisabledStaysDisabled` the promise for all
  other runs.
- `flush_now` can be acknowledged by a writer that is past its take and has flushed nothing of what
  was queued: `WriterProtocol.FlushExact` gives the safe states, in both directions,
  `WriterProtocol.FlushReturnsEarly` a run from the start in which it returns too early.
- Fair rotation ends where a failover retry offers the same group another list in the middle of a
  turn: `BalancerTheorems.RetryRestartsRotation`, and `BalancerTheorems.RetryLeadsByTwo` for a run.
- The smart score treats "no quota" as a remainder of -1, which puts such a key at least 10 points
  below even an overspent one: `BalancerSpec.UnlimitedRanksBelow` gives the gap.
- Two models can be given one public id: `PublicIds.DifferentExactly` says for which sets of models,
  `PublicIds.ClashReached` shows three models that do it.
- Which key leads a merged entry, and with it the entry's provider, name, owner and creation time,
  can depend on which pull completes first: it does exactly when two of the keys asked list the model,
  `SyncMerge.LeadFixedExactly`; `SyncMerge.LeadingSourceDependsOnOrder` shows two pulls.
- A removal keeps the public ids of what is left, but only until the next restart, which numbers the
  saved models anew: `PublicIds.RestartKeepsIdExactly` says whose id survives,
  `PublicIds.RestartRenames` shows "s-m-2" becoming "s-m".
- The saved copy files a model under its id, source and address joined by bars, so that two models can
  share a row: `PublicIds.SavedExactly`, and `PublicIds.SavedLosesModel` for two that do.
- A sync whose pulls all succeed still reports the error of an earlier one:
  `SyncMerge.StaleErrorExactly`.
- A removed key can come back into the model list with a sync that had chosen it and was running when
  it was removed: `SyncRaces.RemovedKeyReturns` and `SyncRaces.RestorerWasRunning` say when,
  `SyncRaces.RemovalUndone` shows two runs.
- A deleted key comes back, in memory and in the table, when a request or a test that was in flight at
  the deletion is recorded, because recording hands the record to `_persist_async` or `_persist`
  (`gateway.py:64`, `services/key_manager.py:194-208`): `KeyTheorems.DeletedKeyReturns` says when over
  whole runs of the manager, `FailoverSpec.RecordedKeysReturn` within one request,
  `KeyTheorems.DeletedInFlight` shows a run.
- A NUL in the method or path makes cache keys ambiguous before they are hashed:
  `CacheKey.EncodingExact`, and `CacheKey.NulCollides` for the colliding requests.
- Refusals by the per-key limiter use up attempts, so a request can fail although a key below its
  limit was never tried: `FailoverSpec.PastLimiterExactly` says when it cannot,
  `FailoverSpec.FourthKeyNeverTried` shows four candidates with which it can.
- The token window stays within its limit because the gateway never estimates fewer than one token
  (`gateway.py:711`): `AdaptiveTpmBounds.AdmittedFitsExactly`, and
  `AdaptiveTpmBounds.ZeroEstimateOverflows` for a run with an estimate of 0.
- One key's error alert silences the error alerts of every key until an exhaustion alert comes
  between: `QuotaSpec.ErrorAlertExactly` says when a failing key's alert is raised, `QuotaSpec.Silence`
  that otherwise nothing is, however long, and `UsageLedger.SecondKeySilenced` shows a second failing
  key that gets none.
- A streamed answer leaves the in-flight count as soon as its response object is built
  (`gateway.py:226-228`, `gateway.py:264-265`), so the counts are of attempts, not of open streams:
  `BalancerTheorems.CountIsLoadExactly` says when a count is all that is open on its key,
  `BalancerTheorems.OpenStreamOverlooked` shows a key with an open stream that is picked as the least
  busy although another has nothing open.
- Refused requests are charged to their windows, so a client that keeps asking stays refused:
  `Admission.ShutOutExactly` says for how long, `Admission.SteadyClient` what a client with a steady
  pace gets, `Admission.ShutOutAfterAMinute` shows a call refused 100 seconds after the only one let
  through.
- What a management call writes at once can be overwritten by an older snapshot of the key that is
  still in the writer's queue. `Persistence.TableFollowsMemory` says that memory and table agree as
  long as no such call finds one waiting, `Persistence.AgreesExactly` when a call that does find one
  leaves them in step all the same. `Persistence.SwitchedOffReturns` shows a key that was switched off
  and is ACTIVE again after a restart, `Persistence.DeletedRowReturns` a deleted key whose row is back.
- A key's metadata do not survive a restart: they are saved in a column `metadata_json` and looked for
  under `metadata` (`models/api_key.py:180`, `models/api_key.py:218`). `KeyRows.ReloadExactly` says
  which keys come back as they were saved.
- An over-quota key is kept out of use by its usage records only while its quota stays used up:
  `UsageLedger.OverQuotaStaysExhausted`, and `UsageLedger.RaisedQuotaReleases` for a quota raised on
  the live record (`webapp.py:209-211`).
- The README of the repository calls the token limit additive-increase; the code multiplies by 1.02.
  The model multiplies.
- Exhaustion needs warnings switched on and a warning threshold of at most 1:
  `QuotaSpec.ExhaustedExactly`.

## Model

| member | source | states |
|---|---|---|
| ResponseCache.ResponseCache.constructor | services/cache.py:27-36 | a new cache is empty, with no hits and no misses |
| ResponseCache.ResponseCache.Get | services/cache.py:48-63 | a fresh entry is returned and becomes the youngest, an expired one is dropped, and exactly one of the two counters grows; a disabled cache only counts a miss |
| ResponseCache.ResponseCache.Put | services/cache.py:65-76 | the eviction loop leaves exactly the newest `max_entries` items; disabled, non-2xx and oversized puts change nothing; a negative capacity empties the store and raises |
| ResponseCache.ResponseCache.Invalidate | services/cache.py:78-83 | popping the matching keys one by one leaves the other items in order and reports how many went |
| CacheInclusion.InclusionStep | services/cache.py:48-83 | any one call keeps the smaller store a subsequence of the larger with no more free slots than it, and a hit in the smaller is the same hit in the larger |
| CacheInclusion.Inclusion | services/cache.py:48-83 | LRU inclusion over any trace, for any clock: capacity n <= m gives a subsequence store, every hit of the smaller is the same hit of the larger, so hits never fall with capacity |
| CacheHistory.StoreIsFaithful | services/cache.py:48-83 | after any run each stored entry is its key's latest accepted put not invalidated since, the order is recency of use, the size is within `max_entries`, and hits plus misses equals the number of gets |
| CacheHistory.HitIsLatestPut | services/cache.py:52-74 | after any run a hit is a particular earlier put: a 2xx of acceptable size for that key, returned with its status, headers and body, at most one TTL old, neither replaced nor invalidated since |
| CacheHistory.EvictsLeastRecent | services/cache.py:73-76 | what a put evicts was last used before every key it keeps |
| CacheHistory.LivePutRetained | services/cache.py:48-83 | over any run with a nondecreasing clock, a put that is still live and fresh is stored unless at least `max_entries` other keys were used since |
| CacheHistory.Retention | services/cache.py:48-76 | the converse of a hit: a live, fresh put used more recently than `max_entries` other keys is hit, with exactly that entry |
| CacheHistory.StandingPutHits | services/cache.py:48-76 | by position: a put with caching on, a 2xx and a body of at most the maximal size, that no later such put of its key replaced and no invalidation covers, is returned with its status, headers and body by every get within its TTL, as long as fewer than `max_entries` other keys were used since some use of it |
| CacheHistory.PutRaisesExactly | services/cache.py:65-76 | a put with caching off, another status or too large a body changes nothing; any other raises if and only if the capacity is negative |
| CacheHistory.CountersExact | services/cache.py:48-63 | over any run the counters are the numbers of hits and of misses that were answered |
| CacheHistory.GetLeavesExactly | services/cache.py:48-63 | after any run a get drops the entry of its own key if caching is on and it has outlived the TTL, and leaves everything else stored as it was |
| CacheHistory.InvalidationCounts | services/cache.py:78-83 | an invalidation answers with the number of stored keys that begin with the prefix and leaves exactly the others |
| CacheKey.EncodeInjective | services/cache.py:39-45 | NUL-free methods and paths are recovered, with the body, from the bytes that are hashed |
| CacheKey.EncodingExact | services/cache.py:39-45 | a request shares its bytes with no different NUL-free request if and only if its own method and path are NUL-free |
| CacheKey.NulCollides | services/cache.py:39-45 | a path with a NUL and the path up to that NUL, with the rest moved into the body, are hashed from the same bytes |
| SlidingWindow.SlidingWindow.Add | services/rate_limiter.py:23-29 | prunes, appends and returns the new incremental sum |
| SlidingWindow.SlidingWindow.Count | services/rate_limiter.py:31-33 | prunes and returns the incremental sum |
| SlidingWindow.SlidingWindow.Prune | services/rate_limiter.py:35-39 | the loop pops exactly the leading events that are at least a window old and takes their weights off the sum |
| SlidingWindowSpec.PruneKeeps | services/rate_limiter.py:35-39 | in a time-ordered window pruning leaves exactly the weight later than the cutoff, and no later cutoff can tell the difference |
| SlidingWindowSpec.SumRefinesHistory | services/rate_limiter.py:23-39 | for any mix of weighted adds and counts under a nondecreasing clock the deque is ordered, the sum is that of its weights, and both calls return the weight of everything ever added in the last window |
| RateLimiter.AdaptiveTPM.AdjustDown | services/rate_limiter.py:55-60 | multiplies the key's limit by 0.85, not below 60, other keys untouched, nothing when disabled |
| RateLimiter.AdaptiveTPM.AdjustUp | services/rate_limiter.py:62-67 | multiplies the key's limit by 1.02, not above 100000, other keys untouched, nothing when disabled |
| RateLimiter.WindowTable.Entry | services/rate_limiter.py:83-86 | a missing window is created empty on first use, no other window is affected or shared |
| RateLimiter.RateLimiter.Check | services/rate_limiter.py:91-108 | charges the global window, then, only if that passes, the address window, and answers with the reason and wait of the one that refused |
| RateLimiter.RateLimiter.CheckKeyRpm | services/rate_limiter.py:110-116 | charges the key's window unless its limit is not positive, and refuses above the limit |
| RateLimiter.RateLimiter.CheckTpm | services/rate_limiter.py:118-133 | refuses and lowers the key's limit when the estimate does not fit, otherwise charges the scaled weight and raises it |
| RateLimiterSpec.RetryAfterLeast | services/rate_limiter.py:143-146 | the advised wait is the least whole number of seconds longer than one slot at the limit's pace, at least 1 |
| Admission.WindowHistory | services/rate_limiter.py:23-39 | however calls of all kinds interleave, each global, address and key window holds exactly the recent charges of its own meter |
| Admission.DecisionExact | services/rate_limiter.py:98-116 | a charged call passes a meter if and only if at most `limit` calls, refused ones included, were charged to it in the 60 seconds ending with it |
| Admission.AdmissionBound | services/rate_limiter.py:91-116 | over every run with a nondecreasing clock, every half-open 60-second span, closed at either end, admits at most the limit overall, per address and per key |
| Admission.HammeringIsRefused | services/rate_limiter.py:98-116 | once the limit's worth of calls, admitted or refused, lies in the minute before a call, that call is refused |
| Admission.ShutOutExactly | services/rate_limiter.py:98-116 | over a whole tail of a run, no call charged to a meter passes it if and only if each of them finds its limit filled in the minute before, be it by refused calls |
| Admission.SteadyClient | services/rate_limiter.py:98-108 | a client that asks every d seconds passes a global limit of L with its first L calls, and with any later one if and only if L times d is at least 60, however long it asks |
| Admission.ShutOutAfterAMinute | services/rate_limiter.py:98-108 | with a limit of 1 and calls at 0, 50 and 100 seconds only the first passes |
| Verdicts.CheckExactly | services/rate_limiter.py:91-108 | over every run, a request passes if and only if limiting is off or both the whole gateway and its address, as far as they are limited, have at most their limit charged to them in the minute; a refusal names the global limit first and advises the least wait for the limit that refused |
| Verdicts.KeyCheckExactly | services/rate_limiter.py:110-116 | a key without a limit always passes, one with it if and only if at most the limit is charged to it in the minute; a refusal advises the least wait |
| Verdicts.TpmExactly | services/rate_limiter.py:118-133 | over every run, an estimate passes if and only if adaptive limiting is off or it fits beside what the key was charged in the last minute; a refusal waits for the excess at the pace of the limit, at most 8000 ms |
| Verdicts.TokenHistory | services/rate_limiter.py:118-133 | however calls of all kinds interleave, each token window holds exactly the recent charges of its key |
| Verdicts.UntouchedLimit | services/rate_limiter.py:50-67 | a key that was never checked has the largest limit, 100000, and so has every key while the adaptation is off |
| Verdicts.ChargeExact | services/rate_limiter.py:131 | an admission is charged one unit for every d tokens, where d is the whole part of a sixtieth of the limit, and at least one |
| AdaptiveTpmBounds.FloorAfter46 | services/rate_limiter.py:55-60 | 46 or more decreases bring any limit in range to 60 |
| AdaptiveTpmBounds.FloorNeeds46 | services/rate_limiter.py:55-60 | from the ceiling fewer than 46 do not |
| AdaptiveTpmBounds.CeilingAfter375 | services/rate_limiter.py:62-67 | 375 or more increases bring any limit in range to 100000 |
| AdaptiveTpmBounds.CeilingNeeds375 | services/rate_limiter.py:62-67 | from the floor fewer than 375 do not |
| AdaptiveTpmBounds.ConsecutiveMoves | services/rate_limiter.py:118-133 | in any run, with other calls interleaved anyhow, n consecutive refusals (admissions) of a key have lowered (raised) its limit exactly n times |
| AdaptiveTpmBounds.ConsecutiveEnds | services/rate_limiter.py:118-133 | in any run, 46 consecutive refusals of a key put its limit at 60 and 375 consecutive admissions at 100000 |
| AdaptiveTpmBounds.TpmDecision | services/rate_limiter.py:118-133 | an admission leaves the window's weight within the limit it used, which lies in [60, 100000]; a refusal waits more than 0 and at most 8000 ms; admission is exactly "recent weight plus estimate fits" |
| AdaptiveTpmBounds.TokenWindowsBounded | services/rate_limiter.py:118-133 | over whole runs, whatever the clock and the limits do, no token window exceeds 100000 if estimates are at least 1, as `gateway.py:711` makes them |
| AdaptiveTpmBounds.AdmittedFitsExactly | services/rate_limiter.py:118-133 | an admitted call leaves its window within the limit it was tested against if and only if its estimate is at least 1 or what the window still holds leaves room for one |
| AdaptiveTpmBounds.ZeroEstimateOverflows | services/rate_limiter.py:118-133 | a run from the new limiter whose last call, with an estimate of 0, is admitted at limit 60 and charged to 61 |
| Tables.GroupedIsDirect | db/database.py:375-384 | writing all logs, then all statistics, then all keys of a batch leaves the same tables as the synchronous methods run one by one in enqueue order |
| Tables.DirectAllConcat | db/database.py:355-388 | cutting the queue into batches anywhere makes no difference |
| Tables.RowThere | db/database.py:254-304 | after a run of writes a key has a row if and only if it had one before or one of the writes is its snapshot, so a snapshot queued or written after a deletion brings the row back |
| TableContents.RowIsLastSnapshot | db/database.py:254-304 | over any sequence of writes and deletions, every column of a row but its creation time is that of the last snapshot of the key |
| TableContents.BirthIsFirstSnapshot | db/database.py:254-304 | the creation time is that of the first snapshot since the key had no row |
| TableContents.BirthOfOld | db/database.py:254-304 | the creation time of a row that is there is never overwritten |
| TableContents.NoRow | db/database.py:320-323 | a deleted key, or one never saved, has no row until a snapshot of it is written |
| TableContents.QueuedRowExactly | db/database.py:375-388 | of the snapshots of a key in a queue the last decides every column, and the first at most the creation time |
| TableContents.LogsExactly | db/database.py:326-329 | the log table is what it was, followed by the queued rows in order |
| TableContents.StatsExactly | db/database.py:540-560 | each of the five columns of a statistics row is what it was plus that column of the queued rows of its day, provider and key |
| BatchDatabase.Database.InsertLog | db/database.py:326-329 | appends one row |
| BatchDatabase.Database.UpsertStats | db/database.py:540-560 | inserts the row of a date, provider and key, or adds to each of its five columns |
| BatchDatabase.Database.UpsertKey | db/database.py:254-304 | inserts the key's row, or overwrites every column but the creation time |
| BatchDatabase.Database.DeleteKey | db/database.py:320-323 | removes exactly that key's row |
| BatchDatabase.Database.Enqueue | db/database.py:332-353 | appends at the end of the queue and raises the wake flag |
| BatchDatabase.Database.ExecuteMany | db/database.py:380-384 | the prepared statement's loop is the synchronous method applied row by row |
| BatchDatabase.Database.WriteFlush | db/database.py:367-388 | empties the queue and leaves the tables the synchronous methods would have left, in enqueue order, despite the regrouping by kind |
| BatchDatabase.Database.WriterPass | db/database.py:358-365 | one undisturbed pass drains the queue, takes the flush flag down and signals exactly if it was up |
| WriterProtocol.BatchEqualsDirect | db/database.py:332-388 | in every reachable state of producers, writer and flush caller each enqueued item is exactly once committed, in hand or pending, in order, and the tables are the synchronous result of the committed items; once drained, of everything |
| WriterProtocol.NoLostWakeUp | db/database.py:332-374 | in every reachable state, if something is pending and every producer has finished its `set`, the flag is up or the writer is between `clear` and its take |
| WriterProtocol.WriterDrains | db/database.py:355-388 | once producers are quiet the writer's own steps, without its timeout, commit everything ever enqueued |
| WriterProtocol.FlushExact | db/database.py:390-399 | from raising the flag on, the done event implies that everything queued before is committed, under every interleaving, if and only if the done event was down and the writer had not passed its take or had nothing queued behind it |
| WriterProtocol.UnsafeReached | db/database.py:332-374 | two producers and one turn of the writer lead from the start to a state in which calling `flush_now` is possible and unsafe |
| WriterProtocol.FlushReturnsEarly | db/database.py:390-399 | from there `flush_now` returns without any timeout while an item enqueued before it is still pending |
| ApiKeys.SaveKeepsViews | models/api_key.py:176-186 | saving and reloading a key on any day, across a day or month rollover, changes none of the five derived counters read on that or any later day |
| KeyRows.RowKeepsViews | models/api_key.py:176-186 | a row saved of a key, read back on any later day, shows what the key shows |
| KeyRows.ReloadExactly | models/api_key.py:188-219 | a saved row is read back as the same key with its counters rolled over if and only if the key has a name, a creation time and no metadata; everything else always comes back |
| KeyLifecycle.ListActiveExact | services/key_manager.py:85-122 | `list_active` changes only ERROR keys whose cooldown has expired, and returns exactly the just recovered, the ACTIVE and not cooling, and on request the ERROR keys of the provider asked for, each once |
| KeyManager.KeyManager.AddKey | services/key_manager.py:37-60 | adds one ACTIVE, unused key that shares no record with the others, and writes its row |
| KeyManager.KeyManager.DeleteKey | services/key_manager.py:70-75 | removes exactly the key with that id, and its row, keeps the order of the others and says whether there was one |
| KeyManager.KeyManager.Get | services/key_manager.py:77-79 | finds the key with that id, or none has it |
| KeyManager.KeyManager.RecordSuccess | services/key_manager.py:145-155 | makes that key ACTIVE with no failures and no cooldown and queues its snapshot; every other key is untouched; an unknown id is ignored |
| KeyManager.KeyManager.RecordFailure | services/key_manager.py:157-182 | counts the failure, moves that key alone to EXHAUSTED, to ERROR or nowhere by category and threshold, with the matching cooldown, and queues its snapshot |
| KeyManager.KeyManager.SetStatus | services/key_manager.py:184-192 | sets that key's status and, for ACTIVE, clears its failures and cooldown, and writes its row |
| KeyManager.KeyManager.PersistAsync | services/key_manager.py:202-208 | queues the snapshot of a record and puts the record into the cache, whether or not it was there |
| KeyManager.KeyManager.Persist | services/key_manager.py:194-200 | writes the row of a record and puts the record into the cache, whether or not it was there |
| KeyManager.KeyManager.TestKey | services/key_manager.py:211-235 | works on the record it holds: a passing test revives the key whatever its status, a failing one puts it in ERROR for 300 s; the record, with the outcome noted, is written and is in the cache afterwards, deleted meanwhile or not |
| KeyManager.KeyManager.AutoRecover | services/key_manager.py:124-134 | revives ERROR keys, queuing their snapshots, and leaves the others alone |
| KeyManager.KeyManager.ListActive | services/key_manager.py:85-134 | the loop over shared records recovers and selects exactly as `ListActiveExact` describes, returns the manager's own records, and queues a snapshot of exactly the keys it revived |
| KeyTheorems.ActiveIsSound | services/key_manager.py:85-235 | over every run of adds, removals, listings, successes, failures, status changes, tests and usage records, of cached and of deleted records, ACTIVE means no cooldown and fewer than three failures, and ids stay distinct |
| KeyTheorems.DeletedKeyReturns | services/key_manager.py:194-235 | over every run, a deleted key is in the cache again if and only if a usage record or a test of its record has finished since its last deletion |
| KeyTheorems.DeletedInFlight | services/key_manager.py:202-208 | a key deleted while a request on it is in flight is gone, and back as it was once the request is recorded |
| KeyTheorems.RunOnKey | services/key_manager.py:85-235 | a key that is not removed evolves as its own events and the listings dictate, whatever happens to other keys |
| KeyTheorems.StatusSet | services/key_manager.py:184-192 | a status that is set, each of the four, is the status the key has; ACTIVE clears failures and cooldown, any other changes nothing else |
| KeyTheorems.SwitchedOffStaysOff | services/key_manager.py:85-235 | over every run, a key set to INACTIVE or EXHAUSTED is not ACTIVE and in no listing until an event that would bring it back, its own deletion and return included |
| KeyTheorems.HealedIsListed | services/key_manager.py:85-155 | after a success, an activation or a passing test every listing of its provider returns the key, with no failures |
| KeyTheorems.FailedTestHonoured | services/key_manager.py:227-230 | after a failing test at t no default `list_active` before t + 300000 ms returns the key without a reset |
| KeyTheorems.AddedIsListed | services/key_manager.py:37-60 | a new key is ACTIVE and unused and every listing of its provider returns it at once |
| KeyTheorems.OutcomeNoted | services/key_manager.py:145-233 | a test leaves its time, result and error on the record, an answer or a usage record its time, and nothing else changes them |
| KeyTheorems.CooldownHonoured | services/key_manager.py:157-182 | after a failure at t that trips the key, no default `list_active` before t + 300000 ms returns it, whatever else happens, its own deletion and return included, unless a success, an activation or a passing test of that key intervenes |
| KeyTheorems.FailureCountExact | services/key_manager.py:130-182 | in every run there is a last reset of the key, or none, and `failure_count` is the number of its failures among the calls after it |
| KeyTheorems.FailureRevivesExactly | services/key_manager.py:170-181 | an EXHAUSTED or INACTIVE key becomes recoverable through a failure if and only if that is an authentication failure or an ordinary one that reaches the threshold |
| KeyTheorems.DisabledStaysDisabled | services/key_manager.py:89-104 | without such a failure, a reset, a test or a manual ERROR, no listing ever brings a disabled key back |
| KeyTheorems.ExhaustedKeyComesBack | services/key_manager.py:172-181 | a run in which a key exhausted for 30 minutes is ACTIVE again after five |
| Persistence.TableFollowsMemory | services/key_manager.py:37-208 | over every run of a day, whatever calls and flushes interleave, the key table holds, once the queue is written, exactly the keys in memory, each as it is, provided no management call finds an older snapshot of its key still waiting |
| Persistence.AgreesExactly | services/key_manager.py:70-75 | a row written or deleted at once stays so if and only if nothing of its key is waiting in the queue, or the key is new, or the call changes no column of it |
| Persistence.SwitchedOffReturns | services/key_manager.py:184-208 | a key switched off while its last success is still queued is INACTIVE in memory, "active" in the table once that is written, and ACTIVE after a restart |
| Persistence.DeletedRowReturns | services/key_manager.py:70-75 | a key deleted while its last success is still queued has its row back once that is written |
| QuotaSpec.ExhaustedExactly | services/quota.py:121-128 | recording sets EXHAUSTED exactly when warnings are on, the threshold is at most 1 and today's use has reached a positive quota, and otherwise leaves the status |
| QuotaSpec.AlertsStayTidy | services/quota.py:45-57 | whatever keys are evaluated, at most the latest 200 alerts are kept and no error alert follows another; a call that finds its key spent or failing leaves the matching alert last, any other leaves the list alone |
| QuotaSpec.LatestAlertsKept | services/quota.py:45-57 | exactly the latest 200 alerts are kept, old ones and what the call raised, exhaustion before errors |
| QuotaSpec.FailingExactly | services/quota.py:142 | a key has too many errors if and only if warnings are on and of at least ten requests today more than every second failed |
| QuotaSpec.WarningsExactly | services/quota.py:121-157 | a call warns of the quota from the threshold on, with the share used, of its end, and of too many errors, and of nothing else |
| QuotaSpec.ErrorAlertExactly | services/quota.py:130-157 | a failing key's own error alert is raised if and only if the key is spent as well, or there is no alert yet, or the latest is one of exhaustion |
| QuotaSpec.Silence | services/quota.py:130-157 | once an error alert is the latest, no sequence of evaluations of any keys changes the list as long as none of them is spent |
| QuotaMonitor.QuotaMonitor.Record | services/quota.py:76-157 | rolls the counters over, counts the call, queues exactly one statistics row for that day and key, evaluates (status, warnings and alerts), and through the callback of `gateway.py:64` queues the snapshot and puts the record into the cache, deleted or not |
| QuotaMonitor.QuotaMonitor.CountCall | services/quota.py:81-100 | the counters are those of the call's own day and month, with the call added |
| QuotaMonitor.QuotaMonitor.Evaluate | services/quota.py:121-157 | EXHAUSTED for a spent key alone, with the warnings and alerts of its quota and its errors |
| UsageLedger.ViewsEqualLedger | services/quota.py:82-99 | over every list of dated records of any keys, the today and month views of a key read on any later day are the sums of its records of that day and month |
| UsageLedger.ViewsInOrder | models/api_key.py:96-114 | across every rollover, used today is at most used this month, errors at most requests, and today's requests at most the month's |
| UsageLedger.TableEqualsLedger | db/database.py:716-726 | the drained statistics row of a day and key is its previous content plus the day's sums of that key |
| UsageLedger.TodayEqualsDrainedRow | services/quota.py:102-109 | whatever other days and keys the table holds, what a key shows for today equals its drained statistics row: requests, errors, tokens |
| UsageLedger.SecondKeySilenced | services/quota.py:130-157 | two keys fail ten times each, one after the other: the second is failing, and the only alert is the first one's |
| UsageLedger.OverQuotaStaysExhausted | services/quota.py:121-128 | within a day, whatever listings, status changes, tests, failures and edits of the quota to what is already used up come between, an over-quota key stays over and is EXHAUSTED from each finished request until some other lifecycle event, although a success sets it ACTIVE first |
| UsageLedger.RaisedQuotaReleases | services/quota.py:121-128 | with a quota raised above the day's use, a success leaves the key ACTIVE |
| BalancerSpec.PoolExact | services/load_balancer.py:101-105 | the priority pool is exactly the most urgent candidates and does not depend on their order |
| BalancerSpec.PoolInIdOrder | services/load_balancer.py:101-109 | the pool takes its turns in the order of the ids |
| BalancerSpec.LatestTwenty | services/load_balancer.py:43-49 | however reports interleave, a key's samples are the latest 20 ever reported for it, in order |
| BalancerSpec.NeverNegative | services/load_balancer.py:39-41 | whatever is reported, no count falls below zero and each report moves its own alone |
| BalancerSpec.UnlimitedRanksBelow | services/load_balancer.py:134 | whatever was used and however "no quota" is written, a key without a quota scores exactly 10 points plus ten times the share left below its twin with one |
| BalancerSpec.SmartPicksUndominated | services/load_balancer.py:126-141 | `_smart` never picks a key while another candidate is better in priority, error rate, load, weight or recent use and worse in nothing |
| BalancerSpec.ScoreSteps | services/load_balancer.py:126-141 | a step of priority is worth one point, an attempt in flight two, a unit of weight a half, a use within the last minute two |
| BalancerSpec.ErrorsCost | services/load_balancer.py:132 | the error rate, errors by requests of today, is worth twenty points |
| BalancerSpec.RemainingExactly | models/api_key.py:121-125 | what is left of a quota is -1 without one, otherwise what is not used, and never less than nothing |
| BalancerSpec.DrawnExactly | services/load_balancer.py:91-99 | a draw picks a key if and only if it falls into its stretch, which is as long as its weight, or 1, and begins where the one before ends |
| BalancerSpec.AverageExactly | services/load_balancer.py:118 | the average times the number of samples is what they add up to |
| BalancerSpec.QuickestExactly | services/load_balancer.py:114-124 | if the key picked has samples then every candidate has some, and none has a smaller sum for its number of samples |
| BalancerSpec.RotationsApart | services/load_balancer.py:74-89 | a rotation pick turns the cursor of its own provider, address and group and no other |
| LoadBalancer.LoadBalancer.ReportActive | services/load_balancer.py:39-41 | moves one key's counter by the delta, not below zero |
| LoadBalancer.LoadBalancer.ReportLatency | services/load_balancer.py:43-49 | appends the sample and keeps the latest 20 of that key |
| LoadBalancer.LoadBalancer.RoundRobin | services/load_balancer.py:74-89 | serves the group's cursor, rebuilt when the candidate ids differ, and advances it; other groups' cursors are untouched |
| LoadBalancer.LoadBalancer.Priority | services/load_balancer.py:101-109 | a sole most urgent key wins outright, several rotate |
| LoadBalancer.LoadBalancer.LeastConnections | services/load_balancer.py:111-112 | the first of the candidates with the least active count |
| LoadBalancer.LoadBalancer.ResponseTime | services/load_balancer.py:114-124 | the first candidate without samples, or else the first of those with the least average |
| LoadBalancer.LoadBalancer.Weighted | services/load_balancer.py:91-99 | the key in whose stretch of the cumulative weights the draw falls |
| LoadBalancer.LoadBalancer.Smart | services/load_balancer.py:126-141 | the first candidate with the highest score |
| LoadBalancer.LoadBalancer.Pick | services/load_balancer.py:52-71 | nothing exactly from nothing, otherwise the candidate that the strategy asked for, each of the six, determines; only the two rotating strategies touch a cursor |
| BalancerTheorems.RotationExact | services/load_balancer.py:80-89 | with picks on other groups interleaved anyhow, the j-th pick on a group is the candidate j places after its cursor's start |
| BalancerTheorems.RoundRobinFair | services/load_balancer.py:74-89 | over any stretch of a group's picks no candidate leads another by more than one, and any n consecutive picks serve each of the n candidates once |
| BalancerTheorems.PriorityInherits | services/load_balancer.py:101-109 | one priority pick does not depend on the order of its candidates and never serves a less urgent key |
| BalancerTheorems.PriorityRotates | services/load_balancer.py:101-109 | over any run of priority picks the ids served from a group's pool are those the rotation serves when handed the pools |
| BalancerTheorems.PriorityFair | services/load_balancer.py:101-109 | over any run of priority picks, pools of other groups interleaved anyhow and less urgent candidates coming and going, no member of a group's pool leads another by more than one over any stretch, and n consecutive picks serve each of its n members once |
| BalancerTheorems.RetryRestartsRotation | services/load_balancer.py:84-88 | after a pick from a different list of the same group the next full list starts at its first candidate, which continues the turn if and only if the pick before was the last of a turn |
| BalancerTheorems.RetryLeadsByTwo | services/load_balancer.py:84-88 | two requests, the first with one retry, give the first of three candidates two picks and the last none |
| BalancerTheorems.ActiveCountsInFlight | services/load_balancer.py:39-41 | for every interleaving of attempts and streams each active count is the number of that key's attempts in flight, so the clamp never loses a decrement |
| BalancerTheorems.CountIsLoadExactly | gateway.py:209-265 | a count is everything open on its key, attempts and streams, if and only if no stream of the key is open |
| BalancerTheorems.LeastConnectionsIsLeastBusy | services/load_balancer.py:111-112 | `_least_connections` picks a key with the fewest attempts in flight, and idle reads zero |
| BalancerTheorems.OpenStreamOverlooked | services/load_balancer.py:111-112 | of two keys, one with a stream open and one with nothing, `_least_connections` picks the first |
| KeySelection.ListEachExact | gateway.py:386-390 | listing one provider after another recovers what one listing would and returns exactly the keys, ACTIVE after recovery, of the providers asked for |
| KeySelection.ListEachUsable | gateway.py:386-390 | each key listed is ACTIVE, not cooling, below the failure threshold and still so when the last provider has been listed |
| KeySelection.ListEachDistinct | gateway.py:386-390 | with different, named providers no key is offered twice |
| KeySelection.PickedKeysAreUsable | gateway.py:360-408 | over every run of the key manager, each key returned by any branch is ACTIVE, not cooling and below the failure threshold, although three of the branches test only the status |
| KeySelection.PickedExactly | gateway.py:360-408 | a key is offered if and only if it is eligible: ACTIVE and named by the forced header; else ACTIVE and a source of the model, if any such exists; else ACTIVE and routed to, if the rule is on and serves; else ACTIVE after recovery and of a candidate provider |
| KeySelection.SwitchedOffIsNotPicked | gateway.py:360-408 | over every run, a key set to INACTIVE or EXHAUSTED is offered to no request by any branch until an event that would bring it back |
| KeySelection.CandidatesExactly | providers/registry.py:41-50 | the providers asked are the request's own first and, for a path of the OpenAI kind, then custom, openai and azure in this order, each once |
| KeySelection.StyleExactly | providers/registry.py:41-46 | a path is not of the OpenAI kind exactly if it begins with /v1/messages or /v1beta or holds :generateContent at some position |
| KeySelection.ListedInOrder | services/key_manager.py:81-83 | all keys are listed by provider, and within a provider the most urgent first |
| KeySelection.NamedInOrder | gateway.py:360-425 | a forced, sourced or routed request is offered its keys in that order |
| FailoverSpec.OneErrorRowPerFailure | gateway.py:468-470 | each failed upstream call queues exactly one error row for its key, and nothing else queues one |
| FailoverSpec.FailuresRecorded | gateway.py:176-265 | a key that nobody deletes and that did not answer has one failure counted for each of its failed calls or decryptions in the request |
| FailoverSpec.UnusableAnswerExactly | gateway.py:714-728 | what an unusable answer makes of its key: a 429 only counts, until the third failure puts the key in ERROR for 300 s; any other status with a text that names an exhausted quota makes it EXHAUSTED for 1800 s; a 401 or 403 without such a text puts it in ERROR at once; the rest counts; a key over its quota is EXHAUSTED anyway |
| FailoverSpec.OtherFailureExactly | gateway.py:199-262 | a key that cannot be decrypted goes to ERROR, an upstream error counts by its category |
| FailoverSpec.GoodAnswerExactly | gateway.py:232-244 | an answer passed on leaves its key ACTIVE without failures or cooldown, with its tokens and one request counted, and EXHAUSTED if its quota is now used up; the row for its statistics has its tokens, its cost and no error |
| FailoverSpec.NoVerdict | gateway.py:186-265 | a refusal by the limiter, a key without address, a crash and a stream that begins leave keys and queue as they were |
| FailoverSpec.ToldLastFailure | gateway.py:267-274 | a request without an answer ends in the status and category of its last upstream failure, or in a bare 502 |
| FailoverSpec.ToldAnswer | gateway.py:211-254 | a request with an answer ends in the upstream's status, a 2xx for a plain call and below 400 for a stream |
| FailoverSpec.RecordedKeysReturn | gateway.py:176-265 | with keys deleted before or during the request, a key is in the cache at its end if and only if it was there and nobody deleted it, or one of its calls was recorded after its last deletion |
| RequestPersistence.AttemptKeepsTable | gateway.py:199-262 | whatever an attempt comes to, and whether or not its key was deleted meanwhile, a key table that held what is in memory once the queue is written does so with the rows of the attempt as well |
| RequestPersistence.AttemptCounts | gateway.py:232-262 | an attempt queues a statistics row if and only if it was booked: one request of its day, provider and key, its tokens and cost, and an error exactly for a failure |
| FailoverSpec.OnlyRefusals | gateway.py:186-190 | a request that meets only refusals of the key limiter calls no upstream and ends in a bare 502 |
| FailoverSpec.PastLimiterExactly | gateway.py:176-190 | some attempt gets past the key limiter, in whatever order candidates are tried, if and only if fewer candidates are above their own limit than there are attempts |
| FailoverSpec.FourthKeyNeverTried | gateway.py:176-190 | with four candidates and three of them above their limit a request can end in 502 with the fourth never tried |
| Failover.Gateway.AfterFailure | gateway.py:468-470 | one failure on the key if it is still cached, one error row, the two snapshots, and the record in the cache |
| Failover.Gateway.AfterSuccess | gateway.py:235-244 | one success on the key if it is still cached, one latency sample, one usage row, the two snapshots, and the record in the cache |
| Failover.Gateway.Attempt | gateway.py:186-265 | whatever the attempt meets, and whether or not its key is still cached, keys and queued rows change as its outcome accounts for and every active count is back where it was |
| Failover.Gateway.Forward | gateway.py:211-263 | of the answered, refused and raised outcomes each does its own bookkeeping and no other |
| Failover.Gateway.Choose | gateway.py:177-184 | an untried candidate, or nothing exactly when all have been tried |
| Failover.Gateway.Try | gateway.py:163-274 | distinct candidates are tried until the first answer or until min(3, n) of the n distinct ones have been; with any of them deleted before or between, keys, queued rows, tables, active counts and the client's result are what the trace accounts for |
| SyncMerge.MergeExact | services/sync.py:122-150 | the merged list has one entry per (model, source, base URL) offered, each with exactly the keys that offer it, without duplicates, the first one leading |
| SyncMerge.Confluence | services/sync.py:85-155 | every completion order of the concurrent pulls yields the same entries with the same capabilities, switch, sources and set of source keys |
| SyncMerge.SyncedSources | services/sync.py:82-155 | whatever order the pulls complete in, an entry names exactly the keys among the first 20 ACTIVE ones that list its model |
| SyncMerge.ChosenExactly | services/sync.py:82-155 | an ACTIVE key is asked if and only if fewer than 20 of those before it are ACTIVE, in the same order, and no other |
| SyncMerge.OfferExactly | services/sync.py:122-150 | a listed model with an id is merged under it, one with a name only under the name, one with neither is passed over; the source is the name of the key, or the provider of a key without one |
| SyncMerge.SwitchExactly | services/sync.py:149 | an entry is switched on unless its model was switched off |
| SyncMerge.SyncConfluent | services/sync.py:82-155 | two completion orders of one sync give agreeing entries |
| SyncMerge.LeaderIsFirst | services/sync.py:131-150 | an entry's leading key, provider, name, owner and creation time are those of the first offer of its model |
| SyncMerge.LeaderFixedExactly | services/sync.py:131-155 | every completion order gives a model the same leading key, provider, name, owner and creation time if and only if all pulls that offer it have the same ones in their first offer of it |
| SyncMerge.LeadFixedExactly | services/sync.py:82-155 | for keys with ids of their own, these are the same for every completion order of a sync if and only if at most one of the keys asked lists the model |
| SyncMerge.LeadingSourceDependsOnOrder | services/sync.py:131-150 | two keys that offer one model: whichever completes first leads |
| SyncMerge.StaleErrorExactly | services/sync.py:151-161 | a sync reports whatever error it found if and only if none of its own pulls fails |
| SyncMerge.LastErrorReported | services/sync.py:85-152 | the error reported is that of the last pull, in completion order, to break off; a key without an address, a readable secret or a listing reports none |
| PublicIds.NumberedInjective | services/sync.py:204-205 | the bare name and the number can be read back from a numbered id |
| PublicIds.DecimalExactly | services/sync.py:204-205 | numbers are written in decimal without leading zeros |
| PublicIds.AssignedIsPublicId | services/sync.py:196-205 | the id a model is given depends only on the set of models, as its rank in its group, not on the order they were merged in |
| PublicIds.NumberedByAddress | services/sync.py:202-205 | of two models under one name, numbered from 1 on, the one at the lesser address has the lesser number, and at one address the one with the lesser id |
| PublicIds.DifferentExactly | services/sync.py:190-205 | all public ids differ if and only if no model alone under its name is called what a numbered member of another group is called |
| PublicIds.ClashReached | services/sync.py:196-208 | three merged models, two of them one model at two addresses, of which two get the id "s-m-1", so that lookup misses one |
| PublicIds.LookupInvertsExactly | services/sync.py:207-221 | lookup returns for every public id the entry that shows it if and only if there is no such clash, and never answers for an id no entry has |
| PublicIds.PublicIdsConfluent | services/sync.py:155-158 | every completion order gives every model the same public id |
| PublicIds.RemovalExact | services/sync.py:173-183 | the survivors of a removal are the entries with another source, in order, with the public ids they had, their other keys and the first of them leading; none refers to the removed key; the entries it alone provided are counted |
| PublicIds.LookupAfterRemoval | services/sync.py:173-187 | afterwards an id is answered exactly if its entry had another source, with what remains of that entry |
| PublicIds.IdKeptExactly | services/sync.py:190-205 | numbered anew among fewer models, a model keeps its id if and only if it was alone under its name, or its group still has two members and has lost none numbered below it |
| PublicIds.RestartKeepsIdExactly | services/sync.py:49-64 | over a removal and a restart after it, exactly those survivors keep their id |
| PublicIds.RestartRenames | services/sync.py:49-64 | of two copies of a model, "s-m-1" and "s-m-2", the second is called "s-m" after the first is removed and the gateway restarted, and "s-m-2" is no longer found |
| PublicIds.SavedExactly | db/database.py:649-672 | the saved copy holds every model, in order, if and only if no two of them are filed under one row |
| PublicIds.SavedLosesModel | db/database.py:649-672 | of two models whose joined names collide only the second is saved |
| ModelSyncer.ModelSyncer.AbsorbPull | services/sync.py:122-150 | one completed pull extends the merged list as if its offers came next |
| ModelSyncer.ModelSyncer.Restore | services/sync.py:31-64 | a restart shows the saved models, with the switches kept apart, numbered anew |
| ModelSyncer.ModelSyncer.Choose | services/sync.py:82-155 | the first 20 ACTIVE keys, in order |
| ModelSyncer.ModelSyncer.Sync | services/sync.py:76-163 | the models are the merge of what the chosen keys' listings offer, in completion order, keys without address, secret or answer offering nothing, with public ids and the index that belongs to them; they are saved, counted and stamped, and the error reported is the last failure of a pull, of an earlier sync if none failed |
| ModelSyncer.ModelSyncer.PersistModels | db/database.py:649-672 | the table is emptied and holds, for each row key, the last model filed under it, without its public id |
| ModelSyncer.ModelSyncer.MergePulls | services/sync.py:122-158 | whatever pulls complete in whatever order, their merge is published with its ids and index |
| ModelSyncer.ModelSyncer.AssignPublicIds | services/sync.py:190-205 | grouping, sorting and numbering in place gives every entry the id of the specification and changes nothing else |
| ModelSyncer.ModelSyncer.RebuildPublicIndex | services/sync.py:207-208 | later entries overwrite earlier ones under the same id |
| ModelSyncer.ModelSyncer.FindByPublicId | services/sync.py:210-212 | the answer is a published model shown under that id, the only one if ids differ, and there is none exactly if no model is shown under it |
| ModelSyncer.ModelSyncer.RemoveByKey | services/sync.py:165-187 | strips the key from every entry, drops the emptied ones, returns how many, saves the rest and rebuilds the index |
| SyncRaces.RemovedKeyReturns | services/sync.py:76-187 | over every interleaving of syncs, pulls and removals, a removed key is referred to again if and only if some sync has finished since and the last one to do so had pulled from it, before or after the removal |
| SyncRaces.RestorerWasRunning | services/sync.py:76-187 | as long as no later sync chooses the key, that sync had chosen it and was running at the removal; without such a sync the removal is final |
| SyncRaces.RemovalUndone | services/sync.py:76-187 | a key removed while a sync that chose it runs, before or after its pull, is gone and then back |
| PriceSpec.ScanNeeds | config/pricing.py:164-169 | a first-match scan finds the longest matching prefix for every model if and only if no row stands before a row it is a prefix of |
| PriceSpec.ScanIsLongest | config/pricing.py:135-136 | the length-ordered scan stops at the longest matching row, or at the end exactly if none matches |
| PriceSpec.AnswerUnique | config/pricing.py:160-170 | the price depends on the tables as sets: insertion order cannot show |
| PriceSpec.ExactNameWins | config/pricing.py:160-166 | a model named exactly by an override costs what that override says, whatever the other rows |
| Pricing.PriceTables.SetOverrides | config/pricing.py:143-152 | the override table holds, for each normalised name, the price of the last well-formed rule for it, and the scanned list is that table by length |
| Pricing.PriceTables.PriceFor | config/pricing.py:160-170 | the price of the longest matching override, else of the longest matching built-in prefix, else the default |
| Pricing.RuleOrderIrrelevant | config/pricing.py:146-150 | rules with different normalised names give the same table in any order |
| Pricing.RuleIsCharged | config/pricing.py:143-165 | a model that goes by the name of a rule, stripped and in lower case, is charged what the last well-formed rule of that name says |
| Pricing.UnknownModelCosts | config/pricing.py:133-170 | a model that no row is a prefix of costs 1.00 in and 3.00 out |

## Left out

- HTTP, streaming, TLS, the web console, webhooks, subprocesses and settings: input and output. An upstream call is an arbitrary outcome.
- AES, SHA-256 and HMAC: foreign calls. Only the bytes that are hashed are modelled, and decryption is a yes-or-no circumstance.
- SQL text and parsing, WAL, commit failures and the discard path (`db/database.py:386-388`): every commit succeeds.
- Timestamps and dates as ISO text: dates are triples compared field by field.
- Floating point: limits, prices, latencies and scores are reals; window weights, which are whole, are integers.
- BatchDatabase.Database.WriterPass: one pass with nobody interleaving; the interleavings are in `WriterProtocol`.
- WriterProtocol.FlushExact: one caller of `flush_now` at a time, and not its timeout.
- Memory and key table are compared within one day (`Persistence`): the counters a row shows depend on the date it is written.
- KeyManager.KeyManager.TestKey: the probe itself; its outcome is a parameter.
- KeyManager.KeyManager.ListActive: one clock reading stands for the several a call makes.
- KeyManager.KeyManager.AddKey: encryption and id generation; the id is given and unused.
- QuotaMonitor.QuotaMonitor.Record: the texts of warnings and alerts, the webhook and the alerts table.
- Failover.Gateway.Try: of what others do between its attempts only deletions of keys are modelled, other requests on the same keys are not; the wait after a token refusal is a delay in which only these happen; cache fills and request logs on success are not part of it; a streamed answer is booked by its response generator after the loop (`gateway.py:449-459`), with the books of `AfterSuccess`.
- LoadBalancer.LoadBalancer.Weighted: the random draw is a parameter.
- RateLimiter.RateLimiter.CheckTpm: bounds are on the charged weight, which is scaled down, so nothing is said about tokens per minute; the gateway sleeps after a refusal and then proceeds.
- ModelSyncer.ModelSyncer.Sync: address resolution, decryption, the listing requests and what breaks off a pull are inputs, as is the completion order; failures of the database, and running without one, are not modelled.
- ModelSyncer.ModelSyncer.RemoveByKey: one uninterrupted call; its interleavings with syncs are in `SyncRaces`.
- The on/off switch of a model and the sharing of entry records between list and index.
- The texts that name an exhausted quota: whether an answer contains one is an input.
- Capability inference, `strip` and `lower` are arbitrary functions; provider detection is not modelled.
- `estimate_cost`: one multiplication and a rounding.
- `stats`, logging, CSV export, masked keys and other read-only reports are not modelled.
