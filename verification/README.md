# Verified model of the catalogue service

This project models, in Dafny, the parts of the catalogue backend whose correctness depends on
interleavings, failures and repeated runs, and proves what they promise. SQL statements, Redis commands
and calls under a mutex are single atomic steps; whatever the network, the clock, the database or a random
source may answer is a parameter that ranges over everything.

- **The webhook queue** (`WebhookStore`, `WebhookProtocol`, `WebhookTheorems`, `WebhookOverlap`,
  `WebhookRanks`, `WebhookEffects`, `WebhookService`). Events
  of one table are claimed under leases by any number of processors that may crash at any point. A run is
  any sequence of enqueue, claim, sync begins, sync ends, report, drop, purge and passing time. Proved for
  every run: no accepted event is lost, tickets are fenced by their attempt number, completed is final,
  leases exclude each other, when exactly two syncs of one event overlap, and that a due event cannot starve. The repository's statements and the service's
  methods are also written as a class that updates its table in place, and tied to the same step functions.
- **The Carta synchronisation** (`CartaSync`, `CartaTheorems`, `CartaRecord`, `CartaHistory`,
  `CartaService`, `HomeFeatured`). One run lists, fetches, upserts, soft-deletes and stamps a cursor. Proved: the schedule
  of the fetches does not matter, an incremental run equals a full one, the cursor keeps its meaning over
  any history of failed and completed runs, single-record syncs, source changes and mapping versions, and
  exactly which rows a run takes away.
- **The alias graph** (`AliasGraph`). Upserts are two statements, interleaved among any number of workers.
  The table never loops, except through a canonical slug whose second statement is still to come.
- **The circuit breaker and the retry loops** (`CircuitBreaker`, `Retry`, `Backoff`). Calls admitted
  earlier report at any time. Proved: the breaker never wedges, what its counter counts, how many probes it
  lets in, and what a whole retried call does to it and how long it waits.
- **Hybrid search** (`Fusion`, `SearchPages`, `VectorCache`). Full outer joins of capped ranked lists
  are the intended sum of reciprocal ranks; pages fetched by independent queries partition the list;
  concurrent requests agree on the vectors of a query.
- **Query expansion** (`Expander`, `SynonymTable`, `Strings`). Matching is contiguous occurrence of
  tokens, expansion is idempotent, and it is exactly known when the query keeps its branches.

Code that works step by step (the repositories, the services, the breaker, the loops) is modelled by
classes and methods, each tied by its `ensures` to a function or a relation on values; the theorems are
about those. `dafny verify dfyconfig.toml` checks everything.

## What turned out not to hold as it reads

Each of these comes with the exact condition, as an if-and-only-if over all inputs.

- The doubling waits leave 64 bits when the first doubling that meets the cap is 2^63 or more; some attempt
  then gets a negative wait (`Backoff.WaitIsDocumentedIff`). For exactly those settings some reachable state
  has a failed event move ahead of one that is due (`WebhookRanks.RanksNeverGrowIff`); the safety theorems of
  the queue hold for all settings.
- A processor that owns its event can be overtaken, inside its timeout, by a second sync of it exactly when
  it begins with less than its timeout left in its lease, as the last events of a claimed batch may
  (`WebhookOverlap.SyncsOverlapIff`, met under every setting by `WebhookOverlap.TooLateIsReached`).
- A run drops a service it has just written exactly when its canonical slug has surrounding space and is
  not itself listed as it stands (`CartaTheorems.NeverDeletesWhatItWrote`, `CartaTheorems.UntrimmedCanonicalIsDropped`).
- A delta after a full run drops a live service exactly when the listing shows it only under a dated old
  slug (`CartaHistory.DeltaAfterFullKeepsCatalogIff`, `CartaHistory.StaleSlugDropsService`).
- "At most one probe" fails exactly after the report of a call that is not the probe
  (`CircuitBreaker.StrayReportsAdmitSecondProbe`, met under every setting by `CircuitBreaker.StrayIsReached`).
- The first statement of an alias upsert leaves a loop exactly when the canonical slug already leads to the
  old one (`AliasGraph.InsertIsSafeIff`); the table of a run has one exactly when the canonical of a
  half-done upsert leads back to itself (`AliasGraph.LoopsStartAtHalfDoneIff`, `AliasGraph.HalfDoneCanLoop`).
- While the key stays, a request with vectors of its own returns the stored ones exactly when its first read
  succeeds, or its SETNX is answered and its second read succeeds (`VectorCache.AgreesIff`). The three ways
  to differ, of which an expired key is one, have their inputs (`VectorCache.LostWriteDisagrees`, `VectorCache.FailedRereadDisagrees`,
  `VectorCache.ExpiredKeyDisagrees`).
- An expanded query keeps the branches of the query and adds one for each expansion exactly when nothing is
  appended or the query does not end in an "or" of its own, in any case, after another operand: the database
  takes that word for an operator once something follows it (`Expander.ExpandedReadsAsBranches`,
  `Expander.WhatDangles`).
- The offset of a page is the meant one exactly when (page - 1) * per_page is below 2^63
  (`SearchPages.OffsetIsStartIff`, `SearchPages.FarPageIsMeantIff`, `SearchPages.FarPageShowsFirst`).

## Model

| member | source | states |
|---|---|---|
| `Backoff.WaitIsDocumentedIff` | internal/services/salesforce_webhook_service.go:270-279 | the doubling loop, with Go's 64-bit wrap, waits min(max, base * 2^(n-1)) for every attempt n if and only if the first doubling that meets max is below 2^63 |
| `Backoff.ModestCapsAreExact` | internal/datasource/manager.go:80-93 | for 0 < base <= max <= 2^62 the wait is the documented one, lies in [base, max] and never falls from one attempt to the next |
| `Backoff.LargeCapsWrap` | internal/clients/resilience.go:251-261 | above 2^62 there are settings whose second attempt waits a negative time |
| `Backoff.DocumentedWaitsFit` | internal/datasource/manager.go:80-93 | for every valid setting inside the exact condition, a base of zero included, the wait is the documented one and lies between zero and the cap |
| `Backoff.RetryDelay` | internal/services/salesforce_webhook_service.go:270-279 | the webhook's loop computes the wait the lemmas speak of, for every attempt number and every setting |
| `Backoff.CallerBackoff` | internal/clients/resilience.go:251-261 | with any random source the wait lies between half (truncated) and the whole of the doubled delay; a cap that is not positive is no cap; a wrapped, negative delay gives its half |
| `Backoff.PolicyBackoff` | internal/datasource/manager.go:80-93 | the same for the sync manager, whose cap always applies and whose wrapped delay is returned whole |
| `Backoff.Normalized` | internal/datasource/manager.go:66-77 | the result is valid, a valid policy is unchanged, and an invalid one becomes the least valid policy above it |
| `WebhookStore.ClaimSize` | internal/repository/salesforce_webhook_repository.go:71-105 | a claim takes exactly `limit` rows, or every due row when fewer are due |
| `WebhookStore.ClaimTakesAPrefix` | internal/repository/salesforce_webhook_repository.go:71-105 | no due row that comes before a claimed one in (next_attempt_at, id) order is left out |
| `WebhookStore.TruncatedIsLongest` | internal/repository/salesforce_webhook_repository.go:127-144 | the error kept is the longest start of the message, in whole characters, within 1000 bytes |
| `WebhookProtocol.RunKeepsInv` | internal/repository/salesforce_webhook_repository.go:46-156 | the invariant behind the theorems (rows, tickets, phases, witnesses, leases) survives every sequence of actions of any number of processors |
| `WebhookProtocol.CompletionHasWitness` | internal/repository/salesforce_webhook_repository.go:111-122 | every row that a completion covers, also those of other events of the slug, arrived no later than the completing sync began |
| `WebhookTheorems.NoEventLost` | internal/repository/salesforce_webhook_repository.go:111-156 | in every reachable state each event answered with `created` is pending, or a successful sync of its slug began after it arrived; its slug and arrival time never change |
| `WebhookTheorems.EnqueueCreatesOnce` | internal/repository/salesforce_webhook_repository.go:46-66 | an enqueue creates a row exactly when the key is absent, with an id never used before, owned by its first ticket, and leaves every other row alone; keys are unique in every reachable state |
| `WebhookTheorems.TicketsAreFenced` | internal/repository/salesforce_webhook_repository.go:71-144 | a step issues only tickets above all earlier attempts of the event, tickets in hand never tie, and a failure reported by any but the latest attempt changes nothing |
| `WebhookTheorems.CompletedIsFinal` | internal/repository/salesforce_webhook_repository.go:111-156 | over any further run a completed row stays as it is until it is purged, and never becomes pending again |
| `WebhookTheorems.LeasesExclude` | internal/repository/salesforce_webhook_repository.go:71-105 | of two tickets in hand for one event, one is past its lease |
| `WebhookTheorems.ReportSettles` | internal/repository/salesforce_webhook_repository.go:111-144 | whatever other processors did since the claim, after a report the ticket's row is completed, or scheduled by this failure if the ticket still owned it, or untouched and owned by a later attempt |
| `WebhookTheorems.TimelySyncsExclude` | internal/services/salesforce_webhook_service.go:173-216 | a sync inside its timeout that has a later ticket of its event beside it began with less than its timeout left in its lease; no other sync has to be timely |
| `WebhookOverlap.OverlapIsLate` | internal/services/salesforce_webhook_service.go:173-216 | every overlap with a later sync of the event, by whatever run it came about, is of a sync that began too late |
| `WebhookOverlap.LateSyncOverlaps` | internal/services/salesforce_webhook_service.go:220-232 | a sync that begins too late, at whatever moment, has a run in which the event is claimed again and synced beside it before its timeout |
| `WebhookOverlap.SyncsOverlapIff` | internal/services/salesforce_webhook_service.go:173-232 | from every reachable state, the sync that an owner begins can be overtaken inside its timeout if and only if now + timeout is past the end of its lease |
| `WebhookOverlap.TooLateIsReached` | internal/services/salesforce_webhook_service.go:173-232 | under every setting with a timeout, a first attempt that waits out its lease is such a state |
| `WebhookTheorems.PendingBecomesDue` | internal/services/salesforce_webhook_service.go:100-121 | where the retry delays fit 64 bits, every pending row is due within max(lease, longest retry delay) of its last write, and never at the moment of the write |
| `WebhookTheorems.ClaimCutsRank` | internal/repository/salesforce_webhook_repository.go:71-105 | a claim that passes over a due event cuts the number of pending rows before it by exactly the batch size |
| `WebhookTheorems.StepCutsRank` | internal/repository/salesforce_webhook_repository.go:46-144 | where the retry delays fit 64 bits, no action puts more pending rows before a waiting due event, and each claim takes exactly one batch away |
| `WebhookRanks.WrappedDelaysOvertake` | internal/services/salesforce_webhook_service.go:270-279 | for every setting whose retry delays leave 64 bits, a run reaches a failure report that puts its event before one that is due |
| `WebhookRanks.RanksNeverGrowIff` | internal/services/salesforce_webhook_service.go:270-279 | over all reachable states and steps, ranks of waiting due events never grow if and only if the retry delays fit 64 bits |
| `WebhookTheorems.DueEventsDoNotStarve` | internal/services/salesforce_webhook_service.go:220-232 | where the retry delays fit 64 bits, in every run from a reachable state with at least rank/batch + 1 claims, a due event does not wait throughout |
| `WebhookTheorems.WaitEndsOnlyThree` | internal/repository/salesforce_webhook_repository.go:71-144 | its wait ends by a claim, by a completion that covers it, or by the failure report of the attempt that still owns it |
| `WebhookEffects.EnqueueWrites` | internal/repository/salesforce_webhook_repository.go:46-66 | from every reachable state: a new key adds one row, every field of it as inserted, with its ticket; a known key adds none; no other row changes |
| `WebhookEffects.ClaimWrites` | internal/repository/salesforce_webhook_repository.go:71-105 | a claim changes exactly the due rows with fewer than a batch of pending rows before them, in their attempt, due time and write time only, and hands out their tickets |
| `WebhookEffects.CompletionWrites` | internal/repository/salesforce_webhook_repository.go:111-122 | a successful report completes, at the time of the clock and without error, the event and every pending event of its slug that arrived by the claim; every other row stays |
| `WebhookEffects.CompletionLeavesNoneOfSlug` | internal/repository/salesforce_webhook_repository.go:111-122 | after it, an event of the slug that is still pending arrived later than the claim |
| `WebhookEffects.FailureWrites` | internal/repository/salesforce_webhook_repository.go:127-144 | a failure report changes only its own row, and only if its attempt still owns it: error, due time, write time |
| `WebhookEffects.PurgeTakes` | internal/repository/salesforce_webhook_repository.go:147-156 | in every reachable state a completed event is purged if and only if it was completed before the moment given; a pending one never is, and what stays is unchanged |
| `WebhookEffects.TicketsMoveInOrder` | internal/services/salesforce_webhook_service.go:173-216 | in every reachable state a step moves at most its own ticket, one phase on: handed out, syncing since now, synced or failed, reported or dropped |
| `WebhookEffects.SyncsAreRecorded` | internal/services/salesforce_webhook_service.go:173-216 | the witnesses are exactly the syncs that ended without error, with their slug and times |
| `WebhookService.WebhookRepository.Enqueue` | internal/repository/salesforce_webhook_repository.go:46-66 | the in-place insert is the protocol's step, whole table and ticket |
| `WebhookService.WebhookRepository.PickDue` | internal/repository/salesforce_webhook_repository.go:71-105 | the selection picks, without repeats, exactly the due rows with fewer than `limit` rows before them |
| `WebhookService.WebhookRepository.ClaimDue` | internal/repository/salesforce_webhook_repository.go:71-105 | the in-place update is the protocol's step, and the tickets returned are one for each claimed row |
| `WebhookService.WebhookRepository.Complete` | internal/repository/salesforce_webhook_repository.go:111-122 | the in-place update is the protocol's step; the event and every row of its slug that arrived by the claim are completed, and the count is the number of those that were pending |
| `WebhookService.WebhookRepository.Fail` | internal/repository/salesforce_webhook_repository.go:127-144 | the in-place update is the protocol's step, with the message cut at 1000 bytes to whole characters |
| `WebhookService.WebhookRepository.DeleteCompletedBefore` | internal/repository/salesforce_webhook_repository.go:147-156 | the in-place delete is the protocol's step, and the count is the number of rows it removes |
| `WebhookService.WebhookService.constructor` | internal/services/salesforce_webhook_service.go:100-121 | each invalid setting is replaced by its default, the timeout by three quarters of the lease and the cap by the base delay; each valid one is kept; the result is valid |
| `WebhookService.WebhookService.Process` | internal/services/salesforce_webhook_service.go:173-216 | after a sync that takes any time, the attempt is reported once, as a completion or a failure with the delay of its attempt number, or not at all when the store refuses; the error returned is the sync's, or the store's for a success it refuses |
| `WebhookService.ReportedWrites` | internal/services/salesforce_webhook_service.go:173-216 | an attempt ends on the clock when its sync ends: that is when its rows are completed, and from when its failure is scheduled; a refused result writes nothing |
| `WebhookService.WebhookService.ProcessDue` | internal/services/salesforce_webhook_service.go:220-232 | a pass claims one batch of distinct events and processes them in turn, as many as the context lets it, whatever their results; a claim that fails takes nothing |
| `WebhookService.PassSettlesEvents` | internal/services/salesforce_webhook_service.go:173-232 | after a whole pass of one processor alone, with syncs of any length and any results refused, every claimed event is completed, or pending with its error and due after its wait counted from the end of its sync, or, if its result was refused, pending until its lease ends |
| `WebhookService.PassCompletesBySuccess` | internal/services/salesforce_webhook_service.go:173-232 | and every event the pass completes is covered by a recorded success of the pass |
| `WebhookService.ClaimedAreOwned` | internal/services/salesforce_webhook_service.go:220-232 | the tickets of a claim own their rows, which is where such a pass starts |
| `AliasGraph.PointingAtEndIsAcyclic` | internal/repository/carta_repository.go:551-568 | redirecting any slug to another that has no alias makes no loop |
| `AliasGraph.StatementEffect` | internal/repository/carta_repository.go:551-596 | slug by slug, what an insert, the second statement of an upsert and a delete do to the table |
| `AliasGraph.SettledNeverLoops` | internal/repository/carta_repository.go:551-596 | in every interleaving of upserts and deletes by any number of workers, the table without the out-edges of half-done canonicals has no loop |
| `AliasGraph.QuietTableNeverLoops` | internal/repository/carta_repository.go:551-596 | so the whole table has no loop whenever no half-done canonical has an alias, also with upserts that stopped half way for good |
| `AliasGraph.InsertIsSafeIff` | internal/repository/carta_repository.go:551-568 | the first statement of an upsert leaves a table without loops if and only if the canonical does not already lead to the old slug |
| `AliasGraph.LoopsPassThroughHalfDone` | internal/repository/carta_repository.go:551-568 | at any moment, every loop passes through the canonical of a half-done upsert |
| `AliasGraph.LoopsStartAtHalfDoneIff` | internal/repository/carta_repository.go:551-596 | at any moment of any interleaving, the table has a loop if and only if some half-done canonical leads back to itself |
| `AliasGraph.HalfDoneCanLoop` | internal/repository/carta_repository.go:551-568 | one worker that stops between its statements can leave a loop of two |
| `AliasGraph.RedirectsTerminate` | internal/repository/carta_repository.go:621-650 | in a table without loops a chain of redirects has no more hops than the table has aliases |
| `AliasGraph.AnswerMeans` | internal/repository/carta_repository.go:621-650 | exactly when a request is answered by the service, by a redirect to a given slug, by nothing, or as blank |
| `AliasGraph.FollowRedirects` | internal/repository/carta_repository.go:621-650 | a client that follows the redirects ends within as many hops as there are aliases, at the first published slug of the chain if it has one, and otherwise at its end with nothing |
| `AliasGraph.AliasTable.DeleteSlugAlias` | internal/repository/carta_repository.go:587-596 | removes the trimmed slug's alias and nothing else; a blank slug removes nothing |
| `AliasGraph.PromotedSlugsResolve` | internal/repository/carta_repository.go:551-617 | read back after an upsert, each old slug is one hop from the canonical, which leads nowhere, and every other slug resolves as before |
| `AliasGraph.AliasTable.GetServiceDetail` | internal/repository/carta_repository.go:599-650 | the service if and only if the trimmed slug is published; a redirect to c if and only if it is not and its one alias is c, neither blank nor itself; blank for a blank slug |
| `AliasGraph.AliasTable.UpsertSlugAlias` | internal/repository/carta_repository.go:551-568 | the old slug redirects to the canonical, the canonical redirects nowhere, every other alias is unchanged, blank or equal slugs change nothing, and no loop appears |
| `AliasGraph.AliasTable.UpsertSlugAliases` | internal/repository/carta_repository.go:571-583 | every other slug of the history list redirects to the canonical in one hop, the canonical redirects nowhere, every other alias is unchanged, and no loop appears |
| `CircuitBreaker.NeverWedged` | internal/clients/resilience.go:153-206 | in every reachable state the breaker refuses exactly when its open time is running or the call that holds the probe has not reported; with no call in flight and the time up it admits |
| `CircuitBreaker.CounterMeaning` | internal/clients/resilience.go:177-212 | the counter is the number of failures since the last success or opening, and is below the threshold |
| `CircuitBreaker.ReportEffect` | internal/clients/resilience.go:177-212 | in every reachable state: a success closes the circuit, a failure opens it at the time of the report when half-open or at the threshold and otherwise only counts, an abandoned call changes neither, and each gives the probe's place back |
| `CircuitBreaker.TryEffect` | internal/clients/resilience.go:153-174 | what an admission leaves in each state: nothing when closed or refused, a half-open circuit with this call as its probe otherwise |
| `CircuitBreaker.ClosedRefusesNone` | internal/clients/resilience.go:153-206 | from a closed circuit, in every run without a failure report, every call gets in, none as a probe, and the circuit stays closed |
| `CircuitBreaker.SuccessRecovers` | internal/clients/resilience.go:177-183 | so from any reachable state a success is a full recovery until the next failure |
| `CircuitBreaker.SinceResetIsLongest` | internal/clients/resilience.go:177-212 | the part of the history counted is the longest end of it without a success or an opening |
| `CircuitBreaker.OpensAtThreshold` | internal/clients/resilience.go:186-198 | a closed circuit opens exactly at the failure that makes that number reach the threshold |
| `CircuitBreaker.OneProbeBetweenReports` | internal/clients/resilience.go:153-174 | between two consecutive reports at most one call is admitted while the circuit is not closed |
| `CircuitBreaker.OpenRefusesForItsTime` | internal/clients/resilience.go:153-212 | once open, nothing is admitted until the open time is over, unless a late success is reported |
| `CircuitBreaker.OneProbeWithoutStrays` | internal/clients/resilience.go:153-206 | in runs where no other call reports while the circuit is not closed, at most one probe is ever in flight |
| `CircuitBreaker.StrayReportsAdmitSecondProbe` | internal/clients/resilience.go:177-206 | while a probe is in flight, the report of a call can be followed by a second probe beside it, without the first ever reporting, if and only if that call is not the probe |
| `CircuitBreaker.StrayIsReached` | internal/clients/resilience.go:153-206 | under every setting a run reaches such a report, and a second probe after it |
| `Retry.BreakerObject.constructor` | internal/clients/resilience.go:130-143 | a new breaker is closed, counts nothing, and has a threshold of at least one |
| `Retry.BreakerObject.AllowCall` | internal/clients/resilience.go:153-174 | the method on the mutable fields is the admission step of the runs above |
| `Retry.BreakerObject.OnSuccess` | internal/clients/resilience.go:177-183 | the method is the report step for a success |
| `Retry.BreakerObject.OnFailure` | internal/clients/resilience.go:186-198 | the method is the report step for a failure |
| `Retry.BreakerObject.OnAbandon` | internal/clients/resilience.go:202-206 | the method is the report step for an abandoned call |
| `Retry.OutcomeMeans` | internal/clients/resilience.go:285-301 | which endings show that the service is there, which show nothing, which count against it, and which are tried again |
| `Retry.RefusedReportsNothing` | internal/clients/resilience.go:277-280 | exactly when an attempt is refused, and that it then reports nothing |
| `Retry.AdmittedReportsOnce` | internal/clients/resilience.go:277-301 | what the one report of an admitted attempt leaves of the breaker, by its ending |
| `Retry.CalmKeepsClosed` | internal/clients/resilience.go:285-301 | through any number of attempts whose errors are not transient or are the caller's own, a closed circuit refuses nothing and stays closed |
| `Retry.Do` | internal/clients/resilience.go:269-315 | with other calls interfering anywhere: at most the allowed operations, retries = operations - 1, every operation admitted and reported exactly once, another attempt only after a retryable failure whose wait ended, the reason for stopping, and, for every setting whose waits are documented, waits between half of their sum, up to rounding, and the whole |
| `Retry.SyncWithRetry` | internal/datasource/manager.go:258-303 | between one and the allowed number of operations, retries = operations - 1, success is that of the last one, why it stops, and, for every setting whose waits are documented, waits between half of their sum, up to rounding, and the whole |
| `CartaTheorems.ScheduleDoesNotMatter` | internal/services/salesforce_sync_service.go:512-565 | two schedules of the same fetches end with the same catalogue, cursor, outcome and counts |
| `CartaTheorems.CountsAreSizes` | internal/services/salesforce_sync_service.go:512-565 | the counts of fetched and mapped details are sizes of sets that no schedule enters |
| `CartaTheorems.AccountsForEveryFetch` | internal/services/salesforce_sync_service.go:183-302 | unless the listing fails, processed + failed is the number of details to fetch; the run completes exactly when every fetch comes back, the batch goes in and the soft delete is not refused |
| `CartaTheorems.ProcessedIs` | internal/services/salesforce_sync_service.go:219-240 | the processed count is every mapped item, or those before the one the batch failed on |
| `CartaTheorems.CursorMovesIff` | internal/services/salesforce_sync_service.go:258-282 | the cursor becomes the end and the version of the run if and only if it completes and the write succeeds, and stays otherwise, in particular when any fetch fails |
| `CartaTheorems.SoftDeleteEffect` | internal/repository/catalog_item_repository.go:290-306 | exactly the visible rows outside the kept set are hidden, with what they hold, and no other row changes |
| `CartaTheorems.VisibleAfterRunIff` | internal/services/salesforce_sync_service.go:201-260 | after a run that reaches its soft delete, full or delta and whichever fetches fail, a slug is visible if and only if the run keeps it and its batch, or the table before where the batch has none, shows it |
| `CartaTheorems.IncrementalEqualsFull` | internal/services/salesforce_sync_service.go:183-302 | where unchanged services already have their rows, a delta and a full run end with the same table, whatever fetches fail, unless all fetches of one of them fail |
| `CartaTheorems.KeptIff` | internal/services/salesforce_sync_service.go:569-582 | for any run, full or delta: a fetched canonical slug is kept if and only if it has no surrounding space, or is itself listed and not redirected by this run |
| `CartaTheorems.SyncedShowsItsFetchesIff` | internal/services/salesforce_sync_service.go:201-260 | for any run, full or delta, the upserts and the soft delete leave visible every active service fetched if and only if that holds for each of their canonical slugs |
| `CartaTheorems.NeverDeletesWhatItWrote` | internal/services/salesforce_sync_service.go:201-260 | the same of the table of the run itself, whichever of its fetches, its soft delete and its cursor write fail, once the batch is in |
| `CartaTheorems.UntrimmedCanonicalIsDropped` | internal/services/salesforce_sync_service.go:569-582 | one listed service whose canonical slug has surrounding space is written and dropped by the same run |
| `CartaTheorems.FullRunMirrorsSource` | internal/services/salesforce_sync_service.go:183-302 | after a full run whose fetches and mappings succeed, exactly the canonical slugs of the listed active services are visible, with their mapped rows, for every redirect map and previous table |
| `CartaTheorems.FailuresDeleteNothing` | internal/services/salesforce_sync_service.go:201-260 | a failed or empty listing, fetches that all fail, or a failed batch leave the catalogue unchanged |
| `CartaTheorems.DeletesOnlyUnlisted` | internal/repository/catalog_item_repository.go:290-306 | a row that stops being visible is one the run does not keep, or one whose detail is no longer active |
| `CartaHistory.RunKeepsAgreement` | internal/services/salesforce_sync_service.go:183-302 | a row that agrees with the source still does after any run, whatever fails in it |
| `CartaHistory.CompletedRunAgrees` | internal/services/salesforce_sync_service.go:183-302 | a completed run makes every entry it fetched under its own slug agree |
| `CartaHistory.CursorAlwaysHolds` | internal/services/salesforce_sync_service.go:120-134 | over any mix of failed and completed runs, single-record syncs, dated source changes and new mapping versions, rows agree with the source up to the stored cursor, if it is of the current version |
| `CartaHistory.SinceIs` | internal/services/salesforce_sync_service.go:120-134 | a run starts from the cursor if and only if it is a delta, the cursor can be read and it is of the current version |
| `CartaHistory.CompletedRunIsNotRepeated` | internal/services/salesforce_sync_service.go:120-134 | after a completed run the next delta starts at its end and fetches exactly what is undated or dated later |
| `CartaHistory.FailedRunIsRepeated` | internal/services/salesforce_sync_service.go:258-282 | after a failed run the next delta starts where this one could have |
| `CartaHistory.NewVersionFetchesAll` | internal/services/salesforce_sync_service.go:120-134 | after a new mapping version the next delta fetches everything |
| `CartaHistory.DeltaEqualsFullAfterAnyHistory` | internal/services/salesforce_sync_service.go:120-134 | after any such history a delta leaves the table a full recompute would |
| `CartaHistory.DeltaMirrorsSourceAfterAnyHistory` | internal/services/salesforce_sync_service.go:120-134 | and a faultless delta leaves exactly the listed active services visible |
| `CartaHistory.DeltaAfterFullKeepsCatalogIff` | internal/services/salesforce_sync_service.go:494-582 | without assuming canonical listings: a faultless delta after a full run keeps every live service if and only if each is still named by its own slug or by an entry fetched again |
| `CartaHistory.StaleSlugDropsService` | internal/services/salesforce_sync_service.go:494-582 | one service listed under a dated old slug is visible after a full run and gone after the next delta |
| `CartaRecord.RecordSucceedsIff` | internal/services/salesforce_sync_service.go:136-181 | exactly when a single-record sync succeeds: a slug that is not blank, an answer of the API, and the soft delete of a service that is gone or the upsert of one that maps |
| `CartaRecord.RecordEffect` | internal/services/salesforce_sync_service.go:136-181 | a single-record sync that fails changes nothing; one that succeeds leaves the service's row under its canonical slug, hides a slug that is not canonical or leads nowhere, and touches no other row |
| `CartaRecord.RecordIsIdempotent` | internal/services/salesforce_webhook_service.go:204-209 | repeating it on the same source, with or without failures, changes nothing more, and a repetition completes one that was cut short |
| `CartaRecord.RecordKeepsAgreement` | internal/services/salesforce_sync_service.go:136-181 | however it ends, no row that agrees with the source stops agreeing |
| `CartaRecord.RecordMakesAgree` | internal/services/salesforce_sync_service.go:136-181 | when it succeeds, the row of its service agrees, whatever was there before |
| `CartaService.SyncRecord` | internal/services/salesforce_sync_service.go:136-181 | the statements, with the upsert and the soft delete of the repository, are that function |
| `CartaService.CatalogRepository.UpsertBatch` | internal/repository/catalog_item_repository.go:104-199 | all or nothing: on success the table is the fold of the single upserts, on failure it is untouched and the count is where it failed |
| `CartaService.CatalogRepository.SoftDeleteActiveNotIn` | internal/repository/catalog_item_repository.go:290-306 | the in-place update hides exactly the visible rows outside the kept set, and counts them |
| `CartaService.MergeListings` | internal/services/salesforce_sync_service.go:458-491 | the merged listing has no blank and no repeated slug, its slugs are those of all subthemes in whatever order their lists arrive, and each entry is the first to arrive under its slug |
| `CartaService.FilterServicesNeedingDetail` | internal/services/salesforce_sync_service.go:494-506 | the loop keeps, in order, what is undated or newer than the cursor, and everything without a cursor |
| `CartaService.FetchDetails` | internal/services/salesforce_sync_service.go:512-565 | details and redirects are those of the fetches that came back, and fetched + failed is the number requested |
| `CartaService.ResolveSeenSlugs` | internal/services/salesforce_sync_service.go:569-582 | the slugs kept are the listed ones, through the trimmed redirects found in this run |
| `CartaService.MapDetails` | internal/services/salesforce_sync_service.go:619-668 | the batch is the details with a slug and a name; the rest are counted as failed |
| `CartaService.RunSync` | internal/services/salesforce_sync_service.go:183-302 | the statements on the repository end with the table, cursor, outcome and counts of the run the theorems speak of |
| `HomeFeatured.CollectBySlug` | internal/services/salesforce_sync_service.go:336-367 | the first loop maps each slug to its first lowest-position entry and lists the slugs once, in first-seen order |
| `HomeFeatured.NormalizeHomeFeatured` | internal/services/salesforce_sync_service.go:336-367 | each item is the first lowest-position entry of its trimmed slug, in first-seen order; no slug and no position twice; a slug is left out only for an earlier item that holds its position |
| `HomeFeatured.NormalizationIsUnique` | internal/services/salesforce_sync_service.go:336-367 | those properties determine the list |
| `HomeFeatured.NormalizingAgain` | internal/services/salesforce_sync_service.go:336-367 | normalising a normalised list returns it |
| `Fusion.JoinRowsAre` | internal/repository/search_repository.go:255-288 | a row of a full outer join holds under its coalesced key exactly what each side has there |
| `Fusion.JoinKeysDiffer` | internal/repository/search_repository.go:255-288 | no key comes out of a join twice, so the second join on the coalesced key is again by key |
| `Fusion.JoinIsFull` | internal/repository/search_repository.go:255-288 | every key of either side comes out |
| `Fusion.HybridIsFusion` | internal/repository/search_repository.go:255-267 | one row for each item of the two capped lists, scored by the sum of weight / (60 + rank) |
| `Fusion.HydeIsFusion` | internal/repository/search_repository.go:272-288 | the same for the chain of three lists |
| `Fusion.WinningEverywhereWins` | internal/repository/search_repository.go:272-288 | an item that comes before another in every list that has the other scores strictly more |
| `Fusion.WinningBothWins` | internal/repository/search_repository.go:255-267 | the same with the two lists of the search without a document vector |
| `SearchPages.RankingIsUnique` | internal/repository/search_repository.go:85-93 | with distinct ids the order (score descending, id) leaves the database one arrangement |
| `SearchPages.RankingRanks` | internal/repository/search_repository.go:85-93 | and there always is one |
| `SearchPages.PagesContinue` | internal/repository/search_repository.go:293-311 | the first n pages, each arranged by its own query, are the first n * size rows of the ranking |
| `SearchPages.PagesPartition` | internal/repository/search_repository.go:293-311 | enough pages hold every row once and no other |
| `SearchPages.PageShows` | internal/repository/search_repository.go:293-311 | row i of page p is row p * size + i of the ranking, if the ranking goes that far, and a page has no more rows than its size |
| `SearchPages.ScoresDescend` | internal/repository/search_repository.go:85-93 | along the ranking scores never rise, and equal scores go by rising id |
| `SearchPages.ScoreAloneRepeatsItems` | internal/repository/search_repository.go:85-93 | ordered by score alone, two pages may show one item twice and miss another |
| `SearchPages.QueryResults` | internal/repository/search_repository.go:398-447 | the items in order, and the total carried by the rows, zero without rows |
| `SearchPages.SearchHybridPage` | internal/repository/search_repository.go:326-339 | the page of the one ranking; when each error is returned; the total is the size of the whole list on every page of positive size, also past the end |
| `SearchPages.Normalize` | internal/models/search.go:23-33 | every request becomes one with page >= 1 and 1 <= per_page <= 100, and a valid one is unchanged |
| `SearchPages.SearchHybrid` | internal/repository/search_repository.go:344-364 | for every normalised request: an answer carries the size of the whole list and the page at its 64-bit offset, which below 2^63 is the page asked for; when each error is returned |
| `SearchPages.OffsetIsStartIff` | internal/repository/search_repository.go:353 | the 64-bit offset is the meant one if and only if that is below 2^63 |
| `SearchPages.FarPageIsMeantIff` | internal/repository/search_repository.go:353 | a page whose start leaves 64 bits is still the empty page it should be if and only if the start wraps past the end of the list |
| `SearchPages.FarPageShowsFirst` | internal/repository/search_repository.go:378 | page 2^60 + 1 of size 16 is page one again |
| `VectorCache.ReturnsAreStored` | internal/services/search_vectors.go:42-71 | in every interleaving, requests that met no error or expiry from their SETNX on return stored values, of which there are at most one more than expiries |
| `VectorCache.StepsMoveForward` | internal/services/search_vectors.go:42-71 | a step moves one request, forward through its accesses; the key changes only by a SETNX where there is nothing, or by expiry |
| `VectorCache.VectorAgreement` | internal/services/search_vectors.go:42-71 | while the key does not expire, any two of them return the same vectors, the first ones stored |
| `VectorCache.OnlyErrorsAreUnlucky` | internal/services/search_vectors.go:42-71 | while the key does not expire, only a lost SETNX or a failed second read takes a request out of that guarantee |
| `VectorCache.EveryVectorHasItsQuery` | internal/services/search_vectors.go:76-120 | a query that could not be embedded is never stored and never returned |
| `VectorCache.LostWriteDisagrees` | internal/services/search_vectors.go:58-62 | with a lost SETNX two requests may return different vectors without any expiry |
| `VectorCache.FailedRereadDisagrees` | internal/services/search_vectors.go:63-69 | with a failed second read they may too |
| `VectorCache.ExpiredKeyDisagrees` | internal/services/search_vectors.go:58-62 | and so may two that met no error, with one expiry |
| `VectorCache.AgreesIff` | internal/services/search_vectors.go:42-71 | while a stored value stays, a request with other vectors of its own returns it if and only if its first read succeeds, or its SETNX is answered and its second read succeeds, whatever others do in between |
| `VectorCache.RequestIsItsSteps` | internal/services/search_vectors.go:42-71 | whatever others do between the accesses of a request, its steps in the protocol end with the outcome computed from the key's value at its three accesses |
| `VectorCache.OutcomeMeans` | internal/services/search_vectors.go:42-71 | that outcome on its own terms: vectors found at the first read, an error without a query vector, others' vectors found again after the SETNX, and otherwise the generated ones |
| `VectorCache.GenerateSearchVectors` | internal/services/search_vectors.go:76-120 | fails exactly without a query vector; a failed document only leaves the second vector empty |
| `VectorCache.SemanticVectors` | internal/services/search_vectors.go:42-71 | the method, with others changing the key in between, returns that outcome and leaves the key as its SETNX and the others do |
| `Strings.SplitAtSeparator` | internal/query/expander.go:132-154 | a character that is neither kept nor skipped ends a token and leaves the two sides independent |
| `Strings.SplitOfRun` | internal/query/expander.go:132-154 | a run of kept and skipped characters is one token, what is kept of it; with the previous law this determines the tokenizer |
| `Strings.FieldsOfJoin` | internal/query/expander.go:92 | words joined by single spaces are found again |
| `Strings.TrimIsTrimmed` | internal/repository/carta_repository.go:552-553 | trimming gives a string without surrounding space, and leaves exactly those alone |
| `Expander.HasExplicitWebsearchSyntax` | internal/query/expander.go:120-130 | true exactly for a quote, a field OR, or a field that starts with a minus sign |
| `Expander.TokenizeForMatch` | internal/query/expander.go:132-154 | the loop computes the tokens of the folded text |
| `Expander.ContainsTokenSequence` | internal/query/expander.go:177-194 | true exactly when the sequence is not empty and occurs contiguously |
| `Expander.MatchesPattern` | internal/query/expander.go:156-166 | true exactly when there is a pattern and the tokens of each entry occur |
| `Expander.HasAntiPattern` | internal/query/expander.go:168-175 | true exactly when the tokens of some entry occur |
| `Expander.Expand` | internal/query/expander.go:91-118 | the loops compute the expanded query of the lemmas, for every rule table |
| `Expander.ExpansionsAre` | internal/query/expander.go:101-112 | an expansion is added if and only if some rule with it matches and has no anti-pattern |
| `Expander.AppliesMeans` | internal/query/expander.go:101-104 | a rule applies if and only if it has patterns, the tokens of each occur next to one another in the query, and those of no anti-pattern do |
| `Expander.AntiPatternExcludes` | internal/query/expander.go:168-175 | an anti-pattern in the query keeps its rule out, whatever the patterns |
| `Expander.ExpansionsInOrder` | internal/query/expander.go:99-112 | the expansions come in the order of the first rules that ask for them |
| `Expander.EqualFoldsMatchAlike` | internal/query/expander.go:132-154 | queries with equal folded texts have the same tokens and the same expansions |
| `Expander.MarksAreSkipped` | internal/query/expander.go:137-139 | a combining mark changes no token, wherever it stands |
| `Expander.ExpansionsDiffer` | internal/query/expander.go:101-112 | no expansion is added twice |
| `Expander.ExpandedStartsWithQuery` | internal/query/expander.go:87-118 | the canonical query starts the result; a query with syntax of its own is returned with only its spaces normalised, and normalising does not change whether it has such syntax |
| `Expander.ExpandedReadsAsBranches` | internal/query/expander.go:87-118 | read as a web search, with "or" an operator in any case, the result has the branches of the query and one more for each expansion, if and only if nothing is appended or the query does not end in an "or" after another operand |
| `Expander.WhatDangles` | internal/query/expander.go:120-130 | "rg or" ends so; "or rg" and "rg or cpf" do not |
| `Expander.ExpandIsIdempotent` | internal/query/expander.go:91-118 | expanding twice is expanding once, for every string |
| `SynonymTable.TableIsClean` | internal/query/expander.go:24-85 | every expansion of the real table is written in plain words with single spaces |
| `SynonymTable.ExpandOfTheTable` | internal/query/expander.go:24-118 | so both theorems hold of the real table |

## Left out

- HTTP transport, JSON, SQL and Redis drivers, handlers, metrics, logs and configuration parsing: only whether a call succeeds.
- `SKIP LOCKED` and transaction isolation: every statement is one atomic step under one database clock that does not go back.
- Hashes and signatures: event keys and cache keys are opaque.
- The JWK Set cache (`jwt_verifier.go`), `GetServiceCanonical` and the paging loops of the Carta client, the app-go-api mirror and recommendation scoring: they would add easier members.
- WebhookService.PassSettlesEvents: does not model other processors acting during the pass, whose syncs may outlast the lease; what a report then leaves is `WebhookTheorems.ReportSettles`, over every interleaving.
- WebhookService.WebhookRepository.Fail: a message that is not valid UTF-8 is not modelled; a valid one is cut as the code cuts it.
- Errors of single alias statements, other than a worker that stops between two of them.
- The webhook table keeps the columns the queue reads; a ticket keeps the event id, slug, attempt and claim time.
- Lease and timeout settings near 2^63 ns, where `lease * 3 / 4` would leave 64 bits; the retry delays do wrap in the model.
- Overlap of several catalogue syncs, or of a run with a webhook's single-record sync: single-record syncs happen between runs, and the source stands still during each.
- The alias and hierarchy writes of a run or of a single-record sync: the alias statements are modelled in `AliasGraph`, outside the catalogue table, which they do not touch.
- Mapping versions only grow; going back to an earlier version is not modelled.
- Text mapping (status classification, audience, tags, HTML): the fields a mapping copies are one opaque value.
- CartaHistory.CursorAlwaysHolds: does not model a source that changes between the listing of a run and its cursor, nor one whose changes are dated before the run that missed them, because the code has no defence against either.
- Alias theorems start from a table without loops and with trimmed slugs; a backfill by migration could start elsewhere.
- The order of ranked lists before fusion (text rank, vector distance): each list is given, without repeats. The semantic lists have no tie-break, so nothing says that two executions see the same ones.
- The join of the fused list with `catalog_items`: both come from one statement over that table, so it keeps every row.
- Rounding in scores: they are exact reals.
- Expander.ExpandedReadsAsBranches: does not model how the database reads punctuation inside a field, such as "or,"; it splits a query at white space only.
- Expander.TokenizeForMatch: `strings.ToLower`, canonical decomposition and the letter, digit and mark classes are parameters, of which the theorems use only that the empty text folds to itself; invalid UTF-8 is not modelled.
