# Hindsight Manager: a verified model

This project models the stateful parts of Hindsight Manager in Dafny and proves what they
keep over whole runs. `dafny verify dfyconfig.toml` checks all of it.

Each source file that changes state has a module with a class or method of the same steps,
specified by functions on values. A companion module proves properties of all runs of those
functions.

| files | subject |
|---|---|
| `UserCache.dfy`, `CacheRuns.dfy` | the LRU cache with a time to live |
| `TenantExtension.dfy`, `KeyUsageRuns.dfy`, `ProvisioningRuns.dfy` | the write-behind of `last_used_at` and lazy schema provisioning, as interleaved steps |
| `LikeSearch.dfy`, `Paging.dfy`, `AdminTenants.dfy` | the searched and paged tenant list |
| `RateLimit.dfy`, `RateLimitRuns.dfy` | the sliding-window limiter |
| `AuditOutbox.dfy`, `AuditOutboxRuns.dfy`, `AuditOutboxProgress.dfy`, `AuditOutboxOverlap.dfy` | the audit outbox with crashes, retries and overlapping rounds |
| `OtpStore.dfy`, `OtpRuns.dfy` | the one-time password store |
| `SharedPaging.dfy`, `SharedTies.dfy`, `TaskMonitor.dfy`, `TaskMonitorTies.dfy` | statistics and details over many tenant schemas |
| `TenantLifecycle.dfy`, `TenantLifecycleRuns.dfy`, `TenantRequests.dfy` | tenants, API keys and their audit rows from creation to purge |
| `Common.dfy`, `Models.dfy` | shared types |

## What the model takes as given

- Clock reads, random tokens, hashes, UUIDs and the outcomes of network calls are arguments.
  Random ones are fresh where a run needs it (`Enabled`, `Fresh`).
- A transaction is one step, except in `KeyUsageRuns`, where its statements are separate
  steps. There an UPDATE whose guard fails on the committed row passes it over, locked or not;
  one whose guard holds needs the row unlocked and then reads it again. That is PostgreSQL at
  READ COMMITTED. Two flushes that would deadlock end with the failure of one. In
  `AuditOutboxOverlap` the UPDATEs of a round are one step, at its commit.
- A code path between two awaits of one process runs alone. The limiter has no await and no
  lock, and as a plain function FastAPI runs it on a pool of threads; its calls are taken to
  come one after the other, which the program does not enforce. Each cache operation holds its
  lock, so a run of the cache is a sequence of operations; the clock is read before the lock
  is taken, and no order of the reads is assumed unless a lemma says so.
- `session.rollback()` expires every loaded row, whatever `expire_on_commit` says, and reading
  an expired row of an async session raises. That is SQLAlchemy's behaviour, not this code's.
- Times are integers or reals without rounding. Names hold no NUL character. Hashing is injective: a key is its hash.
- ILIKE folds case character by character. The fold leaves `\`, `%` and `_` alone and maps
  nothing else to them.
- The receiver of audit events applies an event only if its idempotency key is new. In
  `AuditOutboxRuns` and `AuditOutboxProgress` one manager process runs the retry rounds, one at
  a time, as its scheduler does; `AuditOutboxOverlap` has any number of processes.

## Where the code does not do what one might expect

The lemmas named here show each of these on a concrete run or input, or give the exact
condition under which it does not happen, or both.

- A shutdown that cancels a flush in flight forgets the times of its snapshot, because
  `CancelledError` is not an `Exception`: `CancelLosesAUse`, and `CancelLosesNothingIff` for
  exactly when nothing is lost. A clock that steps back overwrites a later pending time:
  `BackwardUseLosesNothingIff`.
- The lists are ordered by `created_at` alone. A walk over the pages is exact for every order
  the database may choose if and only if no tie straddles a page boundary:
  `WalkIsExactIff`, `PagesExactIffNoTie`, and `DetailsExactIffNoTie` for `task-details`.
- `task-stats` and `task-details` roll back for a schema without its table, and then read the
  next tenant, outside of any handler (`hindsight_manager/api/task_monitor.py:88`, `:166`). One
  tenant that is not provisioned yet, unless it is the last, fails the request for all:
  `NewTenantBreaksBoth`, and `AnsweredIff` for exactly when they answer.
- `task-details` adds a schema's count to `total` before it fetches the rows and builds the
  items, so a failure after it leaves the total above the items: `ItemCountsSumToTotalIff`. It applies OFFSET and
  LIMIT in every schema, so a page can hold more than `page_size` items: `PageOverflows`, and
  `PagesKeepToSizeIff` for exactly when no page does.
- Two outbox rows can share a wire key when a caller supplies one, and then one event has no
  effect: `BorrowedKeyHidesAnEvent`, `ExactlyOnceIffKeysApart`. `record_audit` never does.
- When the rounds of two processes overlap, a late failure can turn a DELIVERED row into a
  FAILED one: `LateFailureOverwritesDelivered`, `CommitUndoesDeliveryIff`. A late success turns
  a FAILED one into a DELIVERED one: `LateDeliveryRevivesFailed`, `CommitRevivesFailedIff`. A
  stale round takes attempts back, so that a row outlives the bound of `SettlesInBoundedRounds`:
  `StaleRoundLowersAttempts`, `CommitLowersAttemptsIff`.
- The shipped `push_audit` swallows its failures (`hindsight_manager/platform/client.py:67-72`),
  so DELIVERED does not mean that the platform has the event, and no failed push is retried:
  `SwallowedFailureLooksDelivered`, `DeliveredReachedIff`, `ShippedClientNeverRetries`.
- The cache loses an unexpired entry when a lookup of its key with a later clock read comes
  first: `LateReadDiscards`, `NothingLostEarly`. The limiter and the OTP store forget too much
  under a clock that steps back: `BackwardClockAcceptsMore` and `AgreesWithUnlimitedIff`,
  `SteppedBackClockForgets` and `SweepShowsIff`.
- Both deletes accept any status, so a DELETED tenant can become DELETING again:
  `DeletedBecomesDeleting`, `StaysDeletedIff`.
- An owner can rename a tenant in any status, also after its deletion, and the audit row then
  tells a name the tenant no longer has: `RenameOutdatesAudit`, `StaysTruthfulIff`.

## Where the code and its comments differ

- `mark_tenant_deleting` says that real deletion is handled by `task_monitor`
  (`hindsight_manager/services/tenant_service.py:91`); that module only reads. Deletion is the
  purge endpoint, which the model follows.

## Model

| member | source | states |
|---|---|---|
| `UserCache.UserLRUCache.Get` | hindsight_manager/platform/cache.py:16-27 | an expired entry is removed and missed, a live one moves to the end and is answered, a missing one changes nothing |
| `UserCache.UserLRUCache.Set` | hindsight_manager/platform/cache.py:29-35 | the key is newest with the new time and value, the oldest entry goes if there was no room, the eviction loop turns at most once, and the size stays within capacity |
| `UserCache.UserLRUCache.BatchSet` | hindsight_manager/platform/cache.py:37-39 | the items are written in order, each with its own clock read |
| `UserCache.UserLRUCache.Clear` | hindsight_manager/platform/cache.py:41-43 | the cache is empty |
| `UserCache.AssignThenMove` | hindsight_manager/platform/cache.py:32-33 | assigning in place and moving to the end is the same as removing the key and appending it |
| `CacheRuns.LargerCacheIncludesSmaller` | hindsight_manager/platform/cache.py:16-43 | under one run of operations the entries of a smaller cache are a subsequence of a larger one's, with equal times and values, and every hit of the smaller is the same hit of the larger |
| `CacheRuns.RunKeepsInv` | hindsight_manager/platform/cache.py:16-43 | over every run entries are the last writes, in order of last use; a written key is missing only if a lookup of it since read the clock past its expiry or `capacity` other keys were used since, and in the first case it is missing |
| `CacheRuns.HitsAreFreshAndCurrent` | hindsight_manager/platform/cache.py:16-27 | a hit answers the last write since the last clear, aged at most ttl from that write whatever hits came between, and the size is within capacity |
| `CacheRuns.NothingLostEarly` | hindsight_manager/platform/cache.py:16-35 | with no assumption on the clock reads: a key written at most ttl ago, with fewer than `capacity` other keys used since, is answered if and only if no lookup of it since its write read the clock past its expiry |
| `CacheRuns.NothingLostInOrder` | hindsight_manager/platform/cache.py:16-35 | a key written at most ttl ago, with fewer than `capacity` other keys used since, is always answered when no earlier lookup of it has a later clock read |
| `CacheRuns.LateReadDiscards` | hindsight_manager/platform/cache.py:17-25 | a run whose lookups of a key are out of clock order and that loses an unexpired entry |
| `CacheRuns.BatchIsRunOfSets` | hindsight_manager/platform/cache.py:37-39 | a batch leaves the cache as the run of its single writes does |
| `TenantExtension.ManagerTenantExtension.Admit` | hindsight_manager/extensions/manager_tenant.py:141-146 | which calls are refused before the lookup, and with which error |
| `TenantExtension.ManagerTenantExtension.Resume` | hindsight_manager/extensions/manager_tenant.py:163-173 | refused if and only if there is no row; served with the schema of the row if and only if it is initialized; migrating it if and only if it is not; a found row records the use |
| `TenantExtension.ManagerTenantExtension.Provisioned` | hindsight_manager/extensions/manager_tenant.py:174-177 | the schema joins the initialized set and the call is served |
| `TenantExtension.ManagerTenantExtension.TakeSnapshot` | hindsight_manager/extensions/manager_tenant.py:102-105 | nothing happens without an engine or pending times; otherwise all pending times are taken and cleared |
| `TenantExtension.ManagerTenantExtension.MergeBack` | hindsight_manager/extensions/manager_tenant.py:119-124 | after a failure each key has the later of its pending and its snapshot time |
| `TenantExtension.WriteRows` | hindsight_manager/extensions/manager_tenant.py:109-117 | the guarded UPDATEs leave every existing key with the later of its row and its snapshot time, unless a statement raises |
| `TenantExtension.ManagerTenantExtension.FlushPending` | hindsight_manager/extensions/manager_tenant.py:101-124 | an undisturbed flush either writes all pending times and clears them, or leaves them pending; a failed commit may have written them all the same |
| `KeyUsageRuns.NoLostUpdate` | hindsight_manager/extensions/manager_tenant.py:101-124 | over any interleaving of uses, snapshots, row updates, commits, unreported commits and failures of any number of processes, an UPDATE that finds no match passing over locked rows too, the newest use of an existing key is the maximum of its row and all pending and in-flight times |
| `KeyUsageRuns.StepsFollowTheMethods` | hindsight_manager/extensions/manager_tenant.py:101-124 | each step leaves its process what the method of the extension leaves: a use its time, a snapshot nothing pending, a failure, or a commit that is believed to have failed, each key with the later of its times |
| `KeyUsageRuns.OnlyCommitsWrite` | hindsight_manager/extensions/manager_tenant.py:108-118 | only a commit changes a row, to the time its transaction wrote, also a commit that is believed to have failed |
| `KeyUsageRuns.RowNeverMovesBack` | hindsight_manager/extensions/manager_tenant.py:108-118 | the committed time of a key never decreases, over any run, cancellations included |
| `KeyUsageRuns.SettledRowsAreNewest` | hindsight_manager/extensions/manager_tenant.py:101-124 | when no process has anything pending or in flight, every row holds the newest use of its key over all processes |
| `KeyUsageRuns.CanSettle` | hindsight_manager/extensions/manager_tenant.py:96-124 | from every state with nothing lost, flush steps alone reach such a state: no lock or failure stands in the way for good |
| `KeyUsageRuns.FlushOne` | hindsight_manager/extensions/manager_tenant.py:101-118 | the steps of one undisturbed flush write exactly what the flush method writes, and leave the process with nothing pending |
| `KeyUsageRuns.CancelLosesNothingIff` | hindsight_manager/extensions/manager_tenant.py:83-91 | cancelling a flush in flight loses no newest use if and only if each time of its snapshot is superseded in the row, in the pending map, or by another process |
| `KeyUsageRuns.CancelLosesAUse` | hindsight_manager/extensions/manager_tenant.py:83-91 | a run in which a shutdown loses a use for good |
| `KeyUsageRuns.BackwardUseLosesNothingIff` | hindsight_manager/extensions/manager_tenant.py:169 | a clock read behind the pending time it overwrites loses no newest use if and only if that time is in the row, in flight, or with another process |
| `ProvisioningRuns.ProvisionedBeforeUse` | hindsight_manager/extensions/manager_tenant.py:171-177 | under any interleaving of calls and failing migrations, no context of a schema is returned before a migration of it has completed |
| `ProvisioningRuns.PhaseTellsTheRow` | hindsight_manager/extensions/manager_tenant.py:151-177 | over every run a call is refused if and only if it had no row, one that migrates, has migrated or is served had a row with that schema, and only a migration that raised fails a call |
| `ProvisioningRuns.FirstCallCanBeServed` | hindsight_manager/extensions/manager_tenant.py:171-177 | from any state the first call of a schema can migrate it and be served, which adds the schema to the initialized set |
| `ProvisioningRuns.NoSecondMigration` | hindsight_manager/extensions/manager_tenant.py:172-174 | a schema in the initialized set is never migrated by a call that looks it up later; that call is served |
| `LikeSearch.ChainIsOnePass` | hindsight_manager/api/admin.py:57-58 | the three chained replacements equal one pass that puts a backslash before each special character |
| `LikeSearch.SearchMeansContains` | hindsight_manager/api/admin.py:57-62 | the pattern made of v matches x under LIKE if and only if v occurs in x, for all strings |
| `LikeSearch.PatternIsAccepted` | hindsight_manager/api/admin.py:61-62 | the pattern never ends inside an escape, so PostgreSQL never rejects it |
| `LikeSearch.SearchIgnoresCase` | hindsight_manager/api/admin.py:92-95 | under ILIKE the pattern matches if and only if the folded v occurs in the folded x |
| `LikeSearch.EscapeInjective` | hindsight_manager/api/admin.py:57-58 | different search texts give different patterns |
| `Paging.PageIsOffsetLimit` | hindsight_manager/api/admin.py:100-101 | a page is LIMIT page_size of what follows OFFSET (page - 1) * page_size |
| `Paging.WalkIsAll` | hindsight_manager/api/admin.py:100-102 | enough pages of one fixed result concatenate to that result |
| `Paging.WalkIsExactIff` | hindsight_manager/api/admin.py:81-102 | whatever order each query picks among equal sort keys, a walk over all pages, or more, shows every row exactly once if and only if no tie straddles a page boundary |
| `AdminTenants.ListTenantsAdmin` | hindsight_manager/api/admin.py:81-150 | a page describes the selected tenants of its OFFSET and LIMIT in order, each with its member and key counts, an owner if it has one, and the names the platform knows of the owner; total counts all selected |
| `AdminTenants.PagesListTheWanted` | hindsight_manager/api/admin.py:81-102 | with one fixed order all pages together list exactly the tenants that are not DELETED and whose name contains the search text, each once and in that order, newest first if it is, and total is their number |
| `AdminTenants.QueryConcat` | hindsight_manager/api/admin.py:81-95 | the query keeps the order of the rows it selects, each as often as it is there |
| `AdminTenants.PagesExactIffNoTie` | hindsight_manager/api/admin.py:84-101 | ordered by created_at alone, all walks over the list are exact if and only if no two wanted tenants across a page boundary were created at the same time |
| `RateLimit.RateLimiter.Call` | hindsight_manager/middleware/rate_limit.py:15-30 | the key's list is pruned, a full window is refused with 429 and the window as Retry-After, otherwise the time is appended; other keys are untouched |
| `RateLimitRuns.PrunedDecidesLikeUnlimited` | hindsight_manager/middleware/rate_limit.py:18-30 | for calls one after the other: if the requests of each key come in the order of their clock reads, every request of a run is answered as by a limiter that keeps all accepted times |
| `RateLimitRuns.AgreesWithUnlimitedIff` | hindsight_manager/middleware/rate_limit.py:15-30 | whatever the clock does, the first n requests are decided alike if and only if, for each of them that the full record refuses, max_requests accepted ones of its key lie less than a window behind every later read of the key up to its own |
| `RateLimitRuns.RateBound` | hindsight_manager/middleware/rate_limit.py:15-30 | for calls one after the other, those of each key in the order of their clock reads: any interval (a, a+L] holds at most ceil(L / window) * max_requests accepted requests of a key |
| `RateLimitRuns.RetryAfterSuffices` | hindsight_manager/middleware/rate_limit.py:23-28 | under the same conditions a refused client that waits the advertised seconds is accepted, unless another request of its key was accepted meanwhile |
| `RateLimitRuns.BackwardClockAcceptsMore` | hindsight_manager/middleware/rate_limit.py:17-21 | a run in which a clock that steps back makes the limiter accept a request too many |
| `AuditOutbox.OutboxRow.Enqueue` | hindsight_manager/services/audit_outbox_service.py:14-39 | a new row carries its event and key and is PENDING with no attempts and no error |
| `AuditOutbox.AuditRetryOnce` | hindsight_manager/services/audit_outbox_service.py:57-78 | every selected row ends as its own push says, the count is the number of pushes that returned, and each push carries the row's user, action, resource and address, an empty detail for none, the client id, and the row's key or else its id |
| `AuditOutbox.OutboxRow.Settle` | hindsight_manager/services/audit_outbox_service.py:70-76 | a returned push makes the row DELIVERED and nothing else; one that raised counts an attempt, keeps 500 characters of the error, and at five attempts makes the row FAILED |
| `AuditOutbox.MessageTellsTheEvent` | hindsight_manager/services/audit_outbox_service.py:59-69 | what is sent of a row, field by field |
| `AuditOutboxRuns.RowsStayOk` | hindsight_manager/services/audit_outbox_service.py:14-78 | over every run of one process a PENDING row is selectable, FAILED is five failed attempts, DELIVERED and FAILED are final, and a row keeps its id, event and key |
| `AuditOutboxRuns.ReturnsNewlyDelivered` | hindsight_manager/services/audit_outbox_service.py:56-78 | the count a committed round returns is the number of rows that became DELIVERED |
| `AuditOutboxRuns.ExactlyOnceIffKeysApart` | hindsight_manager/services/audit_outbox_service.py:42-78 | over any run with crashes before commit and lost responses an event is applied at most once, as it was enqueued, and every event that got through exactly once if and only if no two of them went out under one key |
| `AuditOutboxRuns.EffectsWereEnqueued` | hindsight_manager/services/audit_outbox_service.py:14-69 | over every run each effect carries the user, action, resource, address and detail given to the enqueue of its row, under the key given to it or else the id of the row |
| `AuditOutboxRuns.RecordedEventsExactlyOnce` | hindsight_manager/auth/audit.py:10-31 | events enqueued without a key of their own, as record_audit does, are applied exactly once if a push got through and never otherwise |
| `AuditOutboxRuns.BorrowedKeyHidesAnEvent` | hindsight_manager/services/audit_outbox_service.py:68 | two rows, the key of one being the id of the other, of which only one event is applied |
| `AuditOutboxRuns.DeliveredReachedIff` | hindsight_manager/services/audit_outbox_service.py:57-78 | after any run the events of all DELIVERED rows got through if and only if in every committed round each push that returned got through, or an earlier one of its row had |
| `AuditOutboxRuns.LostForGood` | hindsight_manager/services/audit_outbox_service.py:49-55 | a DELIVERED row whose event never got through stays so over every run: it is never sent again |
| `AuditOutboxRuns.ShippedClientNeverRetries` | hindsight_manager/platform/client.py:67-72 | over every run with the client that swallows its failures no attempt is counted, no row is FAILED, and a row is DELIVERED if and only if a committed round pushed it, got through or not |
| `AuditOutboxRuns.SwallowedFailureLooksDelivered` | hindsight_manager/platform/client.py:67-72 | a run in which a swallowed failure leaves a DELIVERED row and no event |
| `AuditOutboxProgress.RoundLowersRank` | hindsight_manager/services/audit_outbox_service.py:49-77 | every committed round lowers the bound on the rounds still needed, whatever rows the unordered LIMIT picks |
| `AuditOutboxProgress.RoundTakesUpTo100` | hindsight_manager/services/audit_outbox_service.py:49-55 | a round takes at most a hundred different rows that are PENDING with fewer than five attempts, and all of them if it takes fewer |
| `AuditOutboxProgress.SettlesInBoundedRounds` | hindsight_manager/services/audit_outbox_service.py:49-77 | with no new events N pending rows are all DELIVERED or FAILED after floor(N / 20) + 5 committed rounds, however many rounds break down in between |
| `AuditOutboxOverlap.OverlapExactlyOnceIff` | hindsight_manager/services/audit_outbox_service.py:42-78 | the at-most-once and exactly-once result for any number of processes whose rounds overlap, each writing columns from the values it loaded |
| `AuditOutboxOverlap.UndisturbedRound` | hindsight_manager/services/audit_outbox_service.py:57-77 | a round that nothing interleaves with leaves the rows as a round of a single process does |
| `AuditOutboxOverlap.CommitUndoesDeliveryIff` | hindsight_manager/services/audit_outbox_service.py:57-77 | the commit of a round takes a DELIVERED row out of DELIVERED if and only if its own push of the row raised and it had loaded the row with one attempt left |
| `AuditOutboxOverlap.LateFailureOverwritesDelivered` | hindsight_manager/services/audit_outbox_service.py:57-77 | a run of two overlapping rounds that ends with a delivered row marked FAILED |
| `AuditOutboxOverlap.CommitRevivesFailedIff` | hindsight_manager/services/audit_outbox_service.py:57-77 | the commit of a round takes a row out of FAILED if and only if its own push of the row returned |
| `AuditOutboxOverlap.LateDeliveryRevivesFailed` | hindsight_manager/services/audit_outbox_service.py:57-77 | a run of two overlapping rounds that ends with a FAILED row marked DELIVERED, at five attempts |
| `AuditOutboxOverlap.CommitLowersAttemptsIff` | hindsight_manager/services/audit_outbox_service.py:57-77 | the commit of a round lowers the attempts of a row if and only if its own push of the row raised and it had loaded at least two attempts less |
| `AuditOutboxOverlap.StaleRoundLowersAttempts` | hindsight_manager/services/audit_outbox_service.py:57-77 | a run in which a stale round takes one row from four attempts back to one, and leaves it PENDING after as many committed rounds as settle it without overlap |
| `AuditOutboxOverlap.PendingStaysSelectable` | hindsight_manager/services/audit_outbox_service.py:49-77 | however rounds overlap, a PENDING row has attempts left over every run, so no row is stuck |
| `OtpStore.Otps.Cleanup` | hindsight_manager/auth/session.py:61-65 | exactly the expired entries are deleted |
| `OtpStore.Otps.Create` | hindsight_manager/auth/session.py:43-48 | after a sweep the token is stored with its claims and expires 60 seconds after the second clock read |
| `OtpStore.Otps.Exchange` | hindsight_manager/auth/session.py:51-58 | after a sweep the token is removed and answered with its claims unless it is missing or expired |
| `OtpRuns.ExchangeAnswersIff` | hindsight_manager/auth/session.py:43-65 | with no assumption on the clock an exchange answers claims c if and only if the token was created with c, not presented since, swept by no read past its expiry, and is not past it now |
| `OtpRuns.ExchangeOnTime` | hindsight_manager/auth/session.py:43-65 | with a clock that never steps back: if and only if created with c, not presented since, and at most 60 seconds old |
| `OtpRuns.SingleUse` | hindsight_manager/auth/session.py:51-58 | a token is spent by its first presentation |
| `OtpRuns.SweepingIsUnobservable` | hindsight_manager/auth/session.py:61-65 | with a clock that never steps back every exchange answers as a store that never sweeps |
| `OtpRuns.SweepShowsIff` | hindsight_manager/auth/session.py:43-65 | whatever the clock does, an exchange answers unlike a store that never sweeps if and only if its token is outstanding and unexpired now but some sweep since its creation read the clock past its expiry |
| `OtpRuns.SteppedBackClockForgets` | hindsight_manager/auth/session.py:61-65 | a run in which a sweep under a clock that later steps back is seen |
| `TaskMonitor.QueryTenantStats` | hindsight_manager/api/task_monitor.py:54-71 | the counts of every status of one schema, all zero without the table or on failure |
| `TaskMonitor.GetTaskStats` | hindsight_manager/api/task_monitor.py:74-116 | the request fails if and only if a tenant before the last has no table or fails; otherwise every ACTIVE tenant has an entry, with its id, its name and its numbers of rows with each of the five statuses under the name of the status, no other tenant has one, and each global count is their sum |
| `TaskMonitor.GetTaskDetails` | hindsight_manager/api/task_monitor.py:140-224 | the request fails if and only if an asked tenant before the last has no table or fails; otherwise a page is the concatenation of each asked tenant's own page, total the sum of their counts, with the effect of a missing table and of a failure before the count, after it, or while the items are built |
| `TaskMonitor.AnsweredIff` | hindsight_manager/api/task_monitor.py:74-188 | a request about one tenant is always answered, one about all if and only if every ACTIVE tenant but the last has its table and does not fail |
| `TaskMonitor.NewTenantBreaksBoth` | hindsight_manager/api/task_monitor.py:59-88 | two ACTIVE tenants, the first without its table yet, for which neither endpoint answers |
| `SharedPaging.SharedWalkShowsAll` | hindsight_manager/api/task_monitor.py:161-219 | walking pages that are cut from several results at once shows every row as often as walking the results one by one |
| `SharedTies.SharedWalkIsExactIff` | hindsight_manager/api/task_monitor.py:161-219 | pages that are cut from several results at once, each from an order of its own, show every row as often as the results hold it if and only if no result has a tie across a page boundary |
| `TaskMonitor.PagesCoverEachRowOnce` | hindsight_manager/api/task_monitor.py:161-224 | pages 1 to ceil(total / page_size), the number at hindsight_manager/static/task_monitor.js:90, show every row that is shown at all (of a schema that fails in a page, the first rows of each page) exactly as often as it is there, if the queries of a schema keep one order |
| `TaskMonitorTies.DetailsExactIffNoTie` | hindsight_manager/api/task_monitor.py:186-200 | whatever order each query of each schema picks among rows of equal created_at, the requests for the pages the UI offers answer every row that can be shown exactly as often as it is there if and only if no asked tenant has a tie across a page boundary |
| `TaskMonitor.PagesShowTheMatching` | hindsight_manager/api/task_monitor.py:165-219 | without failures an item is shown exactly as often as its asked tenant's table holds a row of it that passes both filters, and others never |
| `TaskMonitor.AskedAre` | hindsight_manager/api/task_monitor.py:149-159 | a request about one tenant reads the tenant with that id, whatever its status, and no other, or nothing if there is none; one about all reads the ACTIVE ones |
| `TaskMonitor.PagesShowTheAsked` | hindsight_manager/api/task_monitor.py:149-219 | without failures an item is on some page of a request if and only if it is a row that passes both filters of the tenant asked about, or of an ACTIVE one when none is given |
| `TaskMonitor.ItemCountsSumToTotalIff` | hindsight_manager/api/task_monitor.py:186-222 | the items of all pages number total if and only if every schema that fails after its count had listed a whole page, or all its matching rows, by then |
| `TaskMonitor.PageLength` | hindsight_manager/api/task_monitor.py:161-219 | a page holds the sum over the asked tenants of what each has left at OFFSET, up to page_size each and to where it fails |
| `TaskMonitor.PagesKeepToSizeIff` | hindsight_manager/api/task_monitor.py:161-219 | no page is longer than page_size if and only if all that the asked tenants can list fits on one page or no two of them have anything to list |
| `TaskMonitor.PageOverflows` | hindsight_manager/api/task_monitor.py:161-219 | two ACTIVE tenants with one row each, whose first page of size 1 has two items |
| `TaskMonitor.EndpointsAgree` | hindsight_manager/api/task_monitor.py:84-190 | on one snapshot in which no ACTIVE tenant's queries fail, the pending, processing, completed, failed and cancelled that the statistics answer are the totals that the details filtered by that status answer |
| `TenantLifecycle.Manager.CreateTenantFor` | hindsight_manager/services/tenant_service.py:37-66 | an ACTIVE tenant, its owner and its system key appear together, or nothing does when the name does not fit its column or a unique name is taken |
| `TenantLifecycle.Stored` | hindsight_manager/models/tenant.py:21 | a name of at most 255 characters is stored as it is, spaces past that are cut, and anything else past it is refused |
| `TenantLifecycle.Manager.UpdateTenantConfig` | hindsight_manager/services/tenant_service.py:69-80 | an owner gives a tenant of any status the trimmed name; the errors of a rename in their order |
| `TenantLifecycle.Manager.DeleteTenant` | hindsight_manager/services/tenant_service.py:90-93 | an owner moves the tenant to DELETING; others are refused |
| `TenantLifecycle.Manager.DeleteTenantAdmin` | hindsight_manager/api/admin.py:153-172 | an existing tenant of any status moves to DELETING, and an audit row tells who asked and what its name is |
| `TenantLifecycle.Manager.PurgeTenantAdmin` | hindsight_manager/api/admin.py:178-228 | the four outcomes of a purge, the schema it drops, the status it sets and the audit row it writes |
| `TenantLifecycle.Manager.CreateApiKey` | hindsight_manager/services/api_key_service.py:22-38 | an owner adds a key that is not a system key; a name that does not fit its column or a taken hash changes nothing |
| `TenantLifecycle.Manager.RevokeApiKey` | hindsight_manager/services/api_key_service.py:54-67 | an owner removes a key of this tenant; any other key is not found |
| `TenantLifecycle.Manager.RevokeApiKeyAdmin` | hindsight_manager/api/admin.py:279-300 | an admin removes any existing key, and an audit row tells who asked, its name and its tenant |
| `TenantLifecycle.Manager.UpdateApiKeyName` | hindsight_manager/services/api_key_service.py:70-98 | the errors of a rename in their order, and the trimmed name otherwise |
| `TenantLifecycle.Strip` | hindsight_manager/services/api_key_service.py:92 | all white space and nothing else is cut from both ends |
| `TenantRequests.SpacesAre` | hindsight_manager/services/api_key_service.py:92 | the code points that Python takes for white space |
| `TenantLifecycleRuns.RunKeepsOk` | hindsight_manager/services/tenant_service.py:37-66 | over every run schema names and key hashes are unique, every schema name has the expected form, and a tenant has at most one system key |
| `TenantLifecycleRuns.LookupIsUnique` | hindsight_manager/extensions/manager_tenant.py:151-167 | a key hash leads to at most one schema |
| `TenantLifecycleRuns.NothingReactivates` | hindsight_manager/api/admin.py:164-213 | no run makes an existing tenant ACTIVE again or changes its schema name |
| `TenantLifecycleRuns.PurgeIsFinalForAccess` | hindsight_manager/extensions/manager_tenant.py:151-167 | once a tenant is deleted or purged no key leads to its schema, and none of its keys to any schema, whatever follows |
| `TenantLifecycleRuns.LookupAfterStep` | hindsight_manager/extensions/manager_tenant.py:151-167 | the exact change of every lookup by each request: creation and a new key of an ACTIVE tenant add theirs, a revoked key and a deleted tenant lose theirs, and nothing else changes |
| `TenantLifecycleRuns.PurgeSucceedsIffDeleting` | hindsight_manager/api/admin.py:185-213 | over every run exactly a DELETING tenant is purged, and the check of the schema name never fails |
| `TenantLifecycleRuns.OnlyPurgeDropsOnlyItsSchema` | hindsight_manager/api/admin.py:204-228 | a purge drops the schema of the one tenant asked about, reports whether it existed, and no other step drops a tenant's schema |
| `TenantLifecycleRuns.StaysDeletedIff` | hindsight_manager/api/admin.py:160-164 | over every run a purged tenant stays DELETED if and only if no request deletes it once more |
| `TenantLifecycleRuns.DeletedBecomesDeleting` | hindsight_manager/api/admin.py:160-164 | a run from an empty database in which a purged tenant becomes DELETING again |
| `TenantLifecycleRuns.KeyChangesAreAuthorised` | hindsight_manager/services/api_key_service.py:54-98 | over every run a key goes only by a revocation of an owner of its tenant that was done, naming that tenant, or by one of an admin that left an audit row, and changes only in its name, by an owner, and never if it is a system key |
| `TenantLifecycleRuns.TenantChangesAreAuthorised` | hindsight_manager/services/membership.py:13-37 | over every run nothing of a tenant changes but its name, only by an owner's rename to it, and its status: to DELETING by an owner or by an admin's request that left an audit row, and to DELETED by a purge that left one |
| `TenantLifecycleRuns.StaysTruthfulIff` | hindsight_manager/api/admin.py:165-226 | over every run a truthful audit row of a deletion or purge stays truthful if and only if no request renames its tenant to another name |
| `TenantLifecycleRuns.RenameOutdatesAudit` | hindsight_manager/services/tenant_service.py:76-80 | a run from an empty database in which the rename of a deleted tenant outdates its audit row |
| `TenantLifecycleRuns.TruthfulWhenWritten` | hindsight_manager/api/admin.py:165-226 | every audit row of a deletion or purge is truthful when it is written |
| `TenantLifecycleRuns.AuditTellsTheSchema` | hindsight_manager/api/admin.py:215-226 | over every run each audit row of a deletion or purge is of an existing tenant, and one of a purge tells the schema the tenant keeps |
| `TenantLifecycleRuns.AuditIsAppendOnly` | hindsight_manager/auth/audit.py:10-31 | over every run audit rows are only added, in the order of the requests |
| `TenantRequests.DoneIffPermitted` | hindsight_manager/services/membership.py:13-37 | a request is done if and only if it is permitted: tenant and key requests by an owner, with the conditions on names, hashes, keys and status; one that is not permitted changes nothing |
| `TenantRequests.OthersAreRefused` | hindsight_manager/services/membership.py:22-37 | a plain member's tenant or key request is forbidden, and anyone else's, or one about no tenant, finds nothing |
| `TenantRequests.ErrorsInOrder` | hindsight_manager/services/api_key_service.py:75-96 | which error an owner's or admin's request that is not permitted gets |
| `TenantRequests.PatternMeans` | hindsight_manager/api/admin.py:175 | the schema names that can be purged: the prefix, eight hex digits, and a final newline if there is one |
| `TenantRequests.DoneCreate` | hindsight_manager/services/tenant_service.py:37-66 | a done creation adds one ACTIVE tenant with the stored name and schema, its owner and its key, and changes nothing else |
| `TenantRequests.CreateMakesOneSystemKey` | hindsight_manager/services/tenant_service.py:51-62 | the new tenant has exactly one key, and it is a system key |
| `TenantRequests.DoneRename` | hindsight_manager/services/api_key_service.py:92-95 | a done rename leaves the key with the trimmed name, and nothing else changed |
| `TenantRequests.DoneOnTenants` | hindsight_manager/api/admin.py:153-213 | the name and the status that each request leaves every tenant |
| `TenantRequests.KeysAreMade` | hindsight_manager/services/api_key_service.py:22-38 | over every run each key was there before, or was made by the creation of its tenant or by a permitted request of an owner of its tenant, with the hash it has and a name it was given or an owner's rename |
| `TenantRequests.TenantsAreFounded` | hindsight_manager/services/tenant_service.py:37-66 | over every run each new tenant was made by a permitted creation, with the schema it has and a name it was given or an owner's rename |
| `TenantRequests.AuditIsTheTrail` | hindsight_manager/auth/audit.py:10-31 | the audit rows of a run are exactly one for each permitted admin request, in order, with the admin, the address, the action, the resource and the detail |

## Left out

- FlushPending: states the effect of a flush nothing interleaves with; interleavings are in `KeyUsageRuns`.
- NoLostUpdate: excludes the two steps shown above to lose a use, cancellation in the middle of a flush and a clock read behind the pending time; a process that is killed forgets what it has pending.
- PagesCoverEachRowOnce: takes each tenant's rows in one fixed order; what ties in `created_at` do is `DetailsExactIffNoTie`.
- RowsStayOk: is about one process; what overlapping rounds keep and break is in `AuditOutboxOverlap`.
- Enqueue: the time of the event, which the database sets, is not part of a row; that its key is UNIQUE is a condition of the runs.
- RateBound: needs calls one after the other; the interleavings of calls on several threads are not modelled.
- UserLRUCache: a value is immutable, while the program hands out the stored dictionary; a negative capacity, which makes eviction raise, is excluded.
- UpdateTenantConfig: the configuration of a tenant is not part of the model; whether a patch of it is written depends on change tracking of a dictionary mutated in place.
- DetailsExactIffNoTie: a schema that fails in the middle of a page is excluded; what it shows depends on the order of its rows even without ties at page boundaries.
- Member management; the lifecycle runs allow arbitrary edits of the members instead.
- HTTP clients, the proxy, OAuth, cookies, access tokens, the command line, templates and migrations: input, output and thin wrappers over libraries.
- SM4, HMAC, SHA-256 and JWT.
