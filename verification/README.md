# Onion Spider: a verified model of its concurrent core

Onion Spider is a multi-tenant crawler for Tor hidden services. Its difficult logic lives in small
concurrent state machines: rows of a PostgreSQL database that many workers and requests change at once,
and a few maps kept in memory. This project models those machines in Dafny 4.11 and proves what they
promise over every interleaving, every run or every input. `dafny verify dfyconfig.toml` checks it all.

## How the system is modelled

- **Crawl queue.** `CrawlQueue.dfy` is a state machine over the rows of `nodes`, `edges` and `blacklist`.
  Each SQL statement is one atomic action. The four transactions that take advisory locks (EnqueueURL,
  SaveEdge, AddBlacklist, DeleteBlacklist) are sequences of actions: begin, take the domain lock, read, take
  the account lock, buffer writes, commit. Buffered rows stay locked and invisible until the commit, and a
  transaction may roll back at any point. The domain lock is keyed by a hash, so two hosts may share one.
  `QueueInvariant`, `QueueLocks`, `QueueDepth`, `QueueFairness`, `QueueOrder`, `QueueRetry`, `QueueSchedule` and
  `QueueProgress` prove its properties. `QueueTables` has the operations as methods that change the tables in place, and
  `QueueSerial` proves that each method does what its transaction does in the machine when nobody interrupts it.
- **Politeness.** `Politeness.dfy`: slots booked in a shared table and pruned by a second goroutine.
- **Watches.** `Watch.dfy`: a two-column watermark against a specification over the whole history.
- **Credentials.** `Credentials.dfy` (hashes, sessions, tokens, with a login cut into its statements),
  `Acceptance.dfy` (when a token is accepted and a reset takes effect),
  `AuthAudit.dfy` (lockout and mail caps kept in the audit log), `Totp.dfy` (one-time codes), `TotpLifecycle.dfy`
  (enrolments and verifications cut into their statements).
- **Bounded resources.** `RateLimit.dfy`, `ExportSlots.dfy`, `Retention.dfy`, `Robots.dfy` (the file) and
  `RobotsCache.dfy` (the cache, with a check cut into its two critical sections), `RobotsRecency.dfy` (what it evicts).
- **Addresses.** `Base32.dfy` and `Onion.dfy`, on `Text.dfy` and `Arithmetic.dfy`.

Clocks, randomness, fetched pages, digests, HMAC, SHA3 and number parsing are parameters. Time never goes
back. `CURRENT_TIMESTAMP` inside a transaction is the time the transaction began. New rows take the column
defaults of the first migration: retry count 0 and `next_crawl_at` now.

## Where the code and its comments disagree

The model follows the code.

- The comment on ReviveFailedNodes says that rows refused by robots.txt are untouched. MarkRobotsBlocked
  stores them as failed, so the sweep does take them up: `QueueSchedule.RobotsRefusalExpires` says exactly when.
- The bulk endpoint admits 1 to 20 URLs, but charges one unit for the request and one per URL against a limit of
  20. `RateLimit.TwentyAreRefused` is the concrete case and `RateLimit.FullBatchFits` the exact condition.
- The robots cache is described as LRU. It evicts by fetch time. By `RobotsRecency.HitEntryIsEvicted` the oldest
  entry of any full cache, if fresh, can be hit and given up in the next step, and
  `RobotsRecency.VictimIsLeastRecentExactlyWhen` says exactly when the entry given up is a least recently used one.
- A robots check that missed answers from the file it fetched itself, which need not be the last one stored for the
  host: `RobotsCache.TwoMisses` is the concrete run and `RobotsCache.MissIsAnswered` the exact condition.
- evictOldest uses the empty host to mean "none yet". `RobotsCache.EvictOldest` says that it removes an oldest entry if
  and only if some oldest entry has another host, and `RobotsCache.EmptyHostIsPassedOver` when none has. Hosts of
  crawled URLs are never empty.
- MarkRobotsBlocked sets the retry count to 10 even when it was higher, so between resets the count itself can fall.
  `QueueRetry.CountCanFall` is a run from a first submission in which it does, and `QueueRetry.CountFallsExactlyWhen`
  the exact condition. The budget of four retries never grows back, and `QueueRetry.StepSpends` proves that.
- ConsumeTOTPStep and ConfirmTOTP check neither which secret a code was checked against nor, for the former, whether
  the factor is still on. `TotpLifecycle.RemovedSecretIsAccepted` is a run in which a code checked against a removed
  secret is accepted for the next enrolment, and `TotpLifecycle.CheckedAgainstCurrentExactlyWhen` the exact condition.

## Model

| member | source | states |
|---|---|---|
| `QueueInvariant.BlacklistSafety` | backend/internal/database/db.go:258-553 | In every interleaving of enqueue, edge, block and unblock transactions with the node statements, a row is blocked exactly when its host is on the blacklist, and no claim returns a URL of a blacklisted host |
| `QueueInvariant.StepKeepsInv` | backend/internal/database/db.go:258-940 | Every action keeps the lock ownership, the blocked-iff-blacklisted tables, and that each transaction's buffered writes still fit the committed rows |
| `QueueInvariant.PublishKeepsOther` | backend/internal/database/db.go:812-938 | Committing one transaction changes nothing another open transaction has read or buffered |
| `QueueInvariant.RowsNeverContended` | backend/internal/database/db.go:258-261 | Two transactions that have written hold disjoint rows, so only the advisory locks are ever waited for |
| `QueueInvariant.StatementEdits` | backend/internal/database/db.go:521-590 | Single statements edit only rows nobody has locked, never block or unblock one, and never change its host or depth |
| `QueueLocks.NoWaitCycle` | backend/internal/database/db.go:268-278 | Waiting for advisory locks never forms a cycle: whoever is waited for holds more locks than the waiter |
| `QueueLocks.SomeoneProceeds` | backend/internal/database/db.go:268-278 | While transactions are open, at least one of them waits for nobody |
| `QueueLocks.DeadlockFreedom` | backend/internal/database/db.go:268-413 | Both of the above at every moment of every interleaving |
| `QueueLocks.OneQuotaHolder` | backend/internal/database/db.go:389-403 | At most one transaction at a time is between an account's lock and its commit |
| `QueueLocks.PendingCapHolds` | backend/internal/database/db.go:370-413 | From at most the cap, no interleaving of an account's submissions over any hosts ever shows more pending rows than the cap, beside every action that does not itself make another of its rows pending |
| `QueueDepth.DepthIsWitnessed` | backend/internal/crawler/engine.go:287-304 | Every row and every job at depth d has a walk of exactly d links of its own account from a URL that account submitted; d is within MaxDepth and never rises |
| `QueueDepth.PublishedRowsReached` | backend/internal/database/db.go:487-505 | Committing a link makes its target reachable at one more than its source |
| `QueueDepth.DepthNeverRises` | backend/internal/database/db.go:488-492 | No action removes a row or raises its depth |
| `QueueFairness.ClaimsAreFair` | backend/internal/database/db.go:521-553 | From nothing in flight, after k unfinished claims every one of m tenants with work holds the floor or the ceiling of k/m |
| `QueueFairness.ClaimIsWorkConserving` | backend/internal/database/db.go:546-551 | A claim comes back empty exactly when no unlocked row is eligible |
| `QueueFairness.ClaimChangesOneRow` | backend/internal/database/db.go:526-545 | A claim changes the claimed (url, account) row only |
| `QueueFairness.ClaimTakesTheLowest` | backend/internal/database/db.go:540-543 | The order of the query gives the row of an account with the fewest rows in flight |
| `QueueOrder.ClaimOrder` | backend/internal/database/db.go:534-545 | A claim takes a row of an account with the fewest crawls in flight; among accounts with equally many new work goes before re-crawls and what was due first before what was due later |
| `QueueOrder.ClaimedInTurn` | backend/internal/database/db.go:521-553 | As long as a claimable row stays so and no earlier work of its account comes up, the account's claims pass it over at most once per row that was before it |
| `QueueRetry.RetryBudget` | backend/internal/database/db.go:576-590 | Between resets a row returns to pending through failure at most four times whatever happens in between, and after the fourth every failure leaves it failed |
| `QueueRetry.StepSpends` | backend/internal/database/db.go:576-692 | Without a reset no action restores budget, and each retry takes one unit |
| `QueueRetry.FailureDecides` | backend/internal/database/db.go:576-590 | A failure leaves the row pending exactly when it had failed fewer than four times, counts it and sets the backoff |
| `QueueRetry.RetriesAreGiven` | backend/internal/database/db.go:576-590 | Without a reset or a robots.txt refusal a row that starts with no retries and fails n times returns to pending exactly min(n, 4) times |
| `QueueRetry.CountFallsExactlyWhen` | backend/internal/database/db.go:576-692 | Without a reset the stored count falls if and only if robots.txt refuses a row whose count is above ten |
| `QueueRetry.CountCanFall` | backend/internal/database/db.go:661-692 | A run of claims, failures and requeues from a first submission after which a refusal lowers the count from eleven to ten |
| `QueueRetry.BackoffSchedule` | backend/internal/database/db.go:581-586 | The backoff never shrinks with the retry count, is 10 * 2^k minutes up to k = 8 and 48 hours from k = 9 |
| `QueueSchedule.ScheduleIsHonoured` | backend/internal/database/db.go:521-590 | Until rescheduled, a row is not claimed before its backoff or interval has passed, and not at all once failed for good or refused by robots.txt |
| `QueueSchedule.DueAgainExactlyWhen` | backend/internal/database/db.go:521-678 | Until rescheduled or claimed, a row is eligible again exactly from ten minutes times two to the earlier failures after a failure, from its interval after a success and at once after a requeue, while its host is not blacklisted |
| `QueueSchedule.TakenBackExactlyWhen` | backend/internal/database/db.go:558-572 | The stuck sweep takes a crawl back exactly when it started longer ago than the sweep's age |
| `QueueSchedule.StartupTakesAllBack` | backend/internal/database/db.go:74-74 | The reset at start-up puts every row in flight back in the queue and changes no other |
| `QueueSchedule.WatchOnlyPullsForward` | backend/internal/database/annotations.go:282-287 | Starting a watch brings the next crawl forward or leaves it, and changes nothing else of the row |
| `QueueSchedule.OutcomeCanBeRecorded` | backend/internal/database/db.go:576-692 | Save, failure and refusal can be recorded of any row that is neither locked nor blocked, a requeue of any such row not in flight |
| `QueueProgress.NeverStranded` | backend/internal/database/db.go:558-572 | In every run that leaves a due row of a host that is not blacklisted alone, a waiting row stays eligible, a hung crawl is taken back by the first stuck sweep that finds it old enough, and a failed row is revived once the sweeps' batches add up to the failed rows ahead of it and the recrawls pulled forward since |
| `QueueProgress.StepKeepsAhead` | backend/internal/database/db.go:1221-1244 | A sweep that passes a dead row over has filled its batch with older ones, and nothing but an early recrawl gets ahead of it |
| `QueueProgress.SweepsSuffice` | backend/internal/database/db.go:558-572 | From any state without open transactions time and the two sweeps alone can make any such row claimable |
| `QueueProgress.ReviveOnce` | backend/internal/database/db.go:1221-1244 | A revive pass takes a non-empty batch off the backlog and makes each of its rows claimable at once with its retries renewed |
| `QueueSchedule.RobotsRefusalExpires` | backend/internal/database/db.go:683-692 | In every run that does not reschedule the row, the sweep's condition on a robots.txt refusal holds exactly when its host is not blacklisted and more than thirty days plus the sweep's age have passed since |
| `QueueSerial.SerialOutcome` | backend/internal/database/db.go:370-938 | Run without interruption, each of the four locked transactions can commit if and only if its condition holds; committing leaves exactly its outcome, anything else leaves the tables as they were |
| `QueueSerial.OutcomeKeepsTables` | backend/internal/database/db.go:370-938 | Every outcome keeps rows blocked exactly when their host is on the blacklist |
| `QueueSerial.BlockThenUnblock` | backend/internal/database/db.go:812-938 | Blocking and unblocking a host, each as an uninterrupted transaction, renews all its rows and touches no other |
| `QueueSerial.LinkIsFollowed` | backend/internal/crawler/engine.go:287-304 | A worker records a link from the page it was given exactly while the page is above the depth bound, and the target is then queued at one level more or less |
| `QueueTables.Tables.EnqueueURL` | backend/internal/database/db.go:370-413 | The three outcomes with their exact conditions, and the row inserted column by column; the tables after it are the outcome of its transaction |
| `QueueTables.Tables.SaveEdge` | backend/internal/database/db.go:462-505 | The link, the target's row new or at the lesser depth while it waits, and when the foreign key makes it fail; the outcome of its transaction |
| `QueueTables.Tables.AddBlacklist` | backend/internal/database/db.go:812-840 | The host listed, its rows blocked and every other row as it was; the outcome of its transaction |
| `QueueTables.Tables.DeleteBlacklist` | backend/internal/database/db.go:906-938 | Whether the host was listed, its blocked rows back in the queue with their retries renewed and every other row as it was; the outcome of its transaction |
| `QueueTables.Tables.FirstEligible` | backend/internal/database/db.go:534-545 | The search finds a best claim, or none exactly when nothing is claimable |
| `QueueTables.Tables.GetNextPendingNode` | backend/internal/database/db.go:521-553 | None exactly when nothing is claimable; otherwise a row whose account has the fewest crawls in flight, pending before completed, due first, marked as crawling from now |
| `QueueTables.Tables.FailNodeWithRetry` | backend/internal/database/db.go:576-590 | The machine's failure statement where it may edit the row, pending exactly below four failures, and nothing for a blocked or missing one |
| `QueueTables.Tables.RequeueForCrawl` | backend/internal/database/db.go:661-678 | Found and requeued with their exact conditions, and the row due now |
| `Politeness.Delay` | backend/internal/crawler/engine.go:133-139 | By cases on what robots.txt asks: five seconds below five, what it asks up to a minute, a minute above |
| `Politeness.DomainTable.WaitForDomain` | backend/internal/crawler/engine.go:126-177 | The slot booked, the wait left of the crawl-delay, none for a host not accessed lately, and the result for cancelled waits and unparsable URLs |
| `Politeness.DomainTable.Prune` | backend/internal/crawler/engine.go:93-100 | Exactly the entries older than ten minutes go |
| `Politeness.SlotsAreSpaced` | backend/internal/crawler/engine.go:93-177 | In every run of bookings, prunings and cancellations, a slot is at least min(max(5 s, the crawl-delay robots.txt asks), 60 s) after every earlier slot of the host |
| `Politeness.SlotsAreTight` | backend/internal/crawler/engine.go:118-177 | In every run a slot is the moment of its booking or exactly the gap after an earlier slot of its host, plus the time between the two clock readings |
| `Politeness.TableRemembers` | backend/internal/crawler/engine.go:93-100 | Whatever the table has forgotten is more than ten minutes old |
| `Politeness.SlotBound` | backend/internal/crawler/engine.go:144-155 | The last slot of a host is at most a minute away per slot still to come |
| `Politeness.WaitIsBounded` | backend/internal/crawler/engine.go:118-177 | With W workers and one clock reading per booking no wait exceeds W minutes |
| `Watch.WatchTable.StartWatch` | backend/internal/database/annotations.go:255-293 | The three results; starting again keeps the watermark; the site takes the interval and its next crawl never moves later, only forward to one interval after its last |
| `Watch.WatchTable.StopWatch` | backend/internal/database/annotations.go:297-304 | An unknown site is an error; otherwise the watch and its events go and other events stay in order |
| `Watch.WatchTable.RecordObservation` | backend/internal/database/annotations.go:406-490 | The events appended and the watermark stored, nothing when unwatched or rolled back |
| `Watch.FeedIsDeclared` | backend/internal/database/annotations.go:406-490 | For every history, with any observations lost, the feed is exactly the declared list: none at baseline, one per change of reachability, a change exactly when a reachable digest differs from the last reachable one |
| `Watch.ReachabilityAlternates` | backend/internal/database/annotations.go:452-465 | Unreachable and recovered strictly alternate over any history |
| `Watch.ChangeIsReported` | backend/internal/database/annotations.go:400-405 | Two committed reachable observations with different digests have a change event after the first and no later than the second, whatever is lost in between |
| `Watch.ReportedExactlyWhen` | backend/internal/database/annotations.go:436-478 | An observation is reported as outage, recovery or change exactly by whether it and the committed ones before it were reached with a status below 400 and by their digests |
| `Credentials.StoredHashIsCurrent` | backend/internal/database/db.go:1107-1152 | The stored hash is always of the password set last; a late re-hash restores nothing and changes no token version or acceptance |
| `Credentials.StepKeepsInv` | backend/internal/api/auth_handlers.go:151-241 | Every statement of logins, resets and sign-outs keeps versions ahead of everything issued and ids unused twice |
| `Credentials.AcceptanceIsNeverGained` | backend/internal/api/middleware.go:97-151 | No statement makes an issued token acceptable that was not |
| `Credentials.RefusalIsFinal` | backend/internal/api/middleware.go:97-151 | Once refused, for a stale version, a revoked or expired session or a missing user, an issued token is refused for ever |
| `Credentials.OldLoginsMintNothingUsable` | backend/internal/api/auth_handlers.go:151-241 | A login that read the user row before a reset or logout-all mints no token accepted afterwards |
| `Credentials.RevokingIsPrecise` | backend/internal/database/sessions.go:94-124 | Revoking one session, or all but one, refuses exactly those tokens and leaves every other as it was |
| `Acceptance.TokenAcceptedExactlyWhen` | backend/internal/api/middleware.go:97-151 | A login's token is accepted if and only if, since it read the user row, the account was neither reset nor signed out everywhere nor deleted, nobody ended its session, and four hours have not passed since the session was opened |
| `Acceptance.LoginMints` | backend/internal/api/auth_handlers.go:228-241 | What a login mints carries the version it read and the session it opened |
| `Acceptance.BareTokenAcceptedExactlyWhen` | backend/internal/api/middleware.go:118-127 | A token without a session is accepted exactly until a reset, a logout-all or the deletion of the account |
| `Acceptance.LogsInExactlyWith` | backend/internal/api/auth_handlers.go:151-241 | A login gets through to its token exactly with the password the account set last |
| `Acceptance.ResetTakesEffectExactlyWhen` | backend/internal/database/db.go:1107-1128 | A reset sets the password, raises the version and spends its ticket if and only if it presents the mailed token within the hour |
| `Acceptance.RehashTakesEffectExactlyWhen` | backend/internal/database/db.go:1146-1152 | A re-hash takes effect exactly while the stored hash is the one the login checked |
| `AuthAudit.AuditTable.HandleLogin` | backend/internal/api/auth_handlers.go:138-205 | Locked out exactly with five failures in fifteen minutes, otherwise by the credentials, and the audit entry of each outcome |
| `AuthAudit.AuditTable.PurgeAuthAudit` | backend/internal/database/privacy.go:217-231 | Exactly the entries of that address go that are no throttling event of the last two hours, no other address loses one, the rest keeps its order, and the number deleted is returned |
| `AuthAudit.AuditTable.PurgeOldAuditLogs` | backend/internal/database/db.go:1262-1272 | Exactly the entries older than the retention go, the rest keeps its order, and the number deleted is returned |
| `AuthAudit.PurgesDoNotShow` | backend/internal/database/privacy.go:206-231 | With purges anywhere in a run every later count of a throttled event, over any window of up to two hours, is that of the run without them, and so is every lockout, registration-cap and reset-cap decision |
| `AuthAudit.PurgedRunRecordsAlike` | backend/internal/database/privacy.go:206-231 | The entries the handlers write in a run with purges are those of the run without |
| `AuthAudit.AtMostFiveFailures` | backend/internal/api/auth_handlers.go:138-149 | Of all failures the handlers record in a run, purged since or not, no fifteen-minute window holds more than five of one address |
| `AuthAudit.HeldBackExactlyWhen` | backend/internal/api/auth_handlers.go:63-416 | In every run a login is locked out exactly when five failures of its address were recorded in the last fifteen minutes, a registration or reset held back exactly when three were in the last hour, purged since or not |
| `AuthAudit.EveryOutcomeIsRecorded` | backend/internal/api/auth_handlers.go:138-205 | What each request leaves in the audit log, outcome by outcome |
| `AuthAudit.CountIs` | backend/internal/database/db.go:1250-1258 | The count is the number of entries of that event and address in the last so many minutes |
| `RateLimit.CrawlLimiter.AllowN` | backend/internal/api/ratelimit.go:63-93 | The grant decision and the buckets after it, all or nothing |
| `RateLimit.CrawlLimiter.Sweep` | backend/internal/api/ratelimit.go:33-46 | Exactly the expired buckets go |
| `RateLimit.GrantsAreBounded` | backend/internal/api/ratelimit.go:26-93 | In every run a key gets at most the limit per window and twice it in any interval of a window's length; no eviction opens a second window inside a live one |
| `RateLimit.GrantedExactlyWhen` | backend/internal/api/ratelimit.go:63-93 | In every run a charge is granted exactly when it fits beside what the live window has granted, or by itself when there is none and a bucket can be had |
| `RateLimit.MapIsBounded` | backend/internal/api/ratelimit.go:75-84 | The bucket map never exceeds its capacity |
| `RateLimit.HandleCrawl` | backend/internal/api/crawl_handlers.go:12-48 | When a single URL is accepted, the unit charged and the buckets after it, for every refusal too |
| `RateLimit.SubmitBatch` | backend/internal/api/crawl_handlers.go:123-145 | The loop adds the queued URLs before the first that no longer fits and counts all others as skipped |
| `RateLimit.AddedAre` | backend/internal/api/crawl_handlers.go:123-145 | The URLs added are those queued before the first that no longer fits |
| `RateLimit.HandleCrawlBulk` | backend/internal/api/crawl_handlers.go:95-157 | What is accepted, added, skipped and charged and the buckets after it, with one unit spent on a batch refused later; added URLs are fewer than units charged |
| `RateLimit.AcceptedArePaidFor` | backend/internal/api/crawl_handlers.go:15-145 | In every run of single and bulk submissions, their charges interleaved in any way, URLs accepted from a key never exceed the units it was granted |
| `RateLimit.SubmissionsAreBounded` | backend/internal/api/crawl_handlers.go:15-145 | So a key gets at most twice the limit of URLs accepted in any interval of a window's length |
| `RateLimit.FullBatchFits` | backend/internal/api/crawl_handlers.go:98-122 | A batch as large as the limit fits if and only if the bucket runs out between the two charges |
| `RateLimit.TwentyAreRefused` | backend/internal/api/crawl_handlers.go:98-122 | The concrete batch of twenty that is refused, beside nineteen that are not |
| `Totp.TotpCode` | backend/internal/auth/totp.go:106-123 | Dynamic truncation to six zero-padded digits |
| `Totp.TruncationTakesFourBytes` | backend/internal/auth/totp.go:114-116 | The value is the four bytes, most significant first and without the top bit, at the offset in the low nibble of the last byte |
| `Totp.CodeReadsAs` | backend/internal/auth/totp.go:118-122 | A code is six digits that read as the value modulo a million |
| `Totp.PublishedExample` | backend/internal/auth/totp.go:114-122 | The digest printed in section 5.4 of RFC 4226 gives the value and code printed there |
| `Totp.StepCoversThirtySeconds` | backend/internal/auth/totp.go:160-160 | A step is the thirty seconds from 30 times its number |
| `Totp.CodesAgree` | backend/internal/auth/totp.go:114-122 | Two codes are equal exactly when the truncated values agree modulo a million |
| `Totp.FindStep` | backend/internal/auth/totp.go:159-177 | The search over the skew finds the earliest matching step and never goes below zero |
| `Totp.ValidateTotp` | backend/internal/auth/totp.go:145-178 | The match, or none, for every secret, code and time |
| `Totp.MatchIsEarliest` | backend/internal/auth/totp.go:159-177 | A match is within one of the clock's counter and no earlier step there shows the code |
| `Totp.ShownCodeMatches` | backend/internal/auth/totp.go:145-178 | The code an authenticator shows for the clock's step or a neighbour matches, with any white space around it |
| `Totp.SecondFactor.StageTotpSecret` | backend/internal/database/totp.go:43-60 | A secret is staged exactly when the factor is off |
| `Totp.SecondFactor.ConfirmTotp` | backend/internal/database/totp.go:66-101 | Switches on with the proving step and fresh recovery codes, or changes nothing: not pending, or a digest given twice |
| `Totp.SecondFactor.ConsumeTotpStep` | backend/internal/database/totp.go:110-126 | A step is accepted exactly when newer than the last |
| `Totp.SecondFactor.ConsumeRecoveryCode` | backend/internal/database/totp.go:131-145 | A code is accepted exactly when present and unused, and then used |
| `Totp.SecondFactor.DisableTotp` | backend/internal/database/totp.go:159-175 | Secret, step and recovery codes are cleared |
| `Totp.SecondFactor.VerifySecondFactor` | backend/internal/api/totp_handlers.go:161-181 | Which factor is tried and spent, and when it succeeds |
| `Totp.TypedCodesAreNormalized` | backend/internal/auth/totp.go:204-206 | A recovery code typed in any case, with spaces anywhere, is compared as it was issued |
| `Totp.SingleUse` | backend/internal/database/totp.go:103-145 | In any order of verifications accepted steps rise strictly above the confirming one and each recovery code works at most once |
| `Totp.AcceptancesAreBounded` | backend/internal/auth/totp.go:145-178 | Readings between t0 and t1 give at most counter(t1) - counter(t0) + 3 acceptances |
| `TotpLifecycle.CheckedAgainstCurrentExactlyWhen` | backend/internal/api/totp_handlers.go:61-181 | In every interleaving of stagings, confirmations, verifications and removals, the secret a request's code was checked against is still the current one if and only if none was staged or removed since it read the factor; for a verification, if and only if the factor was not switched off since |
| `TotpLifecycle.RemovedSecretIsAccepted` | backend/internal/database/totp.go:66-126 | The concrete run in which a step checked against a removed secret is accepted for the next enrolment |
| `TotpLifecycle.AcceptedStepsRise` | backend/internal/database/totp.go:103-126 | Until the factor is switched off accepted steps rise strictly, whatever is staged, confirmed or recovered in between |
| `TotpLifecycle.ConfirmingStepIsTheFloor` | backend/internal/database/totp.go:62-101 | From its confirmation until it is switched off every accepted step is above the confirming one |
| `TotpLifecycle.CurrentUntilChanged` | backend/internal/database/totp.go:43-175 | A secret is the current one exactly until it is replaced or removed |
| `Base32.GroupRoundTrip` | backend/internal/onion/url.go:21-21 | Five bytes and eight base-32 digits are one-to-one |
| `Base32.GroupIsTheSameNumber` | backend/internal/onion/url.go:21-21 | Eight digits and the five bytes they encode are the same forty bits, most significant first |
| `Base32.AlphabetIs` | backend/internal/onion/url.go:21-21 | The alphabet of section 6 of RFC 4648 |
| `Base32.StringRoundTrip` | backend/internal/auth/totp.go:42-48 | Decoding an encoded string gives the bytes back |
| `Base32.DecodedStringEncodesBack` | backend/internal/onion/url.go:32-36 | Encoding a decoded string of whole groups gives the string back |
| `Base32.CopiesDecode` | backend/internal/auth/totp.go:125-136 | Every copy of a generated secret, spaced, broken into lines, in either case, '='-suffixed and with any white space around it, decodes to its 20 bytes |
| `Onion.AcceptedIffHostnameOfKey` | backend/internal/onion/url.go:27-43 | A hostname is accepted exactly when, trimmed and lower-cased, it is the address of some 32-byte key with its checksum and version 3 |
| `Onion.AcceptedBytes` | backend/internal/onion/url.go:27-43 | Acceptance in terms of the characters and of the decoded bytes: key, the first two bytes of the digest of the checksum text, key and version, and version 3 |
| `Onion.OneHostnamePerKey` | backend/internal/onion/url.go:27-43 | Each key has exactly one accepted lower-case hostname: it is accepted, any accepted one that carries the key is this one, and different keys have different ones |
| `Robots.ScanFile` | backend/internal/crawler/robots.go:144-186 | The loop computes the fold of its line step |
| `Robots.ScanAllReads` | backend/internal/crawler/robots.go:144-186 | After any number of lines the loop's flags and lists say what those lines say |
| `Robots.ParseRobots` | backend/internal/crawler/robots.go:144-193 | The first 1000 rules governed by the nearest user-agent line above them, and the crawler's own delay before the wildcard one |
| `Robots.LineIsRead` | backend/internal/crawler/robots.go:152-170 | White space of any kind around name and value and the case of the name say nothing; the name decides what a line is |
| `Robots.NothingIsRead` | backend/internal/crawler/robots.go:152-162 | Blank lines, comments and lines without a colon say nothing |
| `Robots.CaseAlone` | backend/internal/crawler/robots.go:166-168 | Names and user agents are equal exactly up to the case of ASCII letters |
| `Robots.OneGroup` | backend/internal/crawler/robots.go:166-173 | A rule is for the crawler exactly when the user-agent line above it says "*" or names it, and never above one |
| `Robots.DelayIsSeconds` | backend/internal/crawler/robots.go:175-184 | A positive number of seconds counts to the nanosecond, anything else not at all |
| `RobotsCache.CheckPath` | backend/internal/crawler/robots.go:71-80 | Allowed exactly when no kept rule is a prefix of the path |
| `RobotsCache.EvictOldest` | backend/internal/crawler/robots.go:196-208 | Removes at most one entry, and one fetched no later than any other if and only if some such entry has a host that is not empty |
| `RobotsCache.EmptyHostIsPassedOver` | backend/internal/crawler/robots.go:196-208 | The case in which no such entry exists: the entry with the empty host is older than all others |
| `RobotsCache.Cache.Look` | backend/internal/crawler/robots.go:52-58 | An answer is the last file stored for the host and at most an hour old; an older one is dropped |
| `RobotsCache.Cache.Store` | backend/internal/crawler/robots.go:62-68 | Keeps the file, evicting an oldest entry when full, never above capacity |
| `RobotsCache.IsAllowed` | backend/internal/crawler/robots.go:42-81 | A check nobody interrupts: the verdict is that of the last file stored for the host, the fresh entry or else the fetched file |
| `RobotsCache.CacheIsBounded` | backend/internal/crawler/robots.go:52-68 | In every interleaving of checks the cache is within capacity and each entry is the last file stored for its host |
| `RobotsCache.HitIsAnswered` | backend/internal/crawler/robots.go:52-80 | In every interleaving a hit is answered by the last file stored at its lookup, at most an hour old, which is still the last one if and only if nobody stored for the host since |
| `RobotsCache.MissIsAnswered` | backend/internal/crawler/robots.go:60-80 | A miss is answered by the file that worker fetched after its lookup and stored itself, which is still the last one if and only if nobody stored for the host since |
| `RobotsCache.TwoMisses` | backend/internal/crawler/robots.go:60-80 | The concrete run in which two workers miss on one host and the first is answered against the last stored file |
| `RobotsRecency.HitEntryIsEvicted` | backend/internal/crawler/robots.go:17-68 | From any state with a full cache whose oldest entry is fresh, a check hits that entry and a store evicts it in the next step |
| `RobotsRecency.JustHitIsMostRecent` | backend/internal/crawler/robots.go:17-68 | An entry hit in the last step was used more recently than every other, so evicting it is not LRU |
| `RobotsRecency.VictimIsLeastRecentExactlyWhen` | backend/internal/crawler/robots.go:17-68 | In every run the evicted entry is a least recently used one if and only if every other entry was used since its last hit or, when it was not hit since its store, every entry stored before it was hit after that store |
| `RobotsRecency.UnusedVictimIsLeastRecent` | backend/internal/crawler/robots.go:17-68 | With stores in fetch order an evicted entry that was not hit since its store is a least recently used one |
| `RobotsRecency.RunIsOrdered` | backend/internal/crawler/robots.go:60-68 | In a run with stores in fetch order, of any two entries the one stored first was fetched first |
| `Retention.SelectBatch` | backend/internal/database/privacy.go:311-323 | The oldest rows, as many as the limit allows |
| `Retention.NodeTable.DryRun` | backend/internal/database/privacy.go:289-309 | The exact number of rows found and last crawled longer ago than their account's days and not protected, nothing touched |
| `Retention.NodeTable.ApplyRetention` | backend/internal/database/privacy.go:260-336 | One pass takes one batch of due rows per account with a window, and the report counts it |
| `Retention.PassesDrainExactlyTheDue` | backend/internal/database/privacy.go:260-336 | Repeated passes delete exactly the rows a dry run counts; an account with n is through exactly when passes times batch reach n |
| `Retention.KeptForGood` | backend/internal/database/privacy.go:247-258 | No pass ever takes a crawling, tagged, noted or watched row, a row found or crawled within the window, or a row of an account with no window |
| `ExportSlots.SlotsAreSafe` | backend/internal/api/export_handlers.go:29-49 | In every interleaving of the single channel operations one export per user and four overall at most, an attempt refused exactly when its user has one or four are running, no release or give-back blocks, and all slots free when all requests are gone |
| `ExportSlots.RefusalLeavesNoTrace` | backend/internal/api/export_handlers.go:32-44 | Whatever other requests do between its channel operations, an attempt refused at the global channel never counts there, and its user's slot is free before it and after it |

## Left out

- Database tables are values of a state machine in `CrawlQueue` and `Credentials`, because the properties are about
  interleavings of statements; update in place is shown by the classes of the other files.
- The insert branch of SaveNode, which runs when the row was deleted during its crawl, stores no host and takes no
  domain lock. The queue machine has SaveNode on rows that still exist and has no row deletion.
- RequeueForCrawl reads and writes in two unguarded statements. Here it is one step.
- Row-level rechecks inside one statement and races of SKIP LOCKED: every statement is atomic.
- URL parsing, port stripping and the canonical form of a crawl URL: a URL is its hostname and the rest.
- The content, title and category columns. In the queue machine the start of a watch pulls `next_crawl_at` forward to
  any moment; `Watch.WatchTable.StartWatch` says to which.
- BackoffSchedule: 10 * 2^k minutes is a mathematical integer; the interval overflow that PostgreSQL reports for retry
  counts of 34 and more is not modelled.
- PendingCapHolds: operations that put further rows of the account in the queue (a link to a new URL, a retry, a
  requeue, a sweep or an unblock that reaches one of its rows) are outside the cap by design and are excluded.
- ClaimsAreFair: speaks of stretches in which no crawl ends, as the floor and ceiling are not promised otherwise.
- AtMostFiveFailures: attempts are handled one at a time and audit reads and writes succeed; the handler skips the
  lockout when the count fails.
- DeleteAccount's removal of an account's whole audit history.
- Decode: nothing is proved of an incomplete last group, which no generated secret and no hostname has.
- Lower, Upper: case mapping between two characters outside ASCII is not modelled, because it decides nothing here.
- ParseRobots: the scanner's line-length limit, rounding of the float product and overflow of very large delays.
- IsAllowed: fetching is a parameter, a parse error of the URL (allowed at once) is not modelled, and hosts are not
  empty, as every crawled URL has one.
- ApplyRetention: days are 86400 seconds and the clock is read once per pass.
- The AnonLimiter, which is two such limiters, and RequestKey. Administrators are charged nothing, so the bounds on
  submissions are about everybody else.
- GenerateRecoveryCode, device labels, password rules, the categorizer, entity extraction, pagination: easy facts.
- HTTP routing, JSON, cookies, CORS, metrics, mail, Tor sockets, export formats and the frontend.
