# Verified model of the print gateway's stateful core

A Dafny 4.11 model of the parts of the gateway whose guarantees show only over whole runs, and of
two pieces of arithmetic it relies on. `dafny verify dfyconfig.toml` checks the project.

| files | what they model |
|---|---|
| BillingRow, BillingProtocol, BillingOrder, BillingReplies, BillingAgreement, BillingStripe, BillingWitnesses | cancel and resume of a subscription: claim, Stripe call, finalization, by any number of processes beside webhooks |
| CivilCalendar, Timestamps | the logger's date arithmetic and timestamp text |
| LogRotation | the rotating application log |
| AuthRateLimit, AuthRateRuns, AuthRateKeys | the login and pairing attempt limiter |
| CircuitBreaking, DiagnosticQueries, BreakerCooldown | the circuit breaker and the bounded query runner, alone and composed |
| Utf8, Base64Url, FleetCursor, DesiredPages | cursor paging of desired printer state with a byte budget |
| AgentDeletion | archiving an agent's jobs into receipts before deleting it |
| CanonicalJson, CanonicalOrder | the normal form behind idempotency fingerprints |
| Migrations | migration by content hash |
| Options, Bytes, LexOrder, SortedSequences | shared vocabulary |
| DatabaseClock, AgentPresence, PresenceSweep, FleetHealth | the calibrated clock and the several views of an agent's presence |

State that the source updates in place is a class; each of its methods is proved equal to a
specification function, and the run theorems are about those functions. A concurrent protocol is a
transition system whose steps lie between two suspension points or transactions. Time, randomness,
the database's answers and Stripe's outcomes are parameters or events, so the theorems hold for all
of them.

What the model assumes, beyond what each contract says:

- Billing: operation ids are fresh; Stripe records one outcome per idempotency key, replays it for
  the same request and rejects another request under a used key; a replaced subscription id is not
  bound again; no webhook revives a subscription reported as ended. A status is written without the flag only by the
  checkout's reconciliation of an ended subscription, which clears the claim (src/app/api/billing/checkout/route.ts:438-449).
- Migrations: a hash identifies the statements behind it.
- Clock: the database reads its clock while the probe is under way, and the true offset moves by at
  most a given drift.
- Paging: the database orders ids by code point.
- Log: file operations succeed.

What turned out not to hold as one might expect; the code is modelled as it is, with the exact
condition proved:

- The webhook writes status and `cancelAtPeriodEnd` together, from a snapshot it read before its transaction. So the
  flag at rest is the value of the last accepted operation only up to such snapshots (`FlagFollowsLastAcceptance`), and
  a snapshot may be older than an acceptance that was already finalized (`StaleSnapshotParts`; exactly when the row has
  Stripe's flag, `RowMatchesStripeIff`).
- The checkout's reconciliation of an ended subscription writes the status without the flag and drops the claim; an
  operation that Stripe accepted is then never written (`AcceptedCancelCanBeDropped`).
- Beneath a snapshot an accepted operation can be lost: a pause or unpause between two attempts of one resume changes
  the request under its key, and Stripe's rejection releases the claim (`AcceptedResumeCanBeLost`; exactly when,
  `LossIff`; never without a snapshot, `LossNeedsSnapshot`). A pending cancel on a paused subscription blocks both
  operations.
- Resuming a paused subscription sends no flag, so one that was to be cancelled still is, at Stripe, while the row
  says otherwise until a webhook comes (`PausedResumeParts`).
- The limiter reads its clock before it locks the row; its caps hold exactly up to a regression of
  150 s or 300 s (`CapIsExact`). Waiting for the lock cannot take that long, since the pool times out a lock after 5 s
  and a statement after 30 s; a stepped database clock or a stalled process can.
- An overload refusal by the query runner counts as a failure of the database, and can open the breaker alone
  (`OverloadCanOpen`; exactly when it is open, `OpenIff`).
- Timestamps sort as text only up to the year 9999 (`SortHorizon`).
- PostgreSQL keeps microseconds and JavaScript milliseconds, so within one millisecond of an edge
  the SQL gate, the sweep and the fleet report can differ from the JavaScript answers
  (`GateAgreesIff`, `SweepKeepsAnswersIff`, `ReportsAgreeIff`).
- A sweep leaves availability and effective status alone, but turns a base health of DEGRADED or
  STARTING into OFFLINE, and the reason for being unavailable from stale to offline (exactly when, `SweepsShowIff`).
- With an empty journal a pending repair always fails: the maximum of no times is not a time
  (`EmptyJournalSucceedsIff`).
- The comment in `canonicalize` speaks of code points; the comparison is by UTF-16 code units, and
  index-like keys enumerate first whatever the sort. The model follows the code; the normal form is
  unaffected (`CanonicalIff`).

## Model

| member | source | states |
|---|---|---|
| BillingRow.KeyForInjective | src/lib/billing-operation.ts:154-155 | one idempotency key belongs to one operation type and one operation id |
| BillingRow.SameRequestIff | src/lib/billing-operation.ts:52-58 | two requests of one operation on one subscription are the same request if and only if they agree on whether a paused subscription is being resumed |
| BillingRow.RequestMeans | src/lib/billing-operation.ts:52-58 | read from its text alone, the request of a cancel sets the flag of its own subscription and no other, that of a resume clears it, and the resume of a paused subscription goes to the resume path and sets nothing |
| BillingRow.ClaimAnswers | src/lib/billing-operation.ts:95-152 | a claim is refused as ended or paused, answered as missing or in progress, or proceeds, exactly for the statuses and claim columns named in the source |
| BillingRow.ClaimWritesOnlyWhenMinting | src/lib/billing-operation.ts:114-172 | a claim that does not proceed leaves the row as it was; one that proceeds either takes up the recorded operation unchanged or replaces no claim, or only a stale one |
| BillingRow.PendingClaimAdmits | src/lib/billing-operation.ts:137-152 | with an operation pending on the bound subscription a retry proceeds if and only if type and status allow it, and then with the recorded id, key and subscription |
| BillingRow.PausedPendingCancelBlocksBoth | src/lib/billing-operation.ts:104-152 | consequence: a pending cancel on a subscription that has been paused can be neither retried nor undone |
| BillingRow.SubscriptionStore.ClaimOperation | src/lib/billing-operation.ts:66-173 | the claim transaction on the stored row: the specified row and answer, nothing outside the four claim columns, and a grant that the row now records |
| BillingRow.SubscriptionStore.ReleaseRejected | src/lib/billing-operation.ts:195-225 | a rejection clears the claim only of the process that still owns claim and subscription |
| BillingRow.SubscriptionStore.FinalizeConfirmed | src/lib/billing-operation.ts:237-288 | the flag is written if and only if the grant still owns claim and subscription; an operation already finalized changes nothing |
| BillingProtocol.RunKeepsLedger | src/lib/billing-operation.ts:66-288 | in every interleaving of processes, crashes, retries and webhooks: operation ids are unique, each has one type, one key and one subscription for life, the claim columns are empty together or describe one minted operation, and every grant in flight repeats one |
| BillingProtocol.StepExtendsHistory | src/lib/billing-operation.ts:185-187 | no step withdraws a minted operation, an acceptance, or what Stripe recorded under a key |
| BillingProtocol.OneMutationPerOperation | src/lib/billing-operation.ts:185-187 | Stripe performs at most one mutation per operation under any number of replays |
| BillingProtocol.FlagNeedsConfirmation | src/lib/billing-operation.ts:257-287 | outside webhooks the flag changes only when a process finalizes whose key Stripe accepted and whose claim and subscription are still those of the row |
| BillingOrder.RunKeepsOrder | src/lib/billing-operation.ts:114-172 | in every interleaving, operations on one subscription are minted only after the earlier ones have an outcome, on a subscription not yet ended only the row's own newest claim can be open, and Stripe accepts them in the order minted |
| BillingOrder.MintWaitsForOutcomes | src/lib/billing-operation.ts:114-172 | no run mints a new operation on the bound subscription while an earlier one there has no outcome at Stripe |
| BillingAgreement.RunKeepsFlag | src/lib/billing-operation.ts:238-288 | in every run, the latest accepted operation on the bound subscription, ended or not, still holds the row, had its claim dropped by a write of the status without the flag, or was the last to write the flag, unless a webhook snapshot was |
| BillingAgreement.RunKeepsWriter | src/lib/billing-operation.ts:273-287 | in every run the flag is what its last writer carried: the initial value, the finalized operation's, or the webhook's |
| BillingAgreement.FlagFollowsLastAcceptance | src/lib/billing-operation.ts:238-288 | at rest in every run: without a later snapshot the last accepted operation wrote the flag if and only if it was not dropped, and the flag is the value it carries if and only if neither a snapshot of the other value came last, nor it was dropped while the last write carried the other value |
| BillingAgreement.QuiescentAgreement | src/lib/billing-operation.ts:238-288 | the plain case: with no snapshot last and the last accepted operation not dropped, the flag at rest is the value it carries, written by it |
| BillingAgreement.RunKeepsClosed | src/lib/billing-operation.ts:195-225 | in every run an operation once lost or dropped never holds the row again and never writes the flag |
| BillingAgreement.LossKeepsOldFlag | src/lib/billing-operation.ts:195-225 | a losing step leaves the row without a claim and with the flag and writer it had |
| BillingAgreement.OnlyResumesAreLost | src/lib/billing-operation.ts:52-58 | in every run, every lost operation is a resume |
| BillingStripe.RunKeepsView | src/app/api/billing/webhook/route.ts:453-460 | in every run, a snapshot that was the last to write the flag wrote Stripe's flag as of the acceptances its webhook had seen |
| BillingStripe.RecordCarries | src/lib/billing-operation.ts:185-187 | the text recorded for an acceptance carries the flag of its operation for its subscription, or is a resume and carries none, and says nothing about any other subscription |
| BillingStripe.RowMatchesStripeIff | src/lib/billing-operation.ts:52-58 | at rest in every run, the local flag is the one that the texts of the accepted requests leave at Stripe if and only if: under a snapshot, Stripe's flag is still what that webhook saw; after a dropped operation, still what was written before; otherwise, the last operation is not the flagless resume of a paused subscription whose flag was set |
| BillingStripe.FreshSnapshotAgrees | src/app/api/billing/webhook/route.ts:453-460 | a snapshot agrees as long as Stripe has since accepted nothing on the subscription that sets the flag |
| BillingWitnesses.AcceptedResumeCanBeLost | src/app/api/billing/webhook/route.ts:453-482 | a run: paused after the claim, with the flag written by the webhook, Stripe accepts the resume, and the retry for a paused subscription releases its claim |
| BillingWitnesses.AcceptedCancelCanBeDropped | src/app/api/billing/checkout/route.ts:438-449 | a run: Stripe accepts a cancel, the ended subscription is reconciled without its flag, and the accepted cancel is never written |
| BillingWitnesses.PausedResumeParts | src/lib/billing-operation.ts:52-58 | a run: a paused subscription set to be cancelled is resumed, and the row and Stripe disagree |
| BillingWitnesses.StaleSnapshotParts | src/app/api/billing/webhook/route.ts:411-460 | a run: a webhook that read the subscription before a cancel was accepted writes the row after its finalization, and the row and Stripe disagree |
| BillingReplies.LossIff | src/lib/billing-operation.ts:185-225 | in every run, settling loses an operation if and only if the process owns the row, Stripe accepted the operation, and it resumes across a pause or the end of one since the recorded request |
| BillingReplies.LossNeedsSnapshot | src/lib/billing-operation.ts:185-225 | in every run, an operation is lost only while a webhook snapshot is the last writer of the flag |
| BillingReplies.RunKeepsStep | src/app/api/billing/webhook/route.ts:453-460 | in every run, while an operation holds the row of its subscription and no snapshot was the last to write the flag, all its requests, sent, recorded or still to send, are the one for the row's status |
| BillingReplies.ReplayDeniedIff | src/lib/billing-operation.ts:185-195 | in every run, a replay of an accepted operation is turned away if and only if it is a resume and the subscription was paused or unpaused since the recorded request |
| BillingReplies.RunKeepsAnswers | src/lib/billing-operation.ts:185-195 | in every run, each recorded request is one of the two its operation can make, and each process was told what its recorded outcome and request imply |
| BillingOrder.WebhookKeepsOrder | src/app/api/billing/webhook/route.ts:325-482 | webhooks that adopt a subscription, rewrite its status and flag, or end it and clear the claim, keep the order of operations |
| CivilCalendar.MarchYear | src-tauri/src/logging.rs:138-145 | the era, year and day arithmetic inverts the count of days of March-based Gregorian years; no unsigned subtraction underflows |
| CivilCalendar.DayOfYearBounds | src-tauri/src/logging.rs:142-145 | the intermediate ranges written in the code hold, and day 365 occurs only in leap years |
| CivilCalendar.CivilDayNumber | src-tauri/src/logging.rs:138-149 | the date computed for a day count exists and lies exactly that many days after 1970-01-01, counting years and months |
| CivilCalendar.CivilFromDaysCountsDays | src-tauri/src/logging.rs:138-149 | for every day count a u64 of seconds can reach, the result equals stepping a Gregorian calendar one day at a time (leap rule of Appendix C of RFC 3339) |
| CivilCalendar.CivilFromDaysIsOnto | src-tauri/src/logging.rs:138-149 | every Gregorian date from 1970 on is the image of its own day number |
| CivilCalendar.CivilFromDaysIsMonotone | src-tauri/src/logging.rs:138-149 | distinct days give distinct dates, in calendar order |
| CivilCalendar.NextDayAdvances | src-tauri/src/logging.rs:138-149 | the reference calendar: the next day is a date, later, and one further from the epoch |
| Timestamps.TimestampLength | src-tauri/src/logging.rs:137-160 | a timestamp has 24 characters if and only if its year has four digits, and more otherwise |
| Timestamps.TimestampReadsBack | src-tauri/src/logging.rs:137-160 | the text is a date-time of section 5.6 of RFC 3339 if and only if the year has four digits, and then its numbers are the date and the time of day |
| Timestamps.TimestampsSortChronologically | src-tauri/src/logging.rs:137-160 | before the year 10000 comparing texts is comparing instants, and equal texts mean equal instants |
| Timestamps.TimestampOrderBreaksAtYear10000 | src-tauri/src/logging.rs:150-152 | around the turn to the year 10000 the later instant has the smaller text |
| Timestamps.SortHorizon | src-tauri/src/logging.rs:137-160 | all instants before a horizon sort by their texts if and only if the horizon is no later than the year 10000 |
| LogRotation.LogWriter.RotateIfFull | src-tauri/src/logging.rs:73-88 | shifting the copies in place, from the oldest down, gives the specified directory |
| LogRotation.LogWriter.WriteLine | src-tauri/src/logging.rs:185-206 | a line goes to the live file, after a rotation exactly when that file is over the limit |
| LogRotation.LogWriter.Init | src-tauri/src/logging.rs:20-68 | starting up rotates an over-full log and opens the live file |
| LogRotation.RotationDropsOldest | src-tauri/src/logging.rs:73-88 | rotation loses the oldest copy and nothing else |
| LogRotation.WritingAppends | src-tauri/src/logging.rs:185-206 | writing adds the line at the end of what is kept |
| LogRotation.KeepsATail | src-tauri/src/logging.rs:73-206 | after any starts and writes the four files in order are a contiguous suffix of everything logged, each at most one line over the limit, and nothing is lost before more than three full files are kept |
| AuthRateLimit.LockDuration | src/lib/auth-rate-limit.ts:42-58 | a lock is set if and only if the first threshold is reached, and never exceeds an hour |
| AuthRateLimit.LockDurationFor | src/lib/auth-rate-limit.ts:42-58 | the threshold loop computes that duration, written out for both curves |
| AuthRateLimit.LimitIsNextThreshold | src/lib/auth-rate-limit.ts:60-63 | the limit told is the next threshold not yet exceeded, or the last one |
| AuthRateLimit.Reserve | src/lib/auth-rate-limit.ts:194-262 | an attempt is refused if and only if an active lock is recorded, and a refused one leaves the row as it was |
| AuthRateLimit.LatestLock | src/lib/auth-rate-limit.ts:152-155 | the maximum of the active locks |
| AuthRateLimit.RateLimitTable.ReserveBucketAttempt | src/lib/auth-rate-limit.ts:194-262 | one key: the decision and row of the specification, all other rows unchanged |
| AuthRateLimit.RateLimitTable.ReserveAuthAttempt | src/lib/auth-rate-limit.ts:289-364 | several keys: refused if and only if some key is locked; refused leaves every count, window and lock (a missing row may be seeded with zero), admitted charges every key once; other rows unchanged |
| AuthRateLimit.RateLimitTable.Cleanup | src/lib/auth-rate-limit.ts:366-375 | deletes exactly the rows not written for a day and counts them |
| AuthRateLimit.RateLimitTable.RecordSuccess | src/lib/auth-rate-limit.ts:377-386 | after a success the next attempt on its keys is admitted at any time and starts from a fresh row; every other key is as it was |
| AuthRateRuns.AgeGrowsByLock | src/lib/auth-rate-limit.ts:42-58 | the least age of a window with k failures grows by each lock, so that one failure past the cap needs the window plus the tolerated regression |
| AuthRateRuns.FailuresAreCapped | src/lib/auth-rate-limit.ts:194-262 | over any run of attempts, refusals elsewhere, cleanups and successes, clocks going back by less than 150 s (account) or 300 s (address), no row ever records more than 12 or 32 failures |
| AuthRateRuns.AdmissionsAreBounded | src/lib/auth-rate-limit.ts:194-262 | if all attempts fall within T ms, at most 12 or 32 times (T / 15 min + 1 + successes) are admitted, T lengthened by the clock regression at each success |
| AuthRateRuns.SuccessRestarts | src/lib/auth-rate-limit.ts:377-386 | after a success, whatever follows is decided and recorded as in a history of its own |
| AuthRateRuns.CapIsExact | src/lib/auth-rate-limit.ts:200-240 | the cap is reached, and a clock regression of 150 s or 300 s lets a run exceed it: the tolerance is exact |
| AuthRateRuns.CleanupIsUnobservable | src/lib/auth-rate-limit.ts:366-375 | the cleanup deletes only rows without active lock or live window, and the next decision and row are as if it had not |
| AuthRateRuns.LockedUntilLatest | src/lib/auth-rate-limit.ts:152-163 | some key stays locked until the latest lock ends, and none after |
| AuthRateRuns.RetryAfterIsTight | src/lib/auth-rate-limit.ts:156-158 | waiting as long as told frees every key, and overshoots the last lock by less than a second |
| AuthRateRuns.RemainingIsExact | src/lib/auth-rate-limit.ts:126-142 | for one key the remaining count told is exactly how many more attempts are admitted at once |
| AuthRateKeys.RunProjects | src/lib/auth-rate-limit.ts:289-386 | in every history of the table of logins on several keys, pairing attempts, cleanups and successes, each key has the row, the charges and the successes of a history of its own, on the curve that its text decides |
| AuthRateKeys.KeysAreCapped | src/lib/auth-rate-limit.ts:329-349 | in every such history a key that begins with "ip:" never records more than 32 failures and is locked exactly from its 20th on, any other never more than 12 and exactly from its 5th on; with the length of each lock |
| AuthRateKeys.KeyChargesAreBounded | src/lib/auth-rate-limit.ts:289-364 | if all attempts fall within T ms, such a key is charged at most 32, any other at most 12, times (T / 15 min + 1 + successes), T lengthened by the clock regression at each success |
| AuthRateKeys.FailuresAreCharges | src/lib/auth-rate-limit.ts:326-349 | the failures of a row are the attempts charged to its key since the window of the row opened |
| AuthRateKeys.TightestIsLeast | src/lib/auth-rate-limit.ts:144-150 | of several buckets the first with the least room relative to its limit is told |
| AuthRateKeys.LockedTells | src/lib/auth-rate-limit.ts:152-163 | a decision about locked keys tells the limit of a key locked longest and the end of its lock, rounded up to seconds |
| AuthRateKeys.AllowedTells | src/lib/auth-rate-limit.ts:165-187 | a decision about keys without a lock tells limit, remaining count and window end of a key with the least room |
| CircuitBreaking.CircuitBreaker.GetState | src/lib/circuit-breaker.ts:38-43 | reading the state makes the specified transition, which the cooldown theorems are about |
| CircuitBreaking.CircuitBreaker.Start | src/lib/circuit-breaker.ts:45-61 | the admission decision, the probe flag and the generation given to the call |
| CircuitBreaking.CircuitBreaker.Complete | src/lib/circuit-breaker.ts:62-72 | a completion counts only in its own generation |
| DiagnosticQueries.BoundedQueryRunner.Acquire | src/lib/bounded-query.ts:26-36 | a slot is taken exactly when the timeout is valid and the budget not exhausted, so the budget is never exceeded |
| DiagnosticQueries.DiagnosticClient.BeginQuery | src/db/client.ts:19-21 | the synchronous part of a call through breaker and runner |
| DiagnosticQueries.DiagnosticClient.QuerySettles | src/lib/bounded-query.ts:40-43 | the slot is released when the query really settles |
| DiagnosticQueries.DiagnosticClient.Report | src/lib/circuit-breaker.ts:62-72 | the breaker is told the result once |
| DiagnosticQueries.StepKeepsSlots | src/lib/bounded-query.ts:26-55 | every step keeps the slot count equal to the number of unsettled queries and within the budget |
| DiagnosticQueries.StepKeepsBreaker | src/lib/circuit-breaker.ts:38-88 | every step keeps the breaker sound, timeouts and late settlements included |
| DiagnosticQueries.RunIsSound | src/lib/circuit-breaker.ts:38-88 | after any run with threshold at least 1: open means no call of the current generation in flight, half-open at most the flagged probe, closed fewer failures than the threshold, the probe flag set exactly while a current probe is in flight; slots conserved; results honest |
| DiagnosticQueries.OnlyRealSuccessCloses | src/lib/circuit-breaker.ts:62-78 | the breaker closes only on the report of a current probe whose query was admitted and really succeeded |
| DiagnosticQueries.StaleCompletionIsIgnored | src/lib/circuit-breaker.ts:64-70 | once the breaker has opened, no call from before moves it again at any later point of the run |
| DiagnosticQueries.CallsOnlyAdvance | src/db/client.ts:19-21 | along any run the admission, query, result and report of a call are never taken back |
| DiagnosticQueries.CallsAreCounted | src/db/client.ts:19-21 | in every run a call is reported to the breaker at most once and releases its slot at most once, and the state says whether it has |
| DiagnosticQueries.ExactlyOnceAtRest | src/db/client.ts:19-21 | when nothing but new calls can happen, every admitted call has been reported exactly once, every query has released its slot exactly once and all slots are free |
| DiagnosticQueries.CallerIsTold | src/lib/bounded-query.ts:37-55 | in every run a caller is told what happened to its query first, its settlement or its deadline, and a failure if it got none |
| DiagnosticQueries.OpenIff | src/lib/circuit-breaker.ts:74-88 | in every run the breaker is not closed if and only if the failed queries and the refusals by the runner since the last counted success together reach the threshold |
| DiagnosticQueries.OverloadCanOpen | src/db/client.ts:19-21 | for every threshold and budget, a run from the start opens the breaker although no query failed or missed its deadline |
| BreakerCooldown.RunKeepsOpening | src/lib/circuit-breaker.ts:80-88 | in every run a breaker that is not closed remembers the time of the report that last opened it |
| BreakerCooldown.AdmittedIff | src/lib/circuit-breaker.ts:38-61 | in every run a closed breaker admits a call, and one that was opened admits it, as its only probe, if and only if no probe is in flight and the timeout has passed since the opening, or had when an earlier call came |
| BreakerCooldown.CooldownHolds | src/lib/circuit-breaker.ts:38-48 | after an opening at t, as long as every call comes before t plus the timeout, the breaker stays as it is and turns every call away, whatever else settles or is reported |
| BreakerCooldown.ProbeFollowsCooldown | src/lib/circuit-breaker.ts:39-61 | and the first call that comes at t plus the timeout or later is admitted as the probe |
| Base64Url.DecodeEncode | src/lib/fleet-cursor.ts:8-9 | base64url without padding (section 5 of RFC 4648) decodes to what was encoded, for all byte strings |
| Base64Url.EncodeIsRfc | src/lib/fleet-cursor.ts:8-9 | the text has a character for each six bits of input, the one for exactly those bits, and the bits that fill up the last are zero (sections 3.5 and 5 of RFC 4648) |
| Base64Url.AlphabetIs | src/lib/fleet-cursor.ts:8-9 | the characters are those of Table 2 of RFC 4648 |
| Utf8.DecodeEncodeUtf8 | src/lib/fleet-cursor.ts:8-9 | every text of Unicode characters comes back from its UTF-8 bytes (section 3 of RFC 3629) |
| Utf8.EncodeDecodeUtf8 | src/lib/fleet-cursor.ts:8-9 | no bytes but those of a text decode to it: overlong forms, surrogates and truncated forms are refused |
| Utf8.DecodesOctets | src/lib/fleet-cursor.ts:8-9 | each character of the grammar of section 4 of RFC 3629 is read as the one its payload bits stand for |
| Utf8.EncodesOctets | src/lib/fleet-cursor.ts:8-9 | each character is written as one of that grammar, with its own bits as payload |
| Utf8.UnitsAreUtf16 | src/lib/fleet-cursor.ts:13 | the length limit counts UTF-16 code units (section 2.1 of RFC 2781) |
| FleetCursor.CursorRoundTrip | src/lib/fleet-cursor.ts:6-14 | the reader returns exactly the id written, for exactly the ids of 1 to 512 UTF-16 units; the limit on the text never bites |
| FleetCursor.CursorIsCanonical | src/lib/fleet-cursor.ts:7-9 | the reader accepts no text but the canonical one of the id it returns |
| DesiredPages.GetDesiredPrinterPage | src/lib/desired-state-page.ts:24-36 | the loop with its byte count returns the specified page, whose JSON array is within the byte limit |
| DesiredPages.JsonArrayGrows | src/lib/desired-state-page.ts:25-33 | the bytes counted are the exact length of the JSON array |
| DesiredPages.PageIsLongest | src/lib/desired-state-page.ts:24-36 | a page is the longest prefix within both limits, ends the walk exactly when it has all rows, and fails exactly when the first row alone is too large |
| DesiredPages.FollowIncreases | src/lib/desired-state-page.ts:17-36 | following the cursor yields strictly increasing ids, hence no row twice, whatever the table does between reads |
| DesiredPages.FollowMissesNothing | src/lib/desired-state-page.ts:17-36 | a completed walk returns every row that was there at every read, whatever else changes |
| DesiredPages.FollowFixedTable | src/lib/desired-state-page.ts:17-36 | on an unchanged table the walk ends, with the whole sorted rest if every row fits alone and an error otherwise |
| AgentDeletion.ReceiptKeepsPhysicalOutcome | src/app/actions.ts:91-99 | a receipt calls the paper unknown exactly where a terminal job's own status and error do, and for an open job exactly when it was printing or shows any sign of a delivery |
| AgentDeletion.GatewayStore.DeleteAgent | src/app/actions.ts:62-113 | the nested batch loops end; they succeed exactly when the id is not blank, the agent exists, no receipt is in the way and no other agent's device refers to its sessions or printers; then each of the agent's jobs has become exactly one receipt that repeats its columns, key and times, a terminal job's outcome or else a failure now, the taken idempotency keys are the same as before, other jobs and older receipts are untouched and agent, printers and discovery rows are gone; otherwise nothing has changed |
| AgentDeletion.GatewayStore.ArchiveOwned | src/app/actions.ts:84-109 | the archive loop empties the owned jobs or rolls everything back |
| AgentDeletion.SelectIds | src/app/actions.ts:85-86 | a limited query in any order returns distinct owned ids, and some if there are any |
| AgentDeletion.ProgressStep | src/app/actions.ts:90-104 | a receipt of the same run is never in the way of the next one |
| AgentDeletion.InsertReceipts | src/app/actions.ts:88-104 | one batch of at most 20 full rows is archived, or the first collision fails it |
| AgentDeletion.DeletionKeepsReferencesIff | src/db/schema.ts:187-425 | after the deletion every foreign key of jobs, printers, sessions and devices holds if and only if no other agent's device refers to what is gone |
| CanonicalJson.CanonicalIsSame | src/lib/canonicalize.ts:1-15 | canonicalizing changes nothing but the order of object keys |
| CanonicalJson.SameHaveOneForm | src/lib/canonicalize.ts:1-15 | values that differ only by key order at any depth have one canonical form, index-like keys included |
| CanonicalJson.CanonicalIff | src/lib/canonicalize.ts:1-15 | two values have equal canonical forms if and only if they differ only by key order |
| CanonicalJson.CanonicalIdempotent | src/lib/canonicalize.ts:1-15 | canonicalizing twice is canonicalizing once |
| CanonicalOrder.IndexIff | src/lib/canonicalize.ts:1-15 | the keys that enumerate first are exactly the decimals of the numbers below 2^32 - 1 (array index, section 6.1.7 of ECMA-262) |
| CanonicalOrder.IndexOrder | src/lib/canonicalize.ts:1-15 | their order of enumeration is that of the numbers |
| CanonicalOrder.CanonicalEnumerates | src/lib/canonicalize.ts:1-15 | a canonical object enumerates the numeric keys first, in numeric order, then the others by code units |
| Migrations.Migrator.MigrateByHash | scripts/db-migrate.ts:56-87 | the two loops commit exactly the specified run, or on any error leave database and history as they were |
| Migrations.Migrator.ExecuteSql | scripts/db-migrate.ts:69-71 | the loop executes the statements that are not blank, in order, with scoped guards, and stops at the first error |
| Migrations.RunsExecuteOnce | scripts/db-migrate.ts:55-87 | from any store, after any runs of any releases, with journals that gain entries anywhere and failures at any point, the history has only grown, by no hash twice and none it had, and the database is what executing the newly recorded work once each, in recorded order, yields |
| Migrations.RunAppendsPending | scripts/db-migrate.ts:67-80 | a successful run appends exactly the pending entries, in journal order and then repair order, also those older than applied ones |
| Migrations.RunRecords | scripts/db-migrate.ts:67-80 | each row a run appends is the hash of a journal entry with the time of its folder, or that of a repair with the latest such time |
| Migrations.StatementsInPlace | scripts/db-migrate.ts:69-71 | each statement with a character that trimming keeps is executed, scoped, in its place, and no other |
| Migrations.SuccessIsComplete | scripts/db-migrate.ts:67-80 | after a successful run the history holds exactly the old hashes and all of this release, and running it again is a no-op |
| Migrations.EmptyJournalSucceedsIff | scripts/db-migrate.ts:75-80 | with an empty journal a run succeeds if and only if no repair is pending, however sound the SQL |
| Migrations.JournalSucceedsIff | scripts/db-migrate.ts:67-80 | with a journal, a run succeeds if and only if the pending queries, executed one after another on the database as it is, raise no error, and that is the database it leaves |
| AgentPresence.ResolveThreshold | src/lib/stale-threshold.ts:29-39 | the threshold is within 90 to 3600 s and is the configured one, rounded down, whenever that is in range |
| AgentPresence.ViewsAgree | src/lib/agent-availability.ts:69-108 | at every instant an agent is available if and only if its effective status is online if and only if its base health is ONLINE |
| AgentPresence.SilentAgents | src/lib/agent-health.ts:61-71 | an agent that was never seen is starting for five minutes after its creation, whatever its status says |
| AgentPresence.GateAgreesIff | src/app/api/agent/jobs/route.ts:143-147 | the SQL gate at a database instant and the JavaScript answer for its millisecond agree, for every agent, if and only if it is not an active online one with a heartbeat past an edge of the window within that millisecond |
| DatabaseClock.GatewayClock.RefreshClockSkew | src/lib/database-clock.ts:62-91 | a call returns the cache while fresh, joins a calibration under way, or starts one |
| DatabaseClock.GatewayClock.ProbeEnds | src/lib/database-clock.ts:69-83 | a successful probe caches database time minus the midpoint, a failed one keeps the offset, both record the attempt |
| DatabaseClock.GatewayClock.StarterResumes | src/lib/database-clock.ts:85-90 | a settled calibration is cleared by the call that started it, and nothing else changes |
| DatabaseClock.OffsetIsAccurate | src/lib/database-clock.ts:69-83 | over any run the cached offset stays within half a round trip plus drift of the true one, and a millisecond more on the side of truncated host readings |
| DatabaseClock.HalfRoundTripIsReached | src/lib/database-clock.ts:78-80 | that half round trip is reached for every round trip |
| DatabaseClock.OffsetIsLastSample | src/lib/database-clock.ts:74-77 | the offset is set if and only if some probe succeeded, and no other event changes it |
| DatabaseClock.ProbesAreThrottled | src/lib/database-clock.ts:62-91 | at most one probe is under way, and a call starts the next if and only if the last is cleared and it is forced or comes 30 s after that ended, failed or not |
| DatabaseClock.JoinersShare | src/lib/database-clock.ts:85-90 | in every run whoever joined a calibration gets the offset that is cached when it settles |
| DatabaseClock.FreshnessIsExact | src/lib/database-clock.ts:117-124 | a heartbeat whose true age is clear of both edges by the calibration error and two milliseconds is judged as the exact rule on the database clock judges it |
| DatabaseClock.UncalibratedIsHost | src/lib/database-clock.ts:45-47 | until a probe succeeds the gateway clock is the host clock |
| PresenceSweep.SweepLimit | src/lib/agent-presence-maintenance.ts:15-18 | the batch size is within 1 to 5000 and is the configured one, rounded down, whenever that is in range |
| PresenceSweep.AgentTable.Sweep | src/lib/agent-presence-maintenance.ts:19-35 | a sweep marks offline only unlocked, active, online agents last seen before the threshold, those never seen or longest not seen first, as many as it returns, fewer than the limit only if none is left, and changes nothing else |
| PresenceSweep.FirstSize | src/lib/agent-presence-maintenance.ts:20-28 | the ordered, limited selection takes as many candidates as the limit allows, and those that come first |
| PresenceSweep.SweepKeepsAnswersIff | src/lib/agent-presence-maintenance.ts:13-36 | from its own instant on a sweep changes no availability and no effective status, except in its own millisecond and exactly when a heartbeat it took was past the threshold by less than that |
| PresenceSweep.SweepsAreUnobservable | src/lib/agent-presence-maintenance.ts:13-36 | over any run of heartbeats, lifecycle changes, enrolments, deletions and sweeps, in whatever order their stamps commit, the job gate, availability and effective status of every agent are those of the run without the sweeps |
| PresenceSweep.SweepsShowIff | src/lib/agent-presence-maintenance.ts:13-36 | over any run, in whatever order its stamps commit, base health is the same with and without the sweeps if and only if they left the row alone or the agent is past its five minutes anyway, else DEGRADED or STARTING has become OFFLINE; the reason for being unavailable is the same if and only if they left the row alone, else a stale or missing heartbeat has become offline |
| PresenceSweep.StepConserves | src/lib/agent-presence-maintenance.ts:29-35 | what a sweep takes was online, and only a heartbeat adds an online agent |
| PresenceSweep.BacklogIsBounded | src/lib/agent-presence-maintenance.ts:13-36 | the sweeps of a run that leave a takeable stale agent behind are at most (agents online at first + online heartbeats) / limit |
| PresenceSweep.HeartbeatLasts | src/app/api/agent/jobs/route.ts:143-147 | after an online heartbeat of an active agent, through any sweeps within the threshold and any events of others, its row stays and the job gate is open exactly until the threshold runs out |
| PresenceSweep.LifecycleChanges | src/lib/agent-lifecycle.ts:55-96 | a change of lifecycle takes effect and closes the job gate until the next heartbeat |
| PresenceSweep.EnrolAdds | src/lib/agent-control.ts:62-70 | enrolling adds an agent that is not up before its first heartbeat, and replaces none |
| PresenceSweep.InactiveIsDeaf | src/app/api/agent/heartbeat/route.ts:312-316 | a heartbeat of an agent that is not active changes nothing |
| FleetHealth.GetAgentHealth | src/lib/agent-health.ts:199-264 | queue depth, printer count and online count are the sizes of the sets of the agent's own rows with the named columns; a failed lookup counts as none |
| FleetHealth.GetAllAgentsHealth | src/lib/agent-health.ts:266-349 | from two grouped answers in any order, every agent of a page gets the sizes of the sets of its own rows, zero where it has no group, also when a lookup failed |
| FleetHealth.ReportsAgreeIff | src/lib/agent-health.ts:199-349 | on one snapshot the fleet report of an agent is its detail report if and only if no listed printer was seen after the instant of the report within the same millisecond |
| FleetHealth.OnlineIff | src/lib/agent-health.ts:57-180 | on a snapshot a report is ONLINE if and only if the agent is active, online and seen within the threshold, both lookups succeeded, at most 100 of its jobs wait and some listed printer is online unless there is none; and exactly when it is DEGRADED or STARTING |
| FleetHealth.ChecksMean | src/lib/agent-health.ts:101-160 | the five checks in terms of the rows: what each status of each check says about the agent, the waiting jobs and the listed and online printers, and which are observed |
| FleetHealth.AnswersExist | src/lib/agent-health.ts:287-340 | for every snapshot and page there are grouped answers of the kind assumed |

## Left out

- React pages, desktop UI, tray, Windows service and process control: presentation and foreign calls.
- Role and permission checks, locks and tenant fences around each transaction: they only restrict which runs occur.
- Webhook ingestion (event fencing, plan mapping, periods): only its writes of subscription id, status, flag and claim are events of the billing protocol.
- HTTP answers, log lines, audit events and notifications of every operation.
- AuthRateLimit.RateLimitTable.ReserveAuthAttempt: takes the keys as given; deriving them from address and user name is not stated.
- FleetCursor.CursorRoundTrip: the raw `beforeId` parameter, which the paging does not use, and ids with unpaired surrogates, which the database cannot hold.
- DesiredPages: the tenant, agent and management-source filter, which only selects the table.
- AgentDeletion.GatewayStore.DeleteAgent: ids, keys and digests are abstract values and error texts are represented by their marker; the audit event and the session notification are not modelled.
- LogRotation.KeepsATail: failing file operations, which the source ignores, are not modelled.
- Migrations: the SQL text, the rewriting of constraint guards and SHA-256 are parameters.
- FleetHealth: tenant filter, page limits and offsets, and the texts and details of checks; the test for virtual printers is one column.
- AgentPresence: timestamps that cannot be read, which the database column cannot hold.
- DatabaseClock.GatewayClock.ProbeEnds: dates before 1970, where JavaScript rounds a fractional time toward zero instead of down.
- PresenceSweep: the updated_at column and the text order of ids, for which any total order serves.
- BillingStripe: changes of the flag at Stripe by other means than these operations, such as its customer portal.
