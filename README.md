# Daily penalty escalation and notification, modelled in Dafny

This project models the decision and state-update logic in the `calculate-penalties` edge function. The function runs once a day as a scheduled job and has three parts:

- **Orchestrator** (the request handler). It calls the penalty calculation procedure. A calculation error, or a null result, ends the run with a failure response (status 500). Otherwise it runs the penalty notification stage when `success && penalties_created > 0`, and the escalation stage when `success`. A stage's failure is caught. The run is reported as success (status 200), with the calculation result passed through, even when that result's own `success` is false.
- **Penalty notification stage** (`sendPenaltyNotifications`). It fetches the penalties of the processed date. A failed query is rethrown to the orchestrator, and an empty result does nothing. Otherwise it makes one `penalty_incurred` insert attempt per penalty, in fetch order. The displayed balance is `total_balance || amount`. A failed insert is logged and the loop goes on.
- **Deactivation escalation stage** (`checkDeactivationWarnings`). It scans the active users of the exclusive and legacy tiers. A failed scan returns with no effects. A user whose balance lookup returns no data is skipped. Each balance is classified top-down against 500000, 450000 and 400000:
  - at or above 500000, the user's `account_status` is written to `auto_deactivated`, and an `account_deactivated` notice follows only if that write succeeded;
  - at or above 450000, a `deactivation_warning_final` notice;
  - at or above 400000, a `deactivation_warning` notice;
  - below 400000, nothing.

  The counter `warningsIssued` counts the successful inserts.

The database is replaced by in-memory state. `Store.Database` holds the `users` table as a map from user id to account and membership status, and the `notification_queue` table as a sequence of records. The answer to every external call is passed in as an input:

- the two list queries are `Fetch` values (an error, or the rows);
- per fetched row, a reply record gives the balance lookup, the status update's outcome and the insert's outcome.

The two loops are methods whose postconditions give the new tables independently of the loop:

- the queue gains `Delivered(attempts)`, the records of the attempts whose insert succeeded, in order;
- the users map becomes `Deactivate(users, ids)`, where `ids` is the set of scanned users whose status write succeeded.

The lemmas prove the properties of the job about these functions.

Files: `records.dfy` (entities), `store.dfy` (tables and the algebra of insert attempts), `penalty_notifications.dfy`, `escalation.dfy`, `orchestrator.dfy`.

## Model

| member | source | states |
|---|---|---|
| `Records.InScope` | supabase/functions/calculate-penalties/index.ts:234-235 | defines the escalation scan's filter: status `active` and tier exclusive or legacy |
| `Store.Delivered` | supabase/functions/calculate-penalties/index.ts:292-311 | the queue gains at most one record per insert attempt |
| `Store.Landed` | supabase/functions/calculate-penalties/index.ts:203-211 | defines the effect of one insert attempt: its record when the insert returned no error, nothing otherwise |
| `Store.Deactivate` | supabase/functions/calculate-penalties/index.ts:266-272 | the status write keeps every key and membership, sets `auto_deactivated` for the written ids, and leaves every other entry unchanged |
| `Store.Database.Insert` | supabase/functions/calculate-penalties/index.ts:203-206 | one insert attempt with no retry: the record is appended exactly when the store accepts it, and users are unchanged |
| `Store.Database.MarkAutoDeactivated` | supabase/functions/calculate-penalties/index.ts:266-272 | the update touches only the row with that id, and only when it succeeds; the queue is unchanged |
| `Store.DeliveredAppend` | supabase/functions/calculate-penalties/index.ts:178-217 | attempts are independent: the records of a concatenation of attempts are the concatenation of their records |
| `Store.DeliveredAt` | supabase/functions/calculate-penalties/index.ts:207-211 | a successful insert lands at the position given by the successes before it, whatever happened to every other attempt |
| `Store.DeliveredFrom` | supabase/functions/calculate-penalties/index.ts:207-211 | every queued record comes from a successful insert attempt |
| `Store.DeliveredAllSucceed` | supabase/functions/calculate-penalties/index.ts:178-211 | if every insert succeeds, the queue gains exactly the attempted records, in order |
| `Store.DeliveredSplit` | supabase/functions/calculate-penalties/index.ts:178-217 | the records split around any one attempt into before, its own, and after |
| `Store.DeliveredFailureIsolated` | supabase/functions/calculate-penalties/index.ts:207-216 | a failed insert drops exactly its own record and keeps all the others in order |
| `Store.DeliveredOneFailure` | supabase/functions/calculate-penalties/index.ts:308-311 | when every attempt inserts and exactly one insert fails, every other record lands in attempt order, one record fewer than the number of attempts |
| `PenaltyNotifications.DisplayedBalance` | supabase/functions/calculate-penalties/index.ts:184 | a present, non-zero total balance is shown; a missing row, a missing total or a total of 0 shows the penalty's amount |
| `PenaltyNotifications.PenaltyNotice` | supabase/functions/calculate-penalties/index.ts:187-201 | the notice is type `penalty_incurred`, title `Penalty Applied`, status `pending`; its payload holds penalty id, amount, balance, date incurred and `open_payment_screen` |
| `PenaltyNotifications.PenaltyAttempts` | supabase/functions/calculate-penalties/index.ts:178-206 | defines the stage's insert attempts: one per fetched penalty, in fetch order, each the penalty's notice with its displayed balance and the insert's outcome |
| `PenaltyNotifications.StageAttempts` | supabase/functions/calculate-penalties/index.ts:165-168 | defines the penalty stage's attempts: none when the penalties query fails, `PenaltyAttempts` of the fetched rows otherwise |
| `PenaltyNotifications.SendPenaltyNotifications` | supabase/functions/calculate-penalties/index.ts:145-220 | a failed query rethrows with no effects; otherwise the queue gains the delivered penalty notices; users are unchanged |
| `PenaltyNotifications.ZeroBalanceFallsBack` | supabase/functions/calculate-penalties/index.ts:184 | a looked-up total of 0 is falsy, so the notice shows the penalty amount |
| `PenaltyNotifications.NothingFetchedNothingQueued` | supabase/functions/calculate-penalties/index.ts:165-173 | a failed or empty penalties query inserts nothing |
| `PenaltyNotifications.OneAttemptPerPenalty` | supabase/functions/calculate-penalties/index.ts:178-206 | exactly one insert attempt per fetched penalty, in fetch order, for that penalty's id and owner |
| `PenaltyNotifications.PenaltyNoticeLands` | supabase/functions/calculate-penalties/index.ts:178-217 | a penalty whose insert succeeds is queued, in fetch order among the successes, whatever the other penalties' outcomes |
| `PenaltyNotifications.PenaltyQueueShape` | supabase/functions/calculate-penalties/index.ts:187-205 | every queued record is the pending `penalty_incurred` notice of a fetched penalty whose insert succeeded |
| `PenaltyNotifications.AllInsertsSucceed` | supabase/functions/calculate-penalties/index.ts:178-211 | if every insert succeeds, there is one notice per penalty, in fetch order |
| `PenaltyNotifications.PenaltyFailureIsolated` | supabase/functions/calculate-penalties/index.ts:203-216 | a failed insert for one penalty drops only that penalty's notice; earlier and later notices are unchanged |
| `Escalation.Classify` | supabase/functions/calculate-penalties/index.ts:262-288 | the four bands partition the balances, with each threshold in the higher band |
| `Escalation.ClassifyBoundaries` | supabase/functions/calculate-penalties/index.ts:226-228 | 399999 gives no action, 400000 and 449999 a warning, 450000 and 499999 the final warning, 500000 deactivation |
| `Escalation.ClassifyMonotone` | supabase/functions/calculate-penalties/index.ts:262-288 | a larger balance never gets a milder band |
| `Escalation.EscalationNotice` | supabase/functions/calculate-penalties/index.ts:292-306 | status `pending`; title `Account Deactivated` if and only if the type is `account_deactivated`, and `Payment Warning` otherwise; payload holds the balance, threshold 500000 and `open_payment_screen` |
| `Escalation.WarningBody` | supabase/functions/calculate-penalties/index.ts:276-287 | defines the message of each escalation type: the deactivation text, the final-warning text, or the warning text, each stating the balance |
| `Escalation.WriteSucceeds` | supabase/functions/calculate-penalties/index.ts:262-274 | defines a successful status write: a known balance in the deactivation band and an update that returned no error |
| `Escalation.EscalationAttempt` | supabase/functions/calculate-penalties/index.ts:254-306 | a scanned user gets an insert attempt exactly when the balance is known, in a warning or deactivation band, and, for deactivation, the write succeeded; the attempt is for that user with the insert's outcome; the payload carries the looked-up total balance; the type is `account_deactivated` exactly when the write succeeded, `deactivation_warning_final` in the final-warning band and `deactivation_warning` in the warning band |
| `Escalation.EscalationAttempts` | supabase/functions/calculate-penalties/index.ts:248-317 | defines the stage's insert attempts: `EscalationAttempt` of each scanned user, in scan order |
| `Escalation.DeactivatedIds` | supabase/functions/calculate-penalties/index.ts:262-274 | defines the set of scanned users for which `WriteSucceeds` holds |
| `Escalation.StageAttempts` | supabase/functions/calculate-penalties/index.ts:237-240 | defines the escalation stage's attempts: none when the users scan fails, `EscalationAttempts` of the scanned users otherwise |
| `Escalation.StageDeactivated` | supabase/functions/calculate-penalties/index.ts:237-240 | defines the stage's deactivated users: none when the users scan fails, `DeactivatedIds` of the scanned users otherwise |
| `Escalation.CheckUser` | supabase/functions/calculate-penalties/index.ts:249-316 | for one user, the status write happens only on a successful deactivation; the queue gains that user's attempt if its insert succeeds; the result says whether a record was queued |
| `Escalation.CheckDeactivationWarnings` | supabase/functions/calculate-penalties/index.ts:225-324 | for a scan read with the tier and status filter, users become `Deactivate` of the ids whose write succeeded, and every entry that changes was active in tier exclusive or legacy and becomes `auto_deactivated` with its membership kept; the queue gains the delivered notices; `warningsIssued` equals the number of successful inserts; a failed scan changes nothing |
| `Escalation.StageChangesOnlyInScope` | supabase/functions/calculate-penalties/index.ts:231-272 | under a scan read with the tier and status filter, the stage's writes change only in-scope entries, and only to `auto_deactivated` |
| `Escalation.NoticeFrom` | supabase/functions/calculate-penalties/index.ts:291-311 | every queued escalation record is the successful insert of some scanned user's notice |
| `Escalation.EscalationQueueShape` | supabase/functions/calculate-penalties/index.ts:276-306 | every queued escalation record is pending, with the title rule and payload above, the message its type calls for stating the payload balance, of the type its payload balance's band calls for, and comes from a scanned user whose insert succeeded and whose looked-up total is that payload balance |
| `Escalation.EscalationNoticeLands` | supabase/functions/calculate-penalties/index.ts:262-311 | a scanned user whose looked-up balance calls for a notice, and whose write (for a deactivation) and insert succeed, is queued in scan order among the notified users, with the looked-up balance in the payload and `account_deactivated`, `deactivation_warning_final` or `deactivation_warning` by band |
| `Escalation.DeactivationNoticeIff` | supabase/functions/calculate-penalties/index.ts:262-277 | a user gets an `account_deactivated` notice if and only if their status write and then the insert both succeeded |
| `Escalation.NoOrphanDeactivationNotice` | supabase/functions/calculate-penalties/index.ts:274-277 | every `account_deactivated` notice is for a user whose entry the stage left `auto_deactivated` |
| `Escalation.StatusChangeScope` | supabase/functions/calculate-penalties/index.ts:231-235 | the only status change is from active (in tier exclusive or legacy) to `auto_deactivated`, for scanned users; membership never changes and every other entry is unchanged |
| `Escalation.UserWithoutEffect` | supabase/functions/calculate-penalties/index.ts:254 | a user with no balance data, or whose deactivation write failed, leaves no trace: the outcome equals that of the scan without them |
| `Escalation.WithoutUserQueue` | supabase/functions/calculate-penalties/index.ts:290-291 | a user for whom nothing is inserted contributes nothing to the queue |
| `Escalation.WithoutUserDeactivated` | supabase/functions/calculate-penalties/index.ts:274-277 | a user whose write did not succeed contributes nothing to the deactivated set |
| `Escalation.SecondRunSkipsDeactivated` | supabase/functions/calculate-penalties/index.ts:234 | in a second run, a user deactivated by the first is not scanned, not written and not notified |
| `Escalation.OneFailedInsertCounted` | supabase/functions/calculate-penalties/index.ts:308-311 | among users who all call for a notice, one failed insert leaves every other user's notice queued, in scan order, and the counter one below the number of users |
| `Orchestrator.Computed` | supabase/functions/calculate-penalties/index.ts:72-79 | defines a usable calculation answer: no error and a non-null result |
| `Orchestrator.RunsPenaltyStage` | supabase/functions/calculate-penalties/index.ts:84 | defines the penalty stage's gate: `success` and a positive `penalties_created` |
| `Orchestrator.RunsEscalationStage` | supabase/functions/calculate-penalties/index.ts:98 | defines the escalation stage's gate: `success` alone |
| `Orchestrator.PenaltyPart` | supabase/functions/calculate-penalties/index.ts:84-94 | defines the run's penalty-stage attempts: the stage's attempts when the calculation is usable and the penalty gate is open, none otherwise |
| `Orchestrator.EscalationPart` | supabase/functions/calculate-penalties/index.ts:98-105 | defines the run's escalation-stage attempts: the stage's attempts when the calculation is usable and `success` holds, none otherwise |
| `Orchestrator.DeactivatedPart` | supabase/functions/calculate-penalties/index.ts:98-105 | defines the run's deactivated users under the same gate as `EscalationPart` |
| `Orchestrator.Respond` | supabase/functions/calculate-penalties/index.ts:111-138 | success with status 200 and the result passed through if and only if the calculation returned a result without error; otherwise status 500 with the error's message or the no-result message |
| `Orchestrator.Serve` | supabase/functions/calculate-penalties/index.ts:66-138 | the response is `Respond` of the calculation reply alone; the tables change exactly by the gated stages' effects, penalty stage first; for a scan read with the tier and status filter, every changed user entry was in scope and becomes `auto_deactivated` |
| `Orchestrator.Gating` | supabase/functions/calculate-penalties/index.ts:84 | the penalty stage runs only if the escalation stage runs; a zero or missing `penalties_created` skips it; an unsuccessful result runs neither |
| `Orchestrator.FatalRunHasNoEffects` | supabase/functions/calculate-penalties/index.ts:72-79 | a calculation error or a null result runs no stage and gives status 500 |
| `Orchestrator.UnsuccessfulResultReportedAsSuccess` | supabase/functions/calculate-penalties/index.ts:98-122 | a returned result with `success: false` runs no stage and is still reported as success with status 200 |
| `Orchestrator.StagesIndependent` | supabase/functions/calculate-penalties/index.ts:87-105 | a consequence of the definitions: a failed penalty query contributes nothing, and the escalation stage's effects and the success response take no penalty-stage input |

## Left out

- HTTP and startup plumbing: the OPTIONS preflight, CORS headers, the environment-variable check and client creation. None of it has logic to verify.
- The calculation procedure `calculate_daily_penalties_with_logging` is opaque; its answer is the `CalcReply` input.
- The balance procedure `get_user_penalty_balance` is opaque; its answer is part of each reply record.
- Query builders are modelled only by their effect on the two tables, with the store's answer given as an input. The penalties query's date filter and inner join, and the users query's filter, are not computed. Their results are inputs. `Escalation.ScanSound` states only that every listed user passes the filter; the model does not state that every user passing it is listed.
- A throw inside a loop iteration is caught and ends that iteration. It is modelled by the reply whose effect is the same: in the penalty stage a throw at the balance lookup or the insert is `insertOk == false` (nothing is queued for that penalty); in the escalation stage a throw at the balance lookup is `NoBalance`, at the status update `updateOk == false`, and at the insert `insertOk == false`.
- Timestamps (`created_at`, `updated_at`, the response's `timestamp`), because they are nondeterministic.
- Message text: `toLocaleString` formatting depends on the locale, so `body` is kept as the kind of message and the numbers it states.
- Logging, including the user names from the penalties join and the users scan, which are read only for log lines. Both queries also fetch the e-mail address and push token, which the job never reads.
- Async execution: the loops are modelled as sequential, as the code runs them.
- Balances and amounts are integers. Fractional JavaScript numbers are not modelled.
- `date_processed!` is passed to the penalties query without a check. Because the query's result is an input, the model does not capture what happens when the date is missing.
- Escalation.NoOrphanDeactivationNotice: assumes the scan lists only existing ids. An update whose `eq('id', …)` matches no row reports no error, so for such an id a notice would follow without any row changing.
- Escalation.StatusChangeScope: assumes the scan is sound (`ScanSound`), meaning it lists only users that the tier and status filter admit. The code itself does not re-check the filter before the update.
- Escalation.CheckDeactivationWarnings and Orchestrator.Serve: require the user scan to be sound (`ScanSound` over the users table the stage starts from). The code reads the scan from that same table with that filter, and the model does not compute the filter, so it takes the query's guarantee as a precondition.
- Escalation.SecondRunSkipsDeactivated: covers only users whose write succeeded in the first run. A user whose write failed may still be deactivated by the second run.
- The thresholds 400000, 450000 and 500000 are fixed constants in the code, and the model keeps them as constants.
- An `account_deactivated` notice needs both the status write and its own insert to succeed. `Escalation.DeactivationNoticeIff` states both conditions.
