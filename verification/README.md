# CallCaster, modelled and proved

CallCaster is a dialling and SMS campaign platform. This project models the parts of it whose correctness
is hard to see by reading, in Dafny, and proves what they do for every input, every run or every
interleaving. `dafny verify dfyconfig.toml` checks everything.

## What is modelled

| Modules | Part of the system |
|---|---|
| `QueueRows`, `QueueEvents`, `QueueDb`, `AutoDial`, `TurnOutcomes`, `QueueHead`, `DialProtocol`, `OptOuts`, `TurnSteps` | The dial queue: the `campaign_queue` table with the SQL functions run on it, the data layer that writes rows and emits realtime events, one dialer turn, how it ends and what it leaves, what becomes of the head of the queue over turns, and all turns of all agents interleaved with sweeps, releases and STOP requests, with what an opt-out guarantees there |
| `Prelude`, `Text`, `CsvPrinter`, `CsvParser`, `CsvLineRoundTrip`, `CsvRecordRoundTrip`, `CsvExports` | The CSV printer (section 2 of RFC 4180) and the hand-written parser |
| `SendWindow`, `StoredWindow`, `Projection` | Weekly send windows as stored and as read, the presets, quiet hours, and the projected end of a campaign |
| `Sums`, `Attempts`, `Tally`, `Shifts`, `ShiftReport`, `WorkspaceReport`, `ReportFigures` | Workspace analytics: shifts merged from call attempts, per-user totals, and every figure told from the attempts |
| `DeepEqual`, `DeepEqualTrees`, `DeepEqualCycles` | Memoised deep equality over a heap of shared objects, with and without cycles |
| `SmsDispatch`, `SmsBatch`, `SmsChain` | One SMS batch with concurrent members, any sequence of batches, and the worker's chain of bounded batches |
| `Upload`, `UploadRun`, `Households` | Audience upload: phone dedupe, the chunked import and its interruptions, the household plan |
| `Keyset` | Cursor pages over the audit log |
| `Decimal`, `BillingKeys`, `Ledger`, `Reconciliation` | Idempotency keys, the credit ledger of all workspaces under repeated callbacks, the ledger report on a period |
| `NextContact`, `MediaNames` | Contact rotation; safe and free names for uploaded audio |

State that the source updates in place is a class (`QueueDb.QueueDb`, `SmsDispatch.SmsDb`,
`UploadRun.UploadDb`, `Ledger.LedgerDb`, `DeepEqual.SeenMap`); each of its methods is proved against a
function of the old state, and the theorems are about those functions. Loops of the source are loops
here. Outcomes of calls the model cannot see (carrier, conference, preparation, database writes of the
SMS path) are inputs, so every statement holds for all of them; a create call may be answered, refused, or
accepted with its answer lost. Clocks are parameters; times are integer milliseconds.

Concurrency is modelled twice for the dialer. `AutoDial` verifies the turn as a method that lets others act
ahead of every call it makes on the queue, inside the claim loop too, as far as the rely condition
`AutoDial.Rely` allows. Three calls read before they write and are run as one: the guarded dequeue after a dial
with the snapshot for its events, and the requeue and the dequeue by id with the SELECT of the old rows ahead of
their UPDATE. `DialProtocol` is a step system of all turns together; a STOP sets its flag and dequeues in one
step there. `OthersMeetRely` shows that the steps of others keep the rely condition, and
`TurnSteps.SerialTurnIsRun` that a turn's own writes are steps. The ghost flag `alone` switches interference
off, which is how the exact effect of a serial turn is stated; `TurnOutcomes` tells that effect row by row.

Figures, words and column lists that decide what is called, sent, charged or counted are stated twice: once in
the model, where the source has them, and once more, written out, in lemmas that do not use the model's own
constants and predicates (`..InFigures`, `..InFull`, `..Exactly`).

## Where the code does not do what its documentation says

The model follows the code. Each point is a lemma.

- A contact outside its calling hours blocks the contacts behind it: a released row keeps its place, the
  next claim returns the same row, and the turn ends after two claims, although
  `app/lib/auto-dial.server.ts:231-236` takes a repeated row to mean that every claimable contact is
  out of window (`AutoDial.ClosedHeadBlocksTheQueue`, `AutoDial.TurnPlacesCallExactly`).
- A release does not give the attempt back. After any out-of-window turns, a turn inside the window calls
  the head of the queue exactly when they charged it fewer than five attempts, two each; else it fails the
  contact uncalled (`QueueHead.ReleasedHeadCalledExactly`). A lone contact, never called, then completes the
  campaign (`AutoDial.OutOfWindowContactIsLost`).
- The stale-claim sweep emits no events, so a client's copy of the queue goes out of step exactly when a
  sweep changes a row (`QueueEvents.SweepMirrorsExactly`).
- The guarded UPDATE has no `dequeued_at` test and the snapshot taken before it has one; they agree on
  every row exactly when no finished row still looks claimable or held, which all modelled writers keep
  (`QueueRows.SnapshotMatchesGuardExactly`, `QueueRows.WritersKeepShape`).
- A sweep that takes a claim whose turn is alive lets the row be called twice
  (`DialProtocol.ReclaimHarmlessExactly`).
- The slow bound of the completion estimate can come out before the average when the 366-day lookahead
  ends between them (`Projection.SlowBeforeAverageExactly`): with 3120 contacts at one a second and a window of
  one minute on Mondays the average is a year ahead and the slow bound an hour
  (`Projection.SlowBeforeAverageHappens`).
- "The duplicate gate keeps retries single-send" (`app/lib/worker/handlers/campaign.server.ts:272-274`): a
  retry sends again exactly when the first send did not get as far as the stored message, whether or not the
  carrier took the text (`SmsBatch.RetryTextsAgainExactly`, `SmsBatch.TextedTwiceExactly`).
- A text accepted with its answer lost is created again by `withTwilioRetry`, so one send may text up to
  three times; it texts once exactly when no answer was lost (`SmsDispatch.OneTextExactly`).
- "Remaining work rolls to a successor" (`app/lib/worker/handlers/campaign.server.ts:158`): if the database
  returns the queue in one order, which the query does not ask for
  (`app/lib/campaign-queue-search.server.ts:256`), a chain of bounded batches reaches a row behind the first
  batch exactly when, at a batch before the last, a member of the first one is inside its hours and is barred,
  or had a message, or had one stored by an earlier batch that could not dequeue it, or gets its calls through
  (`SmsChain.BehindReachedExactly`, `SmsChain.RunChain`). Members that stay deferred or are sent to in vain hold
  up the rest (`SmsChain.HeldUpNeverReaches`, `SmsChain.RefusedHoldsUp`).
- `queuedRemaining` counts a failed member whose row was nevertheless dequeued
  (`SmsBatch.DispatchCampaignSmsBatch` gives the exact difference).
- Without a phone column a rerun of a stopped upload imports its first rows again
  (`UploadRun.PhonelessRerunExactly`). The recorded size of the audience is what the last run imported; it is
  the size exactly when the audience was empty before (`UploadRun.UploadDb.ProcessUpload`).
- A welcome grant is documented as a credit and not a purchase (`shared/billing-keys.ts:70`); the reconciliation
  report counts every credit as a purchase, whatever its key (`Reconciliation.PurchaseTotal`).
- A call that has an old-style voice key is charged again exactly when it has no current key
  (`Ledger.LegacyCallChargedAgainExactly`).
- "Deep equality check with cycle detection" (`app/lib/deep-equal.ts:1-3`): an answer is right on every graph,
  but the comparisons of a value with its equals all end exactly when it is on no cycle and leads to none
  (`DeepEqualCycles.EndsExactly`).

## Model

| member | source | states |
|---|---|---|
| `QueueRows.ClaimExists` | client/migrations/20260803130000_claim_next_queue_contact_attempt_count.sql:20-76 | A claim comes back empty exactly when nothing is claimable, and otherwise the row it takes is forced by queue order and id |
| `QueueRows.DequeueContactChanges` | client/migrations/20260815130000_dequeue_contact_returns_rows_affected.sql:56-126 | The two UPDATEs of the guarded dequeue together change exactly the guarded rows of the contact, or of its household, once each |
| `QueueRows.GuardedDequeueFrame` | app/lib/campaign-queue-db.server.ts:502-524 | A late guarded dequeue never changes a row another agent holds nor one outside the household; with fan-out nothing of the household stays claimable |
| `QueueRows.WritersKeepShape` | app/lib/queue-status.ts:318-350 | Every transition, claim and sweep keeps finished rows without a holder and out of the claimable states |
| `QueueRows.SnapshotMatchesGuardExactly` | app/lib/db-rpc.server.ts:283-312 | The snapshot before the RPC and the RPC's own guard pick the same rows for all callers exactly when the row is not finished while looking claimable or held |
| `QueueRows.ClaimPicksFirst` | client/migrations/20260803130000_claim_next_queue_contact_attempt_count.sql:31-44 | The row handed out, column by column, comes first by order, rows without one last, and by id; nothing is handed out exactly when no row waits |
| `QueueRows.ReleaseUndoesClaim` | app/lib/queue-status.ts:318-350 | Claim and release leave a waiting row as it was, but for the attempts charged and the claim time |
| `QueueRows.TransitionsInFull` | app/lib/queue-status.ts:318-340 | Which columns each named transition writes |
| `QueueRows.FailedBySweepUnsigned` | app/lib/queue-status.ts:307-309 | Only finished rows say who dequeued them, so a row the sweep fails carries nobody's name |
| `QueueRows.GuardedDequeueInFull` | client/migrations/20260815130000_dequeue_contact_returns_rows_affected.sql:56-126 | Whose rows the guarded dequeue takes, in which states, and every column it writes |
| `QueueRows.SweepInFigures` | scripts/schema-transform/03a-rewrite-queue-rpcs.sql:38-99 | Row by row: five attempts fail a row, a claim over 600,000 ms old goes back, every other row stays; and which claims are counted |
| `QueueRows.ClaimSweptExactly` | scripts/schema-transform/03a-rewrite-queue-rpcs.sql:84-94 | A live claim with fewer than five attempts goes back exactly when it is more than ten minutes old, without holder or claim time |
| `QueueRows.SweepSettles` | scripts/schema-transform/03a-rewrite-queue-rpcs.sql:68-99 | A second sweep at once changes nothing |
| `QueueRows.PendingInFigures` | scripts/schema-transform/03a-rewrite-queue-rpcs.sql:19-33 | Work is pending exactly while a live row waits or is held, with attempts left, by a claim of ten minutes at most |
| `QueueEvents.FoldAppend` | app/lib/campaign-queue-db.server.ts:29-53 | Folding two event lists one after the other is folding their concatenation, on every channel |
| `QueueEvents.ReportsMirror` | app/lib/campaign-queue-db.server.ts:29-45 | UPDATE events for exactly the changed rows, in any order, bring every client from the old table to the new |
| `QueueEvents.ReportsDeletesMirror` | app/lib/campaign-queue-db.server.ts:47-53 | The same for DELETE events |
| `QueueEvents.RunMirrors` | app/lib/campaign-queue-db.server.ts:55-92 | Mirrored writes compose: a client folding all their events holds the table |
| `QueueEvents.SilentWriteMirrorsExactly` | app/lib/campaign-queue-db.server.ts:55-77 | A write without events keeps clients right exactly when it changes nothing |
| `QueueEvents.SweepMirrorsExactly` | scripts/schema-transform/03a-rewrite-queue-rpcs.sql:38-99 | The sweep keeps clients right exactly when no row is stale or exhausted |
| `QueueDb.ClaimHandsOutFirst` | app/lib/campaign-queue-db.server.ts:108-157 | What the claim loop does to each row: the one handed out, opted-out ones dequeued, all others untouched |
| `QueueDb.ClaimHoldings` | app/lib/campaign-queue-db.server.ts:108-157 | After the claim loop the user holds what it held and the row handed out, nothing else |
| `QueueDb.ClaimEmpty` | app/lib/campaign-queue-db.server.ts:108-157 | An empty-handed claim means nothing claimable was left or the bound of opted-out skips was hit |
| `QueueDb.RpcPhotograph` | app/lib/db-rpc.server.ts:255-312 | On a shaped table the snapshot holds exactly the rows the guarded dequeue changes |
| `QueueDb.ExplanationUnknownExactly` | app/lib/campaign-queue-db.server.ts:640-678 | After a no-op the explanation is "unknown" exactly for stray rows; never when undequeued rows are queued, null or assigned to someone |
| `QueueDb.ExplanationExactly` | app/lib/campaign-queue-db.server.ts:640-678 | When each of the other three explanations is given, by what the contact's rows look like |
| `QueueDb.QueueDb.EmitUpdates` | app/lib/campaign-queue-db.server.ts:29-45 | One event for every given row, with its new and old columns |
| `QueueDb.QueueDb.EmitDeletes` | app/lib/campaign-queue-db.server.ts:47-53 | One DELETE event for every deleted row |
| `QueueDb.QueueDb.UpdateAndEmit` | app/lib/campaign-queue-db.server.ts:59-77 | The table is the old one with the matching rows updated; with the workspace given the events mirror it |
| `QueueDb.QueueDb.DeleteAndEmit` | app/lib/campaign-queue-db.server.ts:82-92 | The same for deletion |
| `QueueDb.QueueDb.DeleteByIds` | app/lib/campaign-queue-db.server.ts:191-203 | Exactly the given rows of the workspace go, and clients follow |
| `QueueDb.QueueDb.RequeueById` | app/lib/campaign-queue-db.server.ts:310-321 | The one row, if it is there and in the workspace, is freed of holder and dequeue and keeps its attempts; no other changes, and clients follow |
| `QueueDb.QueueDb.DequeueById` | app/lib/campaign-queue-db.server.ts:329-345 | The one row, if it is there and in the workspace, is dequeued with actor, time and reason; no other changes, and clients follow |
| `QueueDb.QueueDb.ClaimRpc` | client/migrations/20260803130000_claim_next_queue_contact_attempt_count.sql:20-76 | Whatever rows others have locked: the row handed out is the next claimable one not locked, and it alone changes, in six columns |
| `QueueDb.QueueDb.ClaimAttempt` | app/lib/campaign-queue-db.server.ts:113-155 | One round: the next claimable row, dequeued at once, with the reason, if its contact opted out; clients follow |
| `QueueDb.QueueDb.ClaimNextQueueContact` | app/lib/campaign-queue-db.server.ts:108-157 | At most ten claims, the state of the specified loop; empty-handed only with nothing left to claim or after ten opted-out rows; clients follow |
| `QueueDb.QueueDb.HouseholdSet` | app/lib/db-rpc.server.ts:255-281 | The contact and everybody of its household in the workspace |
| `QueueDb.QueueDb.DequeueContactRpc` | app/lib/db-rpc.server.ts:245-351 | The guarded dequeue with its row count, and clients follow because the snapshot misses nothing |
| `QueueDb.QueueDb.DequeueQueueEntry` | app/lib/campaign-queue-db.server.ts:580-620 | Which of the three mechanisms runs, what each changes, whether the target row was dequeued, and the missing-workspace error |
| `QueueDb.QueueDb.ReleaseAssignedQueueForUser` | app/lib/campaign-queue-db.server.ts:680-724 | Exactly the user's live claims of the campaign, in the workspace if one is given, return to the queue; clients follow unless rows of several workspaces go without one |
| `QueueDb.QueueDb.SweepStaleClaims` | scripts/schema-transform/03a-rewrite-queue-rpcs.sql:68-99 | In figures, row by row: what fails, what returns to the queue, and that everything else stays; the count is that of the claims given back |
| `QueueDb.QueueDb.TryCompleteIfDrained` | client/migrations/20260813120000_drop_campaign_is_active.sql:17-38 | The campaign completes exactly when no row waits and no claim of ten minutes at most with attempts left is held, from running or waiting only |
| `QueueDb.QueueDb.RunOp` | app/lib/campaign-queue-db.server.ts:55-92 | Each claim, requeue, delete, release and dequeue, by any of the three mechanisms, is mirrored by its events |
| `QueueDb.QueueDb.RunOps` | app/lib/campaign-queue-db.server.ts:29-92 | After any sequence of them a client that folds the emitted events holds exactly the table |
| `AutoDial.RunAutoDialerTurn` | app/lib/auto-dial.server.ts:190-424 | Under any interference that keeps the rely condition, ahead of every database call: the turn ends holding no claim it did not hold, places at most one call, leaves a row it called finished and nothing of the household to claim, asks at most 25 times and completes a campaign only when nothing is pending; alone, its whole effect is the specified serial turn |
| `AutoDial.ClaimRound` | app/lib/campaign-queue-db.server.ts:113-155 | One round under interference: the user gains at most the row it got, and none if its contact opted out; alone, it is the specified round |
| `AutoDial.ClaimContact` | app/lib/campaign-queue-db.server.ts:108-157 | The claim loop under interference: at most ten rounds, and the user gains at most the row handed out; alone, it is the specified loop |
| `AutoDial.SkipClosedContacts` | app/lib/auto-dial.server.ts:237-259 | The window-skip loop ends, holds at most the contact it returns, and that contact is inside its window; it gives up on an empty claim, a repeated row or 25 released rows |
| `AutoDial.DialContact` | app/lib/auto-dial.server.ts:261-354 | Whatever prep and carrier do, the claim is gone afterwards; a possibly-live call leaves its row dequeued, a placed one no row of the household to claim |
| `AutoDial.ReleasedRowIsClaimedAgain` | app/lib/campaign-queue-db.server.ts:310-321 | The claim after a release returns the row just released |
| `AutoDial.ClosedHeadEndsTurn` | app/lib/auto-dial.server.ts:240-259 | An out-of-window first contact makes the loop end after one more claim of the same row |
| `AutoDial.ClosedHeadBlocksTheQueue` | app/lib/auto-dial.server.ts:231-259 | Then nobody is called, even if another claimable contact is inside its window |
| `AutoDial.TurnPlacesCallExactly` | app/lib/auto-dial.server.ts:239-354 | A serial turn calls exactly when its first claimed contact is in window, prep succeeds and the carrier does not reject |
| `TurnOutcomes.TurnEndsExactly` | app/lib/auto-dial.server.ts:190-424 | How a serial turn ends, whom it calls and how often it asks, from the request's answers and the first contact's number |
| `TurnOutcomes.TurnCompletesExactly` | app/lib/auto-dial.server.ts:390-412 | A serial turn completes the campaign exactly when it drained and left no row waiting and no young claim with attempts left |
| `TurnOutcomes.CalledTurnClosesHousehold` | app/lib/auto-dial.server.ts:347-354 | After a call no row of the contact or its household is left to claim in the workspace, the called row says who and why, and rows of others and of other holders are as the claims left them |
| `TurnOutcomes.AmbiguousTurnParksContact` | app/lib/auto-dial.server.ts:314-344 | After an ambiguous dial the contact's own rows are out of the queue, with the reason, and no row of anybody else differs from what the claims left |
| `TurnOutcomes.FailedDialFreesRow` | app/lib/auto-dial.server.ts:261-313 | After a failed prep or a rejected dial the claimed row alone goes back, freed of everything but its attempts |
| `TurnOutcomes.IdleTurnLeavesClaims` | app/lib/auto-dial.server.ts:388-418 | A stopped turn leaves the table alone, one with nobody to dial leaves it as its claims did |
| `TurnOutcomes.ClaimsTouch` | app/lib/auto-dial.server.ts:231-259 | What the claims of a turn do to each row of the swept table |
| `AutoDial.OutOfWindowReleaseNeverCompletes` | app/lib/auto-dial.server.ts:396-405 | A turn that released anybody never completes the campaign |
| `AutoDial.ClosedTurnChargesTwo` | client/migrations/20260803130000_claim_next_queue_contact_attempt_count.sql:52-71 | An out-of-window turn costs its contact two attempts |
| `AutoDial.ExhaustedTurnFailsRow` | scripts/schema-transform/03a-rewrite-queue-rpcs.sql:38-66 | At five attempts the next turn fails the row and completes the campaign |
| `AutoDial.OutOfWindowContactIsLost` | app/lib/auto-dial.server.ts:214-259 | A lone contact whose attempts are used up by out-of-window turns ends failed, never called, and the campaign complete |
| `QueueHead.ClosedTurnKeepsHead` | app/lib/auto-dial.server.ts:240-259 | An out-of-window turn calls nobody, costs the head of any queue two attempts and leaves it at the head |
| `QueueHead.ReleasedHeadCalledExactly` | app/lib/auto-dial.server.ts:231-259 | After any out-of-window turns a turn inside the window calls the head of any queue exactly when fewer than five attempts are used, else it fails it uncalled |
| `QueueHead.FirstWhileClosed` | client/migrations/20260803130000_claim_next_queue_contact_attempt_count.sql:52-71 | Whatever else the queue holds, a row that stays first and out of window costs two attempts a turn and nobody is called |
| `DialProtocol.RunKeepsInv` | app/lib/auto-dial.server.ts:231-354 | Every interleaving of claims, releases, dials, write-backs, dying turns, sweeps, releases and STOPs keeps: one live turn a row, every turn on its row, every call on a finished row or one about to be |
| `DialProtocol.AtMostOneLiveCall` | app/lib/auto-dial.server.ts:291-354 | In every run each row gets at most one possibly-live call, and a called row whose turn is over is dequeued |
| `DialProtocol.ReturnsToQueueWithoutCall` | app/lib/auto-dial.server.ts:279-313 | A row returns to the queue only by a release, a definite rejection, a dead turn's sweep or a manual release, and never with a call placed |
| `DialProtocol.ReleaseFreesClaims` | app/lib/campaign-queue-db.server.ts:680-724 | The step of a manual release frees exactly the user's live claims of the campaign |
| `DialProtocol.OthersMeetRely` | app/lib/campaign-queue-db.server.ts:502-524 | Every step of anyone else keeps the condition the turn relies on |
| `TurnSteps.SerialTurnIsRun` | app/lib/auto-dial.server.ts:214-405 | A serial turn is an allowed run of the step system: same table, same calls, no turn left over |
| `DialProtocol.StolenRowIsCalledTwice` | app/lib/db-rpc.server.ts:129-148 | If a sweep takes the claim of a live turn, some run calls the row twice |
| `DialProtocol.ReclaimHarmlessExactly` | app/lib/db-rpc.server.ts:129-148 | Taking a claim keeps the row safe in all runs exactly when no live turn stands on it |
| `OptOuts.StoppedNeverCalled` | app/lib/campaign-queue-db.server.ts:133-150 | In no run is a call placed for a row whose contact was stopped before the live turn's opt-out guard |
| `OptOuts.StoppedCalledExactly` | app/lib/campaign-queue-db.server.ts:133-150 | Some run still calls a stopped contact exactly when a turn is past its guard with the row |
| `OptOuts.StopCameAfterGuard` | app/lib/auto-dial.server.ts:261-300 | Of every run that comes to dial a stopped contact: the turn's guard saw it not stopped, and the STOP is a later step |
| `OptOuts.StopEndsRows` | app/routes/api+/inbound-sms.action.server.ts:176-194 | A STOP takes every row of the contact in the workspace out of the queue, whoever holds it, and no other |
| `Text.TrimChangesExactly` | shared/audience-upload.ts:71-103 | Trimming changes exactly untrimmed strings and shortens them |
| `Text.TrimmedCharacters` | shared/audience-upload.ts:97-103 | The 25 characters trimming takes off |
| `Text.TrimPadded` | shared/audience-upload.ts:97-103 | White space put around a trimmed text comes off again |
| `Text.LowersLetters` | shared/workspace-analytics.ts:127-137 | The 26 capitals have their small letters, and no other character changes |
| `CsvPrinter.JoinTerminates` | app/lib/csv.ts:85-104 | Joining the lines and ending with the separator is ending every line with it |
| `CsvPrinter.ToCsvString` | app/lib/csv.ts:70-104 | The loop's text is the specified text of header and rows |
| `CsvPrinter.ProtectedCell` | app/lib/csv.ts:32-39 | A protected cell never begins with =, +, - or @ behind its blanks, and only a cell that did gets a quote |
| `CsvExports.TextInFull` | app/lib/csv.ts:70-104 | Mark, unprotected header line with the labels if there is one for each column, and the records, every line ended |
| `CsvExports.RowInFull` | app/lib/csv.ts:63-68 | Cells stand a comma apart |
| `CsvExports.CellInFull` | app/lib/csv.ts:55-61 | A cell is put in quotes exactly if it holds a quote, a comma or half of a line break |
| `CsvExports.DoubledOneByOne` | app/lib/csv.ts:55-61 | Inside, quotes are doubled and nothing else changes |
| `CsvParser.ParseCsvLine` | shared/audience-upload.ts:71-103 | The index loop with its quote flag computes the specified scan of the line, for every string |
| `CsvParser.SplitLines` | shared/audience-upload.ts:106-135 | The outer loop computes the specified scan of lines, for every text |
| `CsvParser.FitValues` | shared/audience-upload.ts:146-150 | Short lines are padded and long ones cut to the number of headers |
| `CsvParser.ParseCsvRecords` | shared/audience-upload.ts:106-160 | The records are those of the specified scans, blank lines dropped |
| `CsvExports.BareLinesReadBack` | shared/audience-upload.ts:106-135 | Any lines without quotes come back as they were with either ending, lone carriage returns in them, the last one unended, and only an empty last line is dropped |
| `CsvExports.RecordKeys` | shared/audience-upload.ts:152-156 | A record's columns are the trimmed header names |
| `CsvExports.RecordValue` | shared/audience-upload.ts:146-156 | Its values are the trimmed ones of each name's last column, empty where the line is short |
| `CsvExports.CleanFieldExactly` | shared/audience-upload.ts:97-103 | One pair of quotes around a trimmed field goes; a lone quote is the field |
| `CsvLineRoundTrip.ScanQuoted` | shared/audience-upload.ts:71-97 | What greedy quote pairing makes of a quoted cell: the cell, or one quote more if it is all quotes |
| `CsvLineRoundTrip.ParsedRow` | shared/audience-upload.ts:71-103 | What is read back from any printed line, cell by cell |
| `CsvLineRoundTrip.LineRoundTripExactly` | app/lib/csv.ts:41-68 | Printing and parsing a line gives the cells back exactly when the list is not empty and every cell is trimmed and not wrapped in quotes |
| `CsvLineRoundTrip.ProtectedLineRoundTripExactly` | app/lib/csv.ts:32-61 | With injection protection on, surviving cells come back exactly when none reads as a formula |
| `CsvRecordRoundTrip.LinesOfText` | shared/audience-upload.ts:106-135 | The line scan undoes the printer's line endings, with line breaks and commas inside quotes |
| `CsvRecordRoundTrip.BlankLineExactly` | shared/audience-upload.ts:143-145 | A printed record is dropped as blank exactly when it is one empty cell |
| `CsvRecordRoundTrip.BomIsInvisible` | app/lib/csv.ts:3-4 | A byte-order mark ahead of the header changes nothing for the reader |
| `CsvRecordRoundTrip.RecordRoundTripExactly` | app/lib/csv.ts:70-104 | For distinct headers and trimmed quote-free cells, printing and parsing gives the rows back exactly when no record prints as a blank line; two or more columns always do |
| `CsvExports.UnendedTextReadsAlike` | shared/audience-upload.ts:135-135 | The printed text without its last line ending reads as the same records, and so comes back exactly when the whole text does |
| `CsvExports.ExportReadsBack` | app/lib/csv.ts:70-104 | An export with the default options reads back row by row with its formula-like cells protected |
| `SendWindow.ParseSendWindow` | app/lib/campaign-send-window.ts:116-162 | The loop over days keeps the valid intervals and gives nothing when no day is active |
| `SendWindow.ParseSendWindowIdempotent` | app/lib/campaign-send-window.ts:111-162 | Parsing a parsed window changes nothing |
| `SendWindow.WithinParsedExactly` | app/lib/campaign-send-window.ts:189-216 | The in-window test holds at an instant exactly when it lies in the weekly union of intervals, overnight ones running on and equal ends a full day |
| `SendWindow.WithinExactly` | app/lib/campaign-send-window.ts:183-216 | For any stored value: that, or no restriction when no day is active |
| `SendWindow.SendWindowQuietHoursOverlap` | app/lib/campaign-send-window.ts:222-238 | The reported days are exactly those with an interval touching quiet hours |
| `SendWindow.TouchesQuietExactly` | app/lib/campaign-send-window.ts:218-238 | An interval touches quiet hours exactly when it covers an instant in 21:00-08:00 |
| `SendWindow.QuietOverlapExactly` | app/lib/campaign-send-window.ts:218-238 | An overlap is reported exactly when some instant is in the window and in 21:00-08:00 |
| `StoredWindow.ClockTextReads` | app/lib/campaign-send-window.ts:92-109 | Every time of day, its hour in one digit or two and white space around it or not, is read as its minutes |
| `StoredWindow.OnlyClockTextsRead` | app/lib/campaign-send-window.ts:92-109 | And nothing else is read as a time |
| `StoredWindow.ParsedExactly` | app/lib/campaign-send-window.ts:116-162 | A stored value is a window exactly if some day is active and has an entry with two times |
| `StoredWindow.StoredWindowExactly` | app/lib/campaign-send-window.ts:183-216 | Messages go out exactly when nothing stored counts or a stored entry is open, told from its clock texts |
| `StoredWindow.BusinessHoursExactly` | app/lib/campaign-send-window.ts:61-65 | The business-hours preset is open from nine to five, Monday to Friday, and at no other instant |
| `StoredWindow.QuietInFigures` | app/lib/campaign-send-window.ts:44-46 | Quiet hours are from 21:00 to 08:00 |
| `StoredWindow.PresetsKeepQuietHours` | app/lib/campaign-send-window.ts:67-76 | Neither preset trips the quiet-hours check, nor lets a message out in quiet hours |
| `Projection.ConsumeDay` | app/lib/campaign-outbound-estimate.ts:140-158 | One day of the walk takes off the part of each slot that lies after now, or stops at the instant at which the need is met |
| `Projection.WalkEndExactly` | app/lib/campaign-outbound-estimate.ts:122-163 | For any list of slots: the one instant at which their time, taken in order, reaches what is needed, or the continuous projection if it never does |
| `Projection.ProjectThroughSendWindow` | app/lib/campaign-outbound-estimate.ts:122-163 | For every window, overlapping and overnight intervals included, the result is that instant for the slots of 366 days, each day's by start |
| `Projection.ApartWalkIsExact` | app/lib/campaign-outbound-estimate.ts:122-163 | If no two intervals of the week overlap, overnight ones included, exactly the needed time opened on the lookahead's days lies before the finish, which ends an open instant |
| `Projection.WalkMissesTail` | app/lib/campaign-outbound-estimate.ts:115-121 | What the walk does not see of the window is what runs on overnight from the day before, and nothing else |
| `Projection.TidyWalkProjects` | app/lib/campaign-outbound-estimate.ts:122-163 | If all intervals end by midnight it is exact for the window itself |
| `Projection.FinishMonotone` | app/lib/campaign-outbound-estimate.ts:165-197 | There is one finish, and more work never finishes earlier |
| `Projection.SlowBeforeAverageExactly` | app/lib/campaign-outbound-estimate.ts:159-197 | When only the slow bound exceeds the lookahead it comes out before the average exactly when the window is open too little in its continuous time |
| `Projection.SlowBeforeAverageHappens` | app/lib/campaign-outbound-estimate.ts:171-197 | With Mondays 10:00-10:01, now at the closing edge and 3120 contacts at one a second, the average is 52 weeks ahead and the slow bound 62.4 minutes |
| `Projection.OrderedWhenReached` | app/lib/campaign-outbound-estimate.ts:165-197 | fast, average and slow are in order when slow is reached |
| `Projection.AllDayIsContinuous` | app/lib/campaign-outbound-estimate.ts:122-163 | 00:00-00:00 on every day gives exactly the continuous projection |
| `Projection.EstimateOutboundCompletion` | app/lib/campaign-outbound-estimate.ts:171-197 | No estimate without queue or rate; else the three walks for 80%, 100% and 120% of the work, whatever the window |
| `Projection.EstimateInOrder` | app/lib/campaign-outbound-estimate.ts:165-197 | The estimate's dates are in order when slow is reached, and an always-open window changes nothing |
| `Projection.ActiveTimeInFigures` | app/lib/campaign-outbound-estimate.ts:171-197 | The active time is the sends over the rate in whole milliseconds, and the bounds are 80% and 120% of it |
| `Projection.LookaheadInFigures` | app/lib/campaign-outbound-estimate.ts:122-163 | The walk looks at 366 calendar days |
| `Attempts.EndNotBeforeStart` | shared/workspace-analytics.ts:219-225 | An attempt ends no earlier than it starts unless its recorded end does |
| `Attempts.LatestEndIsLatest` | shared/workspace-analytics.ts:152-161 | Without an end of its own an attempt ends with the last of its calls that has one |
| `Attempts.DialingWithinInterface` | shared/workspace-analytics.ts:163-172 | Ringing time is within interface time when the answer is not after the end |
| `ReportFigures.ConnectedExactly` | shared/workspace-analytics.ts:122-137 | When an attempt is connected: answered, a disposition that is none of eight words, or a completed call of three seconds |
| `ReportFigures.AttemptInFigures` | shared/workspace-analytics.ts:139-179 | Its ringing, talking and interface time from its instants and calls, rounded to the nearest second |
| `ReportFigures.AttemptOver` | shared/workspace-analytics.ts:219-225 | Where an attempt starts and ends for the merge |
| `ReportFigures.SummaryInFigures` | shared/workspace-analytics.ts:315-323 | Each of the five totals of the summary is its figure's sum over the attempts with a user |
| `ReportFigures.ConnectsInFigures` | shared/workspace-analytics.ts:315-323 | The summary's connects are the number of attempts with a user that are connected, told from their columns |
| `ReportFigures.UserInFigures` | shared/workspace-analytics.ts:325-341 | Each of the five totals of a user's row is its figure's sum over that user's attempts |
| `Tally.SumsToWhole` | shared/workspace-analytics.ts:315-347 | Over any list naming each user once the per-user totals add up to the whole |
| `Shifts.MergeMakesShifts` | shared/workspace-analytics.ts:206-274 | The merge of attempts in order of start meets the state-free specification: a shift for every opening time, with the latest end, dials and connects of the attempts up to the next |
| `Shifts.ShiftsDetermined` | shared/workspace-analytics.ts:190-281 | That specification has one answer, whatever the order of the attempts |
| `Shifts.ShiftsSeparated` | shared/workspace-analytics.ts:190-229 | Shifts of one user lie more than 300,000 ms apart |
| `Shifts.ShiftOpensExactly` | shared/workspace-analytics.ts:227-257 | An attempt opens a shift exactly if it starts more than 300,000 ms after the end of every attempt that starts before it |
| `Shifts.EntryInShift` | shared/workspace-analytics.ts:227-257 | A shift starts and ends with attempts, and no attempt in it ends later |
| `ShiftReport.UserShiftsAreShifts` | shared/workspace-analytics.ts:206-274 | A user's shifts meet the specification on exactly that user's attempts |
| `ShiftReport.UserShiftsIgnoreOrder` | shared/workspace-analytics.ts:206-209 | A user's shifts do not depend on the order of the attempts |
| `ShiftReport.MergeConserves` | shared/workspace-analytics.ts:219-256 | A merge counts every attempt and every connect once |
| `ShiftReport.GroupByUser` | shared/workspace-analytics.ts:196-202 | The first loop's lists are each user's attempts in order, keyed by first appearance |
| `ShiftReport.MergeUser` | shared/workspace-analytics.ts:211-273 | The loop with its open shift computes the numbered merge |
| `ShiftReport.BuildShifts` | shared/workspace-analytics.ts:192-281 | The rows are the specified shift table, latest start first |
| `ShiftReport.TableConserves` | shared/workspace-analytics.ts:190-281 | The shift table's dials and connects sum to the report's totals |
| `ShiftReport.TableIgnoresOrder` | shared/workspace-analytics.ts:276-281 | If the collation tells users apart the whole table is independent of the order of the attempts |
| `ReportFigures.TableInFigures` | shared/workspace-analytics.ts:230-274 | The table's rows are the shifts of every user with an attempt, numbered from one, with name and rounded seconds, and no others |
| `ReportFigures.TableInOrder` | shared/workspace-analytics.ts:276-281 | The latest start comes first, ties in the order of the users |
| `WorkspaceReport.UserTableConserves` | shared/workspace-analytics.ts:343-347 | The user table adds up to the summary |
| `ReportFigures.UsersInOrder` | shared/workspace-analytics.ts:343-347 | Users are listed by falling number of dials |
| `ReportFigures.NamedLast` | shared/workspace-analytics.ts:291-303 | A user goes by the name last given |
| `WorkspaceReport.AddAttempts` | shared/workspace-analytics.ts:315-341 | One pass gives the summary of all attempts with a user and each user's own totals |
| `WorkspaceReport.BuildWorkspaceAnalytics` | shared/workspace-analytics.ts:283-357 | The report: summary, a row for exactly those who dialled sorted by dials, the shift table, its count and its seconds |
| `DeepEqual.SameKeys` | app/lib/deep-equal.ts:46-58 | Equally many keys and every key of one in the other is the same set of keys |
| `DeepEqual.Equal` | app/lib/deep-equal.ts:4-59 | On any graph, with the memo threaded through and updated in place, the recursion computes the specified comparison for every stack depth |
| `DeepEqual.YesIsJustified` | app/lib/deep-equal.ts:43-59 | A yes leaves a set of compared pairs that justify one another |
| `DeepEqual.NoIsRight` | app/lib/deep-equal.ts:10-59 | A no is right, whatever the memo holds |
| `DeepEqual.AnswerIsRight` | app/lib/deep-equal.ts:1-59 | On any graph, with or without cycles, an answer says whether the two unfoldings are the same |
| `DeepEqual.FiniteEnds` | app/lib/deep-equal.ts:4-59 | A comparison whose first value is less deep than the stack ends, whatever the second and the memo |
| `DeepEqual.DeepEqual` | app/lib/deep-equal.ts:4-9 | Called with a fresh memo an answer is equality of the unfoldings, and there is one whenever the stack is deeper than the first value |
| `DeepEqualTrees.AlikeIsTreeEquality` | app/lib/deep-equal.ts:4-59 | On finite values equality of unfoldings is equality of their trees |
| `DeepEqualCycles.NeverEnds` | app/lib/deep-equal.ts:43-44 | A value on or above a cycle never gets through a comparison with a layered copy of it: the memo remembers the wrong copy each time |
| `DeepEqualCycles.EndsExactly` | app/lib/deep-equal.ts:1-3 | The comparisons of a value with its equals all end exactly when it is on no cycle and leads to none |
| `DeepEqualCycles.SelfLoopsEnd` | app/lib/deep-equal.ts:43-44 | Two objects that each hold themselves are found equal |
| `SmsDispatch.WithTwilioRetry` | app/lib/twilio-client.server.ts:36-68 | At most three calls, another only after a retryable error: the texts taken and whether the send was answered |
| `SmsDispatch.AnswerTakesText` | app/lib/twilio-client.server.ts:36-68 | An answered send took a text, and no send takes more than its calls |
| `SmsDispatch.OneTextExactly` | app/lib/twilio-client.server.ts:36-68 | An answered send took one text exactly when no answer was lost on the way |
| `SmsDispatch.SendInFigures` | app/lib/twilio-client.server.ts:36-68 | Which of three calls are made, what each takes, and when the send is answered |
| `SmsDispatch.OutcomeExactly` | app/lib/campaign-sms-dispatch.server.ts:171-290 | How a member's handling ends and whether its row leaves, from its data and the results of its calls |
| `SmsDispatch.StepKeepsAccount` | app/lib/campaign-sms-dispatch.server.ts:171-290 | Every step of every member in every order keeps texts, stored messages and queued rows accounted for |
| `SmsDispatch.StepKeepsSight` | app/lib/campaign-sms-send.server.ts:50-61 | With distinct phones in the slice every member sees what the slice started with |
| `SmsDispatch.SmsDb.Advance` | app/lib/campaign-sms-send.server.ts:67-135 | One member up to its next await: gates, duplicate count, send, attempt update, store, dequeue |
| `SmsDispatch.SmsDb.RunSlice` | app/lib/campaign-sms-dispatch.server.ts:170-291 | Any interleaving of a slice ends, and its result is accounted for |
| `SmsBatch.PhoneOfMember` | app/lib/campaign-sms-dispatch.server.ts:232-290 | In a finished slice of distinct phones a member's phone gains its send's texts and its message, if it proceeded, and nothing else |
| `SmsBatch.SliceCleanExactly` | app/lib/campaign-sms-dispatch.server.ts:232-252 | A slice of distinct phones leaves every text on record and no phone with two exactly when each member sent to took no text or one whose message was stored |
| `SmsBatch.SliceKeepsClean` | app/lib/campaign-sms-dispatch.server.ts:232-252 | So a slice whose sends keep their texts leaves the tables clean |
| `SmsBatch.TextedAtMostOnce` | app/lib/campaign-sms-send.server.ts:50-61 | Over any sequence of batches a phone gets at most one text of the campaign |
| `SmsBatch.BarredNeverTexted` | app/lib/campaign-sms-dispatch.server.ts:175-230 | Opted-out, incapable and out-of-hours members are never texted |
| `SmsBatch.DeferredChangeNothing` | app/lib/campaign-sms-dispatch.server.ts:175-190 | Members outside their hours leave rows, messages and texts as they are |
| `SmsBatch.RetryTextsAgainExactly` | app/lib/worker/handlers/campaign.server.ts:272-279 | For members of any two slices of distinct phones: the second sends exactly when the first's message was not stored, and the texts add up |
| `SmsBatch.TextedTwiceExactly` | app/lib/worker/handlers/campaign.server.ts:272-279 | After an answered retry the phone has one text at most exactly when the first send was stored with one, or took none and the retry one |
| `SmsBatch.EqualPhonesTextTwice` | app/lib/campaign-sms-dispatch.server.ts:169-172 | Two answered members of a slice with one phone both pass the duplicate gate and text at least twice |
| `SmsBatch.OutcomesAddUp` | app/lib/campaign-sms-dispatch.server.ts:166-167 | The four counts add up to the members, and the rows gone to sent, dequeued and failed-but-gone |
| `SmsBatch.FinishedConcat` | app/lib/campaign-sms-dispatch.server.ts:169-172 | Slices one after the other come to what one slice of all their members comes to |
| `SmsBatch.SendSlices` | app/lib/campaign-sms-dispatch.server.ts:169-292 | The loop over slices handles every member once, in order, with texts, messages and rows accounted for over the whole batch |
| `SmsBatch.GatesExactly` | app/lib/campaign-sms-dispatch.server.ts:104-139 | Which requests pass the gates, and at which one the others end |
| `SmsBatch.BoundExactly` | app/lib/campaign-sms-dispatch.server.ts:141-168 | How many members a bound lets a batch take |
| `SmsBatch.DispatchCampaignSmsBatch` | app/lib/campaign-sms-dispatch.server.ts:74-301 | The gates in order, the stored send window among them; else counts of each outcome adding up to the rows processed, responses in order, and queuedRemaining equal to the rows still queued and the failed members whose row is gone |
| `SmsChain.BehindReachedExactly` | app/lib/worker/handlers/campaign.server.ts:244-292 | With rows in one order and phones distinct, told from members, windows, fates and opening messages: a chain of bounded batches takes a row behind the first batch's exactly when one is there and, before the last batch, a member of the first is inside its hours and barred, had a message, had one stored but not dequeued, or gets its calls through |
| `SmsChain.HeldUpNeverReaches` | app/lib/worker/handlers/campaign.server.ts:158-159 | First members that are at every batch outside their hours or sent to in vain keep every chain from the rest |
| `SmsChain.RefusedHoldsUp` | app/lib/worker/handlers/campaign.server.ts:158-159 | For one: two members, batches of one, and a carrier that refuses the first each time |
| `SmsChain.LeavingReachesBehind` | app/lib/worker/handlers/campaign.server.ts:244-292 | If some of the first rows leave, the next batch takes the row behind them |
| `SmsChain.RunTick` | app/lib/worker/handlers/campaign.server.ts:244-292 | One batch on the database takes the first rows waiting; with phones distinct the rows that leave are exactly those of members it took that are inside their hours and opted out, incapable or on record, or whose calls get as far as the dequeue, and exactly the sent and stored ones gain a message |
| `SmsChain.RunChain` | app/lib/worker/handlers/campaign.server.ts:244-292 | The worker's batches on the database are such a chain, and reach behind the first batch in exactly that case |
| `Upload.DedupedPhones` | app/lib/audience-upload-process.server.ts:101-125 | Dedupe lets through every phone of the file that is not in the audience, once |
| `Upload.DedupeKeepsUnparsed` | app/lib/audience-upload-process.server.ts:99-125 | It keeps every row that does not parse, and kept and dropped add up |
| `Upload.DedupeParsedContacts` | app/lib/audience-upload-process.server.ts:101-125 | The filter with its growing set computes the specified dedupe and its count |
| `Upload.RunGrows` | app/lib/audience-upload-process.server.ts:325-358 | A run stopped anywhere adds new phones of the file only, each once |
| `Upload.UploadConverges` | app/lib/audience-upload-process.server.ts:316-528 | After any stopped runs and one full run the audience has its old phones and all of the file's, each new one linked once |
| `Upload.RerunAddsNothing` | app/lib/audience-upload-process.server.ts:325-334 | A further run adds nothing |
| `UploadRun.MapChunk` | app/lib/audience-upload-process.server.ts:360-427 | A chunk's rows are its valid phones, and valid and invalid add up |
| `UploadRun.CutInFigures` | shared/audience-upload.ts:18-18 | Chunks are of forty rows |
| `UploadRun.UploadDb.ListAudiencePhones` | app/lib/audience-upload-db.server.ts:89-113 | Exactly the parseable phones of the linked contacts |
| `UploadRun.UploadDb.ImportChunk` | app/lib/audience-upload-process.server.ts:439-518 | The chunk's contacts are inserted and, unless cut off in between, linked |
| `UploadRun.UploadDb.ImportChunks` | app/lib/audience-upload-process.server.ts:356-560 | The chunks concatenate to the deduped rows as far as the run went |
| `UploadRun.UploadDb.ProcessUpload` | app/lib/audience-upload-process.server.ts:265-590 | A run cut off anywhere: what is linked, the totals written, in a full run imported plus invalid equals processed equals the deduped total, and the recorded audience size is right exactly when the audience was empty |
| `UploadRun.UploadDb.UploadUntilDone` | app/lib/audience-upload-process.server.ts:316-560 | Stopped runs and a full one converge on the database itself |
| `UploadRun.PhonelessRerunExactly` | app/lib/audience-upload-process.server.ts:106-108 | Without a phone column a rerun links each row once exactly when the stopped run linked none |
| `Households.ChunkHouseholdPlan` | app/lib/audience-upload-process.server.ts:151-178 | A key for every row, one entry for each distinct key, from the first row that has it, in order |
| `Households.BlanksAreMissing` | app/lib/audience-upload-process.server.ts:151-178 | Blank parts of an address count as missing, others are kept as they are, and an empty key is none |
| `Keyset.PageSize` | app/lib/audit-event.server.ts:133-139 | The page size is 50 when none is asked, 100 when more is asked, and as asked in between |
| `Keyset.QueryLists` | app/lib/audit-event.server.ts:146-164 | A query returns exactly the rows below the cursor, newest first, each once |
| `Keyset.OrderInFigures` | app/lib/audit-event.server.ts:146-164 | Newest first and by falling id, all below the cursor, in figures |
| `Keyset.ListingUnique` | app/lib/audit-event.server.ts:163-163 | A listing in that order is determined by its rows |
| `Keyset.BelowIsRest` | app/lib/audit-event.server.ts:147-157 | What lies below a listed row is the rest of the listing, whatever was added above |
| `Keyset.ListWorkspaceAuditEvents` | app/lib/audit-event.server.ts:141-174 | A page is the first rows of the query and has a cursor exactly when more follow |
| `Keyset.PagesComplete` | app/lib/audit-event.server.ts:133-174 | Following the cursor to the end gives the whole listing, nothing skipped or repeated, for any page sizes and any inserts above the cursor |
| `Keyset.PagesEnd` | app/lib/audit-event.server.ts:167-173 | There are never more pages than rows |
| `Decimal.DecimalInjective` | shared/billing-keys.ts:58-60 | Different numbers read differently |
| `Decimal.DecimalReads` | shared/billing-keys.ts:58-60 | A number's text stands for it, without a zero ahead |
| `BillingKeys.FamiliesNeverCollide` | shared/billing-keys.ts:18-98 | No key belongs to two families |
| `BillingKeys.BucketFollowsFamily` | shared/billing-keys.ts:106-129 | The classifier puts every built key in its family's bucket, blanks around it or not |
| `BillingKeys.BuildersClassified` | shared/billing-keys.ts:29-129 | The classifier reads the right bucket off every builder's key, as built and as stored |
| `BillingKeys.BucketOfStranger` | shared/billing-keys.ts:106-129 | A key of no family falls into the rest |
| `BillingKeys.KeysSpelled` | shared/billing-keys.ts:18-98 | How every builder spells its key |
| `BillingKeys.OtherExactly` | shared/billing-keys.ts:106-129 | A key is in the rest exactly if it begins with none of nine prefixes |
| `BillingKeys.CallKeyInjective` | shared/billing-keys.ts:33-43 | Different sids have different keys |
| `BillingKeys.CallKeyIsNotLegacy` | shared/billing-keys.ts:45-52 | The key of a colon-free sid is no old-style key |
| `BillingKeys.RentalCycleKeyInjective` | shared/billing-keys.ts:58-60 | A rental key tells number and cycle |
| `BillingKeys.CoachingKeyInjective` | shared/billing-keys.ts:92-98 | A coaching key tells call and event, for colon-free sids |
| `BillingKeys.PurchaseKeyInjective` | shared/billing-keys.ts:54-56 | A purchase key tells workspace and number |
| `Ledger.StartedMinutesCover` | shared/pricing.ts:116-119 | Started minutes are the seconds rounded up |
| `Ledger.RateCard` | shared/pricing.ts:121-136 | The first started minute costs 2 or 4 credits by kind, every further one 3 or 5 |
| `Ledger.LongerCostsMore` | shared/pricing.ts:121-136 | A longer call never costs less |
| `Ledger.LedgerDb.ApplyLedgerEntry` | client/migrations/20260711000000_money_columns_integer_and_ledger_hardening.sql:33-134 | A blank key and an unknown workspace are rejected; a key known in the workspace changes nothing; a new one adds the entry and moves that workspace's balance by it |
| `Ledger.LedgerDb.InsertTransactionHistoryIdempotent` | app/lib/transaction-history.server.ts:70-122 | The same for the key as the caller trims it |
| `Ledger.LedgerDb.BillTerminalCall` | app/lib/twilio-call-status.server.ts:148-196 | A terminal callback with a duration is delivered to its workspace's ledger, any other does nothing |
| `Ledger.LedgerDb.ProcessCallbacks` | app/lib/admin-jobs.server.ts:43-45 | Any run of callbacks of any workspaces leaves the specified ledger, and each balance lower by its own new calls' first charges |
| `Ledger.DeliveryInFigures` | app/lib/twilio-call-status.server.ts:148-196 | A delivery with a workspace, a duration and one of four terminal statuses leaves one debit at its key, a new one for the rate card's price; any other changes nothing |
| `Ledger.StripSplits` | client/migrations/20260711000000_money_columns_integer_and_ledger_hardening.sql:58-58 | The database's trim takes off all spaces around a key and nothing else |
| `Ledger.OneCallOneCharge` | shared/billing-keys.ts:33-43 | Whatever is delivered in whatever order, a call has one entry in its workspace, for its first billable delivery there, even if later ones name another kind |
| `Ledger.EntriesAtPlace` | client/migrations/20260711000000_money_columns_integer_and_ledger_hardening.sql:86-86 | A key has at most one entry in a workspace |
| `Ledger.SidsApart` | shared/billing-keys.ts:41-43 | Stored keys agree exactly when the sids do, for sids without white space at the end |
| `Ledger.RedeliveryChangesNothing` | app/lib/admin-jobs.server.ts:43-45 | Delivering again changes nothing |
| `Ledger.LegacyCallChargedAgainExactly` | shared/billing-keys.ts:45-52 | In any ledger a call with an old-style entry is charged once more exactly when it has no entry under the current key, which is never an old-style one |
| `Ledger.LegacyCallPaysTwice` | shared/billing-keys.ts:45-52 | Under either old-style key the call is paid for twice |
| `Ledger.NewPlacesExactly` | shared/billing-keys.ts:33-43 | The entries a run adds are those of the billable calls without one, each once |
| `Ledger.RunAddsFirstDeliveries` | shared/pricing.ts:121-141 | Any figure read off the entries grows by what the first deliveries bring |
| `Ledger.BalanceAfterRun` | shared/pricing.ts:138-141 | A workspace's balance falls by each of its new calls' first-delivered charge, and by nothing of others |
| `Reconciliation.SummarizeLedger` | shared/billing-reconciliation.ts:144-168 | Every bucket has its entries' number and credits |
| `Reconciliation.BucketsConserve` | shared/billing-reconciliation.ts:144-168 | All buckets together hold every counted entry and every credit once |
| `Reconciliation.DebitTotal` | shared/billing-reconciliation.ts:236-241 | The report's debits are all debits but those with a payment's key |
| `Reconciliation.PurchaseTotal` | shared/billing-reconciliation.ts:118-168 | The report's purchases are all credits, whatever their keys, and the debits with a payment's key |
| `Reconciliation.UnrecognizedTotal` | shared/billing-reconciliation.ts:118-168 | The unrecognized entries are the debits whose key begins with none of nine prefixes |
| `Reconciliation.FilterLedgerRowsInPeriod` | shared/billing-reconciliation.ts:132-142 | Exactly the rows of the period's days are kept, in order |
| `Reconciliation.HeldByDay` | shared/billing-reconciliation.ts:132-142 | A row is in a period exactly if its day is one of the period's |
| `Reconciliation.BuildBillingReconciliationReport` | shared/billing-reconciliation.ts:170-243 | The report's debits, purchases and unrecognized entries are those of the period |
| `Reconciliation.PeriodsAddUp` | shared/billing-reconciliation.ts:132-168 | Any figure of two adjoining periods adds up to that of both together |
| `Reconciliation.ReportBalancesExactly` | shared/billing-reconciliation.ts:236-242 | Purchases less debits are the change of the balance over the period exactly when no debit of the period has a payment's key |
| `Reconciliation.BuiltLedgerBalances` | shared/billing-reconciliation.ts:230-242 | So the report on any period balances for a ledger whose debits carry keys of builders that are no payment's, as all writers of debits do |
| `Reconciliation.RunKeepsBuilt` | app/lib/twilio-call-status.server.ts:187-192 | Billing calls keeps a ledger so |
| `Reconciliation.VoiceCreditsAreFirstCharges` | shared/billing-reconciliation.ts:118-168 | A workspace's voice credits grow over a run of callbacks of all workspaces by its own new calls' first charges |
| `NextContact.GetNextContact` | app/lib/getNextContact.js:1-48 | In each mode the scans compute the next dialable place going round, and nobody without inputs |
| `NextContact.NextInListExactly` | app/lib/getNextContact.js:27-45 | The next contact is the first with a phone behind the current one, going round, from the start if the current one is not listed |
| `NextContact.NextInHouseholdsExactly` | app/lib/getNextContact.js:9-26 | The same by households: the first member with a phone of the next household that has one |
| `NextContact.FlattenFromFirst` | app/lib/getNextContact.js:4-7 | In household order members keep their order and households follow one another |
| `NextContact.NobodyExactly` | app/lib/getNextContact.js:27-47 | Nobody is returned exactly when nobody in the list can be dialled |
| `NextContact.NobodyInHouseholdsExactly` | app/lib/getNextContact.js:9-26 | The same when households are skipped |
| `NextContact.WalkGoesRound` | app/lib/getNextContact.js:27-45 | Repeated turns go through the open places in order, round and round |
| `NextContact.RotationVisitsAll` | app/lib/getNextContact.js:27-45 | With distinct ids one round dials every dialable contact once and then comes back |
| `NextContact.HouseholdTurnIsWalk` | app/lib/getNextContact.js:9-26 | Skipping households, each turn goes to the first dialable member of the next household with one |
| `NextContact.HouseholdsTakeTurns` | app/lib/getNextContact.js:9-26 | One round calls every such household once, none twice, and the current one last; a household alone is called again at once |
| `MediaNames.GetSafeMediaBaseName` | app/lib/audio-upload.ts:43-71 | The stripping loop ends and gives the bare name, or the error when nothing is left |
| `MediaNames.AudioExtensionExactly` | app/lib/audio-upload.ts:43-71 | A name has an audio extension exactly if it ends, in any case, with one of nine |
| `MediaNames.BareIsClean` | app/lib/audio-upload.ts:49-64 | The bare name is trimmed, has no audio extension and is how the given name begins |
| `MediaNames.ExtensionComesOff` | app/lib/audio-upload.ts:49-64 | An extension put on a clean name comes off again, and nothing more |
| `MediaNames.SafeNameStays` | app/lib/audio-upload.ts:43-71 | A safe name is its own safe name |
| `MediaNames.TakenCandidatesBounded` | app/lib/audio-upload.ts:102-107 | Pigeonhole: taken candidates are no more than the taken names |
| `MediaNames.ResolveAvailableBaseName` | app/lib/audio-upload.ts:90-108 | The unbounded search ends; the name is free ignoring case, its suffix the least free one and at most the taken names plus one |

## Left out

- DialProtocol.AtMostOneLiveCall: writers outside the dialer (queue edits in the UI, re-adding or resetting a campaign, deleting rows) are not steps, and the write after a dial is taken to land.
- AutoDial.RunAutoDialerTurn: the rows of a campaign are assumed to be of the turn's workspace, which no constraint of the table says (`CampaignInWorkspace`); database writes succeed and one `now` serves the whole turn; the call row saved after the dial is not modelled, and a failure there is not an outcome; the order of events emitted under interference is not stated.
- AutoDial.DialContact: the call row saved after the dial is not modelled.
- OptOuts.StoppedNeverCalled: a re-subscription (START) is not a step, so a stopped contact stays stopped.
- QueueDb.QueueDb.ReleaseAssignedQueueForUser: the database does not fail, so its error result never comes.
- QueueDb.QueueDb.ClaimRpc: which rows others hold locked is an input; how locks are taken and dropped is not modelled.
- QueueEvents.ReportsMirror: the order of events within one write is any order; delivery is reliable and in order of the writes.
- QueueDb.QueueDb.DequeueQueueEntry: the plain dequeue by contact without a workspace is allowed but makes no promise about clients, as in the code.
- CsvRecordRoundTrip.RecordRoundTripExactly: cells with quotes are outside it, since the reader un-doubles quotes in the line scan and reads them again; cells are strings; a column headed `__proto__`, which a plain object drops, is kept by the map.
- CsvParser.ParseCsvRecords: the same for a header `__proto__`.
- CsvParser.ParseCsvLine: characters are whole, not UTF-16 code units.
- CsvPrinter.ToCsvString: cells are strings; how numbers, dates and nulls turn into text is not modelled.
- SendWindow.ParseSendWindow: the stored value is an object with days; its JSON text, and values that are no object, are not modelled.
- Projection.ProjectThroughSendWindow: times are whole milliseconds; for overlapping intervals it is what the walk counts, twice where they overlap.
- Projection.EstimateOutboundCompletion: rates are fractions, and the three amounts of work are cut to whole milliseconds.
- Attempts.LatestEndIsLatest: end times are instants; the source orders their texts, which is the same for times written in one format.
- ShiftReport.BuildShifts: the specification needs attempts that do not end more than the grace before they start; collation is a given ranking, and durations arrive as numbers.
- WorkspaceReport.BuildWorkspaceAnalytics: the order of users with equal dials is not stated.
- DeepEqual.DeepEqual: graphs of plain objects, arrays, dates and regular expressions; NaN, boxed primitives, functions and sparse arrays are not values of the model, and the stack is counted in calls.
- SmsDispatch.SmsDb.RunSlice: the dequeue of a barred member succeeds; line-type lookup and the recipient window are data of the member; the waits between the calls of one send are not steps.
- SmsBatch.TextedAtMostOnce: needs distinct phones within a slice and sends that keep their texts, which the code needs too (`EqualPhonesTextTwice`, `SliceCleanExactly`).
- SmsBatch.DispatchCampaignSmsBatch: templates, media and throughput settings are not modelled.
- SmsChain.RunChain: the audience is read in one order and nobody joins it while the chain runs. When batches run, and when the worker gives up after batches whose sends all fail, is not modelled: the plan is any list of batches.
- UploadRun.MapChunk: the other mapped columns are left out.
- UploadRun.UploadDb.ImportChunk: household stamping is left out of the chunk; `Households.ChunkHouseholdPlan` has its plan.
- UploadRun.UploadDb.ProcessUpload: mapping of the other columns, progress files and error statuses are not modelled, nor is an empty header name; a contact inserted but not linked stays in the workspace and is inserted again by the next run.
- Keyset.ListWorkspaceAuditEvents: cursors are pairs, not their base64 text, and page sizes are numbers.
- Ledger.LedgerDb.ApplyLedgerEntry: integer amounts do not overflow.
- Reconciliation.BuildBillingReconciliationReport: Twilio usage records and the entity audit are not modelled; dates are day numbers and creation times milliseconds.
- MediaNames.ResolveAvailableBaseName: lower-casing is any function that leaves an appended suffix apart.
- HTTP routes, authentication, React components, Twilio, Stripe, object storage and other vendor calls: only their outcomes enter.
- Redaction of audit metadata, campaign readiness, setup steps, presets and status labels: case lists whose claims would be their own definitions.
- Message templates, caller-id and Messaging Service resolution inside the SMS send: plain data handed on.
