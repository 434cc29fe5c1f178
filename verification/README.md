# Verified model of the backend's protocols

This project models the parts of the VPN shop backend whose guarantees span many calls, and proves them with
Dafny 4.11. `dafny verify dfyconfig.toml` verifies everything.

How the model is laid out:

* **Broadcast delivery.** `RecipientRows` gives each SQL statement on a recipient snapshot as one atomic function.
  `DeliveryMachine` is the step machine of one runner process that may crash at any await, and
  `DeliveryGuarantees` proves what every history of it keeps. `BroadcastRunner` is the imperative runner: it really
  loops, claims, sends, records and releases. It carries a ghost history that must replay on the step machine, so
  the machine's theorems hold of it. `SendSession` states what a session does without mentioning batches,
  `DeliveryLog` what it puts on the wire, `DeliveryWire` what crashes add to that, and `WireRate` how fast. `Telegram`, `Pacing`, `BroadcastRepository` and
  `BroadcastJobs` are the bot, the pacer, the tables and the task registry.
* **Payments.** `PaymentClaims` is the fenced lease over any interleaving of workers that may stop at any point.
  `PaymentStatus` is the status endpoint, which answers from a cached copy of the row. `Pricing` is the invoice arithmetic in whole kopecks with an explicit half-even rounding.
* **Analytics.** `RevenueForecast` is the least-squares forecast over real numbers.
* **Infrastructure.** `SyncJobs`, `CircuitBreaker`, `RateLimit` and `TimedCache` are stateful classes, each proved
  to follow a simple specification over its full history, under any schedule and any clock that does not go back.
  `SessionTokens` and `Base64Url` are the signed tokens.
* **Panel and inbounds.** `PanelInbounds` and `PanelListing` are the loops against a panel that may fail or lie.
  `ApprovedInbounds` is the ordered table of approved inbounds.

Code between two awaits is one step, one SQL statement is one step, and UUIDs are values not used before. Calls to
Telegram, the panel and the clock are functions given as parameters, so every theorem holds for all their answers.

## Where the code and what is written about it differ

The model follows the code. In each case below a lemma gives the exact condition, or a concrete input, or both.

* The broadcast runner declares a broadcast done as soon as a claim returns nothing. With a batch size of 0
  (`LIMIT 0`) that happens at once, with the queue untouched (`ClaimEndsIff`, `ZeroBatchDeclaresDone`). The
  repository builds its runner with the default size of 25 and never passes another.
* `claim` promises that even two processes never take the same person twice. That holds exactly as long as nobody
  releases the claim, and a second runner releases it when it starts (`ClaimedAgainIffReleased`,
  `SecondRunnerTakesSameRecipient`).
* The done-callback of an ended broadcast task forgets a newer task of the same broadcast if one was started before
  the callback ran; each broadcast has at most one task if and only if that never happens (`OneRunnerPerBroadcast`,
  `LateCallbackForgetsNewTask`). The repository starts a broadcast once per process, right after creating it or in
  `resume`, and then it cannot happen (`OneStartIsEnough`).
* The status endpoint masks the cached copy of a payment, and a row it reads from the database is not written back to
  the cache. A client can be told "canceled" and then "pending" again. What clients see changes at most once if and
  only if no poll after a final answer is answered from a copy that is not final; for polls one after another and
  fresh copies, that holds in all histories if and only if the row that was read is written back
  (`ShownChangesOnceIff`, `ShownGoesBack`, `ChangesOnceIffWrittenBack`).
* `rate_limit` promises at most `times` requests per window for each name. Endpoints that share a name share a bucket,
  and a shorter window of one of them makes a longer one forget. `SharingIff` gives the exact condition,
  `ShorterWindowForgets` the run. In the repository no name has two different limits.
* The forecast comments say that index n lies in the future. Index 0 is the newest period, so index n lies in the
  past. The regression value is that of the next period if and only if the values have no tilt
  (`ExtrapolatesIntoThePast`), and revenue that grew in every period is forecast to fall below the newest period
  (`GrowthIsForecastToFall`, with `GrowingRevenueForecastFalls` as a witness).
* The comment in `_quote_payment` says that a promo code does not take the sum below the minimum payment. The volume
  discount that follows can (`PromoFloor`, `PromoFloorByDefault`, `PromoFloorBroken`).
* The breaker's documentation allows at most one call in half-open. The code checks only for open, so that depends on
  its callers. A half-open breaker never has two calls in `fn` if and only if calls never overlap
  (`HalfOpenHoldsOneIff`). At most one call enters per half-open phase if and only if, besides, one success closes it
  (`OneEntryPerPhaseIff`). Otherwise any number get in (`HalfOpenCrowd`); what bounds them is in `OverlapBound`.
* `list_clients_all` promises to raise when the panel breaks off. A page without a total makes it return the
  truncated list as complete (`PageWithoutTotal`, `TruncatedList`).
* `verify` documents its own error only. A signature part with a non-ASCII character makes a `TypeError` escape
  (`TypeErrorEscapesIff`, `TypeErrorToken`).
* `start_job` can still answer "unknown": exactly when a call of `sync_cache` that belongs to no job holds the flag
  and no job is registered as running (`RefusalNamesRunningJob`, `DirectCallRuns`). Outside its tests the repository
  has no such caller, and without one it never does (`NeverUnknown`).
* Sweeps of the cache never show in `get`, but they do in `keys` and `all_values`, which ignore the expiry times
  (`SweepShowsInKeys`).

## Model

| member | source | states |
|---|---|---|
| RecipientRows.ClaimTakesSmallestPending | services/broadcasts/repository.py:164-180 | a claim takes pending rows only, in ascending order, as many as the limit allows, and no pending row left behind has a smaller id |
| RecipientRows.ProgressAddsUp | services/broadcasts/repository.py:23-33 | the counters partition the snapshot: their sum is its size, for every mixture of statuses |
| RecipientRows.RecordCounts | services/broadcasts/repository.py:182-187 | a recorded result moves exactly one recipient from pending to the counter of that result |
| DeliveryMachine.StepSafe | services/broadcasts/runner.py:64-98 | every step of the runner, of an admin's cancel and of a crash keeps the invariant: exactly the unsettled part of the batch is in `sending`, and recorded rows never change |
| DeliveryMachine.RunSafe | services/broadcasts/runner.py:64-98 | the same over every history of batches, results, cancels, crashes and restarts, with the snapshot's members unchanged |
| DeliveryGuarantees.ProgressConserved | services/broadcasts/repository.py:23-33 | after any history the shown counters add up to the size of the snapshot at creation |
| DeliveryGuarantees.DoneMeansEveryoneRecorded | services/broadcasts/runner.py:86-88 | a broadcast that is done has a recorded result for every recipient, when the batch size is positive |
| DeliveryGuarantees.ClaimEndsIff | services/broadcasts/runner.py:86-88 | a claim ends a broadcast as done if and only if everyone is recorded or the batch size is 0 |
| DeliveryGuarantees.ZeroBatchDeclaresDone | services/broadcasts/runner.py:81-88 | with a batch size of 0 every fresh broadcast becomes done with all its recipients pending |
| DeliveryGuarantees.DeliveryCloses | services/broadcasts/runner.py:89-98 | a delivery happens only to a recipient that is open, and closes it |
| DeliveryGuarantees.ClosedStays | services/broadcasts/runner.py:89-98 | a closed recipient stays closed under every step but a crash |
| DeliveryGuarantees.DeliveriesBounded | services/broadcasts/runner.py:64-98 | over any history a recipient is sent to at most once more often than the runner crashed |
| DeliveryGuarantees.SecondSendNeedsCrash | services/broadcasts/runner.py:64-79 | between two sends to one recipient lies a crash, and the first result had not been recorded |
| DeliveryGuarantees.CancelStopsWithinOneBatch | services/broadcasts/runner.py:84-89 | after a cancel request only what is left of the batch in hand is still sent, or one batch if the status had been checked and the claim was yet to come; through any crashes and restarts |
| DeliveryGuarantees.FinishedIsFinal | services/broadcasts/runner.py:64-67 | once canceled, done or failed and not running, no history changes anything |
| SendSession.TrailingMeans | services/broadcasts/runner.py:95-96 | the failure streak has reached n exactly when the last n results, across batches, are all FAILED |
| SendSession.GoesOnMeans | services/broadcasts/runner.py:91-98 | a session goes on exactly while no token was refused and no `max_failures` results in a row, wherever they lie, were FAILED |
| SendSession.WholeQueueRecorded | services/broadcasts/runner.py:81-98 | a session that answered its whole queue without a stop has recorded everyone |
| SendSession.AnsweredAtIndex | services/broadcasts/repository.py:182-187 | recipient i of the ascending queue ends with result i and no other |
| SendSession.ReleaseInHand | services/broadcasts/repository.py:189-202 | releasing the rest of a batch restores the rows exactly, also when the rest is empty and the statement releases everything in `sending` |
| SendSession.ClaimInHand | services/broadcasts/runner.py:86-89 | claiming batch after batch walks the one ascending queue of the start, without gap or overlap |
| BroadcastRunner.BroadcastRunner.Try | services/broadcasts/runner.py:100-107 | at most max_attempts tries of the first request, at least one if there is a token; each but the last was refused with a delay, fewer than max_attempts end with a result that asks for no retry, and that result is returned |
| BroadcastRunner.BroadcastRunner.Deliver | services/broadcasts/runner.py:100-111 | the tries, the tries of the follow-up if and only if the album was accepted, then one pin if and only if the message was accepted, is to be pinned and has an id |
| BroadcastRunner.BroadcastRunner.SendOne | services/broadcasts/runner.py:89-98 | one recipient: the wire shows its delivery, its result is recorded unless the token was refused, and the session stops exactly for a refused token or a full streak |
| BroadcastRunner.BroadcastRunner.SendBatch | services/broadcasts/runner.py:89-98 | the loop over a batch extends the session's results in queue order and stops at the first reason to stop |
| BroadcastRunner.BroadcastRunner.HandleAnswer | services/broadcasts/runner.py:91-98 | what one answer does: a release of the rest, or the record and the streak |
| BroadcastRunner.BroadcastRunner.PacedSend | services/broadcasts/runner.py:103-104 | one slot of the message's cost for every `send`, and no more messages accepted in it than it pays for |
| BroadcastRunner.BroadcastRunner.AcceptedWithinRate | services/broadcasts/runner.py:20-35 | between any two slots of a runner Telegram accepts at most `rate` messages per second, follow-ups included, whatever it answers |
| WireRate.SendWithinCost | services/broadcasts/telegram.py:156-175 | a `send` with all its tries of the follow-up never has more messages accepted than its cost |
| BroadcastRunner.BroadcastRunner.SendAll | services/broadcasts/runner.py:81-98 | for every batch size and every answer of the bot: it terminates, its events replay on the step machine, the rows are those of a prefix of the queue answered one by one, and each exit has exactly its own cause |
| BroadcastRunner.BroadcastRunner.Run | services/broadcasts/runner.py:64-79 | releases what an earlier process left in `sending`, runs one session and stores canceled after a cancel, done after an empty claim and failed otherwise; does nothing at all unless the broadcast is active |
| BroadcastRunner.BroadcastRunner.SessionLeavesNoneSending | services/broadcasts/runner.py:91-98 | no exit leaves anyone in `sending`; an empty claim means everyone is recorded if and only if batches have a size or nobody was waiting |
| BroadcastRunner.BroadcastRunner.SentIffAcceptedOnce | services/broadcasts/runner.py:89-111 | in one session a recipient's first message (the album) is accepted exactly once if it is recorded SENT and never otherwise |
| BroadcastRunner.BroadcastRunner.SentReceives | services/broadcasts/runner.py:89-111 | what a session brings to a recipient: nothing unless it is recorded SENT; then the text, every file and the button, each once, or the album alone if Telegram accepted no try of the text that follows it |
| BroadcastRunner.BroadcastRunner.SentMeansEverything | services/broadcasts/telegram.py:161-175 | the text and button that follow an album are always tried: if Telegram accepts every try, a recipient recorded SENT has everything |
| DeliveryLog.AcceptedOnceIffSent | services/broadcasts/telegram.py:156-165 | for every log of a session, however often each message was tried: the first message of recipient i is accepted once if its result is SENT and never otherwise, and the text that follows an album at most once and only then |
| DeliveryLog.CallsOfRecipient | services/broadcasts/runner.py:89-111 | all calls of a session to recipient i are those of its own delivery, and there are none before its turn |
| DeliveryLog.RecipientReceives | services/broadcasts/telegram.py:156-175 | what recipient i has received after a session, by position in the queue, for every answer of Telegram |
| DeliveryLog.SentInFull | services/broadcasts/telegram.py:161-175 | when every try of its follow-up was accepted, a SENT recipient has exactly the text, the files and the button of the broadcast |
| DeliveryLog.FollowUpAfterAlbum | services/broadcasts/telegram.py:161-164 | the text that follows an album is not even tried before the album was accepted by the same recipient |
| DeliveryWire.AcceptedBounded | services/broadcasts/runner.py:64-111 | over any history, with crashes in the middle of deliveries too, each message to a recipient (the album, and the text that follows it) is accepted at most once more than the runner crashed |
| Telegram.BuildRequests | services/broadcasts/telegram.py:63-88 | builds exactly the requests whose received content EverythingArrivesOnce describes; all are silent if and only if the broadcast is, videos and only they are sent for streaming, and only the first item of an album carries a caption |
| Telegram.ReplyMarkup | services/broadcasts/telegram.py:42-47 | the button keeps its text and url, and opens a web app if and only if its kind is "miniapp" |
| Telegram.AlbumPayload | services/broadcasts/telegram.py:50-60 | one item per file in order, the caption on the first only and only if no separate text follows |
| Telegram.EverythingArrivesOnce | services/broadcasts/models.py:43-55 | a recipient gets exactly `cost` messages, every file once and in order, the text exactly once (never when empty) and the button exactly once if there is one |
| Telegram.ParseResponse | services/broadcasts/telegram.py:91-110 | SENT exactly for an ok body, with its message id; otherwise 401 and only it is a refused token, 429 and only it asks for a retry after the given delay or one second, 403 or an unknown chat is BLOCKED, and all else FAILED; the code in the body goes before that of the response |
| Telegram.ResultOf | services/broadcasts/telegram.py:139-154 | a broken connection is FAILED with a retry after two seconds; a SENT result comes from an ok body only |
| Telegram.TruthfulAt | services/broadcasts/telegram.py:139-154 | entry k of the log has the result that reply k means |
| Telegram.TelegramBot.CallApi | services/broadcasts/telegram.py:139-154 | without a token nothing is sent and the result is unauthorized; otherwise exactly one request goes out, and the log records it with the result of its own reply |
| Telegram.TelegramBot.Send | services/broadcasts/telegram.py:156-165 | returns the result of the first request; its follow-up is tried if and only if there is one and the first request was accepted, and nothing else is sent |
| Telegram.TelegramBot.SendFollowUp | services/broadcasts/telegram.py:167-175 | one to three tries of the follow-up: every one but the last was refused with a delay, and fewer than three end with a result that asks for no retry |
| Pacing.RateRespected | services/broadcasts/runner.py:20-35 | between any two slots no more messages start than the elapsed time allows, idle periods included |
| Pacing.MessagesWithinRate | services/broadcasts/runner.py:20-35 | the same in messages per second |
| Pacing.GreedyIsEarliest | services/broadcasts/runner.py:29-35 | the slots handed out respect the spacing, and no schedule that does starts any request earlier |
| Pacing.SpacedIff | services/broadcasts/runner.py:29-35 | the spacing in full: no slot starts before its clock reading, nor before the interval of every message of the slot before it is over, and the first may start at once |
| Pacing.Pacer.Wait | services/broadcasts/runner.py:29-35 | each wait appends the greedy slot for its cost |
| BroadcastRepository.OneActiveBroadcast | services/broadcasts/repository.py:102-215 | under any interleaving of statements at most one broadcast is active, and canceled, done and failed are final |
| BroadcastRepository.CreatedIsFresh | services/broadcasts/repository.py:93-127 | a broadcast is created if and only if none is active; it has a new id, holds exactly the snapshot, all of it pending, is a fresh machine of DeliveryGuarantees, and no other broadcast changes |
| BroadcastRepository.ClaimedAgainIffReleased | services/broadcasts/repository.py:164-166 | a claimed recipient can be claimed again if and only if some release covered it while it was in `sending` |
| BroadcastRepository.SecondRunnerTakesSameRecipient | services/broadcasts/runner.py:69-86 | a second runner on the same broadcast releases the first one's claim and takes the same recipient |
| BroadcastRepository.Repository.Create | services/broadcasts/repository.py:93-127 | a new running broadcast with all recipients pending, or the lowest active id that is in the way |
| BroadcastRepository.Repository.Claim | services/broadcasts/repository.py:164-180 | the next batch, marked `sending`, and nothing else changed |
| BroadcastRepository.Repository.Record | services/broadcasts/repository.py:182-187 | the result of one recipient is stored, and nothing else changed |
| BroadcastRepository.Repository.ReleaseClaimed | services/broadcasts/repository.py:189-202 | the given recipients in `sending`, or all of them when none is given, are pending again |
| BroadcastRepository.Repository.RequestCancel | services/broadcasts/repository.py:204-208 | changes a running broadcast only, and says whether it did |
| BroadcastRepository.Repository.Finish | services/broadcasts/repository.py:210-215 | writes the outcome of an active broadcast only |
| BroadcastJobs.StepAccurate | services/broadcasts/runner.py:127-132 | a step keeps every running task registered if and only if it is not a done-callback that comes while a newer task of its broadcast is running |
| BroadcastJobs.AccurateIffStartsSafe | services/broadcasts/runner.py:123-131 | every running task is registered if and only if starting any broadcast leaves at most one task for each |
| BroadcastJobs.OneRunnerPerBroadcast | services/broadcasts/runner.py:123-132 | over any history, starting any broadcast at any moment leaves at most one task for each if and only if no done-callback comes while a newer task of its broadcast is running |
| BroadcastJobs.OneStartIsEnough | services/broadcasts/runner.py:127-141 | a process that starts every broadcast at most once has no such callback |
| BroadcastJobs.LateCallbackForgetsNewTask | services/broadcasts/runner.py:130-132 | a history that ends with two tasks running one broadcast |
| BroadcastJobs.BroadcastJobs.Resume | services/broadcasts/runner.py:134-141 | every active broadcast of the store has a task afterwards, running ones keep theirs, and no other is started |
| PaymentClaims.RowIsLastWin | database/service.py:34-88 | status and token depend only on the last statement that changed the row, and the start time is that of the last grant that was not released |
| PaymentClaims.TokenIffProcessing | database/service.py:42-84 | a token is stored if and only if the payment is processing |
| PaymentClaims.OwnerIsLastGrant | database/service.py:59-88 | release and complete succeed if and only if the caller's claim was the last statement that won |
| PaymentClaims.FinalStays | database/service.py:74-88 | succeeded and canceled are absorbing, and no later claim, release, complete or cancel succeeds |
| PaymentClaims.OneCompletion | database/service.py:74-88 | at most one `complete_claim` ever returns True |
| PaymentClaims.MaskedStatusChangesOnce | database/service.py:34-88 | the stored status, with processing shown as pending, changes at most once over any interleaving |
| PaymentStatus.AnswersAreTrue | api/v1/payments.py:911-946 | every answer is "pending" or the final status of the stored row, also from old copies |
| PaymentStatus.Answer | api/v1/payments.py:911-946 | a poll answers a final copy as it is, a processing one as pending, and a pending one as pending if YooKassa was asked about it less than 30 seconds ago; otherwise YooKassa is asked first |
| PaymentStatus.ShownChangesOnceIff | api/v1/payments.py:911-946 | for any interleaving of overlapping polls, cache writes and statements of any process: what clients see changes at most once if and only if no poll after a final answer is answered from a copy that is not final |
| PaymentStatus.ShownGoesBack | api/v1/payments.py:926-940 | a run in which a client sees pending, canceled and pending again |
| PaymentStatus.ChangesOnceIffWrittenBack | api/v1/payments.py:934-936 | for polls one after another and fresh copies, at most one change in every history if and only if a row read from the database is cached |
| PaymentStatus.CancelChecks.CheckDue | api/v1/payments.py:846-859 | due if and only if this payment was not checked within 30 seconds; dropping old entries changes no later decision |
| PaymentClaims.SupersededNeverWins | database/service.py:34-41 | after a take-over the earlier owner can neither release nor complete, ever |
| PaymentClaims.TakeoverOnlyWhenStale | database/service.py:47-52 | a take-over happens only more than ten minutes after the grant |
| PaymentClaims.WinsIff | database/service.py:42-52 | a claim wins if and only if nothing has won yet, the last winner was a release, or it was a claim more than ten minutes ago; a cancel if and only if nobody has claimed; a reservation if and only if there is none |
| PaymentClaims.PromptOwnerCompletes | database/service.py:74-88 | an owner that comes back within ten minutes always completes, whatever others tried |
| PaymentClaims.ReserveReturnsFirst | database/service.py:90-112 | every reservation returns the first stored value, whatever it proposes and whatever runs between its two statements |
| PaymentClaims.KeyExtendedOnce | database/service.py:90-112 | however workers overlap, crash, repeat or take over, all hold the first reserved expiry, and the key has its old expiry until one of them writes it and that one ever after |
| PaymentClaims.PaymentRepository.ClaimPending | database/service.py:34-57 | the claim statement as one atomic step, taken exactly when WinsIff says; the fresh token is returned exactly when the row was taken |
| PaymentClaims.PaymentRepository.ReleaseClaim | database/service.py:59-72 | the release statement as one atomic step |
| PaymentClaims.PaymentRepository.CompleteClaim | database/service.py:74-88 | the completion statement as one atomic step |
| PaymentClaims.PaymentRepository.MarkCanceledIfPending | database/service.py:135-149 | cancels a pending payment only |
| PaymentClaims.PaymentRepository.ReserveRenewalExpiry | database/service.py:90-112 | the first stored value, with other workers' statements between write and read |
| RevenueForecast.DenominatorPositive | services/analytics/payment_metrics.py:342-350 | the denominator is n(n-1)(n+1)/12, positive for two or more values |
| RevenueForecast.NormalEquations | services/analytics/payment_metrics.py:345-353 | the residuals of the returned line sum to zero, plain and weighted by the index |
| RevenueForecast.LeastSquares | services/analytics/payment_metrics.py:325-355 | the returned line minimises the squared error over all real lines, and is the only one that does |
| RevenueForecast.CollinearReproduced | services/analytics/payment_metrics.py:325-355 | values on a line give back that line |
| RevenueForecast.ForecastNonnegative | services/analytics/payment_metrics.py:284-323 | revenue that was never negative is not forecast below 60% of its recent average; the confidence is between 10 and 95 |
| RevenueForecast.ForecastByBestLine | services/analytics/payment_metrics.py:284-323 | for any values and the line that fits them best in the sense of least squares: the forecast is 0.6 times the average of the newest four, written out, plus 0.4 times that line at index n, or nothing if it is negative there |
| RevenueForecast.AverageOfNewest | services/analytics/payment_metrics.py:300-302 | the average is that of the newest four values, or of all if there are fewer |
| RevenueForecast.CollinearForecast | services/analytics/payment_metrics.py:284-323 | values a * k + b are forecast as 0.6 times the average of the newest four of them plus 0.4 times a * n + b, or nothing if that is negative |
| RevenueForecast.ConstantForecast | services/analytics/payment_metrics.py:284-323 | revenue that never changes is forecast to stay as it is |
| RevenueForecast.ConfidenceByVariation | services/analytics/payment_metrics.py:357-388 | the confidence before clipping: 60 points that fall to none at a coefficient of variation of 2, and 5 points for each value up to 40 |
| RevenueForecast.SteadyConfidence | services/analytics/payment_metrics.py:316-321 | steady revenue is forecast with a confidence of 60 and 5 points for each value, and of 95 for seven or more |
| RevenueForecast.ConfidenceIsPercentage | services/analytics/payment_metrics.py:357-388 | the confidence of non-negative revenue is between 0 and 100 before it is clipped |
| RevenueForecast.SlopeSign | services/analytics/payment_metrics.py:345-352 | the slope has the sign of the values weighted by how much older they are than the middle |
| RevenueForecast.ExtrapolatesIntoThePast | services/analytics/payment_metrics.py:305-307 | the regression forecast is the next value of the fitted line if and only if the values have no tilt, and below it exactly when the newer ones weigh more |
| RevenueForecast.GrowthIsForecastToFall | services/analytics/payment_metrics.py:284-323 | revenue that was never negative and grew in every period is forecast to fall below the newest period |
| RevenueForecast.GrowingRevenueForecastFalls | services/analytics/payment_metrics.py:335-340 | revenue of 10, 20 and 30 is forecast to drop to 12 |
| SyncJobs.AlwaysTracked | background/scheduler.py:167-255 | after any interleaving the registry, the flag and the tasks agree with the full history of jobs |
| SyncJobs.OneAtATime | background/scheduler.py:206-255 | only the last registered job can be running and at most one synchronisation is in progress |
| SyncJobs.RefusalNamesRunningJob | background/scheduler.py:222-228 | a refusal names a job that can be looked up and is running; it says "unknown" if and only if a direct call of `sync_cache` holds the flag and no job has a task |
| SyncJobs.DirectCallRuns | background/scheduler.py:222-228 | a run to "unknown", and one in which a direct call holds the flag and the refusal names a job |
| SyncJobs.NeverUnknown | background/scheduler.py:235-243 | without direct calls no refusal says "unknown" |
| SyncJobs.RegistryIsRecentHistory | background/scheduler.py:181-200 | exactly the last twenty finished jobs and the running one can be looked up, with their true status |
| SyncJobs.StatusMeans | background/scheduler.py:167-179 | every job of the history is running until its task reports, and then failed if and only if its synchronisation ran and failed; a skipped one is done |
| SyncJobs.CountsRuns | background/scheduler.py:97-103 | the counter counts the synchronisations that took the flag, and no skipped one |
| SyncJobs.JustFinishedStays | background/scheduler.py:189-200 | the prune at the end of a job never removes that job |
| SyncJobs.PruneDropsOldest | background/scheduler.py:197-200 | the prune removes exactly the oldest finished jobs beyond twenty |
| SyncJobs.SyncScheduler.StartJob | background/scheduler.py:206-233 | registers the new job, or returns the running one and changes nothing |
| SyncJobs.SyncScheduler.EnterSync | background/scheduler.py:97-103 | takes the flag, or is skipped when it is taken |
| SyncJobs.SyncScheduler.LeaveSync | background/scheduler.py:162-165 | gives the flag back |
| SyncJobs.SyncScheduler.FinishJob | background/scheduler.py:167-179 | reports the outcome of the job; a skipped one counts as done |
| SyncJobs.SyncScheduler.SetJob | background/scheduler.py:181-200 | sets the status in place or creates the job, then prunes |
| SyncJobs.SyncScheduler.GetJob | background/scheduler.py:202-204 | the job under that identifier, if it is registered |
| CircuitBreaker.AlwaysConsistent | circuit_breaker.py:118-174 | in every state reachable by overlapping calls: closed means fewer than fail_max failures, half-open fewer than success_threshold successes, open a known opening time |
| CircuitBreaker.HalfOpenAdmitsEveryCall | circuit_breaker.py:125-133 | in a state that is not open any number of calls that begin together enter `fn` |
| CircuitBreaker.SuccessesClose | circuit_breaker.py:152-159 | exactly `success_threshold` successes close a half-open breaker, which then counts no failures |
| CircuitBreaker.OneFailureReopens | circuit_breaker.py:144-174 | one failure opens it again, and a call enters an open breaker if and only if `reset_timeout` has passed since |
| CircuitBreaker.HalfOpenHoldsOneIff | circuit_breaker.py:25-27 | in all histories with at most k calls in flight a half-open breaker has at most one call in `fn`, if and only if k is at most 1 |
| CircuitBreaker.OneEntryPerPhaseIff | circuit_breaker.py:25-27 | in all histories with at most k calls in flight at most one call enters per half-open phase, if and only if k is 0, or k is 1 and success_threshold is 1 |
| CircuitBreaker.HalfOpenCrowd | circuit_breaker.py:118-174 | the run from a fresh breaker: fail_max failures, the timeout, and n calls in `fn` at once |
| CircuitBreaker.OverlapBound | circuit_breaker.py:118-174 | during an outage with at most k calls in flight, however they overlap, at most k * floor(D / reset_timeout) enter `fn` within D seconds of opening |
| CircuitBreaker.OpenBoundFloor | circuit_breaker.py:144-167 | during an outage at most floor(D / reset_timeout) sequential calls reach `fn` within D seconds of opening |
| CircuitBreaker.OutageBound | circuit_breaker.py:118-174 | from a closed breaker an outage costs at most the failures left until it opens and then one call per reset timeout |
| CircuitBreaker.OutageBoundFloor | circuit_breaker.py:118-174 | the same in whole calls: the failures left and floor(D / reset_timeout) more |
| CircuitBreaker.MakeBreaker | circuit_breaker.py:58-80 | a fresh breaker, or the error for a parameter out of range |
| CircuitBreaker.OpensOnRunOfFailures | circuit_breaker.py:152-174 | a call opens a closed breaker if and only if it completes a run of fail_max failures |
| CircuitBreaker.Breaker.CallAsync | circuit_breaker.py:118-139 | one call, with the new state in every case |
| CircuitBreaker.Breaker.MaybeRecoverFromOpen | circuit_breaker.py:144-150 | promotes an open breaker once the timeout has passed |
| CircuitBreaker.Breaker.OnSuccess | circuit_breaker.py:152-159 | the state after a success |
| CircuitBreaker.Breaker.OnFailure | circuit_breaker.py:161-174 | the state after a failure |
| RateLimit.RateLimiter.Request | app/rate_limit.py:27-45 | one request under its own endpoint's limit; the decision is that of the full history unless a shorter window used the name before |
| RateLimit.NoWindowHoldsMore | app/rate_limit.py:23-25 | if every endpoint of a name has at most `times` and at least `seconds`, no closed window of that length ever holds more than `times` accepted requests of one key |
| RateLimit.HistoryIsComplete | app/rate_limit.py:33-40 | the full history holds exactly the requests that were accepted when they came, each at its own time |
| RateLimit.NoShorterWindow | app/rate_limit.py:33-38 | a request whose window no endpoint of its name undercuts is accepted if and only if fewer than `times` accepted requests of the full history lie in its window |
| RateLimit.LaneIsBucket | app/rate_limit.py:33-45 | a bucket is always the end of the sequence of all accepted stamps of its key |
| RateLimit.PurgeKeepsBuckets | app/rate_limit.py:41-45 | the purge changes no bucket |
| RateLimit.SharingIff | app/rate_limit.py:23-38 | an endpoint gets the decisions of the full history in all histories if and only if no endpoint of its name has a shorter window, or its limit is one request and the shorter ones accept something, or it accepts nothing at all |
| RateLimit.ShorterWindowForgets | app/rate_limit.py:33-38 | for any two such limits, a history after which one request too many is accepted |
| TimedCache.GetIsIdeal | services/cache/storage.py:59-70 | `get` returns the last value set and not deleted or cleared, if it has not expired, after any calls |
| TimedCache.HeldUntilExpiry | services/cache/storage.py:50-75 | a value set at time t is returned until its key is set or removed again: forever without a ttl or with one of zero, otherwise exactly before t plus the ttl; a removed key returns nothing |
| TimedCache.NothingUnlessSet | services/cache/storage.py:59-70 | a key that was never set returns nothing |
| TimedCache.SweepsNeverShow | services/cache/storage.py:34-48 | every `get` returns what it would have returned had the cleanup loop never run |
| TimedCache.SweepShowsInKeys | services/cache/storage.py:77-94 | a sweep changes the listed keys if and only if the namespace holds an expired entry |
| TimedCache.KeysBetween | services/cache/storage.py:77-81 | the listed keys include all live ones and only ones set and not removed since |
| TimedCache.CacheStorage.Set | services/cache/storage.py:50-57 | stores the item; a ttl of zero or none never expires |
| TimedCache.CacheStorage.Get | services/cache/storage.py:59-70 | the ideal value; an expired item is dropped on the way |
| TimedCache.CacheStorage.Delete | services/cache/storage.py:72-75 | forgets one key |
| TimedCache.CacheStorage.Clear | services/cache/storage.py:96-98 | forgets one namespace |
| TimedCache.CacheStorage.RemoveExpired | services/cache/storage.py:34-48 | drops exactly the expired items of all namespaces |
| Base64Url.RoundTrip | app/core/session_tokens.py:27-32 | decoding an encoded byte string gives it back, for all byte strings |
| Base64Url.EncodeInjective | app/core/session_tokens.py:27-28 | different byte strings have different encodings |
| Base64Url.EncodedIsClean | app/core/session_tokens.py:27-28 | an encoded text holds neither padding nor a dot, and is empty only for no bytes |
| Base64Url.EncodedIsUrlSafe | app/core/session_tokens.py:27-28 | an encoded text consists of letters, digits, "-" and "_" |
| Base64Url.AlphabetOrder | app/core/session_tokens.py:27-28 | the letters have the places of table 2 of RFC 4648 |
| Base64Url.SameNumber | app/core/session_tokens.py:27-28 | an encoded text writes the same number in base 64 as the bytes in base 256, filled up with zero bits, in the fewest letters that hold it |
| SessionTokens.IssuedVerifies | app/core/session_tokens.py:59-86 | a token is accepted with its own id exactly until its whole-second expiry |
| SessionTokens.AcceptedForItsLifetime | app/core/session_tokens.py:59-86 | in real time a token is accepted until less than a second before its lifetime is over, for its whole lifetime if issued at a whole second, and never after it |
| SessionTokens.AcceptsExactly | app/core/session_tokens.py:66-86 | `verify` accepts exactly a body, a dot and its signature, where the body decodes to an object with this integer id and an integer expiry not before now |
| SessionTokens.TypeErrorEscapesIff | app/core/session_tokens.py:68-73 | a TypeError escapes if and only if the signature part holds a non-ASCII character and the body is not empty |
| SessionTokens.TypeErrorToken | app/core/session_tokens.py:72-73 | a two-part token on which every service raises it |
| SessionTokens.ForeignTokenNeedsEqualDigest | app/core/session_tokens.py:53-57 | a token of another service is accepted only if both digests of its body are equal |
| SessionTokens.IssueInjective | app/core/session_tokens.py:59-64 | equal tokens of one service have the same id and the same whole-second expiry, whenever they were issued |
| Pricing.RoundReaches | api/v1/payments.py:124-149 | exactly when a rounded quotient reaches a bound, ties included |
| Pricing.DiscountsAddUp | api/v1/payments.py:120-159 | the reported discounts account for the whole difference between base and final amount |
| Pricing.VolumeDiscountMeans | api/v1/payments.py:128-131 | none for one month or a percentage not above 0; otherwise within half a kopeck of that percentage of what the promo code leaves |
| Pricing.ReferralDiscountMeans | api/v1/payments.py:133-138 | a requested discount as it is; without one, only a customer invited by someone else whose discount is unused gets any, within half a kopeck of its percentage of what the volume discount leaves |
| Pricing.PromoDiscountMeans | api/v1/payments.py:233-238 | what a code takes off: its percentage of the covered months, not below the minimum payment |
| Pricing.VariantsMean | api/v1/payments.py:207-248 | the two variants in terms of the order: stock price with referral discount, or full price with the code and without |
| Pricing.AppliedIff | api/v1/payments.py:249-255 | a code is applied if and only if it takes something off and costs strictly less before the balance |
| Pricing.SpendIsLargest | api/v1/payments.py:140-146 | the balance spend is the largest that exceeds neither the balance nor what keeps the minimum payment |
| Pricing.FinalMonotone | api/v1/payments.py:140-149 | the amount to pay grows with the amount before the balance, and not faster |
| Pricing.BalanceKeepsFloor | api/v1/payments.py:140-149 | the final amount is at least the minimum payment if and only if the amount before the balance is |
| Pricing.QuotePayment | api/v1/payments.py:178-256 | the plain amounts with the refusal reason, or the chosen variant with its status |
| Pricing.PromoNeverRaises | api/v1/payments.py:249-255 | entering a code never raises the invoice: the choice before the balance also picks the smaller final amount |
| Pricing.QuoteIsCheaper | api/v1/payments.py:192-198 | for a stock price not above the full price the quote is always the cheaper of the two variants, also for a code that takes nothing off |
| Pricing.PromoLeavesMinimum | api/v1/payments.py:234-238 | before the volume discount a code leaves at least the minimum payment |
| Pricing.PromoFloor | api/v1/payments.py:128-131 | an invoice with an applied code keeps the minimum payment if and only if there is no volume discount or enough is left before it |
| Pricing.PromoFloorByDefault | api/v1/payments.py:234-238 | with the default amounts, for two or more months, exactly from 10.31 roubles left |
| Pricing.PromoFloorBroken | api/v1/payments.py:234-238 | two months at 100 roubles with a 100% code cost 9.70 |
| PanelInbounds.SetInbounds | client.py:706-784 | for every fate of every call: the panel ends as the calls that took effect make it, with one call per missing or extra inbound; no step goes further from the target; True means nothing raised and, if verified, that the target is reached |
| PanelInbounds.WhatStaysWrong | client.py:750-764 | the target is reached if and only if every needed call takes effect |
| PanelInbounds.UnverifiedSuccess | client.py:766-784 | an unverified success is right if and only if no needed call was accepted and ignored |
| PanelInbounds.RunsConverge | client.py:706-764 | after any number of runs an inbound is wrong if and only if it was wrong at first and no run got its call through |
| PanelInbounds.SecondRunIsIdle | client.py:747-748 | after a run without failures a second one performs no calls |
| PanelInbounds.CallLists | client.py:735-745 | the calls are exactly the missing and the extra inbounds, each once |
| PanelInbounds.TargetsMean | client.py:735-742 | the targets are the usable identifiers, each once |
| PanelListing.ListClientsAll | client.py:1145-1198 | ends on every panel with finitely many non-empty pages, and its result is that of the one page that stops it |
| PanelListing.ListedIsComplete | client.py:1184-1198 | a normal return has one entry per distinct key served and at least as many as the last reported total |
| PanelListing.DedupedLast | client.py:1184-1188 | every entry is the last client served under its key |
| PanelListing.ListedOnce | client.py:1184-1188 | no two listed records share an email, and without emails no id |
| PanelListing.EveryEmailListed | client.py:1184-1188 | every email served, or text id served without one, is listed with the last record that bears it |
| PanelListing.EveryNumberListed | client.py:1184-1188 | the same for every numeric id served without an email |
| PanelListing.NamelessListed | client.py:1184-1188 | a record with neither is a client of its own and is always listed |
| PanelListing.EmailsDecide | client.py:1184-1198 | when all records have emails, the call returns normally if and only if there are at least as many distinct emails as reported, with one record for each |
| PanelListing.PrematureEndRaises | client.py:1190-1196 | ending with a reported total above what was served raises |
| PanelListing.PageWithoutTotal | client.py:1178-1181 | a page without a total ends the run, and the call then raises if and only if a client was served twice |
| PanelListing.TruncatedList | client.py:1156-1163 | a panel with two clients of which one is returned as the complete list |
| PanelListing.FixedListReturned | client.py:1165-1198 | a panel that pages a fixed list without duplicates gives back exactly that list; with a duplicate the call raises; no page is asked for beyond the one that completes the list |
| ApprovedInbounds.StepRefines | database/service.py:247-305 | every statement does to the ordered listing what the ideal operation does to a list without duplicates |
| ApprovedInbounds.RunRefines | database/service.py:247-305 | the same over whole runs |
| ApprovedInbounds.NeverEmptyAgain | database/service.py:281-290 | once the set has an inbound it always has one |
| ApprovedInbounds.PrimaryStays | database/service.py:234-239 | the first inbound stays the first until it is itself removed |
| ApprovedInbounds.MaxOrderIsMax | database/service.py:263-267 | the sort order of a new row exceeds every stored one |
| ApprovedInbounds.ApprovedInboundRepository.Add | database/service.py:259-279 | appends an absent inbound, and says whether it did |
| ApprovedInbounds.ApprovedInboundRepository.RemoveIfNotLast | database/service.py:281-290 | removes a present inbound unless it is the only one |
| ApprovedInbounds.ApprovedInboundRepository.SeedIfEmpty | database/service.py:292-305 | fills an empty table with the first occurrences in order, and counts the inserted rows |

## Left out

- HTTP, FastAPI routing, schemas, logging, metrics and SQL text: each statement is modelled by its effect on rows.
- The reporting queries of the analytics services and the growth trend: sums and averages inside the database.
- HMAC, SHA-256 and the JSON codec: functions given as parameters. The token lemmas name the codec contracts they
  need as premises, and nothing is claimed about forging a digest.
- Characters that UTF-8 cannot encode (surrogates) in a token body: `str.encode` fails on them.
- IEEE floats: money is whole kopecks, and times, rates and the regression are real numbers. A stock price is a
  whole number of kopecks, and half-even rounding is exact.
- Confidence: the standard deviation is a parameter, constrained by its defining equation where it matters.
- Stock, promo rule and payment router services: their results are inputs of the quote.
- PaymentStatus.ChangesOnceIffWrittenBack: a cache write that fails. The endpoint swallows such an error after it has
  canceled the row, and later answers then come from the old copy.
- `_find_open_payment` and the other endpoints that read the payment cache: only the status endpoint is modelled.
- Cancellation of asyncio tasks, and the branch of `run` that turns an unexpected exception into failed: a runner
  that stops in the middle is a crash of the step machine.
- Reading of the broadcast row and its progress in one go by `run`: only the status is read.
- Pacing.Pacer.Wait: a slot is the moment the pacer computed; a sleep that wakes late is not modelled, and the pacer
  has one sequential caller, as in the runner.
- BroadcastRunner.BroadcastRunner.Deliver: the sleep asked for by a reply is left out. "Accepted" means that the bot
  saw an ok reply; a reply lost on the network after Telegram had acted is a refused try.
- BroadcastRunner.BroadcastRunner.Run: the only other actor while the runner waits is an admin's cancel.
  What a second runner does is in BroadcastRepository.
- Message upload, `extract_media` and the deletion of the control copy.
- TimedCache.CacheStorage.Keys: the order of the listed keys. `all_values` skips empty values and temporary keys of
  the same listing. The clock never goes back, which the wall clock of the source does not promise.
- SyncJobs.SyncScheduler.SetJob: results and error texts of jobs, and `sync_cache`'s own work and statistics.
- PanelInbounds.SetInbounds: others changing the same panel client during a run.
- PanelListing.ListClientsAll: an `id()` of a client object that equals the numeric id of another client, and a total
  that is not a number.
- ApprovedInbounds.NeverEmptyAgain: two removals at the same moment, each of which still counts the other's row, and
  an add between the count and the insert of a seed.
