# Verification of the short-signal bot's state machines

This project models the parts of the bot whose correctness rests on state kept over time, and a few exact
algorithms, and proves what they promise. Each stateful component comes in three layers:

- functions on values that say what one call does to a whole table, row or event;
- a class with the source's fields, whose methods change them step by step and are proved equal to those
  functions;
- runs: arbitrary finite sequences of calls with arbitrary inputs, over which the theorems are proved.

The `…Facts` files state what a call, a batch or a run leaves in each column or figure in the source's own terms,
with its constants and without naming the functions that compute it, so that those functions are themselves proved
against something.

A promise that does not hold of the code is stated as a pair: the exact condition under which it holds, as
an equivalence, and a concrete run in which it fails.

| files | what they model |
|---|---|
| `Outbox`, `OutboxFacts`, `OutboxRuns`, `Delivery`, `DeliveryFacts`, `WatchFlags` | the Telegram delivery outbox as steps of many workers and a clock, the drivers that empty it, and the creators of watches among them |
| `AttemptJournal`, `AttemptFacts`, `AttemptRuns`, `AttemptReplay`, `AttemptCap` | the shadow attempt rows and their append-only journal, and admission under concurrent workers |
| `RootEvents`, `RootFacts` | the stored root row and the volume-climax lifecycle, two independent counters of record highs |
| `DueOrder`, `OutcomeQueue`, `QueueFacts`, `OutcomeEvaluation`, `EvaluationFacts` | the batched retry queue of outcome updates, its order, and the report it stores |
| `RoundRobin`, `ScanRotation`, `LedgerFacts`, `ScanRotationRuns` | the two cyclic selectors and the market-scan rotation ledger |
| `OrderBook`, `Candles`, `Evidence`, `SetupScore`, with `BookFacts`, `CandleFacts`, `EvidenceFacts`, `ScoreFacts` | sell-side slippage and depth, five-minute bars, canonical evidence, the setup score and its penalties |
| `Pullback`, `PullbackFacts`, `PullbackRuns`, `SharedEvent`, `SharedFacts`, `SharedMarks`, `SharedProgress` | the pullback tracker, the visits of one tracked event, and the two loops that share its stored row: its signals, the marks of its watches, its high, expiry and progress |
| `Common`, `RealArithmetic` | shared datatypes and small facts about sets and reals |

Modelling choices that hold throughout: prices and percentages are reals; times are integers; a repository
call is one atomic step, except in `AttemptCap`, where begin, read, decide, commit and rollback interleave
(`SharedEvent` interleaves the loads, visits and saves of two loops); an idempotency key is a datatype value
instead of formatted text; row ids whose only use is to order a query are integers; a universe fingerprint is the
set it fingerprints. A sender's answer, a fetched frame, the signal engine's verdict and whether a write succeeds
are parameters, so every theorem holds for all of them.

## Where the code promises less than one might read into it

- Acknowledgements are not fenced by the lease. `OutboxRuns.LateRetryUnsends` and
  `OutboxRuns.LateRetrySharesLease` are the runs; `OutboxRuns.AckKeepsLeasesExactly` and
  `OutboxRuns.RetryKeepsSignalsExactly` say exactly when an acknowledgement does no harm. It is the late failure
  report, never the late acceptance, that lets two workers hold a row: `OutboxRuns.AckKeepsHoldersExactly`,
  `OutboxRuns.RespectfulRunsAreExclusive`. Answers within 120 seconds are enough (`Delivery.BatchIsTimely`). The
  bound of five claims and the overtaking bound need no such assumption.
- A watch row has a second writer, its creator, who writes what came of its own attempt to send. Another worker
  that delivers the watch first makes that wrong: `OutboxRuns.WatchesMayDisagree`,
  `WatchFlags.DrainedFirstIsTooLate`, with `WatchFlags.WatchesAgreeExactly` as the exact condition. Within one
  process nothing runs between the save of a watch and its creator's claim (app/main.py:1586-1589), so these runs
  need a second process on the same database.
- Two loops save whole copies of one event. `SharedEvent.StaleScanSignalsTwice` is the run in which an event gets
  two signals; `SharedEvent.SignalsAccountedExactly` is the exact condition. A watch can go out twice as well:
  `SharedMarks.LostMarkRepeatsWatch`, with `SharedMarks.MarksHoldExactly`. `SharedEvent.OrderlyIsSerial` carries
  the theorems about one event over to loops that stay out of each other's way.
- An observation's journal key is its state and time, so observations of one attempt that share a time can
  lose a change: `AttemptReplay.SharedTimesLoseAChange`, with `AttemptReplay.StepReplaysExactly` as the exact
  condition and `AttemptReplay.JournalReplaysToRow` for callers whose times differ.
- The attempt cap needs the write lock, which only SQLite takes: `AttemptCap.UnlockedWorkersExceedLimit`, with
  `AttemptCap.OverrunIsBounded` for how far it can be overrun.
- An outcome whose write keeps failing keeps its place at the head of the queue. `OutcomeQueue.FailedWritesStarve`
  is a table on which that starves a sound row for ever; `OutcomeQueue.ServedExactly` is the exact condition, and
  `OutcomeQueue.BoundedWaiting` its case without failing writes.
- A candle that does not start on a minute takes back a bar that was already there:
  `Candles.UnalignedRowRepaints`, with `Candles.PrefixExactly` as the exact condition.
- SIGNAL_SENT is not absorbing: `PullbackRuns.SentIsNotAbsorbing`, with `PullbackRuns.SentLastsExactly`.
- Nor is EXPIRED. A fast signal can undo it (`PullbackRuns.ExpiredIsNotAbsorbing`), and so can a stale save without
  any signal (`SharedProgress.StaleSaveRevives`); `SharedProgress.ExpiryHoldsExactly` is the exact condition for the
  stored row, `PullbackRuns.VisitKeepsExpiryExactly` for visits one after another.
- The stored high can fall and the recorded depth can shrink, again by a stale save:
  `SharedProgress.StaleSaveLowersHigh`, with `SharedProgress.RowAdvancesExactly`, and
  `SharedProgress.StaleSaveForgetsDepth`, with `SharedProgress.ProgressHoldsExactly`.
- Not every close of an attempt is journalled: an upsert that closes it, with a close reason or by creating it in a
  terminal state, does so silently (`AttemptRuns.UpsertClosesSilently`). `AttemptRuns.ClosesAreToldExactly` is the
  exact condition.
- The score is capped at 100 but never exceeds 90: `SetupScore.ScoreInRange`, `SetupScore.NinetyIsReached`.

## Model

| member | source | states |
|---|---|---|
| Outbox.Repository.constructor | app/storage/repository.py:56-57 | a new outbox is empty |
| Outbox.Repository.SaveSignalRow | app/storage/repository.py:368-463 | a signal row and, with a payload, its PENDING outbox row are added together; a WATCH decision, a missing feature or the provenance of another event is refused and nothing is kept |
| Outbox.Repository.SaveWatchRow | app/storage/repository.py:492-558 | the same for a watch row |
| Outbox.ChosenIds | app/storage/repository.py:595-608 | ORDER BY id LIMIT: the ids taken are exactly the claimable rows with fewer than `limit` claimable rows before them, ascending |
| Outbox.Repository.BuryExpired | app/storage/repository.py:571-582 | expired leases with five attempts become DEAD, nothing else changes |
| Outbox.Repository.RequeueExpired | app/storage/repository.py:583-594 | expired leases with fewer attempts become RETRY and due now, nothing else changes |
| Outbox.Repository.SelectDue | app/storage/repository.py:595-608 | the select returns exactly the claimable rows in id order up to the limit |
| Outbox.Repository.Lease | app/storage/repository.py:609-617 | each selected row is leased once and its attempt counted; no other row changes |
| Outbox.Repository.ClaimDueDeliveries | app/storage/repository.py:560-617 | a whole claim: reclaim, select, lease, over the whole table |
| Outbox.Repository.MarkDeliverySent | app/storage/repository.py:631-649 | outbox row and source flag change together, or an error is raised and nothing changes |
| Outbox.Repository.MarkDeliveryRetry | app/storage/repository.py:651-660 | back to RETRY, or DEAD after five attempts, whatever the status was |
| OutboxFacts.ClaimIsExact | app/storage/repository.py:571-617 | a claim takes a row if and only if it matches the filter, waits with its time come or has a lease run out with fewer than five attempts, and fewer than `limit` such rows have smaller ids; every column of every row after it |
| OutboxFacts.NotYetDueStays | app/storage/repository.py:595-600 | rows that are SENT, DEAD, under a live lease or not yet due are not claimed and do not change |
| OutboxFacts.MarkSentIsExact | app/storage/repository.py:631-649 | SENT, time, lease and the one source flag together, or an error if row or source is missing |
| OutboxFacts.MarkRetryIsExact | app/storage/repository.py:651-660 | RETRY, or DEAD from five attempts on, with the given time and the first thousand characters of the error; no flag |
| OutboxFacts.SaveIsExact | app/storage/repository.py:368-558 | one source row and, with a payload, one untried PENDING row due at once |
| OutboxFacts.NoAttemptBeforeNext | app/storage/repository.py:595-600 | after a failure report with a next time, and until the row's next failure report, no run of any workers attempts the row before that time |
| OutboxRuns.RunKeepsGood | app/storage/repository.py:560-660 | what every step keeps however late or wrong its acknowledgement: attempts at most five, PENDING and RETRY below five, IN_FLIGHT rows and only they leased, every lease backed by a claim, source rows distinct |
| OutboxRuns.AttemptsCountClaims | app/storage/repository.py:609-617 | over any run the attempt column grows by exactly the number of claims of the row and stops at five |
| OutboxRuns.NeverClaimedMoreThanFiveTimes | app/storage/repository.py:560-617 | no crash, lost lease or stray acknowledgement buys a row a sixth send |
| OutboxRuns.PassesAreSpent | app/storage/repository.py:560-617 | passes over a due row times the limit, plus attempts already spent below it, never exceed five per smaller-id row of its type |
| OutboxRuns.BoundedOvertaking | app/storage/repository.py:560-617 | in every run a due row with k smaller-id rows of its type is passed over by at most floor(5k/limit) drains of that type |
| OutboxRuns.AckKeepsLeasesExactly | app/storage/repository.py:631-660 | an acknowledgement keeps every lease backed by one held ticket if and only if no other worker holds an unexpired lease on that row |
| OutboxRuns.TimelyRunsAreExclusive | app/storage/repository.py:560-660 | when acknowledgements precede lease expiry, no row is held by two workers at once |
| OutboxRuns.AckKeepsHoldersExactly | app/storage/repository.py:631-660 | an acceptance report never endangers a holder; a failure report does if and only if another ticket for the row is unexpired and the row has attempts left |
| OutboxRuns.RespectfulRunsAreExclusive | app/storage/repository.py:560-660 | however late, repeated or unfounded acknowledgements are, no row is held by two workers as long as no failure report hits a row that another one holds |
| OutboxRuns.TerminalIsAbsorbing | app/storage/repository.py:560-660 | in timely runs SENT and DEAD rows never change again |
| OutboxRuns.RetryKeepsSignalsExactly | app/storage/repository.py:651-660 | a retry keeps outbox and signal flags in agreement if and only if it does not hit a SENT signal row |
| OutboxRuns.TimelyRunsAgreeWithSources | app/storage/repository.py:631-660 | in timely runs a signal saved unsent is SENT in the outbox exactly when its source row says sent |
| OutboxRuns.SentSignalsAreFlagged | app/storage/repository.py:631-649 | in every run, timely or not, a SENT signal row has its source flag set |
| OutboxRuns.ClaimedTwiceIsReached | app/storage/repository.py:583-617 | a run in which one signal is claimed by two workers, the first lease having expired |
| OutboxRuns.LateRetryUnsends | app/storage/repository.py:651-660 | concrete run: a late failure report turns a SENT row back to RETRY although its source says sent |
| OutboxRuns.LateRetrySharesLease | app/storage/repository.py:651-660 | concrete run: a late failure report lets a third worker claim a row another one still holds |
| OutboxRuns.SetFlagKeepsWatchesExactly | app/storage/repository.py:473-479 | writing the flag of a watch keeps outbox and watch flags in agreement if and only if the row of the watch says the same at that moment |
| OutboxRuns.RetryKeepsWatchesExactly | app/storage/repository.py:651-660 | a retry keeps them in agreement if and only if it does not hit a SENT watch row |
| OutboxRuns.WatchesMayDisagree | app/storage/repository.py:473-479 | concrete timely run from an empty outbox: another worker delivers a watch, and its creator then writes that it was not sent |
| WatchFlags.MoveKeepsWatchesExactly | app/main.py:1444-1449 | among any other workers, saving, claiming, answering and writing the flag keep the agreement, except exactly a failed answer written after somebody else has delivered the watch |
| WatchFlags.WatchesAgreeExactly | app/main.py:1441-1449 | in a timely run of creators and other workers all watches agree at the end if and only if no creator whose own attempt failed writes its flag after its watch was delivered |
| WatchFlags.UndisturbedWatchesAgree | app/main.py:1584-1592 | in particular they agree when nobody delivers a watch whose creator is still under way |
| WatchFlags.DrainedFirstIsTooLate | app/main.py:1441-1449 | concrete run of a creator and a drain in which they do not |
| Delivery.BatchIsTimely | app/main.py:257-293 | a batch whose answers arrive within 120 seconds, each at its own time and with any timely work of other workers in between, is a timely run |
| Delivery.AcksInterleave | app/main.py:265-267 | the uninterrupted batch of one caller is one of these |
| Delivery.Bot.DeliverOutboxItem | app/main.py:235-255 | one send and its acknowledgement is exactly one acknowledgement step; it fails only when row or source is missing |
| Delivery.Bot.DeliverAll | app/main.py:265-267 | claimed items are acknowledged in order and the accepted ones counted |
| Delivery.Bot.ClaimAndDeliver | app/main.py:257-267 | claim plus deliveries equals the corresponding run of outbox steps |
| Delivery.Bot.DrainDeliveryOutbox | app/main.py:257-280 | signals first, then watches up to what is left of the cycle budget, which is never exceeded; the count returned is that of the accepted sends |
| Delivery.Bot.SendNewDelivery | app/main.py:282-293 | claims only the given entity and reports exactly whether Telegram accepted it |
| DeliveryFacts.BatchIsExact | app/main.py:235-267 | after a whole batch a row its claim took is SENT if and only if its answer was an acceptance, and otherwise RETRY or DEAD, due a minute after the answer with that error; every other row is as the claim left it |
| DeliveryFacts.BatchFlagsExactly | app/main.py:235-267 | a source flag is set afterwards if and only if it was before or a taken row that announces it was accepted |
| DeliveryFacts.BatchCounts | app/main.py:257-267 | the number reported is that of the rows taken and accepted |
| AttemptJournal.Repository.constructor | app/storage/repository.py:56-57 | no attempts, no journal |
| AttemptJournal.Repository.AppendAttemptEvent | app/storage/repository.py:1617-1660 | an event is appended exactly when its key is unused |
| AttemptJournal.Repository.UpsertShadowEntryAttempt | app/storage/repository.py:1072-1223 | whole new state of an upsert: refusal, creation, observation of an open attempt, or nothing |
| AttemptJournal.Repository.TransitionShadowEntryAttempt | app/storage/repository.py:1225-1292 | whole new state of a transition; applied exactly when open and terminal or different |
| AttemptJournal.Repository.CloseOpenShadowAttemptsForRoot | app/storage/repository.py:1297-1359 | the sweep closes the open attempts of the root; the count is the number closed |
| AttemptJournal.Repository.ExpireShadowAttemptIfDue | app/storage/repository.py:1375-1439 | closes exactly when open and past its expiry |
| AttemptJournal.Repository.RecordAttemptReusedAfterRestart | app/storage/repository.py:1441-1472 | journals reuse of an open attempt once per runtime |
| AttemptJournal.Repository.ReconcileShadowLifecycle | app/storage/repository.py:1474-1572 | the startup pass as a sweep over all attempts, with the number of attempts it closes, of orphans not journalled before, and of attempts closed twice when it starts |
| AttemptFacts.RefusedIsExact | app/storage/repository.py:1096-1130 | refused if and only if the attempt is new and its root has the limit already; then one note and nothing else; an upsert on a closed or terminal attempt does nothing |
| AttemptFacts.CreationIsExact | app/storage/repository.py:1131-1163 | every column of a new attempt comes from the request, and the one event that tells it |
| AttemptFacts.ObservationIsExact | app/storage/repository.py:1164-1177 | every column after an observation: identity and a set expiry stay, each level is replaced by its own non-zero offer, state and close columns |
| AttemptFacts.ObservationIsTold | app/storage/repository.py:1178-1218 | the events of an observation in order: a changed state, then a changed runtime |
| AttemptFacts.TransitionIsExact | app/storage/repository.py:1243-1292 | columns and events of a transition, and the cases in which it does nothing |
| AttemptFacts.ExpireIsExact | app/storage/repository.py:1388-1439 | expires if and only if open with its expiry time come; columns and events |
| AttemptFacts.ReplaceRowIsExact | app/storage/repository.py:1319-1358 | columns and events of one row of a root's replacement |
| AttemptFacts.ReconcileRowIsExact | app/storage/repository.py:1488-1555 | columns and events of one row of the startup pass, orphan note included |
| AttemptFacts.ReuseIsExact | app/storage/repository.py:1441-1472 | one event per runtime for an open attempt, and no row written |
| AttemptFacts.ColumnsComeFromOffers | app/storage/repository.py:1164-1177 | over every run an attempt's root, creation time, trigger and start are those of its first effective upsert; its expiry is the first one offered; its two levels are each the last non-null, non-zero one offered under its own name |
| AttemptFacts.ExpiryNeverMoves | app/storage/repository.py:1169-1171 | once an expiry is set no run changes it |
| AttemptRuns.RunKeepsInv | app/storage/repository.py:1072-1660 | every interleaving keeps: keys distinct, each closing event agrees with its row, at most one per attempt, closing keys only on closed rows |
| AttemptRuns.ClosedOnceAndTruthfully | app/storage/repository.py:1271-1290 | in every run an attempt has at most one attempt_closed event, and it carries the final state, reason and time of the row |
| AttemptRuns.ClosedRowsAreFrozen | app/storage/repository.py:1164-1165 | once attempt_closed_at is set no run changes any column of the row |
| AttemptRuns.CloseIsJournalledOnce | app/storage/repository.py:1635-1660 | the key check never swallows a close: every operation but an upsert journals exactly one closing event for each attempt it closes and none otherwise, and an upsert journals none even when it closes one |
| AttemptRuns.ClosesAreToldExactly | app/storage/repository.py:1164-1177 | in every run a closed attempt has exactly one closing event if and only if no upsert closed it, and none otherwise |
| AttemptRuns.UpsertClosesSilently | app/main.py:746-761 | concrete run: an attempt is created and then upserted with the close reason of an expired lifecycle, and no event tells its close |
| AttemptRuns.NoDuplicateGroups | app/storage/repository.py:1556-1566 | the duplicate check of the startup pass finds nothing in any run |
| AttemptRuns.ReplaceRootIsExact | app/storage/repository.py:1311-1358 | root replacement closes exactly the open attempts of that root with the given state, reason and time, and leaves all others alone |
| AttemptRuns.ReconcileIsExact | app/storage/repository.py:1511-1555 | the startup pass expires exactly the open attempts past their expiry |
| AttemptReplay.StepReplaysExactly | app/storage/repository.py:1178-1195 | a step keeps the journal replaying to the row if and only if it does not meet a used key with a real change |
| AttemptReplay.JournalReplaysToRow | app/storage/repository.py:1146-1195 | when no two upserts of an attempt share a time, in whatever order they arrive, and explicit transitions are terminal, created and changed events chain and end in the row state |
| AttemptReplay.SharedTimesLoseAChange | app/storage/repository.py:1178-1195 | concrete run: three observations at one time make the third change vanish from the journal |
| AttemptCap.NeverMoreThanLimit | app/storage/repository.py:1091-1163 | with the write lock, whatever the workers interleave, no root exceeds the limit |
| AttemptCap.AddedBelowLimit | app/storage/repository.py:1095-1147 | every added row was inserted by an admitted request while its root was below the limit |
| AttemptCap.OverrunIsBounded | app/storage/repository.py:1091-1163 | with or without the lock, n workers take a root to at most n - 1 attempts above the limit |
| AttemptCap.UnlockedWorkersExceedLimit | app/storage/repository.py:1091-1103 | without the lock two workers take a root above the limit, for every limit |
| RootEvents.Repository.UpsertShadowRootEvent | app/storage/repository.py:1023-1066 | whole new root row and the returned revision and extension |
| RootFacts.RootComesFromSightings | app/storage/repository.py:1038-1066 | after any calls on a repository that did not know the root: identity from the first sighting, peak and its time from the first of the greatest high, one revision per new high, extension with source and time from the first sighting that offered one, the creating one included |
| RootFacts.OtherRootsStay | app/storage/repository.py:1038-1066 | sightings of other roots change nothing |
| RootEvents.RootCountsRecords | app/storage/repository.py:1056-1059 | revision grows by the number of strict record highs and the peak is the maximum offered |
| RootEvents.ExtensionIsFirstOffered | app/storage/repository.py:1060-1063 | the frozen extension, its source and time come from the first sighting that offered one |
| RootEvents.NoOfferNoExtension | app/storage/repository.py:1060-1063 | without an offer it stays unset |
| RootEvents.AdvanceVolumeClimaxLifecycle | app/signals/climax.py:55-141 | one advance, errors, expiry, record and veto list included |
| RootFacts.AdvanceIsExact | app/signals/climax.py:82-141 | every field after an observation: the two errors, past the lifetime, a new high, and otherwise |
| RootFacts.VetoesAreExact | app/signals/climax.py:112-130 | each veto is listed if and only if its own condition holds, once and in this order |
| RootEvents.LifecycleCountsRecords | app/signals/climax.py:101-111 | while alive, revision and latest high count and track the same strict records |
| RootEvents.CountersAgree | app/signals/climax.py:87-111 | fed the same highs from the same start, the stored root and the lifecycle hold the same revision and high |
| RootEvents.CountersPartExactly | app/signals/climax.py:87-99 | they part at a step exactly when the root has outlived its lifetime and the high is a record |
| RootEvents.RootTimeNeverMoves | app/signals/climax.py:87-141 | the root time never moves |
| RootEvents.ExpiredIsAbsorbing | app/signals/climax.py:87-99 | once expired, with non-decreasing times, high and revision are frozen |
| RootEvents.OnceExpiredAlwaysExpired | app/signals/climax.py:87-99 | EXPIRED stays EXPIRED over every later observation |
| RootEvents.WindowStartsAtLastRecord | app/signals/climax.py:101-111 | the confirmation window starts at the last record, or at the original start |
| RootEvents.ReadyExactly | app/signals/climax.py:113-141 | FALLBACK_READY if and only if the root is alive, every gate is open, the last high is no record and no record lies within the last window |
| OutcomeQueue.BackoffDoublesThenSettles | app/outcomes/tracker.py:151-163 | delays double from one minute and settle at sixty |
| OutcomeQueue.OutcomeTracker.UpdateOutcome | app/storage/repository.py:830-858 | one row is updated or nothing changes |
| OutcomeQueue.OutcomeTracker.UpdateStrategyObservationOutcomes | app/outcomes/tracker.py:62-100 | up to four batches of 25 process exactly the first hundred rows of the due order at cycle start, each once; the count is the number of successful writes |
| QueueFacts.ProcessedExactly | app/storage/repository.py:772-828 | a cycle processes a row if and only if it is to be tried and fewer than a hundred such rows come before it by next attempt or observation time, observation time, id |
| QueueFacts.CycleIsExact | app/outcomes/tracker.py:62-163 | after a cycle a processed and written row has the reported status, one more attempt and its next time: none, a minute, or 1, 2, 4, 8, 16, 32 and then 60 minutes; every other row is as it was |
| QueueFacts.CycleCounts | app/outcomes/tracker.py:85-99 | the number reported is that of the rows processed and written |
| QueueFacts.RestsUntilNext | app/storage/repository.py:783-812 | no cycle before its next attempt touches a row, and none ever a complete one or an unknown one without a next attempt |
| OutcomeQueue.NothingOvertakes | app/storage/repository.py:803-811 | over a cycle no row gets ahead of a waiting due row, and what stays ahead was not processed or may fail to be written |
| OutcomeQueue.BrokenStay | app/outcomes/tracker.py:86-99 | no further row that may fail gets ahead, and those ahead whose write does fail stay there |
| OutcomeQueue.CycleMovesUp | app/outcomes/tracker.py:62-100 | a cycle that does not reach a waiting row takes at least a hundred rows from before it, less those whose writes may fail |
| OutcomeQueue.ServedByRank | app/outcomes/tracker.py:62-100 | behind b rows whose writes may fail now and then or always, b below 100, and g others, a row is served within floor(g/(100-b))+1 cycles |
| OutcomeQueue.ServedExactly | app/outcomes/tracker.py:62-100 | whatever set of rows is never written, a waiting row is reached if and only if fewer than a hundred of them are due ahead of it |
| OutcomeQueue.LapsIsFloor | app/outcomes/tracker.py:62-100 | the bound of the two is that floor |
| OutcomeQueue.BoundedWaiting | app/outcomes/tracker.py:62-100 | when every write succeeds, a due row with r due rows ahead is processed within floor(r/100)+1 cycles |
| OutcomeQueue.FailedWritesStarve | app/outcomes/tracker.py:86-99 | concrete table and run: a hundred rows that cannot be written keep the row behind them waiting through any number of cycles, as the clock runs |
| OutcomeEvaluation.EvaluateStrategyObservation | app/outcomes/strategy_observations.py:16-86 | the whole report, error included |
| EvaluationFacts.RefusedExactly | app/outcomes/strategy_observations.py:31-32 | an error exactly for an entry price that is not positive |
| EvaluationFacts.BlankIsExact | app/outcomes/strategy_observations.py:36-53 | without a visible candle: no figure, retryable, incomplete until the fifteen-minute candle could have closed and unknown from then on, with the reason |
| EvaluationFacts.HorizonsAreExact | app/outcomes/strategy_observations.py:57-69 | the price 1, 3, 5 and 15 minutes on is the close of the first visible candle at or after that time, with both returns and their signs; none if there is no such candle |
| EvaluationFacts.ExcursionsReadOff | app/outcomes/strategy_observations.py:68-83 | favourable excursion to the lowest low, adverse to the highest high, minutes to the first candle there, new high or not |
| EvaluationFacts.CoverageIsExact | app/outcomes/strategy_observations.py:84-85 | the number of visible candles and the time of the last |
| EvaluationFacts.StatusIsExact | app/outcomes/strategy_observations.py:73-77 | complete and final if and only if all four horizons have a price |
| OutcomeEvaluation.CompleteExactly | app/outcomes/strategy_observations.py:51-73 | complete if and only if some closed candle starts fifteen minutes or more after the observation |
| OutcomeEvaluation.ReadyExactly | app/outcomes/strategy_observations.py:113-119 | on gap-free minute candles, complete exactly from observation_coverage_ready_at on |
| OutcomeEvaluation.RetryableUnlessComplete | app/outcomes/strategy_observations.py:73-77 | a report is retryable unless it is complete |
| OutcomeEvaluation.CompleteStays | app/outcomes/strategy_observations.py:45-73 | complete stays complete as now grows |
| OutcomeEvaluation.ReportsAreStable | app/outcomes/strategy_observations.py:45-86 | as now grows a set horizon price never changes, and MFE and MAE never decrease |
| RoundRobin.FastMonitor.SelectKeys | app/main.py:536-542 | rotate, take the head and advance is reading the circle from the cursor |
| RoundRobin.SliceIsExact | app/market/shortlist.py:59-71 | the slice, element by element, the next cursor, and the two empty cases |
| RoundRobin.StreamIsCircle | app/market/shortlist.py:59-71 | consecutive polls read the circle without gap or overlap |
| RoundRobin.CountOnCircle | app/market/shortlist.py:59-71 | closed form of how often a position is met |
| RoundRobin.PollIsDistinct | app/market/shortlist.py:68-69 | one poll never selects a key twice |
| RoundRobin.PollsAreBalanced | app/market/shortlist.py:59-71 | over any m consecutive polls from any cursor each key is selected floor(ms/n) or ceil(ms/n) times |
| RoundRobin.PollsCover | app/market/shortlist.py:59-71 | all keys are covered from the ceil(n/s)-th poll on and not before |
| ScanRotation.CurrentOpen | app/storage/repository.py:107-111 | finds an open rotation exactly when there is one |
| ScanRotation.EnsureRotation | app/storage/repository.py:107-131 | the rotation returned is open and matches runtime and universes |
| LedgerFacts.CurrentIsExact | app/storage/repository.py:107-111 | the open rotation that started last is taken, none if and only if none is open |
| LedgerFacts.ReuseIsExact | app/storage/repository.py:112-112 | an open rotation of this runtime and both universes is used again |
| LedgerFacts.OpeningIsExact | app/storage/repository.py:112-131 | otherwise it is closed, aborted after a restart and else incomplete, and a new one added with these columns; no other changes |
| ScanRotation.Ledger.PrepareMarketScanRotation | app/storage/repository.py:211-237 | reuses the matching open rotation, otherwise closes it and opens a new one |
| ScanRotation.Ledger.RecordMarketScanCycle | app/storage/repository.py:81-206 | whole new ledger after a cycle, or nothing when an exclusion violates the unique key |
| ScanRotation.Ledger.AddExclusions | app/storage/repository.py:137-145 | excluded symbols outside the universe are added once, first result kept |
| ScanRotation.Ledger.AddScheduled | app/storage/repository.py:152-161 | scheduled symbols without a result get theirs |
| LedgerFacts.FailureIsExact | app/storage/repository.py:137-145 | a cycle stores nothing if and only if it excludes a symbol twice that is not eligible and has no result |
| LedgerFacts.ResultIsExact | app/storage/repository.py:137-161 | every result after a cycle: a stored one stays; else the scan result or SCAN_SKIPPED of a scheduled eligible symbol, EXCLUDED for a listed one that is not eligible, and nothing more |
| LedgerFacts.CountsAreExact | app/storage/repository.py:178-192 | the six counts as numbers of symbols |
| LedgerFacts.RotationIsExact | app/storage/repository.py:178-204 | the cycle's rotation gets these counts and is completed if and only if covered and scheduled are the whole universe; no other rotation changes |
| ScanRotationRuns.OneOpenRotation | app/storage/repository.py:107-131 | at any point of any run at most one rotation is OPEN |
| ScanRotationRuns.CountsPart | app/storage/repository.py:178-192 | ok, failed and skipped part the covered symbols; they part all results exactly when every result is a scan status |
| ScanRotationRuns.StoredCountsPart | app/storage/repository.py:188-192 | the same of the stored counts in every run |
| ScanRotationRuns.CompletedExactly | app/storage/repository.py:202-204 | in every run a rotation with something to scan is COMPLETED if and only if every eligible symbol has a scan result |
| ScanRotationRuns.RecordingCompletesExactly | app/storage/repository.py:202-204 | recording completes the rotation exactly then, an empty universe included |
| ScanRotationRuns.FirstResultStays | app/storage/repository.py:152-161 | a symbol keeps its first result in a rotation |
| ScanRotationRuns.ClosedRotationsAreFrozen | app/storage/repository.py:107-131 | a rotation that is no longer OPEN never changes, nor do its results |
| ScanRotationRuns.CoverageNeverFalls | app/storage/repository.py:178-192 | ok, failed, skipped and covered counts never fall |
| ScanRotationRuns.RoundRobinCompletes | app/market/shortlist.py:59-71 | a fresh rotation scanned in round-robin batches is OPEN before and COMPLETED at the ceil(n/b)-th cycle |
| ScanRotationRuns.NewRotationIsFresh | app/storage/repository.py:112-131 | a rotation that a cycle opens has no result yet |
| OrderBook.SellSlippagePct | app/market/scanner.py:281-300 | the loop computes the recursive walk; None exactly when the notional is not positive or exceeds the book value |
| BookFacts.SlippageExistsExactly | app/market/scanner.py:281-300 | a slippage if and only if the notional is positive and the levels are worth it together |
| BookFacts.SlippageIsExact | app/market/scanner.py:281-300 | it is the percentage by which the notional over what is sold from the top falls short of the best bid |
| BookFacts.NoOtherSellsLess | app/market/scanner.py:281-300 | selling from the top sells the least base of all fills of the notional |
| BookFacts.DepthIsTotal | app/market/scanner.py:277-278 | depth is the sum of what each level at or above the floor is worth |
| BookFacts.LevelsAreExact | app/market/scanner.py:263-274 | the levels kept are those with positive price and size, each as often as it occurs |
| BookFacts.BestBidIsGreatest | app/market/scanner.py:238-245 | the best bid is the greatest price kept |
| BookFacts.SpreadIsExact | app/market/scanner.py:246-252 | the spread is a percentage of the middle of the best prices |
| OrderBook.WalkSellsLeast | app/market/scanner.py:281-300 | of all fills worth at least the notional, the walk sells the least base |
| OrderBook.NoFillBeatsTheWalk | app/market/scanner.py:281-300 | no other way of selling the notional slips less |
| OrderBook.SlippageInRange | app/market/scanner.py:297-300 | slippage lies in [0, 100) |
| OrderBook.SlippageGrowsWithNotional | app/market/scanner.py:281-300 | slippage is non-decreasing in the notional |
| OrderBook.SlippageFallsWithSize | app/market/scanner.py:281-300 | adding size to existing levels never raises it |
| OrderBook.DepthBoundsSlippage | app/market/scanner.py:277-278 | bid depth above a floor that covers the notional bounds the slippage by the distance of the floor |
| OrderBook.SortedBids | app/market/scanner.py:239-239 | sorting keeps the levels, each as often as it occurs, and their value, and puts them in bid order |
| OrderBook.OrderbookLiquidity | app/market/scanner.py:238-260 | the metrics of any raw book, absent without a price or a usable side |
| OrderBook.RawMetricsAgree | app/market/scanner.py:238-260 | for any raw book slippage, one-percent and two-percent depth are consistent |
| Candles.Closed1mRows | app/market/candles.py:70-78 | exactly the rows whose minute has elapsed |
| Candles.Complete5mOhlcv | app/market/candles.py:81-112 | the bucket loop yields the bars of the complete buckets in order |
| Candles.CompleteExactly | app/market/candles.py:93-97 | a bucket is complete exactly when its closed rows are five, one at each minute |
| Candles.BarIsExact | app/market/candles.py:98-108 | open of the first row, maximum high, minimum low, close of the last, sum of volume and turnover |
| Candles.OutputIsExact | app/market/candles.py:92-112 | a bar for every complete bucket and no other, ascending |
| CandleFacts.CompleteInPlaces | app/market/candles.py:70-97 | a bucket is complete if and only if exactly five positions of the frame hold closed rows inside its five minutes, one at each minute |
| CandleFacts.BarReads | app/market/candles.py:98-108 | each figure of a bar is read off these five positions |
| CandleFacts.BarsAreExact | app/market/candles.py:81-112 | the output is one such bar for each such bucket, ascending |
| Candles.BarsArePast | app/market/candles.py:78-97 | no bar before its bucket has passed |
| Candles.BarStaysExactly | app/market/candles.py:81-112 | a bar stays exactly when no further row of its bucket closes, and then unchanged |
| Candles.PrefixExactly | app/market/candles.py:81-112 | earlier output is a prefix of later output if and only if no complete bucket gets a further row |
| Candles.AlignedFramesNeverRepaint | app/market/candles.py:81-112 | so minute-aligned frames never repaint |
| Candles.UnalignedRowRepaints | app/market/candles.py:93-97 | concrete frame: a row off the minute takes a bar back |
| Candles.OpenRowsDoNotShow | app/market/candles.py:70-78 | edits to rows not yet closed change nothing |
| Candles.VolumeIsConserved | app/market/candles.py:98-108 | bars carry exactly the volume of the rows of complete buckets |
| Evidence.Canonicalize | app/observability/strategy_observations.py:135-172 | the recursive normalizer returns the clean value and its warnings, or fails exactly on an unsupported type outside sensitive keys |
| Evidence.CanonicalizeMapping | app/observability/strategy_observations.py:138-147 | the mapping loop, keys in order |
| Evidence.CanonicalizeElements | app/observability/strategy_observations.py:148-155 | the list and tuple loop |
| EvidenceFacts.SensitiveIsExact | app/observability/strategy_observations.py:136-137 | a key is hidden if and only if it mentions one of the seven words in whatever case |
| EvidenceFacts.LeavesAreExact | app/observability/strategy_observations.py:156-171 | what becomes of each kind of single value, and what it warns of |
| EvidenceFacts.MappingIsExact | app/observability/strategy_observations.py:138-147 | a mapping keeps its keys, in order, with the placeholder under hidden ones and the canonical form under the others |
| EvidenceFacts.ListIsExact | app/observability/strategy_observations.py:148-155 | element by element; a tuple becomes a list |
| EvidenceFacts.MappingAcceptedExactly | app/observability/strategy_observations.py:135-172 | a mapping is accepted if and only if every value under a key that is not hidden is |
| EvidenceFacts.ListAcceptedExactly | app/observability/strategy_observations.py:148-155 | a list or tuple is accepted if and only if every element is |
| EvidenceFacts.LeafAcceptedExactly | app/observability/strategy_observations.py:170-172 | a single value is accepted unless its type is unknown |
| Evidence.OrderDoesNotShow | app/observability/strategy_observations.py:138-147 | values equal up to mapping order at any depth have the same canonical value and warnings |
| Evidence.CleanIsIdempotent | app/observability/strategy_observations.py:135-172 | a second pass changes nothing and warns of nothing |
| Evidence.CleanKeepsPaths | app/observability/strategy_observations.py:135-172 | every path leads to the canonical form of what it led to and to nothing new |
| Evidence.SnapshotWarnsExactly | app/observability/strategy_observations.py:159-168 | warnings are exactly the paths of non-finite numbers not under a sensitive key |
| Evidence.WarnsOnce | app/observability/strategy_observations.py:159-168 | no path is warned of twice |
| Evidence.WarnedIsNull | app/observability/strategy_observations.py:161-168 | each path warned of resolves to null |
| Evidence.CleanIsFinite | app/observability/strategy_observations.py:159-169 | no non-finite number is left |
| SetupScore.EvaluateRiskFlags | app/signals/risk_flags.py:9-71 | flags, capped penalty and breakout risk |
| SetupScore.FlagsAreExact | app/signals/risk_flags.py:16-69 | the flags listed are exactly the flags raised |
| ScoreFacts.EntryConditions | app/signals/risk_flags.py:16-34 | the four entry flags and their conditions |
| ScoreFacts.ContinuationConditions | app/signals/risk_flags.py:35-45 | the three continuation flags and their conditions |
| ScoreFacts.OrderbookConditions | app/signals/risk_flags.py:49-69 | the five order-book flags and their conditions |
| ScoreFacts.FlagsInOrder | app/signals/risk_flags.py:22-69 | flags come in the source's order, each once |
| ScoreFacts.PenaltyIsExact | app/signals/risk_flags.py:22-71 | what each listed flag costs, the early-short surcharge and the cap of forty |
| ScoreFacts.BreakoutIsExact | app/signals/risk_flags.py:35-69 | breakout risk is one of six flags |
| ScoreFacts.TotalIsExact | app/signals/scoring.py:17-42 | the raw total is the sum of each feature's points, each given at its ends and in between |
| ScoreFacts.ScoreIsExact | app/signals/scoring.py:43-43 | the nearest integer, halves to even, to the total less the penalty between 0 and 100 |
| SetupScore.ScoreInRange | app/signals/scoring.py:41-43 | the score lies in [0, 90] |
| SetupScore.NinetyIsReached | app/signals/scoring.py:17-43 | the bound is attained under every configuration whose pullback minimum is at most 3.5, as the shipped ones are |
| SetupScore.ScoreGrows | app/signals/scoring.py:17-43 | improving any monotone feature, alone or together, never lowers the score |
| SetupScore.ScoreGrowsInEach | app/signals/scoring.py:17-43 | in particular VWAP distance, upper wick and rejection, each alone |
| Pullback.EventState.constructor | app/events/pump_detector.py:72-89 | a new event as the detector builds it |
| Pullback.PullbackTracker.Advance | app/events/pullback_tracker.py:18-65 | whole new event after an advance and what happened |
| Pullback.PullbackTracker.ResetAfterConfirmedHigh | app/events/pullback_tracker.py:67-89 | resets exactly on a higher confirmed high without a signal |
| Pullback.PullbackTracker.MarkSignalSent | app/events/pullback_tracker.py:91-98 | whole new event after a signal |
| Pullback.PullbackTracker.ShouldExpire | app/events/pullback_tracker.py:100-106 | expiry time or kill price |
| Pullback.Bot.EvaluateAndSendClimax | app/main.py:645-1115 | the climax path of both loops, from its guard on the signal id to the mark it leaves |
| Pullback.Bot.ProcessSymbol | app/main.py:1368-1472 | one poll of a loaded event: reset, climax, advance, zone, decision |
| PullbackFacts.AdvanceIsExact | app/events/pullback_tracker.py:18-106 | every field after an advance: expiry by time, kill price or age of the signal, a new high, a first pullback, or deeper extremes, in this order |
| PullbackFacts.ZoneIsExact | app/events/short_zone.py:16-32 | the two edges in both modes, in either order |
| PullbackFacts.DecisionIsExact | app/signals/engine.py:43-56 | what the gate lets through, and what a watch or a signal then writes |
| PullbackFacts.PollIsExact | app/main.py:1368-1472 | every field after a whole poll: reset, climax signal, or an advance and what follows it |
| PullbackFacts.FastIsExact | app/main.py:645-658 | the fast monitor sends if and only if the path is on and the event has no signal |
| PullbackRuns.RunKeeps | app/events/pullback_tracker.py:18-98 | over any visits, one after another, the high never falls, base and id are fixed, a signal id is never replaced; and unless the fast monitor revives it, the expiry time is fixed until expiry and an expired event is frozen. For the stored row see SharedProgress |
| PullbackRuns.VisitKeepsExpiryExactly | app/main.py:645-658 | among visits, one after another, an expired event and the expiry time are kept by all but exactly a fast signal on an expired event without one |
| PullbackRuns.ExpiredIsNotAbsorbing | app/main.py:645-658 | concrete run, one visit after another: a signal of the fast monitor turns an expired event back to SIGNAL_SENT |
| PullbackRuns.SignalsFollowObservedPullbacks | app/main.py:1368-1472 | when visits follow one another, a baseline signal always follows a pullback observed since the last confirmed-high reset |
| PullbackRuns.OneSignalPerEvent | app/main.py:1433-1472 | when the visits of both loops follow one another, at most one signal goes out per event instance, and the event carries its id |
| PullbackRuns.OneWatchOfAKind | app/main.py:1674-1685 | and then each kind of watch goes out at most once per event instance |
| PullbackRuns.DepthAndLowAreExact | app/events/pullback_tracker.py:43-63 | when visits follow one another, recorded depth and low are the maximum and minimum over all advances since detection |
| PullbackRuns.RunExpiresExactly | app/events/pullback_tracker.py:25-38 | after any visits in sequence a tracked event is expired if and only if some poll found it past its expiry time, below the kill price or fifteen minutes after its signal, and no fast signal has revived it since |
| PullbackRuns.SentLastsExactly | app/events/pullback_tracker.py:54-63 | over any visits in sequence a signalled event stays SIGNAL_SENT if and only if no poll expires it or observes a first pullback |
| PullbackRuns.BaselineSentOnlyExpires | app/events/pullback_tracker.py:54-63 | without the climax path SIGNAL_SENT is left only by expiry |
| PullbackRuns.SentIsNotAbsorbing | app/events/pullback_tracker.py:54-63 | concrete run: after a climax signal the next pullback moves the event back to PULLBACK_OBSERVED |
| SharedFacts.StepIsExact | app/main.py:312-350 | what each load, visit and save changes of the row, the two copies and what was sent |
| SharedFacts.CopiesAreFresh | app/storage/repository.py:317-349 | in every interleaving a copy neither visited nor overtaken since its load or save is the row |
| SharedEvent.OrderlyIsSerial | app/main.py:314-349 | two loops that each load, visit and save without the other changing the row in between do to the stored event and its log what their visits do one after another, so everything proved of runs of one event holds of the shared one |
| SharedEvent.OrderlyOneSignal | app/main.py:1097-1113 | in particular at most one signal goes out, and the saved row carries its id |
| SharedEvent.SignalsAccountedExactly | app/main.py:312-350 | however the two loops interleave, an event has at most one signal, recorded in its row once saved, if and only if no loop signals, or saves over a recorded signal, from a copy that missed the signal of the other, and none drops a copy whose own signal is unsaved |
| SharedEvent.StaleScanSignalsTwice | app/main.py:314-349 | concrete run under the shipped settings: the scan has loaded the event, the fast monitor signals and saves it, the scan signals its stale copy and overwrites the id |
| SharedMarks.MarksHoldExactly | app/main.py:312-350 | however the loops interleave, each kind of watch goes out at most once and the saved row has its mark, if and only if the monitor saves no copy without a mark that the row has while the scan has nothing to save, and the scan loads over no unsaved mark |
| SharedMarks.LostMarkRepeatsWatch | app/main.py:734-744 | concrete run under the shipped settings: the monitor saves what it loaded before a watch went out, and the watch goes out again |
| SharedProgress.RowAdvancesExactly | app/storage/repository.py:317-342 | however the two loops interleave, no step lowers the stored high, changes base or id, or takes away the signal or a mark of the row, if and only if no stale copy that is behind the row is saved |
| SharedProgress.AdvancesKeep | app/storage/repository.py:317-342 | then the row keeps all of that from its detection on |
| SharedProgress.StaleSaveLowersHigh | app/main.py:734-744 | concrete run under the shipped settings: the scan confirms and saves a higher high, and the monitor, having signalled nothing, saves the lower one back |
| SharedProgress.ExpiryHoldsExactly | app/main.py:314-349 | the stored row stays expired, and keeps its expiry time until then, if and only if no stale copy that undoes that is saved, and the monitor saves no signal that it sent for an expired event |
| SharedProgress.UnsavedByRevival | app/main.py:645-658 | the second cause is exactly a visit that revives the event |
| SharedProgress.StaleSaveRevives | app/main.py:734-744 | concrete run: the scan expires and saves the event, and without any signal the monitor saves it back as it had loaded it |
| SharedProgress.ProgressHoldsExactly | app/main.py:314-349 | the saved row has the detection, depth and low of all polls, and every baseline signal followed a detected pullback, if and only if the monitor saves no copy with another progress than the row while the scan has nothing to save, and the scan loads no row with another progress than its own |
| SharedProgress.StaleSaveForgetsDepth | app/main.py:734-744 | concrete run: the monitor takes a recorded depth of seven per cent back to five |

## Left out

- Attempt events and rows: revision, evaluation, market time, model version and details are copied by the
  source and take part in no decision; the model drops them.
- Attempt columns written once and never read by these operations are dropped as well.
- Event ids as text: one signal per event is proved per event instance; an expired event can be detected
  again under the same id.
- Outbox columns other than those of the protocol (timestamps of creation, message ids) are dropped; a
  negative SQL limit, which no caller passes, is not modelled.
- Scan cycles and coverage ledger rows (`build_coverage_rows`), coverage percentages and reason counts are
  derived outputs; the model keeps the symbol results, counts and status they are derived from.
- Telemetry writes that fail and are masked by a default return value are steps that change nothing.
- SQLAlchemy sessions, SQLite pragmas and the schema; only the write lock of the admission check is modelled.
- Formatted keys and attempt ids (`volume_climax_attempt_id`), SHA-256 fingerprints, JSON encoding and the 32 KiB
  truncation of stored evidence.
- Evidence mappings with keys that are not strings; dotted path text, where different paths can read alike.
- Floating point: rounding of prices, fifteen-digit rounding (a parameter, taken as idempotent where a second
  pass is proved to change nothing), NaN and infinities outside the evidence module.
- The climax evaluators, the low-volume strategy, the candidate pool of the fast monitor, squeeze guard,
  grades, core filters and delivery policy: threshold tables, here the verdict parameters of a poll.
- What the fast monitor reads before it decides to signal (the pool, its time to live, the evaluators, the
  deduplication by subtype): a fast signal is a visit that may or may not happen.
- The replacement of an event by its successor in the row of its symbol, and a stale copy of the old event saved
  over the new one; the shared row is followed through one instance.
- Pullback.Bot.EvaluateAndSendClimax: the evaluators and the telemetry are one optional signal, and the save of the
  copy in the middle is not part of the method; `SharedEvent` has saves at any point.
- Pullback.Bot.ProcessSymbol: one poll runs on the copy it was given without interruption; `SharedEvent`
  interleaves loads, visits and saves, and lets a copy be saved in the middle of its work.
- Outbox.Repository.SaveSignalRow: which features are required, and the other columns, are not modelled.
- Delivery.Bot.DeliverAll: one call that runs alone, with one time for all its answers; what other workers do in
  between and answers at different times are the subject of `Delivery.BatchIsTimely`.
- Delivery.Bot.ClaimAndDeliver: likewise.
- Delivery.Bot.DrainDeliveryOutbox: likewise, with one time for each of its two batches.
- OutcomeEvaluation.EvaluateStrategyObservation: the frame is taken in ascending time, into which the source
  sorts it, and `now` is always given, as the tracker does.
- ScanRotation.Ledger.RecordMarketScanCycle: the cycle and coverage rows, the last error and the returned
  dictionary are not modelled.
- Evidence.CleanIsFinite: rounding is a function on reals, so a float next to the largest one, which the
  fifteen-digit text can read back as infinite, is not covered.
- EMA, ATR, RSI, VWAP and z-scores over pandas; frames are sequences of rows.
- `event_range_pct` and the features snapshot of an event, which the tracker only records.
- The score's breakdown dictionary, which is presentation.
- Bybit and Telegram clients, message texts, configuration loading, logging, health, reports and scripts.
