# Delivery platform: verified models of the core services

This project models the services of the platform's backend that hold protocols or
exact arithmetic, and proves what they keep. Rows under a lock are fields of a
state, a transaction is one step or a step system of its own, clocks and outcomes of
failing operations are inputs, and digests are the values they digest.

| module | what it models |
|---|---|
| `ShiftSchedule`, `ShiftRules`, `ShiftConcurrency` | scheduled shifts, the attendance log and its replays, and the interleavings of calls that lock rider and shift |
| `BankReconciliation` | greedy matching of bank statement lines with internal transactions |
| `SlidingWindow`, `FixedWindow`, `TokenBucket`, `RatePolicy` | the rate limiters, their bounds, and the policy picked for a request |
| `LegacyLedger`, `CacheReconciliation`, `CachePaging` | the recorded chain of financial entries, the audited synchronisation of the wallet cache, and keyset paging |
| `DocumentUploads`, `DocumentReview` | the file and row protocol of uploads under failures, and the documents a rider must have to work |
| `DeliveryBonus`, `DeliveryClosing`, `DeliveryWork`, `DeliveryConcurrency`, `DeliveryInterleavings`, `DeliveryLocks` | the frozen bonus, delivery, order and ledger closing together, and the interleavings of calls that lock order, delivery and rider |
| `FiscalIntegrity` | minor-unit arithmetic and its decimal text |
| `ConnectionIndex` | the WebSocket connection manager |
| `UploadBody` | the spool-and-replay filter of upload bodies |
| `Wrappers`, `Text` | options, results and blank-stripping |

Code that changes rows, lists, files or dictionaries is a class whose methods are
proved equal to a function of the old state; the properties are proved about these
functions, over every input and every run. `dafny verify dfyconfig.toml` checks all.

Places where the code differs from its own comments, or where a natural claim needs
a condition:

- Bank matching: the scores reach the threshold only with an exact amount and a date
  within a day, so VARIANCIA needs a negative alert (`BankReconciliation.MatchLineFinds`);
  and data can make a run raise, although the module says that it never does: a date at
  the edge of the calendar, or a line that does not fit the columns of its record
  (`BankReconciliation.RunSucceedsIff`, `BankReconciliation.DataCanRaise`).
- Token bucket: the bound is about the bucket in Redis. With a limit of zero the
  division fails and the error path lets every call through
  (`TokenBucket.BoundIffPositive`). The same path is taken when Redis raises and by a
  limiter without Redis, as the global instance `rate_limiter` is, so that one never
  denies a call by this strategy, whatever the limit.
- Waits: both the sliding window and the token bucket cut the wait of a denied call to
  whole seconds, so a caller who waits that long can be denied again
  (`SlidingWindow.RetryAdmittedIff`, `TokenBucket.RetryAdmittedIff`).
- Sliding window: a reading repeated by an identifier counts once in the sorted set and
  twice in the list; the two forms agree exactly without such repeats
  (`SlidingWindow.AlikeIffNoEarlyRepeat`, `SlidingWindow.ProbedAlikeIffNoRepeat`).
- Ledger writer: an entry written when the latest one is exactly at the allowed skew is
  stamped beyond it, and the ledger needs review until the clock moves on
  (`LegacyLedger.StampBeyondTheSkew`).
- Starting a delivery: the status is read without a lock, so a start can reopen a
  delivery closed in between (`DeliveryClosing.LateStartIsSafeIffOpen`). Creating one
  reads its order without a lock too; that keeps the rows consistent, but an order
  reassigned in between gets a delivery for the rider before
  (`DeliveryInterleavings.ConsistentIffNeverReopened`,
  `DeliveryInterleavings.LateCreateKeepsTheOldRider`).
- Connections: an identifier that comes again for the same user is listed twice and
  outlives its disconnection; reuse under another user leaves no entry behind
  (`ConnectionIndex.UsersStayARelationIff`, `ConnectionIndex.DisconnectLeavesNoneIff`).
  But `active_connections` holds one socket per identifier (websocket.py:34), so a
  message for the first user then goes to the socket of the second.
- Money: beyond 28 digits the decimal context rounds first, and can lift a value just
  below half a cent to the next cent (`FiscalIntegrity.NearestUnlessRoundedToATie`).

## Model

| member | source | states |
|---|---|---|
| `ShiftSchedule.AcceptedIff` | backend/app/core/shift_rules.py:25-47 | A schedule request is accepted exactly when both instants, as given in UTC or as the first 23:59 after the start, are representable and the shift lasts more than zero and at most 24 hours |
| `ShiftSchedule.BadDurationIff` | backend/app/core/shift_rules.py:25-47 | With both instants there, the refusal names the duration, exactly if that is wrong |
| `ShiftSchedule.ColumnsMeaning` | backend/app/core/shift_rules.py:25-47 | What is stored: the start, and the time of day of both instants |
| `ShiftSchedule.StoredThenPlanned` | backend/app/core/shift_rules.py:25-55 | Every accepted schedule is recovered exactly from its stored columns, across midnight and at exactly 24 hours |
| `ShiftSchedule.PlannedThenStored` | backend/app/core/shift_rules.py:25-55 | Storing decoded instants again gives the same columns, so two accepted schedules never share a row |
| `ShiftSchedule.DefaultEndAccepted` | backend/app/core/shift_rules.py:29-37 | The default end always gives a duration in range; it is missing only in the last minute of the last representable day |
| `ShiftRules.TransitionKeepsSound` | backend/app/core/shift_rules.py:139-284 | An accepted transition keeps events and columns in step (EN_CURSO one IN at check-in, COMPLETADO one IN and one OUT in order, PROGRAMADO and CANCELADO none) and at most one running shift per rider, whatever the clock reads |
| `ShiftRules.CreateKeepsSound` | backend/app/core/shift_rules.py:65-86 | A created shift starts PROGRAMADO and without events, the invariant holds, and all other rows, the riders and the log are as before |
| `ShiftRules.RunKeepsSound` | backend/app/core/shift_rules.py:65-284 | The same over every run of creations and transitions, with clock readings in any order |
| `ShiftRules.RunKeepsRecord` | backend/app/core/shift_rules.py:65-284 | Over every run no row is lost, the log only grows, rider, plan and recorded times of a shift never change, and a finished or cancelled one never changes at all |
| `ShiftRules.FirstCallRecords` | backend/app/core/shift_rules.py:139-284 | Field by field: the event of a first start or completion carries the rider, the shift, its kind, the time of the call and the position and notes of the request; the row takes the time and the position; a cancellation stores its reason and no event |
| `ShiftRules.ReplayAnswers` | backend/app/core/shift_rules.py:115-136 | A repeated start or completion changes nothing and is answered with the event of that shift and kind that is logged at the recorded time; a repeated cancellation with none |
| `ShiftRules.RefusedWhy` | backend/app/core/shift_rules.py:139-264 | Each refusal has its one cause, in this order: a malformed request, an unknown shift, another rider, a transition that does not exist, a conflict with what is recorded |
| `ShiftRules.CreateAnswers` | backend/app/core/shift_rules.py:58-86 | A creation is refused for long notes or a schedule that cannot be stored, and then for an unknown rider; otherwise one planned row is added |
| `ShiftRules.IncompleteIsPlanned` | backend/app/core/shift_rules.py:170-284 | A shift that a worker has set to INCOMPLETO is treated as a planned one by every call |
| `ShiftRules.ContradictionIsRefused` | backend/app/core/shift_rules.py:199-250 | Whatever the tables hold, no call is accepted on a row whose times contradict its status or the clock |
| `ShiftRules.StartAcceptedIff` | backend/app/core/shift_rules.py:170-225 | A start is accepted exactly for a planned shift of a rider without another running one, or as a replay no earlier than the recorded check-in |
| `ShiftRules.CompleteAcceptedIff` | backend/app/core/shift_rules.py:226-264 | A completion is accepted exactly for a running shift at a time not before its check-in, or as a replay not before its check-out |
| `ShiftRules.RepeatIsReplay` | backend/app/core/shift_rules.py:115-136 | Repeating an accepted call at any later time returns the original event and changes nothing |
| `ShiftRules.MatchingWithinShift` | backend/app/core/shift_rules.py:115-136 | The replay query can only find events of its own shift |
| `ShiftRules.ShiftTables.TransitionShift` | backend/app/core/shift_rules.py:139-284 | The in-place transition refines the atomic step: same new tables, same event or rejection |
| `ShiftRules.ShiftTables.CreateScheduledShift` | backend/app/core/shift_rules.py:65-86 | The in-place creation refines the atomic step |
| `ShiftRules.ShiftTables.FindOtherActive` | backend/app/core/shift_rules.py:186-198 | The scan for another running shift answers exactly whether the rider has one |
| `ShiftConcurrency.EveryScheduleIsSerial` | backend/app/core/shift_rules.py:89-112 | For every interleaving of any calls, cut into read rider, lock rider, lock shift, check, write and commit or roll back, the result and every answer are those of some serial order |
| `ShiftConcurrency.AtMostOneRunningShift` | backend/app/core/shift_rules.py:170-216 | In every interleaving at most one committed shift per rider is EN_CURSO |
| `ShiftConcurrency.DecisionStable` | backend/app/core/shift_rules.py:89-112 | A decision taken under the lock of one rider survives every commit about another rider |
| `ShiftConcurrency.CommitIsSerialStep` | backend/app/core/shift_rules.py:170-284 | The commit of a session is exactly its atomic step on the committed tables |
| `ShiftConcurrency.HolderIsNeverBlocked` | backend/app/core/shift_rules.py:89-112 | A session that holds a row lock never waits |
| `ShiftConcurrency.BlockedOnlyByARunner` | backend/app/core/shift_rules.py:89-112 | A session is blocked exactly by the holder of its rider lock, and that holder can move |
| `ShiftConcurrency.NoDeadlock` | backend/app/core/shift_rules.py:89-112 | Every reachable state with an unfinished call has a call that can move |
| `ShiftConcurrency.SchedulesAreBounded` | backend/app/core/shift_rules.py:170-284 | Without new arrivals every schedule is finite, so every call ends |
| `ShiftConcurrency.AloneIsAtomic` | backend/app/core/shift_rules.py:89-284 | A session that meets nobody ends with the answer and the tables of the atomic call, refusals included |
| `ShiftConcurrency.ArrivalIsAtomic` | backend/app/core/shift_rules.py:89-284 | A call can come in at any moment, and run alone from then on it is the atomic call |
| `ShiftConcurrency.FailureLeavesNothing` | backend/app/core/shift_rules.py:89-284 | A call can break off at any moment before its end, which frees its rows and changes no table |
| `ShiftConcurrency.LockedShiftIsChecked` | backend/app/core/shift_rules.py:100-112 | After the rider is locked the shift must still be there and be that rider's, or the call is about an unknown shift and holds nothing |
| `ShiftConcurrency.WaitsForItsRows` | backend/app/core/shift_rules.py:89-112 | A call stands still exactly while another has locked the rider or the shift it needs next |
| `BankReconciliation.ThresholdIffCompatible` | backend/app/services/bank_reconciliation_service.py:137-159 | A score of 80 means exactly: same absolute amount and dates at most one day apart |
| `BankReconciliation.ConfidenceIsPoints` | backend/app/services/bank_reconciliation_service.py:137-159 | The score is sixty points for the amount, or thirty within the alert, twenty-five for the date and fifteen for a reference of which the first 13 letters stand in the other one, whatever their case |
| `BankReconciliation.BestIsFirstMaximum` | backend/app/services/bank_reconciliation_service.py:204-210 | The candidate kept for a line is the first unused one with the most points |
| `BankReconciliation.MatchLineFinds` | backend/app/services/bank_reconciliation_service.py:204-235 | A line is matched exactly when an unused compatible transaction is there, then linked to one with no variance; it is RELACIONADO, and VARIANCIA exactly if the configured alert is negative |
| `BankReconciliation.ReferenceDecides` | backend/app/services/bank_reconciliation_service.py:151-235 | A matched line is linked to the first unused compatible transaction whose reference it recognises, if there is one, and otherwise to the first unused compatible transaction; its record keeps 100 or 85 points |
| `BankReconciliation.UnmatchedScore` | backend/app/services/bank_reconciliation_service.py:201-236 | A record keeps the points of the best unused candidate, linked or not |
| `BankReconciliation.RunIsMatching` | backend/app/services/bank_reconciliation_service.py:191-236 | The links of a run are a matching of compatible pairs that avoids every transaction linked before |
| `BankReconciliation.RangeKeepsCompatible` | backend/app/services/bank_reconciliation_service.py:174-190 | The two-day widening of the query loses no compatible transaction |
| `BankReconciliation.RangeIsAround` | backend/app/services/bank_reconciliation_service.py:174-190 | The query goes from two days before the first line to two days after the last, and over the last week when there is none |
| `BankReconciliation.KeptIsTheDay` | backend/app/services/bank_reconciliation_service.py:170-172 | The lines considered are those of the requested day, or all |
| `BankReconciliation.RunIsMaximal` | backend/app/services/bank_reconciliation_service.py:162-240 | For any alert that is not negative, no unmatched line has a compatible transaction that was free when the run began and still is |
| `BankReconciliation.HalfOfAnyMatching` | backend/app/services/bank_reconciliation_service.py:162-240 | For any alert that is not negative, the run finds at least half as many pairs as any matching of compatible free pairs |
| `BankReconciliation.HalfIsReached` | backend/app/services/bank_reconciliation_service.py:201-236 | The factor of two is tight: two crossing lines where the first choice costs a pair |
| `BankReconciliation.CrossedExample` | backend/app/services/bank_reconciliation_service.py:137-159 | Two lines and two transactions that cross in this way |
| `BankReconciliation.NeverTwiceAcrossRuns` | backend/app/services/bank_reconciliation_service.py:180-240 | No sequence of runs links a transaction to two statement lines |
| `BankReconciliation.EarlierLinksStay` | backend/app/services/bank_reconciliation_service.py:191-236 | No run links a transaction that an earlier record, or one settled by hand, is linked to |
| `BankReconciliation.TallyCounts` | backend/app/services/bank_reconciliation_service.py:201-240 | The summary counts every record of the run once, under its own status |
| `BankReconciliation.RunSucceedsIff` | backend/app/services/bank_reconciliation_service.py:162-240 | A run goes through exactly when every kept line leaves room for the widening at both ends of the calendar and fits the columns of a record (reference of at most 100 characters without NUL, amount within a BIGINT); otherwise nothing of it is stored |
| `BankReconciliation.FitsIffStorable` | backend/app/models/fiscal.py:345-372 | Whether the record of a line fits its columns depends on the line alone, matched or not |
| `BankReconciliation.DataCanRaise` | backend/app/services/bank_reconciliation_service.py:162-240 | Three statements of one line that make a run raise: a reference of 101 characters, an amount beyond the column, a date at the edge |
| `BankReconciliation.Reconciler.BestCandidate` | backend/app/services/bank_reconciliation_service.py:204-210 | The loop over candidates keeps the first maximum |
| `BankReconciliation.Reconciler.MatchLines` | backend/app/services/bank_reconciliation_service.py:201-236 | The nested loops, with the growing set of used identifiers and the counters, produce the records and the tally of the recursive matching |
| `BankReconciliation.Reconciler.RunReconciliation` | backend/app/services/bank_reconciliation_service.py:162-240 | The whole run appends exactly the new records or none, fails exactly for dates without room or lines that cannot be stored, and its counters add up |
| `SlidingWindow.PruningIsInvisible` | backend/app/core/rate_limiter.py:219-263 | After any run the pruned lists decide as the complete history of admissions |
| `SlidingWindow.AnswerMeaning` | backend/app/core/rate_limiter.py:219-263 | What one call is told: it is admitted exactly if the window before it holds fewer admissions than the limit; how many are left, when the window is free again, and how long to wait until the oldest leaves it, in whole seconds and at least one |
| `SlidingWindow.AnswersFromFullHistory` | backend/app/core/rate_limiter.py:219-263 | Every answer of a run is the answer computed from the complete history before it |
| `SlidingWindow.AtMostLimitPerWindow` | backend/app/core/rate_limiter.py:219-263 | For a clock that never goes back, no half-open interval of one window length holds more than the limit of admissions of an identifier |
| `SlidingWindow.RedisEqualsLocal` | backend/app/core/rate_limiter.py:81-132 | The sorted set with range removal and key expiry answers as the local list on every run whose clock never goes back and in which no identifier repeats a reading before its last call |
| `SlidingWindow.AlikeIffNoEarlyRepeat` | backend/app/core/rate_limiter.py:81-132 | For any readings of a clock that never goes back: both forms answer alike under all limits and windows exactly when no identifier repeats a reading before its last call |
| `SlidingWindow.ProbedAlikeIffNoRepeat` | backend/app/core/rate_limiter.py:81-132 | With one further call of anybody as a probe, they answer alike under all limits and windows exactly when no identifier repeats a reading |
| `SlidingWindow.EqualReadingsDiffer` | backend/app/core/rate_limiter.py:81-132 | From empty stores, three calls of one identifier at one instant with room for three get different answers |
| `SlidingWindow.RetryAdmittedIff` | backend/app/core/rate_limiter.py:249-263 | A call denied at the end of a run and repeated after the wait it was told is admitted exactly when the time left was a whole number of seconds or at most one; one second more always suffices |
| `SlidingWindow.RetryTooEarly` | backend/app/core/rate_limiter.py:249-263 | One admission a minute, used at 0: a call at half a second is told 59 seconds and is denied again after them |
| `SlidingWindow.LocalLimiter.SlidingWindowAllowed` | backend/app/core/rate_limiter.py:219-263 | The in-place list refines the step |
| `SlidingWindow.RedisLimiter.SlidingWindowAllowed` | backend/app/core/rate_limiter.py:87-125 | The sequence of sorted-set operations refines the step |
| `FixedWindow.WindowAdmitsUpToLimit` | backend/app/core/rate_limiter.py:197-217 | Each aligned window admits exactly the smaller of its calls and the limit |
| `FixedWindow.AnswerMeaning` | backend/app/core/rate_limiter.py:197-217 | What one call of a run is told, from the calls of its identifier in the same aligned window before it |
| `FixedWindow.SpanAdmitsTwiceTheLimit` | backend/app/core/rate_limiter.py:197-217 | Any span of one window length admits at most twice the limit |
| `FixedWindow.RetryReachesTheNextWindow` | backend/app/core/rate_limiter.py:208-217 | A denied call is told a wait of one second to one window that ends exactly in the next window |
| `FixedWindow.LocalCounters.FixedWindowAllowed` | backend/app/core/rate_limiter.py:197-217 | The in-place counters refine the step |
| `TokenBucket.IntervalBound` | backend/app/core/rate_limiter.py:140-185 | With the bucket in Redis, in any interval at most max plus the refill of the interval is admitted |
| `TokenBucket.AnswerMeaning` | backend/app/core/rate_limiter.py:140-185 | A call is admitted exactly if there is a whole token, counting the share of the limit that came back since the last admission; it spends one and is told what is left and when the bucket is full, a denied one when there is a token again |
| `TokenBucket.ExpiryIsInvisible` | backend/app/core/rate_limiter.py:140-185 | A bucket whose key expires two windows after its last write answers as one that never expires |
| `TokenBucket.BoundIffPositive` | backend/app/core/rate_limiter.py:140-195 | The interval bound of the Redis bucket holds of every run exactly when the limit is not zero |
| `TokenBucket.ZeroLimitAdmitsAll` | backend/app/core/rate_limiter.py:140-195 | With a limit of zero every call is let through by the error path, which is also the path of a limiter without Redis |
| `TokenBucket.RetryAdmittedIff` | backend/app/core/rate_limiter.py:174-183 | A call denied by the bucket and repeated after the wait it was told is admitted exactly when the time to the next token was a whole number of seconds or at most one; one second more always suffices |
| `TokenBucket.BucketStore.TokenBucketAllowed` | backend/app/core/rate_limiter.py:134-195 | The in-place bucket refines the step |
| `RatePolicy.LongestMatchIsLongest` | backend/app/middleware/rate_limit_middleware.py:151-170 | The policy picked is a matching one of maximal prefix length |
| `RatePolicy.PolicyMeaning` | backend/app/middleware/rate_limit_middleware.py:151-170 | The reports of riders have their own policy; every other path, without trailing slashes, has that of the longest prefix in the table at or above it, and the default if there is none |
| `RatePolicy.CallMeaning` | backend/app/middleware/rate_limit_middleware.py:70-85 | Paths of authentication are counted by address alone, all others by user and address if there is a user; the counter is named after the policy |
| `RatePolicy.TableOrderIsIrrelevant` | backend/app/middleware/rate_limit_middleware.py:154-170 | Reordering the policy table changes no decision |
| `RatePolicy.SourceTableIsValid` | backend/app/middleware/rate_limit_middleware.py:24-35 | The table of the middleware has one entry per prefix and positive limits and windows |
| `RatePolicy.SourceLimits` | backend/app/middleware/rate_limit_middleware.py:24-35 | Its limits and windows |
| `RatePolicy.IdentifierFixesLimits` | backend/app/middleware/rate_limit_middleware.py:70-85 | Requests that share an identifier share limit, window and caller |
| `RatePolicy.EveryIdentifierIsBounded` | backend/app/middleware/rate_limit_middleware.py:70-85 | Over any run of requests no window length holds more admissions of an identifier than the limit of its policy |
| `RatePolicy.RateLimitMiddleware.GetPolicyFor` | backend/app/middleware/rate_limit_middleware.py:154-170 | The loop over the table finds the longest match |
| `LegacyLedger.VerifiedBalanceIsTheSum` | backend/app/services/legacy_ledger.py:98-207 | A ledger is verified exactly when it is complete, all statuses are known and the processed rows form a sound chain from zero; the balance is then the sum of every signed effect |
| `LegacyLedger.VerifiedBalanceIsBooked` | backend/app/services/legacy_ledger.py:98-207 | Kind by kind: the verified balance is what the processed entries of credit kinds raised by their amounts, those of debit kinds lowered, and adjustments moved either way |
| `LegacyLedger.VerifiedRowMoves` | backend/app/services/legacy_ledger.py:131-181 | Each processed row of a verified ledger starts where the one before ended, from zero, and ends where its kind takes that balance; its time is later and within the skew |
| `LegacyLedger.BalanceIsTheEnd` | backend/app/services/legacy_ledger.py:180-207 | The verified balance is the one after the last processed row |
| `LegacyLedger.ScanTracks` | backend/app/services/legacy_ledger.py:121-181 | The pass raises no issue exactly for good evidence, and carries the end of the chain and the sum |
| `LegacyLedger.AnalysisCounts` | backend/app/services/legacy_ledger.py:121-207 | What an analysis reports: how many entries it saw, how many count, how many are pending or rejected, the last that counts, and the first 50 issues |
| `LegacyLedger.ScanIssuesMeaning` | backend/app/services/legacy_ledger.py:112-181 | An issue is raised exactly for a truncated list, an unknown status, or a row with that cause: each code has its own |
| `LegacyLedger.RowIssuesRanked` | backend/app/services/legacy_ledger.py:133-178 | The issues of one row come in a fixed order, each code at most once |
| `LegacyLedger.IssuesInOrder` | backend/app/services/legacy_ledger.py:112-181 | The issues of earlier rows come first |
| `LegacyLedger.CarriesTheTime` | backend/app/services/legacy_ledger.py:134-142 | The time carried along is that of the last counting row that has one |
| `LegacyLedger.CarriesTheBalance` | backend/app/services/legacy_ledger.py:160-181 | The balance carried along is that after the last counting row that has an exact one, zero before the first |
| `LegacyLedger.LaterClockSameAnalysis` | backend/app/services/legacy_ledger.py:143-149 | Evidence that is good stays good, with the same result, at every later reading of the clock |
| `LegacyLedger.WritingKeepsVerified` | backend/app/services/financial_service.py:375-440 | An entry the writer lets through leaves a verified ledger, exactly from the moment its stamp is within the skew |
| `LegacyLedger.WriterRefuses` | backend/app/services/financial_service.py:365-430 | The writer refuses an unknown kind, amount or status, a full ledger, a latest entry beyond the skew and a ledger under review, each with its own error and in this order; what is left is written or has no room for the balance |
| `LegacyLedger.WriterWrites` | backend/app/services/financial_service.py:375-445 | What it writes: the amount, from the booked balance to where its kind and status take it, with a time after every other entry |
| `LegacyLedger.WritingMovesTheBalance` | backend/app/services/financial_service.py:375-445 | Once an entry that counts is verified with its ledger, the balance is what it was plus the amount for a credit kind, minus it for a debit kind |
| `LegacyLedger.StampBeyondTheSkew` | backend/app/services/financial_service.py:380-393 | A new entry is stamped after every other one, and beyond the skew exactly when the latest is already at the skew |
| `LegacyLedger.SkewExample` | backend/app/services/financial_service.py:375-440 | A verified ledger of one entry at the skew takes a second one and needs review at the same reading |
| `LegacyLedger.AnalyzeLedgerRows` | backend/app/services/legacy_ledger.py:98-207 | The loop with its counters and running balance refines the recursive analysis |
| `CacheReconciliation.PreviewMeaning` | backend/app/services/cache_reconciliation.py:98-135 | A correction is offered exactly for sound complete evidence, a version with room for one more, and a balance that is missing or more than a cent off; agreement means the cache is the sum of the ledger |
| `CacheReconciliation.PreviewStatus` | backend/app/services/cache_reconciliation.py:98-135 | Which of the five states a preview reports, from the evidence, the version and the difference in cents |
| `CacheReconciliation.PreviewIssues` | backend/app/services/cache_reconciliation.py:98-135 | The issues of a cache: a version out of range, a balance that is no amount, a version with no room |
| `CacheReconciliation.ReconciliationWrites` | backend/app/services/cache_reconciliation.py:246-310 | The cache becomes the sum of the ledger, the version grows by one within its range, one audit row is added, nothing else changes |
| `CacheReconciliation.ApplyAnswers` | backend/app/services/cache_reconciliation.py:151-246 | What a call answers otherwise, each for its own cause: an account that may not, an unknown rider, a cache that needs no correction, evidence that does not allow one |
| `CacheReconciliation.OnlyReconciliationWrites` | backend/app/services/cache_reconciliation.py:151-316 | A reconciliation writes, and no other answer does |
| `CacheReconciliation.ReconciledAgrees` | backend/app/services/cache_reconciliation.py:98-149 | Afterwards the preview says ok at every later reading of the clock |
| `CacheReconciliation.PreviewedIsApplied` | backend/app/services/cache_reconciliation.py:45-48 | A request built from an earlier preview writes only if nothing it showed has changed, and then writes what it showed |
| `CacheReconciliation.NewEntryIsTheAdjustment` | backend/app/services/cache_reconciliation.py:98-135 | After a cache agreed, a new processed ledger entry makes the preview ask for exactly its amount, up for a credit kind and down for a debit kind |
| `CacheReconciliation.AtMostOncePerVersion` | backend/app/services/cache_reconciliation.py:151-316 | Over every run with writers that never lower a version, a version of a rider is reconciled at most once |
| `CacheReconciliation.EveryVersionIsAudited` | backend/app/services/cache_reconciliation.py:240-310 | Conservation: over every run in which only the service writes riders, a row gains exactly one version per audit row about it, its ledger stays, and without a new audit row it is untouched |
| `CacheReconciliation.ReplayAnswersTheSame` | backend/app/services/cache_reconciliation.py:193-236 | Repeating the request after a lost response gives the same balances, versions and audit row and changes nothing |
| `CacheReconciliation.AlreadyAppliedIff` | backend/app/services/cache_reconciliation.py:193-239 | A mismatch is answered as already applied exactly when an audit row of the same request describes what is there, and refused otherwise |
| `CacheReconciliation.AlreadyAppliedIsTrue` | backend/app/services/cache_reconciliation.py:206-236 | Such an answer is backed by an audit row and a cache that still equals the ledger |
| `CacheReconciliation.CacheReconciliationService.Synchronize` | backend/app/services/cache_reconciliation.py:151-319 | The in-place method refines the atomic step and rolls back on refusal |
| `CachePaging.FollowVisitsAll` | backend/app/services/cache_reconciliation.py:321-354 | Following the cursor over a fixed table ends, and visits every matching rider exactly once in order, in full pages |
| `CachePaging.FollowIsCut` | backend/app/services/cache_reconciliation.py:321-334 | Querying each page anew behind the cursor is cutting the whole selection into pages |
| `CachePaging.WalkMissesNobody` | backend/app/services/cache_reconciliation.py:321-334 | While riders come, go and change, no rider is seen twice and every rider that matched all along is seen by the last page |
| `CachePaging.WalkIsFull` | backend/app/services/cache_reconciliation.py:321-334 | Every request but the last brings a full page, however the table changes |
| `CachePaging.WalkShows` | backend/app/services/cache_reconciliation.py:321-334 | Nothing is seen that did not match at some request |
| `CachePaging.PageCountsAddUp` | backend/app/services/cache_reconciliation.py:336-354 | The four status counts of a page add up to its size |
| `CachePaging.PageRefused` | backend/app/services/cache_reconciliation.py:321-354 | A page is refused exactly for a bad size, or when one of its riders is gone |
| `CachePaging.PageMeaning` | backend/app/services/cache_reconciliation.py:336-354 | A page holds the previews of the next riders, counts each under its own status, and has a cursor exactly if there are more |
| `CachePaging.AuditStateMeaning` | backend/app/services/cache_reconciliation.py:356-387 | An audit page holds the analyses of the next riders, counts each verdict, and is verified exactly when it is not empty and all its ledgers are, to be reviewed exactly when one is |
| `DocumentUploads.CommittedRowsHaveTheirFiles` | backend/app/services/document_uploads.py:97-131 | With concurrent batches, failures, crashes and cancellations after every step and commits of unknown outcome, every committed row has its file with exactly the validated bytes |
| `DocumentUploads.SettledFilesStay` | backend/app/services/document_uploads.py:133-171 | Files from before a batch, and files whose commit was attempted, are never removed or written again |
| `DocumentUploads.FailedBatchLeavesNothing` | backend/app/services/document_uploads.py:142-171 | A batch that ended before its commit attempt never affects a row and, if no unlink failed, leaves no file |
| `DocumentUploads.FailedForGood` | backend/app/services/document_uploads.py:142-171 | Nothing that comes later gives such a batch an effect or a file |
| `DocumentUploads.RowsChangeWithAnEffect` | backend/app/services/document_uploads.py:127-131 | Rows change only all at once, with the transaction of a batch that attempted its commit, or by a deletion |
| `DocumentUploads.AnswersAreHonest` | backend/app/services/document_uploads.py:142-171 | Success means the transaction took effect; "could not save" means it never will; "uncertain" means attempted and unconfirmed, with all files kept |
| `DocumentUploads.UploadSucceeds` | backend/app/services/document_uploads.py:97-171 | When nothing fails the upload goes through: the file has all its bytes, its row is committed with the others, and the answer is no error |
| `DocumentUploads.CommitOutcomes` | backend/app/services/document_uploads.py:127-171 | A commit whose flush fails attempts nothing; any other keeps all files, has an effect or not, and is answered as uncertain unless it was confirmed |
| `DocumentUploads.TakenPathIsRefused` | backend/app/services/document_uploads.py:97-110 | A path that exists already is left alone |
| `DocumentUploads.AnyMomentMayFail` | backend/app/services/document_uploads.py:94-171 | The process may be gone at any moment, and the block may be left by an error at any moment while it runs |
| `DocumentUploads.OtherSteps` | backend/app/services/document_uploads.py:88-95 | A batch can begin at any moment, and a row can be deleted, which leaves its file |
| `DocumentUploads.ExitReplyMeaning` | backend/app/services/document_uploads.py:142-171 | Which errors pass and which are replaced: none is hidden once the commit is confirmed |
| `DocumentUploads.CleanupIsItsSteps` | backend/app/services/document_uploads.py:133-140 | The clean-up loop is the unlink steps of the batch, whichever of them fail |
| `DocumentUploads.CleanedRemovesExactly` | backend/app/services/document_uploads.py:133-140 | Clean-up removes only files of the batch, and all of them when no unlink fails |
| `DocumentUploads.DocumentUploadBatch.Store` | backend/app/services/document_uploads.py:97-125 | Exclusive create, registration of the path, and a write that may stop after any number of bytes, tied to the step system |
| `DocumentUploads.DocumentUploadBatch.Commit` | backend/app/services/document_uploads.py:127-131 | Flush, attempt, effect and confirmation or error are the moves of the step system in this order |
| `DocumentUploads.DocumentUploadBatch.Cleanup` | backend/app/services/document_uploads.py:133-140 | The loop leaves exactly the files that the clean-up function says |
| `DocumentUploads.DocumentUploadBatch.Exit` | backend/app/services/document_uploads.py:142-171 | Leaving is the moves of the step system: after an attempt only the answer, before it one unlink per path and then the answer |
| `DocumentReview.NoErrorIffComplete` | backend/app/services/document_review.py:62-75 | The check passes exactly for one approved document with a file of each of the four kinds and no other |
| `DocumentReview.ReadyIff` | backend/app/services/document_review.py:62-94 | The rider is ready exactly with one approved document of each of the four kinds, no other, and every file readable |
| `DocumentReview.DefectMeaning` | backend/app/services/document_review.py:62-75 | Which defect a set has: two documents of a kind, a missing kind, one that is not approved, one without a file, the first of these |
| `DocumentReview.FirstDefect` | backend/app/services/document_review.py:78-87 | And of the files, the defect of the first one that cannot be read, empty or not there |
| `DocumentReview.RunKeepsEligible` | backend/app/services/document_review.py:96-219 | Over every run of reviews, deletions, replacements, reports and administrative changes, a rider who is ACTIVO, OCUPADO or online has a complete set, and online implies ACTIVO or OCUPADO |
| `DocumentReview.DocumentStepsRespectAdministration` | backend/app/services/document_review.py:96-133 | No document operation lifts or imposes SUSPENDIDO or INACTIVO; the only way up is an approval that completes the set |
| `DocumentReview.ReviewSettles` | backend/app/services/document_review.py:96-175 | After an accepted review of a rider who is PENDIENTE: ACTIVO, offline and with the time of approval exactly if it was an approval that leaves a ready set; a set that is not ready takes a working rider to PENDIENTE and everybody offline, and a ready one changes nothing else |
| `DocumentReview.DeleteSettles` | backend/app/services/document_review.py:178-188 | A deletion never activates; it takes a rider whose set is no longer ready offline, and to PENDIENTE if working |
| `DocumentReview.ActivateAnswers` | backend/app/api/v1/riders.py:1205-1230 | An administrator can activate exactly a rider with a ready set, who then is ACTIVO and offline; a refusal that persists restricts like any other |
| `DocumentReview.RetireAnswers` | backend/app/api/v1/riders.py:1404-1429 | A status that is not a working one takes the rider offline and keeps the time of approval |
| `DocumentReview.OtherWriters` | backend/app/models/rider.py:176-178 | A deleted rider takes exactly its documents along; registration, going offline and the working status change only that rider and that field |
| `DocumentReview.InvalidationRejects` | backend/app/services/fleet_assignment.py:94-110 | A change of vehicle rejects every document of the rider, with its reason and time, and nobody else's |
| `DocumentReview.ReportAnswers` | backend/app/services/document_review.py:191-219 | A report is accepted exactly for a permitted status and a ready set; each refusal has its cause, and persists the restriction with the rider offline |
| `DocumentReview.ReviewRefuses` | backend/app/services/document_review.py:136-160 | A review is accepted exactly for a valid decision on the document as it was seen, an approval only for a single readable document of its kind; each refusal has its one cause, in this order |
| `DocumentReview.UnknownDocument` | backend/app/services/document_review.py:32-49 | A document that is not there, or whose rider is not, is neither reviewed nor deleted |
| `DocumentReview.ReviewWrites` | backend/app/services/document_review.py:160-175 | What an accepted review writes: the status, the reason without outer blanks for a rejection and none for an approval, the time, and no other document |
| `DocumentReview.DeleteAnswers` | backend/app/services/document_review.py:178-188 | A deletion removes exactly the document as it was seen, and is refused for any other token |
| `DocumentReview.ReplaceAnswers` | backend/app/services/document_uploads.py:174-230 | A file is taken for a kind the rider has no document of, or a rejected one, and by leave for a pending one |
| `DocumentReview.ReplaceExisting` | backend/app/services/document_uploads.py:194-230 | What a replacement writes: the file in the same row, pending again and without a reason |
| `DocumentReview.ReplacedTokenIsStale` | backend/app/services/document_uploads.py:194-230 | After a replacement the token of the earlier file is refused by reviews and deletions |
| `DocumentReview.ReviewedTokenIsStale` | backend/app/services/document_review.py:136-188 | After an accepted review the same token still deletes exactly if the review changed nothing, down to its time, and otherwise no second review takes it |
| `DocumentReview.FindUnavailable` | backend/app/services/document_review.py:78-87 | The loop over the files finds the defect of the first unreadable one |
| `DocumentReview.DocumentTables.RestrictRiderDocuments` | backend/app/services/document_review.py:96-111 | Offline, and under review if the rider was working |
| `DocumentReview.DocumentTables.ReconcileDocumentEligibility` | backend/app/services/document_review.py:114-133 | The in-place reconciliation refines the function the invariant is proved about |
| `DocumentReview.DocumentTables.ReviewDocument` | backend/app/services/document_review.py:136-175 | The in-place review refines the atomic step, refusals included |
| `DocumentReview.DocumentTables.DeleteReviewedDocument` | backend/app/services/document_review.py:178-188 | The in-place deletion refines the atomic step |
| `DocumentReview.DocumentTables.ReplaceDocument` | backend/app/services/document_uploads.py:185-230 | The in-place replacement refines the atomic step |
| `DocumentReview.DocumentTables.ReportRiderOnline` | backend/app/services/document_review.py:191-219 | The in-place report refines the atomic step |
| `DeliveryBonus.HigherBaseNeverPaysLess` | backend/app/services/delivery_service.py:237-247 | A higher base never freezes less |
| `DeliveryBonus.SnapshotMeaning` | backend/app/services/delivery_service.py:145-257 | The frozen amount is base x zone x tier, with 1.00, 1.05, 1.10 or 1.15 for the tier, to the nearest cent and the larger at a tie; nothing is frozen exactly with a warning, which names the part that is missing or out of range |
| `DeliveryClosing.OneOutcomePerOrder` | backend/app/services/delivery_service.py:376-663 | Over every run no order has both bonuses, delivery and order close with the same outcome, and a bonus is on the ledger exactly when a positive amount is frozen, with that amount |
| `DeliveryClosing.ClosedNeverChanges` | backend/app/services/delivery_ledger.py:57-90 | Once a delivery is closed no call changes its row, its order or its bonuses |
| `DeliveryClosing.StepKeepsInv` | backend/app/services/delivery_service.py:376-663 | Every call, and every other writer that moves open rows to open statuses, keeps both rows and the ledger consistent |
| `DeliveryClosing.CompleteAnswers` | backend/app/services/delivery_service.py:442-539 | A completion succeeds exactly for a delivery under way, the right code, a permitted account and a ledger that takes what is to be paid; each refusal has its one cause |
| `DeliveryClosing.CompleteWrites` | backend/app/services/delivery_service.py:470-539 | What it writes, row by row: the frozen amount is what the configuration earns to the nearest cent, and exactly one entry of that amount is booked for the rider if it is positive |
| `DeliveryClosing.FailAnswers` | backend/app/services/delivery_service.py:541-645 | A failure succeeds exactly from its four statuses with a known cause; only a cause outside the rider's hands with something to pay needs the ledger |
| `DeliveryClosing.FailWrites` | backend/app/services/delivery_service.py:582-666 | What it writes: an amount is frozen exactly for the nine causes outside the rider's hands, to the nearest cent, and booked if it is positive |
| `DeliveryClosing.CancelAnswers` | backend/app/services/order_cancellation.py:97-339 | An order is cancelled exactly while it is open and its delivery, if any, is with its own rider; the delivery goes with it and nothing else changes |
| `DeliveryClosing.CreateAnswers` | backend/app/services/delivery_service.py:376-405 | A creation succeeds exactly for an order assigned or at its pick-up, with a rider and no delivery, and adds one row |
| `DeliveryClosing.StartAnswers` | backend/app/services/delivery_service.py:407-440 | A start succeeds exactly for the rider of a delivery not yet on its way, and changes its status and start |
| `DeliveryClosing.CompleteOverAnyTables` | backend/app/services/delivery_ledger.py:57-90 | Over tables in any state: a lost order and an order with the other bonus are refused, the same entry is not booked twice, and a different one under its key is refused |
| `DeliveryClosing.FailOverAnyTables` | backend/app/services/delivery_ledger.py:57-90 | The same for a failure |
| `DeliveryClosing.CancelOverAnyTables` | backend/app/services/order_cancellation.py:128-339 | Over tables in any state no order is cancelled that has two deliveries, a closed or paid one, or a bonus |
| `DeliveryClosing.WritesOverAnyTables` | backend/app/crud/delivery.py:50-87 | The insert and the update look at the rows as they are when they write: a lost or cancelled order and a cancelled delivery are refused, whatever was read before |
| `DeliveryClosing.OtherWriters` | backend/app/crud/delivery.py:60-87 | The other writers of a run add orders and move open rows to open statuses, and touch nothing else |
| `DeliveryClosing.LateStartIsSafeIffOpen` | backend/app/services/delivery_service.py:415-440 | A start that read before the row closed is refused only for a cancelled delivery, and keeps the system consistent exactly when the delivery is not closed at the write |
| `DeliveryClosing.LateStartReopens` | backend/app/services/delivery_service.py:415-440 | Such a late start can reopen a failed delivery |
| `DeliveryClosing.DeliveryTables.UpdateDelivery` | backend/app/crud/delivery.py:60-87 | The generic update refuses exactly cancelled orders, and then cancelled deliveries and the target CANCELADA, and otherwise writes the row |
| `DeliveryClosing.DeliveryTables.CloseDelivery` | backend/app/services/delivery_service.py:498-539 | The writes of a closing happen all or not at all: a refused ledger entry rolls the row back |
| `DeliveryClosing.DeliveryTables.CompleteDelivery` | backend/app/services/delivery_service.py:442-539 | The in-place completion refines the atomic step |
| `DeliveryClosing.DeliveryTables.FailDelivery` | backend/app/services/delivery_service.py:541-666 | The in-place failure refines the atomic step |
| `DeliveryClosing.DeliveryTables.StartDelivery` | backend/app/services/delivery_service.py:407-440 | The in-place start refines the atomic step |
| `DeliveryConcurrency.EveryScheduleIsSerial` | backend/app/services/delivery_ledger.py:57-90 | For every interleaving of creations, starts, completions, failures, cancellations and other writers, cut into first read, lock order, lock deliveries, lock rider, decide and write, commit or roll back: the committed tables are those of the committed work done one at a time, and each call's work is what its first read of an earlier state led to |
| `DeliveryInterleavings.CommittedIsWhole` | backend/app/services/delivery_service.py:376-663 | A committed completion, failure or cancellation is the whole call at its commit; a creation is unless another writer moved its order after the read; a start is exactly if its checks still pass |
| `DeliveryWork.PerformReadsOnly` | backend/app/services/delivery_ledger.py:57-90 | What a start, closing or cancellation decides and writes depends on the rows of its own order alone |
| `DeliveryWork.PerformWritesOnly` | backend/app/services/delivery_service.py:376-663 | Every call writes rows of its own order only, and loses none |
| `DeliveryWork.WritesAreLocked` | backend/app/services/delivery_service.py:376-663 | Every row that changes is locked: the deliveries a call writes, the rider who gets a bonus, the rider of an order that is cancelled |
| `DeliveryConcurrency.CommitIsItsWork` | backend/app/services/delivery_service.py:498-539 | The rows staged under the locks, laid over the tables at commit time, are exactly the work done on those tables |
| `DeliveryInterleavings.ConsistentIffNeverReopened` | backend/app/services/delivery_service.py:376-663 | In every interleaving deliveries, orders and bonuses agree after every commit exactly when no start wrote to a delivery closed after it was read |
| `DeliveryInterleavings.LateCreateKeepsTheOldRider` | backend/app/services/delivery_service.py:376-405 | A creation that read an order before it was reassigned inserts a delivery for the earlier rider, and the order can no longer be cancelled |
| `DeliveryInterleavings.RowsAreFree` | backend/app/services/delivery_ledger.py:57-75 | With the order locked first, no session ever waits for a delivery row |
| `DeliveryInterleavings.BlockedIff` | backend/app/services/delivery_ledger.py:57-90 | A session is blocked exactly by the holder of its order or its rider; a rider's holder can move, and an order's holder can or waits for a rider |
| `DeliveryInterleavings.NoDeadlock` | backend/app/services/order_cancellation.py:119-162 | Every reachable state with an unfinished call has a call that can move |
| `DeliveryInterleavings.SchedulesAreBounded` | backend/app/services/delivery_service.py:376-663 | Without new arrivals the sessions make a bounded number of moves, whatever other writers do in between |
| `DeliveryInterleavings.AloneIsAtomic` | backend/app/services/delivery_service.py:376-663 | A session that meets nobody ends with the answer and the tables of the atomic call, refusals included |
| `DeliveryInterleavings.ArrivalIsAtomic` | backend/app/services/delivery_service.py:376-663 | A call can come in at any moment, and run alone from then on it is the atomic call |
| `DeliveryInterleavings.AbortLeavesNothing` | backend/app/services/delivery_service.py:376-663 | A call can break off at any moment before its end, which frees its rows and changes no table |
| `DeliveryInterleavings.OutsiderWaitsForTheOrder` | backend/app/services/delivery_ledger.py:57-75 | Another writer can move an order or its delivery exactly while no call has the order locked |
| `DeliveryInterleavings.CancelledEndsAtOnce` | backend/app/services/delivery_ledger.py:57-75 | The lock of a cancelled order ends every call but a cancellation at once |
| `DeliveryInterleavings.WaitsForItsRows` | backend/app/services/delivery_service.py:376-663 | A call stands still exactly while another has locked the order, a delivery or the rider it needs next |
| `DeliveryLocks.CommitWritesLockedRows` | backend/app/services/delivery_ledger.py:57-90 | In every interleaving a call that commits holds the lock of every row its commit changes: the order, each delivery, and the rider it pays |
| `FiscalIntegrity.AmountRoundTrip` | backend/app/services/fiscal_integrity.py:34-48 | Every amount from 0 to 2^63-1 cents written with two decimals reads back as the same cents |
| `FiscalIntegrity.NegativeAmountIsRefused` | backend/app/services/fiscal_integrity.py:34-48 | A negative amount is written, and refused when it is read as money |
| `FiscalIntegrity.UnitPriceRoundTrip` | backend/app/services/fiscal_integrity.py:69-78 | A unit price exists exactly for a quantity of 1 to 1000 and valid cents, and times the quantity rounds back to exactly those cents |
| `FiscalIntegrity.MoneyToCentsMeaning` | backend/app/services/fiscal_integrity.py:28-42 | Which values are money: not negative, and the hundredfold in the 28-digit context within half a cent of a number of cents that fits |
| `FiscalIntegrity.MoneyIsRefused` | backend/app/services/fiscal_integrity.py:28-42 | Every other value is refused as no money, and as cents out of range exactly between 63 bits and 28 digits |
| `FiscalIntegrity.ContextRoundMeaning` | backend/app/services/fiscal_integrity.py:34-38 | The decimal context rounds to the nearest number of 28 significant digits, at a tie to the one that is even in its last place |
| `FiscalIntegrity.AmountIsWrittenIff` | backend/app/services/fiscal_integrity.py:45-48 | An amount is written exactly if its size fits 63 bits |
| `FiscalIntegrity.NearestUnlessRoundedToATie` | backend/app/services/fiscal_integrity.py:34-42 | The result is the exact value rounded half up, exactly unless the context has rounded the hundredfold up to half a cent; so always with at most 28 digits |
| `FiscalIntegrity.RoundedToATie` | backend/app/services/fiscal_integrity.py:34-42 | A value of 29 digits just below half a cent that becomes one cent |
| `FiscalIntegrity.UnitIsExactlyRounded` | backend/app/services/fiscal_integrity.py:69-78 | The quotient in the 28-digit context, rounded to six decimals, is the exact quotient rounded half up |
| `FiscalIntegrity.ParseFormat` | backend/app/services/fiscal_integrity.py:45-48 | Plain notation reads back as the same coefficient and scale, for every number |
| `ConnectionIndex.RunKeepsIndexed` | backend/app/core/websocket.py:25-67 | While no connection comes again for a user who has it and only live identifiers subscribe, both indexes denote relations over live identifiers, without duplicates or empty lists; a reuse under another user replaces the socket behind the identifier |
| `ConnectionIndex.StepChangesExactly` | backend/app/core/websocket.py:25-67 | Each operation adds or removes exactly its own pairs; a disconnection removes exactly those of its connection from both |
| `ConnectionIndex.PurgeRemovesExactly` | backend/app/core/websocket.py:54-65 | Purging a dictionary removes exactly the pairs of one connection |
| `ConnectionIndex.AppendAddsExactly` | backend/app/core/websocket.py:40-43 | Appending keeps a list free of duplicates exactly when the pair is new |
| `ConnectionIndex.PurgeLeavesNoneIff` | backend/app/core/websocket.py:54-65 | Purging any dictionary leaves no entry of a connection exactly when no list held it more than once |
| `ConnectionIndex.DisconnectLeavesNoneIff` | backend/app/core/websocket.py:47-67 | After any run a disconnection leaves no entry in either index exactly when no user has the identifier twice |
| `ConnectionIndex.ConnectKeepsWellFormedIff` | backend/app/core/websocket.py:25-45 | A connection keeps the user index a relation exactly when its pair is not there yet |
| `ConnectionIndex.UsersStayARelationIff` | backend/app/core/websocket.py:25-67 | Over a run the user index is a relation all along exactly when no connection comes again for a user who has it |
| `ConnectionIndex.TopicsStayARelation` | backend/app/core/websocket.py:133-146 | The topic index is a relation in every run, whoever subscribes |
| `ConnectionIndex.UnsubscribedIsDropped` | backend/app/core/websocket.py:140-146 | No topic is left with an empty list, not even one that was there before |
| `ConnectionIndex.ReusedIdLeavesAnEntry` | backend/app/core/websocket.py:25-67 | An identifier used twice for a user leaves an entry after its disconnection |
| `ConnectionIndex.DeliveredOnlyIfEntitled` | backend/app/core/websocket.py:87-114 | A message goes out only to a connection that is live and subscribed at that moment and past its guard; a refusing guard leaves no trace of the connection |
| `ConnectionIndex.DeliveredIffEntitled` | backend/app/core/websocket.py:87-114 | And every entitled message does go out: exactly to a connection subscribed when it is sent and connected, with a guard also let through and both again after it; each way of closing has its own code |
| `ConnectionIndex.ConnectionManager.Connect` | backend/app/core/websocket.py:25-45 | The in-place connect refines the step |
| `ConnectionIndex.ConnectionManager.PurgeIndex` | backend/app/core/websocket.py:54-65 | The loop over a snapshot of the keys purges every list, in any order |
| `ConnectionIndex.ConnectionManager.Disconnect` | backend/app/core/websocket.py:47-67 | The in-place disconnect refines the step |
| `ConnectionIndex.ConnectionManager.Subscribe` | backend/app/core/websocket.py:133-138 | The in-place subscribe refines the step |
| `ConnectionIndex.ConnectionManager.Unsubscribe` | backend/app/core/websocket.py:140-146 | The in-place unsubscribe refines the step |
| `UploadBody.FilterMeaning` | backend/app/middleware/document_upload_limit.py:34-80 | A body goes on exactly when it ends within the limit before the client leaves, is what was received byte for byte, and has the declared length if there is one |
| `UploadBody.DeclaredMeaning` | backend/app/middleware/document_upload_limit.py:34-51 | Which lengths are taken from the headers: none, the one numeral of at most 20 digits, or a malformed one |
| `UploadBody.RefusalMeaning` | backend/app/middleware/document_upload_limit.py:28-78 | Which refusal a body gets, and when none: the limit is 41 MiB for a registration and 11 MiB for a single document |
| `UploadBody.ReplayIsTheBody` | backend/app/middleware/document_upload_limit.py:79-94 | The replayed chunks are the body, each at most 64 KiB, and only the last has no more to come |
| `UploadBody.ReplayIsReceivedAgain` | backend/app/middleware/document_upload_limit.py:52-96 | Receiving the replay gives the accepted body again, so the filter is transparent |
| `UploadBody.SpoolBody` | backend/app/middleware/document_upload_limit.py:34-78 | The receive loop with its running total refines the filter |
| `UploadBody.Replay.Next` | backend/app/middleware/document_upload_limit.py:83-94 | One chunk from the position, and the rest stays to come |
| `UploadBody.Drain` | backend/app/middleware/document_upload_limit.py:81-96 | Reading until no more is announced gives all chunks and ends |

## Left out

- ORM models, migrations, request schemas, endpoint wiring, authentication tokens, password and hashing code, metrics, alerts and notification writers: plumbing around the modelled services.
- Digests: fingerprints and revisions are the tuples they cover, so collisions are not modelled.
- Floating point: scores are in hundredths, clocks in microseconds or reals, bonuses in exact decimals. The 28-digit decimal context is part of `FiscalIntegrity` only.
- Shifts: rows written as INCOMPLETO by background workers, manager approval, deletion of shifts, and `updated_at`; the model reads INCOMPLETO but no step of a run produces it.
- Text: blank-stripping covers the ASCII blanks, and the case folding of bank references the ASCII letters; other Unicode classes are not modelled.
- Bank statements: parsing of CSV text and date formats; a run starts from dated lines with amounts in cents. Characters are Unicode scalar values, so a lone surrogate in a reference is not modelled; errors of the database that no line causes are not either.
- Rate limiting: the Redis branch of the fixed window, usage statistics, response headers, exempt paths and preflight requests, and the extraction of the caller from a token; a slot of the local fixed window is a pair and not a formatted string.
- Cache synchronisation: the version test in the update statement, which cannot fail under the row lock, and the ordering of audit rows by time, which `CacheReconciliation.OneRowAnswers` shows to be irrelevant.
- Ledger writer: idempotency keys, free-text fields and the expected opening balance of `create_ledger_entry`; `DeliveryClosing` models its unique key, and whether it accepts an entry is an input there.
- Uploads: content sniffing, path resolution and symbolic links; a batch starts from a validated document and a path that may or may not exist. A commit of unknown outcome may take effect at any later time, even after a rollback, which only adds runs.
- Documents: a rider row without any status, and the fleet change that leads to the rejection of all documents of a rider.
- Deliveries in parallel: the inputs of a call (clock, bonus configuration, permission, whether the ledger accepts) are fixed when it arrives, another writer moves a row in one step and only while its order is not locked, and the insert of a new delivery goes with its commit.
- Deliveries: OTP comparison in constant time, GPS rows, and the route, alert and invoice checks of a cancellation, which are one input; the update of an order straight to a final status by the order service is not part of the runs.
- Money as text: exponents, signs other than a leading minus, and blanks in decimal text.
- Connections: `send_personal_message` is one function of the states before and after its awaits; broadcasts, which call it in a loop, and locks of one connection are not modelled.
- Upload bodies: the choice of routes and the temporary file, which is a sequence of bytes; the message sequence is finite, and a body still incomplete is an outcome.
