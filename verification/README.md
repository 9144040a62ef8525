# codex-usage-monit: verified model

A Dafny model of the accounting core of codex-usage-monit and of the smaller
state machines around it, with proofs about every input, every run and every
reachable state.

The centre is one pipeline. Usage calls of a session are captured from a dataset,
saved in a durable deletion ledger, overlaid back onto the dataset once the logs
are gone, and folded into token, price and quota totals. The theorem that crosses
all of it, `Deletion.DeletionKeepsEveryAnalysis`, is the promise of the user
documentation: deleting a session changes no number. `DeletedHistory` says the same of
turns, interactions and tasks.

| module | subject |
|---|---|
| `Saturating`, `Folding`, `Ordering`, `Text`, `Time`, `Options` | saturating counters, order-independent folds, stable sorting, Rust's text classes |
| `Tokens` | token counters: addition, normalisation, deltas |
| `Dataset`, `Records`, `Capture` | usage calls and their keys; saved session records and their merge; what a capture takes |
| `Ledger`, `LedgerRuns`, `LedgerWitnesses` | the ledger tables and their two transactions; every run of them; concrete runs |
| `Overlay`, `OverlayLaws`, `OverlayOrder`, `OverlayConflicts`, `OverlayLoop` | what the overlay yields; its laws; its warnings; the in-place loops that compute it |
| `Pricing`, `PriceRange`, `Credits` | API price ranges and credit units of one sample, against every split into requests |
| `PriceTiers`, `CreditWeights` | the price and the units of every call, by its texts and counters |
| `Aggregation`, `Attribution`, `WindowEntries` | window totals and breakdowns; quota and token shares; what each entry holds |
| `Deletion`, `DeletedHistory` | capture, prepare, outcomes, removal and overlay end to end: calls and analyses; turns, interactions and tasks |
| `EventLog`, `LogLevels`, `BoundedLine`, `RotatingLog` | diagnostic observations, what each level writes, the bounded line reader, the rotating log |
| `StopToken` | interleavings of `request_stop` and `wait_timeout` |
| `GitCache`, `GitResolver`, `GitStaleness`, `GitRemote`, `GitSpellings`, `GitFingerprints` | the persistent evidence cache, the resolver, how old its evidence gets, the remote normaliser, and from remotes to fingerprints |
| `Inventory`, `Listings` | paginated listings from an arbitrary server; what they must be to be believed |
| `Release`, `ReleaseContents` | two-file publication with rollback; what it leaves and what it refuses |

Where the source changes things step by step, the model has a class or a loop: the
ledger, the dataset under overlay, the window aggregation, the event log, the line
reader, the rotating file, the evidence cache and resolver, the listings and the
release directory. Each such method is proved against a specification function or
a property stated without its loop, and the laws are lemmas about that.

## How to read the results

The environment is a parameter and never restricted: servers, disks, clocks, Git
and the model catalogue are arbitrary functions; crashes, failed writes and
interrupts may occur at every step that the source can observe them.

Some properties that one might expect are false of the code. For each there is a lemma
or a method whose contract shows how it fails, and one that states exactly when it holds:

- A second overlay may report a conflict that the first did not: if several live calls share an event id, the
  first one compares with the last of them in the log and the second with the latest in time
  (`OverlayConflicts.SecondOverlayMayWarn`, `OverlayConflicts.SecondOverlayRepeatsConflicts`).
- Operation ids with control characters are accepted by a prepare and refused by the receipt query for good,
  which blocks every later prepare (`LedgerWitnesses.LineFeedIdIsAccepted`, `LedgerRuns.ControlCharacterWedges`,
  `LedgerRuns.ReceiptsReadableExactly`). The one caller in the program passes 32 hexadecimal digits
  (src/session_delete.rs:265-272).
- An outcome may reopen a resolved member past the budget of 512 (`LedgerWitnesses.OverflowingRun`,
  `LedgerRuns.PendingBudgetHolds`). No caller in the program does so: src/session_delete.rs:199-383 reports an
  outcome only for members that are pending or unresolved.
- A counter whose total moves without any detail is not rebuilt by its delta
  (`Tokens.DeltaMayNotRebuild`, `Tokens.DeltaRebuildsExactly`).
- The price range misses a split if one rate rises and another falls when a request becomes long; if all rates
  move the same way it is sound (`PriceRange.UnorderedRatesMissASplit`, `PriceRange.RangeIsSoundExactly`).
- The settled flag of a restored task needs a confirmed deletion (`Deletion.SettledMayBeLost`,
  `Deletion.SettledAfterOverlay`).
- Of turns that share an id and differ, only the first comes back (`DeletedHistory.SecondTurnMayBeLost`,
  `DeletedHistory.DroppedTurnIsShown`).
- A full event log without a final newline grows one byte past its limit when it is opened
  (`RotatingLog.OpenedMayOverflow`, `RotatingLog.OpenedFitsExactly`); a log that this writer left behind, by a
  crash at any moment, is never of that kind (`RotatingLog.ProcessesStayWithin`).
- A crash while the live file is copied leaves lines in both files, so the next process finds them twice; every
  rotation of a file that is not empty passes through such a state (`RotatingLog.RotatingFile.Rotate`,
  `RotatingLog.RepeatsExactly`).
- A repository-relative root with a backslash, a control character or more than 2048 bytes
  is found by the resolver but refused by the cache, which then cannot be written at all
  (`GitCache.BackslashIsNotStorable`, `GitCache.RelativeRootStorable`, `GitCache.PersistentState.Persist`).
- An scp-like remote is refused or read as something else when it looks like a drive letter, when its
  path starts with two slashes or has a colon, and a blank before a query spoils every spelling
  (`GitSpellings.SpellingsAgreeExactly`, `GitSpellings.DriveLetterIsRefused`,
  `GitSpellings.BlankBeforeQueryIsRefused`).
- An interrupt between a rename and the statement behind it is not rolled back correctly, and a reference to the
  target in the metadata of another target is never looked at (`Release.InterruptMayBreakTheBundle`,
  `Release.ForeignReferenceMayBreak`, `Release.ConsistentAfterPublication`).
- One inspection reads the clock several times. If inspections take no time, a reported root is younger than one
  TTL and its remote younger than two; as soon as they take any time, neither bound holds, and the exact bounds
  add twice (root) and three times (remote) the longest inspection (`GitResolver.Resolver.Inspect`,
  `GitStaleness.OldestRoot`, `GitStaleness.OldestRemote`).

## Model

| member | source | states |
|---|---|---|
| Tokens.UnclassifiedIsHomomorphic | src/domain.rs:138-170 | `unclassified` of a sum is the saturating sum of both `unclassified` values, although it switches on zero fields |
| Tokens.NormalisedIsInvisible | src/domain.rs:138-170 | writing the unclassified part out in its field never changes a later sum; adding to the default counter only normalises |
| Tokens.AddAssociates | src/domain.rs:157-170 | `add_assign` is associative, saturation included |
| Tokens.AddAccumulates | src/domain.rs:157-170 | it is also commutative, so any two additions to an accumulator may be exchanged |
| Tokens.TotalPermutation | src/domain.rs:157-170 | the total of any list of counters depends only on which counters it holds |
| Tokens.ValidBreakdownsAreClosed | src/domain.rs:146-170 | valid breakdowns are closed under addition that does not overflow |
| Tokens.DeltaRebuildsExactly | src/domain.rs:183-206 | adding a delta to the earlier counter gives the later one up to normalisation exactly unless the total alone moved and the unclassified count is not saturated |
| Tokens.DeltaRebuilds | src/domain.rs:183-206 | two counters with valid breakdowns always satisfy that condition |
| Tokens.DeltaMayNotRebuild | src/domain.rs:183-206 | a concrete pair of counters without valid breakdown that its delta does not rebuild |
| Tokens.DeltasTelescope | src/domain.rs:183-206 | along any chain the first counter plus all deltas is the last counter |
| Tokens.DeltaSumIsOverallDelta | src/domain.rs:183-206 | along any chain the sum of the deltas equals the one delta from the first counter to the last |
| Dataset.KeyMapDeterminesMultiset | src/deleted_sessions.rs:118-128 | lists with distinct keys and the same key-to-call map hold the same calls |
| Records.Validate | src/deleted_sessions.rs:231-277 | the single pass with a set of seen keys accepts exactly the valid records |
| Records.AcceptedCall | src/deleted_sessions.rs:231-277 | a call is accepted exactly if it is of the record's thread, not later than the capture, and each of its four texts that is there has at most 4096 bytes and no control character |
| Records.UnionCalls | src/deleted_sessions.rs:770-785 | a conflict is reported exactly if both sides hold different calls under one key; otherwise the map is the union of both |
| Records.MergeSavedRecord | src/deleted_sessions.rs:757-816 | a merge succeeds exactly for compatible records, says which contradiction refused it, and yields a valid record with the union of the calls in saved order |
| Records.MergePreservesBoth | src/deleted_sessions.rs:757-816 | a merged record keeps every event and edge of both sides unaltered and every turn id, and its capture time is not earlier than either |
| Records.MergedInTimeOrder | src/deleted_sessions.rs:786-791 | the calls of a merged record are in time order, at one moment those without an id first and then by id |
| Records.ConflictsByEventId | src/deleted_sessions.rs:118-128 | two captures contradict each other exactly if they hold different calls under one event id; calls without an id never do |
| Capture.CaptureIsComplete | src/deleted_sessions.rs:167-220 | a capture fails as absent exactly without a task of the thread; a successful one holds the task's own details, exactly the thread's calls and turns field by field, and exactly the interactions with the thread at either end |
| Ledger.CheckReadBudget | src/deleted_sessions.rs:729-755 | the check passes exactly within all three budgets: rows, payload size, total bytes |
| Ledger.LoadDeletedSessions | src/deleted_sessions.rs:818-841 | the read gives every session once in thread order, or fails; it fails exactly if a row or a budget is bad |
| Ledger.PendingDeletionReceipts | src/deleted_sessions.rs:849-920 | the query gives the current operation of every unresolved session once in order, or fails; exactly when a row does not reconcile or a budget is exceeded |
| Ledger.CheckBatch | src/deleted_sessions.rs:587-621 | a batch passes exactly if its id and size are allowed, its threads are distinct and each capture is valid and fits |
| Ledger.MergeAndPublish | src/deleted_sessions.rs:640-663 | the loop either finds a member that cannot be merged or is too large, or yields the tables with every member merged against its own earlier row |
| Ledger.DeletionLedger.PrepareDelete | src/deleted_sessions.rs:587-668 | a committed prepare is exactly the specified step; a refused one leaves all three tables unchanged and names a check that the batch or the ledger really fails, with the member or record that fails it |
| Ledger.DeletionLedger.SetDeletionOutcome | src/deleted_sessions.rs:687-727 | a committed outcome is exactly the specified step for the current operation; a refused one changes nothing, and is refused exactly if there is no such step |
| Ledger.PublishedOutcomeAt | src/deleted_sessions.rs:661-662 | each prepared member has a pending outcome dated with its capture |
| LedgerRuns.ReachableLedgerIsConsistent | src/deleted_sessions.rs:587-727 | in every reachable ledger each session's operation exists, its outcome equals the record's status, the deletion time is the outcome's if Deleted and absent otherwise, every record is valid, all budgets hold and the load succeeds |
| LedgerRuns.RunKeepsEvidence | src/deleted_sessions.rs:757-816 | over every run no saved event is lost or altered, turn ids and edges stay, and capture times never decrease |
| LedgerRuns.RunFreezesSuperseded | src/deleted_sessions.rs:687-727 | over every run the outcome of a superseded operation never changes |
| LedgerRuns.ReceiptsByOutcome | src/deleted_sessions.rs:849-920 | in a consistent ledger the receipts name exactly the members whose outcome row is neither deleted nor failed |
| LedgerRuns.ReceiptsReadableExactly | src/deleted_sessions.rs:849-920 | in a reachable ledger the receipt query succeeds exactly if at most 512 members are unresolved and no current operation id holds a control character |
| LedgerRuns.PendingBudgetHolds | src/deleted_sessions.rs:627-635 | a run keeps at most 512 members unresolved in every state exactly if no outcome reopens a resolved member while 512 are unresolved |
| LedgerRuns.ReopeningOverflows | src/deleted_sessions.rs:687-727 | such a step makes the receipts unreadable |
| LedgerRuns.ControlCharacterWedges | src/deleted_sessions.rs:873-879 | a session prepared under an id with a control character makes the receipts unreadable in every later state, so no later prepare ever commits |
| LedgerWitnesses.FreshPrepareCommits | src/deleted_sessions.rs:587-668 | captures of unknown threads can be prepared whenever the ledger is readable and has room |
| LedgerWitnesses.LineFeedIdIsAccepted | src/deleted_sessions.rs:593-596 | a concrete prepare under the id of a line feed commits and leaves the receipts unreadable |
| LedgerWitnesses.OverflowingRun | src/deleted_sessions.rs:687-727 | a concrete run of four steps that reopens a deleted member of a full ledger |
| LedgerWitnesses.CompleteDeletion | src/deleted_sessions.rs:587-727 | a concrete session that is captured, prepared, deleted and restored: all that the deletion theorem asks for happens |
| OverlayLaws.AddRecordsExtends | src/deleted_sessions.rs:947-968 | the overlay only appends, adds each saved owner and key at most once and only if free, and leaves no considered saved call without a place |
| OverlayLaws.OverlayKeepsLiveCalls | src/deleted_sessions.rs:942-1066 | the final calls are the live ones plus the added ones, in time and thread order |
| OverlayLaws.OverlayInTimeOrder | src/deleted_sessions.rs:1060-1064 | the overlaid calls are in time order and those of one moment in lexicographic order of their threads |
| OverlayLaws.SlotIsEvent | src/deleted_sessions.rs:947-968 | a live and a saved call meet exactly if they are the same event, by id or else by all fields, of the same thread |
| OverlayLaws.OverlayTotals | src/deleted_sessions.rs:1029-1059 | each touched task and turn total is the sum of its calls; everything untouched is left as it was |
| OverlayLaws.OverlayIsIdempotent | src/deleted_sessions.rs:942-1066 | overlaying again changes no call, task, turn or interaction |
| OverlayOrder.AddRecordsInThread | src/deleted_sessions.rs:955-968 | what the overlay does to one thread depends only on that thread's calls and record |
| OverlayOrder.OverlayIgnoresRecordOrder | src/deleted_sessions.rs:942-1066 | with one record per thread, every order of the records yields the same call sequence |
| OverlayConflicts.SecondOverlayRepeatsConflicts | src/deleted_sessions.rs:947-968 | a second overlay reports exactly what the first reported if and only if, for each saved call looked up, the last and the latest live call in its slot agree on it |
| OverlayConflicts.OverlayReports | src/deleted_sessions.rs:957-968 | an overlay adds one warning and one skipped line for each saved call that the finished call list contradicts |
| OverlayConflicts.LastAfterSort | src/deleted_sessions.rs:1060-1064 | the final sort makes the latest call of each slot its last one |
| OverlayConflicts.DistinctSlotsRepeatWarnings | src/deleted_sessions.rs:947-968 | with one live call per slot the second overlay repeats all warnings and skipped lines of the first |
| OverlayConflicts.SecondOverlayMayWarn | src/deleted_sessions.rs:947-968 | concrete live calls for which only the second overlay warns |
| OverlayLoop.RolloutDataset.OverlayDeletedSessions | src/deleted_sessions.rs:942-1066 | the in-place loops with their index maps compute exactly the specified overlay |
| OverlayLoop.RolloutDataset.SumTouched | src/deleted_sessions.rs:1029-1046 | the pass over all calls computes the totals of exactly the touched threads and their turns |
| Pricing.RequestIsPriced | src/api_cost.rs:226-301 | each request of a priced sample has one exact price |
| Pricing.SplitPriceIsWithinRange | src/api_cost.rs:226-329 | the exact prices of any split of a priced sample into requests sum to a value within its minimum and maximum, saturation included, if the long rates are all at or above, or all at or below, the short ones |
| Pricing.ShortSplitCostsMinimum | src/api_cost.rs:226-329 | every split into short requests costs exactly the minimum |
| Pricing.OneRequestCostsMaximum | src/api_cost.rs:226-329 | the sample as one request costs exactly the maximum |
| PriceTiers.TierOfText | src/api_cost.rs:358-379 | the tier by its text without blanks and in lower case: `default`, `standard`, or nothing for automatic reviews; `fast` and `priority`; else unknown |
| PriceTiers.RatesByText | src/api_cost.rs:226-243 | the standard or the fast rates of the catalogue for that text, or which of the three reasons there are none |
| PriceTiers.PriceOfCall | src/api_cost.rs:218-329 | the price of every call: the capped sum of four disjoint token counts at the short or long rates of its tier, the range between both where it may be several requests, or the reason why it has none |
| PriceTiers.AssumptionOfCall | src/api_cost.rs:218-224 | the Luna assumption is named exactly for automatic reviews whose rates are those of Luna |
| PriceRange.RangeIsSoundExactly | src/api_cost.rs:226-329 | for rates and a threshold that the catalogue accepts, the range holds for every sample and split of a model and tier exactly if its rates are ordered one way or the other |
| PriceRange.CrossedRatesMissASplit | src/api_cost.rs:262-301 | for any two kinds of tokens whose rates move in opposite directions, a sample and a split outside its range |
| PriceRange.UnorderedRatesMissASplit | src/api_cost.rs:262-301 | a concrete catalogue whose ranges are not sound |
| Credits.SplitUnitsAreExact | src/attribution.rs:522-581 | the base units of every classified sample equal the sum over any split of its charged tokens, saturation included, whatever its cache writes and total say |
| Credits.SplitExtraIsLowerBound | src/attribution.rs:522-581 | a classified sample that is not an exact request gets no long-context units, which is a lower bound of any split; without the detection fallback no split gets any either |
| Credits.AmbiguousMeansPossiblyLong | src/attribution.rs:539-557 | the fallback flag is raised exactly if the sample read as one request would pay the surcharge |
| CreditWeights.WeightOfCall | src/attribution.rs:522-581 | the units of every call are its three token counts at the published or fallback rates of its tier; the surcharge, its detection and all flags in terms of the counters |
| CreditWeights.SurchargeOfLongRequest | src/model_catalog.rs:51-57 | where nothing saturates a long request pays its input and cached input once more and half of its output |
| Aggregation.AggregateIgnoresOrder | src/attribution.rs:213-257 | the aggregation of a window depends only on which calls there are |
| Aggregation.AggregateAddsUp | src/api_cost.rs:61-129 | for every call list the thread and model breakdowns of usage and API cost sum to their totals in every component, minimum is at most maximum, and priced is at most observed |
| Aggregation.LocalUsageLeavesOutSpark | src/attribution.rs:213-257 | the local usage is exactly the usage of the window's calls that are not Spark calls |
| Attribution.WindowAggregation.AddCall | src/attribution.rs:218-257 | one call updates the accumulators to exactly the specified window |
| Attribution.AnalyzeSelectedWindow | src/attribution.rs:203-265 | the loop over the calls yields the specified analysis and its long-context variant |
| Attribution.AnalysisIgnoresOrder | src/attribution.rs:203-395 | two lists with the same calls have the same analysis in every field |
| Attribution.TokenSharesAddUp | src/attribution.rs:506-512 | the token shares of threads and of models sum to 100 exactly if the listed totals together fit the counter |
| Attribution.QuotaEstimatesAddUpToGauge | src/attribution.rs:267-345 | the thread quota estimates sum to the gauge exactly if it is zero or the listed units together fit the counter |
| Attribution.ListedAtMostExact | src/attribution.rs:213-257 | what is listed for threads and models is at most the exact sum over the quota calls |
| Attribution.TokenSharesOfCalls | src/attribution.rs:506-512 | if the tokens of the quota calls fit the counter, the shares sum to 100 |
| Attribution.QuotaEstimatesOfCalls | src/attribution.rs:267-345 | if the units of the quota calls fit the counter, the estimates sum to the gauge |
| Attribution.BuildReportsQuotas | src/attribution.rs:267-345 | those are the values that the analysis reports for a thread, with the gauge clamped to 0 to 100 |
| WindowEntries.ThreadEntry | src/attribution.rs:218-257 | a thread has an entry exactly if the window has a call of it; it sums its calls that are not Spark calls, and the API cost of all of them |
| WindowEntries.TurnEntry | src/attribution.rs:218-257 | the same for each turn of each thread |
| WindowEntries.ModelEntry | src/attribution.rs:218-257 | the same for each model name; Spark calls share no quota and have no entry there, only API cost |
| WindowEntries.WindowTotals | src/api_cost.rs:61-142 | totals, priced and observed samples and tokens, reasons and fallback flags are those of exactly the calls inside the window |
| WindowEntries.AnalysisShowsCalls | src/attribution.rs:203-345 | both variants of the analysis show for every thread, turn and model exactly the tokens, shares of tokens and gauge, and cost of its own calls, and an entry for nothing else |
| WindowEntries.AnalysisReasons | src/attribution.rs:267-395 | the clamped gauge, the confidence and each partial reason, by the calls that count |
| Deletion.DeletionKeepsCalls | src/deleted_sessions.rs:167-220 | capture, prepare, any outcomes, removal of the threads and overlay give back the call multiset, whatever the ledger held before and whatever parent the caller puts into a record |
| Deletion.DeletionKeepsEveryAnalysis | src/attribution.rs:203-265 | so every window analysis for the same limits, time and settled flag is the same before and after a deletion |
| DeletedHistory.DeletionKeepsTurns | src/deleted_sessions.rs:942-1059 | looked up by thread and id, every turn is shown after the deletion exactly if it was before, with the same model, tier, times, duration and status; its total is that of its calls; other threads' turns are untouched |
| DeletedHistory.DroppedTurnIsShown | src/deleted_sessions.rs:195-208 | a turn of a deleted thread is shown again exactly if the first turn under its id says the same |
| DeletedHistory.SecondTurnMayBeLost | src/deleted_sessions.rs:999-1003 | a concrete pair of turns under one id of which only the first is shown |
| DeletedHistory.DeletionKeepsInteractions | src/deleted_sessions.rs:209-217 | the same interactions are shown before and after the deletion, also if all that involve a deleted thread are lost with the logs |
| DeletedHistory.DeletedTaskIsShown | src/deleted_sessions.rs:969-1001 | a deleted session comes back with parent, project, source and creation time of the newer capture or else the older, the latest update time, the total of its calls, and completed exactly once its deletion is confirmed |
| DeletedHistory.TotalsAreSums | src/deleted_sessions.rs:1029-1045 | the totals of a thread and of a turn are the sums over exactly the calls that name them |
| Deletion.SettledAfterOverlay | src/attribution.rs:191-201 | the overlaid tasks are settled exactly if the live ones are and every restored thread's deletion is confirmed |
| Deletion.SettledMayBeLost | src/deleted_sessions.rs:983-987 | a pending record without a live task makes a settled dataset unsettled |
| EventLog.NextIsWellFormed | src/event_log.rs:304-362 | at most 1024 states are remembered per scope, each under its own level and event |
| EventLog.CompleteSampleDecides | src/event_log.rs:304-362 | a complete sample leaves open exactly its own visible warnings and errors |
| EventLog.TruncatedSampleClosesNothing | src/event_log.rs:304-362 | a truncated sample resolves nothing |
| EventLog.RepeatingEmitsNothing | src/event_log.rs:304-393 | repeating a sample writes nothing and remembers the same |
| EventLog.EmitsTheChange | src/event_log.rs:304-393 | an observation writes one record for each id whose open state changes, and none for any other |
| EventLog.EntriesAlternate | src/event_log.rs:304-393 | over every sequence of observations the records of each id alternate active and resolved, and end with active exactly if it is open |
| EventLog.EventLog.Observe | src/event_log.rs:304-393 | one observation updates the memory as specified and appends the emitted records up to the first failed write; the log stays a prefix of what an unfailing disk would hold, and all of it while the writer is there |
| EventLog.EventLog.ObserveAll | src/event_log.rs:304-393 | that holds over every sequence of observations of any scopes, whatever the disk does |
| EventLog.WrittenLogAlternates | src/event_log.rs:485-493 | so the written records of each id alternate in every such log, and while the writer is there end with active exactly if the id is open |
| EventLog.LogMemoryIsBounded | src/event_log.rs:304-362 | and its memory holds at most 1024 states per scope |
| LogLevels.OpenByLevel | src/event_log.rs:326-346 | a complete sample leaves open nothing at level off, exactly its errors at level error, and exactly its errors and warnings above |
| LogLevels.WrittenByLevel | src/event_log.rs:326-393 | what a complete or first sample writes, level by level: new errors and warnings are opened, information is reported at info and debug, telemetry at debug only, and what is gone is closed |
| LogLevels.OffWritesNothing | src/event_log.rs:326-329 | a log that is off writes nothing |
| LogLevels.RaisingKeepsEntries | src/event_log.rs:326-346 | raising the level removes no entry that a first observation writes |
| BoundedLine.ScanChunk | src/bounded_io.rs:13-97 | scanning a chunk from the state of all earlier bytes gives the state of the whole stream so far, with at most `limit` bytes of output |
| BoundedLine.ReadBoundedLine | src/bounded_io.rs:13-97 | for every chunking a read gives the first record of the stream without one return of a CRLF, TooLong with empty output exactly above the limit, and consumes up to the newline and no further |
| BoundedLine.ReadStdout | src/app_server.rs:2229-2275 | the events sent are a function of the bytes alone, cut where the consumer hangs up |
| BoundedLine.RecordsPartitionTheStream | src/bounded_io.rs:13-97 | first record, its line end and the rest make up the stream |
| RotatingLog.OpenedIsWhole | src/diagnostic_log.rs:146-165 | a reopened log starts its next record on a line of its own and keeps what was there |
| RotatingLog.OpenedFitsExactly | src/diagnostic_log.rs:146-165 | opening keeps a file within its limit exactly unless it is full and unfinished |
| RotatingLog.OpenedMayOverflow | src/diagnostic_log.rs:146-165 | a concrete file that opening makes too long |
| RotatingLog.RotatingFile.WriteLine | src/diagnostic_log.rs:211-229 | a line that fits the limit is appended after a rotation if needed; both files stay within the limit, and in every state of the disk passed through, each one byte or one truncation after the other, the old live lines are complete at the front of one file |
| RotatingLog.RotatingFile.Rotate | src/diagnostic_log.rs:231-253 | afterwards the backup holds the old live file; in every intermediate state of the disk, each one byte or one truncation after the other, all its lines survive in one of the files; unless it was empty, some state repeats its bytes in both |
| RotatingLog.RotatingFile.WriteLines | src/diagnostic_log.rs:211-253 | over any sequence of lines the history grows by exactly the fitting ones, and the files are within the limit now and when reopened after a crash at any byte |
| RotatingLog.FilesAreSuffixOfHistory | src/diagnostic_log.rs:211-253 | backup followed by live file is a suffix of everything ever written, also by earlier processes, in whole lines except for a backup taken over from a crash |
| RotatingLog.RotatingFile.constructor | src/diagnostic_log.rs:146-165 | a log opened on any files, also those of a crash, continues the known history; if they are within the limit, it starts so |
| RotatingLog.CrashCanBeReopened | src/diagnostic_log.rs:146-165 | a crash at any moment leaves files that reopen within the limit and with a finished last line |
| RotatingLog.ProcessesStayWithin | src/diagnostic_log.rs:146-165 | over any number of processes, each cut at any state of the disk and followed by the next, every state stays within the limit if the first one started so |
| RotatingLog.SpansAreContents | src/diagnostic_log.rs:231-253 | at every moment each file holds one piece of everything ever written |
| RotatingLog.RepeatsExactly | src/diagnostic_log.rs:231-253 | a crash leaves a written byte in both files exactly if it hits the copying after its first byte; otherwise backup and live file are one piece |
| RotatingLog.HistoryContinues | src/diagnostic_log.rs:146-165 | after a crash at any other moment the next process continues the same history |
| StopToken.ReachableInvariant | src/automatic_remote_sync.rs:892-945 | mutual exclusion, and no waiter sleeps un-notified behind a completed notification, in every reachable state |
| StopToken.NoLostWakeup | src/automatic_remote_sync.rs:892-902 | once a `request_stop` has released the lock, no waiter is left un-notified in the condition variable |
| StopToken.StopIsForever | src/automatic_remote_sync.rs:892-945 | that holds for the rest of every run |
| StopToken.WaiterReturnsTrue | src/automatic_remote_sync.rs:908-945 | every waiter that returns from then on returns true, after a bounded number of its own steps |
| StopToken.WakeupIsPending | src/automatic_remote_sync.rs:892-945 | without an external flag, a waiter asleep while the flag is set has a notification under way |
| StopToken.ExternalFlagIsPolled | src/automatic_remote_sync.rs:908-945 | with an external flag no single wait exceeds 250 ms, and the flag is read again behind it |
| GitCache.RelativeRootStorable | src/git_repository.rs:663-674 | a root that a probe produces passes the read-side check exactly if it has no backslash, no control character and at most 2048 bytes |
| GitCache.BackslashIsNotStorable | src/git_repository.rs:1148-1165 | a concrete workspace whose root the cache refuses |
| GitCache.OrderedUnprotectedKeys | src/git_repository.rs:624-636 | the unprotected keys, each once, oldest check first and equal times by key |
| GitCache.OldestFirstIsUnique | src/git_repository.rs:624-636 | there is one such order |
| GitCache.OrderAfterEviction | src/git_repository.rs:579-591 | behind an eviction of the oldest keys the new order is the rest of the old one |
| GitCache.EvictionsCompose | src/git_repository.rs:551-564 | the entry trim followed by the byte trim evicts one prefix of the first order |
| GitCache.EvictionKeepsProtectedAndYoungest | src/git_repository.rs:566-622 | an eviction keeps every protected entry unaltered, and no evicted entry is younger than a kept unprotected one |
| GitCache.PersistentState.TrimEntries | src/git_repository.rs:566-583 | fails exactly if the protected entries alone exceed the bound, then changing nothing; otherwise evicts exactly the excess, oldest first |
| GitCache.PersistentState.EncodeWithLimit | src/git_repository.rs:585-622 | terminates; evicts a prefix of the order; fails only when nothing but protected entries is left and they are too large, and exactly then if the encoding is monotone |
| GitCache.WantedCoversExcess | src/git_repository.rs:599-608 | the batch size is the least number of average entries that covers the excess, short of saturation |
| GitCache.PersistentState.Persist | src/git_repository.rs:551-564 | whatever the result, one prefix of the original order is gone and every protected entry kept; what is written respects both bounds and reads back as it is; the exact condition for success |
| GitCache.ReadCache | src/git_repository.rs:472-549 | a missing file reads as an empty cache; a file is read exactly if it has at most 16 MiB, version 1, at most 32768 entries and only valid ones, and then gives its entries |
| GitResolver.Resolver.constructor | src/git_repository.rs:184-195 | a process that starts from a sound file has sound caches |
| GitResolver.Resolver.BeginCollection | src/git_repository.rs:174-182 | clears misses and counters, keeps both caches |
| GitResolver.Resolver.Inspect | src/git_repository.rs:224-280 | the answer and its expiry, exactly, for every state of the caches; a confirmed answer is what Git told about the root at most one TTL and about the remote at most two TTLs ago, up to two and three inspection times; a workspace is probed exactly if not cached, not failed, within budget and not freshly stored; a probe's answer is stored in both caches and protected, Unavailable in neither |
| GitStaleness.OldestRoot | src/git_repository.rs:224-292 | for every inspection time above zero, a run that reports a root exactly as old as that bound allows, beyond one TTL |
| GitStaleness.OldestRemote | src/git_repository.rs:224-380 | the same for the remote, beyond two TTLs |
| GitResolver.Resolver.FreshPersistent | src/git_repository.rs:282-292 | a stored entry is used only while its age is at least zero and below the TTL, with its remaining life |
| GitResolver.Resolver.InspectUncached | src/git_repository.rs:312-380 | at most two commands, none without budget; exactly what a probe answers, grounded in what Git told just now about the root and less than one TTL ago about the remote |
| GitResolver.Resolver.LookUpFingerprint | src/git_repository.rs:342-374 | the cached remote while it lasts, otherwise one command; exactly what is remembered afterwards |
| GitResolver.Resolver.PersistCompletedCollection | src/git_repository.rs:202-212 | writes only when dirty, stays dirty on failure, and leaves a file that a later process may start from |
| GitResolver.ProbeIsCounted | src/git_repository.rs:238-266 | each probe keeps the bounds of a collection: 256 workspaces, two commands each, none again after a failure |
| GitResolver.CommandsAreBounded | src/git_repository.rs:238-266 | so at most 512 commands run per collection |
| GitResolver.RehydratedIsGrounded | src/git_repository.rs:246-253 | evidence taken over from the persistent cache keeps both age bounds across restarts |
| GitResolver.ProbedIsGrounded | src/git_repository.rs:271-279 | a probe's answer keeps both age bounds in the workspace cache and in the persistent one |
| GitResolver.NextCommandTimeout | src/git_repository.rs:393-396 | a command is allowed exactly before the deadline, and its timeout never passes it |
| GitRemote.ResultIsCanonical | src/git_repository.rs:1167-1237 | every result of any input is a valid lower-case authority, a slash, and a path without blanks and without empty, `.` or `..` components |
| GitRemote.ValidAuthorityIsHostAndPort | src/git_repository.rs:1256-1289 | an authority is accepted exactly if it is a host name or bracketed address with an optional numeric port |
| GitSpellings.SpellingsAgree | src/git_repository.rs:1167-1237 | scp form and ssh, https, http and git URLs, with or without user information, default port, blanks, query and fragment, all normalise to the one value of host and path |
| GitSpellings.SpellingsAgreeExactly | src/git_repository.rs:1167-1254 | when host and path have a value, any spelling gives it exactly if it reads as a remote and its suffix has no control character |
| GitSpellings.SurroundingsIgnored | src/git_repository.rs:1168-1182 | surrounding blanks, query and fragment change nothing, and a control character in them refuses the remote |
| GitSpellings.ScpIsRefused | src/git_repository.rs:1184-1203 | a drive letter, a path starting with two slashes, or one with a colon gives nothing, unless the text is itself a URL |
| GitSpellings.UrlIsAnotherRemote | src/git_repository.rs:1184-1190 | an scp spelling that is itself a URL, such as `ssh://x/p`, never gives the value of its scp reading |
| GitSpellings.ScpSplits | src/git_repository.rs:1239-1254 | the scp form is split at the colon behind the host, whatever colons its brackets hold |
| GitSpellings.BlankBeforeQueryIsRefused | src/git_repository.rs:1223-1235 | a blank between path and query refuses every spelling |
| GitSpellings.DriveLetterIsRefused | src/git_repository.rs:1192-1197 | a one-letter host without user information has a value but no scp form |
| GitSpellings.PathSpellingsAgree | src/git_repository.rs:1223-1236 | slashes around a path and one `.git` at its end, in any case, change nothing |
| GitSpellings.NormalFormIsStable | src/git_repository.rs:1223-1236 | a normal form spelled again gives itself exactly if its path does not end in another `.git` |
| GitFingerprints.SingleLineExactly | src/git_repository.rs:1125-1146 | exactly the texts of one line that is not empty are read, with or without a line end |
| GitFingerprints.OriginOfSpelling | src/git_repository.rs:356-378 | for every spelling of a host and path that reads as a remote, the answer is the fingerprint of the one value they stand for, or a confirmed absence if they stand for none |
| GitFingerprints.LocalPathHasNoFingerprint | src/git_repository.rs:361-367 | a remote without a colon is a confirmed absence of a fingerprint |
| GitFingerprints.SameRemoteSameFingerprint | src/git_repository.rs:342-384 | two workspaces whose remotes are spellings of one host and path are reported with the same fingerprint, from whichever cache the evidence came |
| GitFingerprints.ProbeByAnswer | src/git_repository.rs:356-378 | a probe by Git's answer: a spelling gives its fingerprint, exit code 1 a confirmed absence, every other exit or a timeout no answer |
| GitFingerprints.RootByAnswer | src/git_repository.rs:312-341 | outside exactly if Git refused and no marker was found; inside only for one printed line that is an ancestor, from which the relative root leads to the workspace |
| GitFingerprints.AncestorIsFound | src/git_repository.rs:336-341 | every ancestor that Git names is found unless a component below it cannot be written down |
| GitFingerprints.PortOfUrl | src/git_repository.rs:1211-1218 | a URL's port is left out exactly if it is the default of its own scheme: 22, 9418, 80 or 443 |
| Inventory.CompleteIsUnique | src/app_server.rs:778-843 | a server's answers form at most one complete listing |
| Inventory.ListPass | src/app_server.rs:788-842 | a pass uses at most its page budget and succeeds exactly if the server's pages are a believable listing: followed to a null cursor with new cursors, entries valid, no identity repeated |
| Inventory.PersistedThreads | src/app_server.rs:778-844 | at most 128 pages per pass; an answer exactly if both passes are believable and the target set is allowed, and then exactly the targets among all listed ids |
| Inventory.Descendants | src/app_server.rs:730-774 | at most 32 pages per pass; all listed descendants in order, distinct and without the root; with the root at most 512, so the deletion scope accepts them |
| Listings.InventoryIsBelieved | src/app_server.rs:788-842 | what the inventory demands: at most 128 pages a pass, each the answer to the cursor before, new cursors up to a null one, at most 100 entries, identities of 1 to 256 bytes, none twice in both passes |
| Listings.DescendantsAreBelieved | src/app_server.rs:733-772 | what the descendant listing demands: at most 32 pages a pass and 511 identities, none twice and none the root |
| Listings.ListedIds | src/app_server.rs:806-820 | the listed identities are exactly those of some entry of some page |
| Release.ConsistentAfterPublication | scripts/package-release.py:102-158 | for every combination of failures and interrupts, exactly when every manifest describes the payloads present afterwards, including metadata that the packager does not read |
| Release.PublicationIsSafe | scripts/package-release.py:125-158 | without a badly placed interrupt or failed recovery, every manifest still describes its payloads exactly unless another target's metadata refers to a replaced one; a failure restores the directory |
| Release.OwnTargetsAreKept | scripts/package-release.py:119-124 | the packager keeps target metadata to its own target |
| Release.ForeignReferenceMayBreak | scripts/package-release.py:66-93 | a concrete directory whose other target's metadata a publication breaks |
| Release.SharedPayloadIsKept | scripts/package-release.py:97-100 | a payload that the other metadata form refers to is never replaced |
| Release.OldReferenceIsSpoiled | scripts/package-release.py:97-100 | a replaced payload is no longer described by an old reference, so both files must change together |
| Release.InterruptBehindFirstRename | scripts/package-release.py:137-143 | an interrupt before the flag is set leaves a consistent directory exactly if no manifest, old or of another target, is contradicted by the new payload |
| Release.InterruptBehindSecondRename | scripts/package-release.py:141-155 | an interrupt behind the metadata rename rolls the payload back under the new manifest |
| Release.InterruptMayBreakTheBundle | scripts/package-release.py:137-143 | a concrete consistent directory that such an interrupt breaks |
| Release.PublishedBundleIsAccepted | scripts/package-release.py:66-93 | after a publication both metadata forms pass the checks of the next run for the same identity |
| Release.CheckForm | scripts/package-release.py:66-93 | existing metadata is accepted exactly if ordinary, of the same identity, with distinct targets that all describe their payloads |
| Release.OutputDirectory.Package | scripts/package-release.py:40-160 | a rejected or unprepared build changes nothing; otherwise the directory is exactly as published or rolled back; in directories with own targets only, which stays so, consistency is kept unless the recovery itself failed |
| Release.OutputDirectory.Publish | scripts/package-release.py:136-158 | the renames and the rollback, effect by effect, leave exactly the specified directory and report |
| ReleaseContents.PublishedContents | scripts/package-release.py:102-143 | an undisturbed publication has the build's payload in place, own metadata with its sizes and hashes beside exactly the other targets' artifacts in order of target, and nothing else changed |
| ReleaseContents.SpoiledReleaseIsRefused | scripts/package-release.py:66-95 | a directory is refused whose metadata is of another release or tells of a payload a size or hash that is not true |
| ReleaseContents.WrongBuildIsRefused | scripts/package-release.py:40-100 | a binary that is empty, too large, of an unknown target or not what it was said to be is refused, and so is one whose payload the other metadata form holds for a different binary |

## Left out

- SQLite, file locks, permissions, links and the JSON format: a transaction, a rename and an atomic write are single steps, encoding and decoding are faithful, and the encoded size of a record or cache is an arbitrary function; byte totals are unbounded where the source saturates at the platform's word size.
- SHA-256, operation and workspace keys and diagnostic fingerprints: taken to be free of collisions where identity depends on them.
- Floating point: percentages are real numbers, so rounding is not modelled.
- The model catalogue, its rates and thresholds: an arbitrary input; only `PriceRange.RangeIsSoundExactly` uses its checks that the threshold is positive and rates stay below a maximum (src/model_catalog.rs:29, :443), and a threshold below 2^64 - 2.
- `select_windows`, the five-hour projection, the per-task and per-turn projection of a window and price formatting: copying and display.
- Titles and previews: shortening is an arbitrary function, display text is absent.
- `TokenUsage::add_assign` and the cost accumulators' `add` are functions on values, because these are plain copyable structs; updates in place are modelled in the aggregation that owns them.
- Saved calls have the same fields as live calls and are identified with them.
- The order of calls that tie after a merge comes from a hash map and is arbitrary, so the merge is a relation; resolved diagnostics are listed by fingerprint, whose order is arbitrary here.
- Overlapping calls of `observe`: an observation is one step here, although the source writes its records after it has released the lock.
- Failing or partial single writes inside the log rotation: writes may be cut by a crash at every byte, but an I/O error while rotating is not modelled. Credential redaction and retention of log files are absent.
- The rest of the remote synchronisation, including its scheduler, bandwidth budget and config-error backoff, is absent; time in the stop token is the remaining duration that each wait is given.
- Process spawning, output limits and kill logic of Git commands: a command is one observation of an arbitrary world at one moment; path components are text.
- `thread/list` entries are reduced to their identities; notifications of a deletion and the other session management requests are absent.
- `merge` of release metadata, archive construction and the syntax of identities: arbitrary inputs to the publication; the checksum syntax check is implied by equality with a computed checksum.
- GitCache.PersistentState.EncodeWithLimit: does not claim minimal eviction, because the average-size step may remove more entries than needed.
