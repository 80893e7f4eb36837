# A verified model of the HADES core

HADES is a daemon and command line that sits between coding agents and model providers: it augments requests with
retrieved context under a token budget, guards spend, keeps architecture decision records, and gates releases. This
project models the parts of it that hold state or run protocols, and proves what they are for. One module stands for
one component:

| module | component |
|---|---|
| `Admission`, `Spending` | concurrent augmentation runs: the gate with its condition variable and cancellation watchers, the budget check, the commit; and what they can spend |
| `Truncation` | token estimates, the static and volatile halves of a context, the graceful truncation guard |
| `SupersedeCycles`, `AdrValidator` | cycles of superseded-by links, and the whole-corpus checks on decision records with Tarjan's algorithm |
| `EditDistance` | the two-row Levenshtein loop and the choice of the suggested command |
| `Welford`, `Anomaly` | one-pass statistics over reals, and the detector that stores each outlier once |
| `Pause`, `Enforce` | pauses with a concurrent auto-resume scheduler, and the budget gate that reads the same rows |
| `Document`, `Lifecycle`, `Migration`, `Deciders` | the text format of a decision record, its status transitions, and the move of legacy files with their header lines to it |
| `Graph` | the relation graph of the decision records |
| `Heartbeat`, `Inbox` | the incremental heartbeat index and the drop-oldest inbox of the daemon |
| `Summarize`, `Citation` | clusters of search results, and the citations built from results and audit events |
| `CiGate` | classification of commits and the release gate on them |

`AugmentTypes`, `Bags`, `Ordering`, `Runs`, `Text` and `Wrappers` hold what several of them share; a run of a component is
`Runs.Fold` over its steps.

## How the components are modelled

- Code that changes things step by step is a method with its loops, proved against a function or a predicate; objects
  whose methods update fields are classes. Properties over runs are proved about those functions.
- Concurrency is a step system. Every critical section, channel operation or store access is one step, and a run is any
  sequence of events; an event that is not enabled changes nothing. `Admission` has a caller's phases, its cancellation
  flag and its watcher; `Pause` separates listing, reading the clock and each conditional delete; `Inbox` separates the
  four channel operations of one publish.
- Floating-point numbers are reals, and amounts of money are whole tokens: every amount the budget gate compares is a
  number of tokens times one price. The square root is a parameter of which only its definition is known. Times are
  integers; pauses keep the truncation from nanoseconds to milliseconds.
- A string stands for its bytes, so lengths are byte counts; `EditDistance` works on code points, as the source does.
- Stores are used by contract: inserting a cost entry is idempotent on its request id, across projects; a conditional
  delete removes a row only if it has expired at that moment; a query of the event log returns the records of a session
  after a cursor in id order, and ids grow along the log.
- YAML is a codec that decodes what it encoded, and writes whole lines with plain newlines none of which reads as the
  closing fence. Regular expressions, SHA-256, base 36 and JSON decoding are parameters.

## What the proofs say about the code

- The cap of 100 budgets is not a bound once two runs can be under way: both may pass the check before either commits.
  `CapHoldsExactlyWhenSerial` proves that it holds for one slot and gives the run that breaks it for more; `SpendBound`
  is what holds for any number. Both rest on a store that sums the ledger. The reading now wired in answers zero
  always, and `ZeroReadingUnbounded` proves that no bound then exists.
- The truncation guard meets the limit whenever ProjectMeta does in the way the pipeline calls it, without callers and
  callees. With them it can exceed the limit, because they are dropped only when the static half is over by itself;
  `FitsExactlyWhen` is the exact condition.
- The comment on the detector calls it stateless across calls; the code remembers the last stored sample of every
  scope, and the model does too. The memory is keyed by scope, colon and value, so scopes that hold a colon can
  interfere (`ColonsInterfere`); the four scopes in use do not.
- The gate looks at the presence of a pause row, not at its deadline, so it still blocks after IsPaused says no, until
  the scheduler has passed: `StaleRowBlocks` gives such a run, and `BlockedRightExactlyWhen` proves that the decision is
  right exactly when no scope with room holds a row whose deadline has passed uncleared.
- A pause whose duration does not reach the next millisecond is over before it begins
  (`TriggerTakesEffectExactlyWhen`).
- The scanner takes one carriage return with each line break, so a body whose lines end in carriage returns loses one
  in each round of writing and reading. `BodyKeptExactlyWhen` is the exact condition for a body to survive.
- A failing audit sink makes a transition report an error after the file was rewritten. `LogTellsAllExactlyWhen` proves
  that the log is a complete path between the two statuses if and only if no request that moved the document met a
  failing sink, and `LogCanStartLate` gives a run whose log is not.
- Migration is idempotent for files that give an id (`Idempotent`); a file without one is migrated again the next time
  (`SkippedExactlyWhen`), and grows with a body pattern that finds nothing more to take out
  (`SecondChangesNothingExactlyWhen`).
- A stray closing bracket among the deciders ends the removal of bracketed remarks: from `a) (b)` nothing is removed.
  `RemarkLeftExactlyWhen` is the exact condition.
- A command without a name can make the suggestion depend on the order of the commands; `Suggest` states exactly when
  the best one is found.
- A citation id built from a note id without letters or digits is too long from index 10,000,000,000,000 on.
- The relation graph tells related pairs apart by two ids joined with a vertical bar, so ids that hold one can hide an
  edge (`BarsInterfere`); every pair has its edge exactly when no two share a key
  (`EveryPairHasEdgeExactlyWhen`), and `OrderDoesNotMatterExactlyWhen` says when the order of the files is immaterial.
- The summariser estimates a cluster without its topic and the truncation guard with it, so once one summary was cut,
  later ones that are not cut may be estimated at up to two tokens more (`EstimatedAnew`).
- Results without a path share a cluster with the path `uncategorized`.
- Under the default thresholds the success-ratio gate is implied by the other two.

## Model

| member | source | states |
|---|---|---|
| Admission.PipelineRuntime.TryAcquire | internal/augment/pipeline.go:52-65 | a slot is granted if and only if one is free, a place in the queue if and only if every slot is taken and a place is free, and the caller is refused if and only if both limits are reached; inflight or queued grows by one accordingly |
| Admission.PipelineRuntime.WaitTurn | internal/augment/pipeline.go:100-112 | one pass of the waiting loop: the caller enters if and only if a slot is free, even if it was cancelled; else it leaves if it was cancelled and sleeps if not; and the two counters change accordingly |
| Admission.PipelineRuntime.Release | internal/augment/pipeline.go:67-74 | gives one slot back and says whether there is a condition variable to broadcast on |
| Admission.AdmissionSafe | internal/augment/pipeline.go:52-113 | in every interleaving inflight counts exactly the admitted unreleased runs and stays within maxInflight, queued counts exactly the waiters and stays within maxQueue, a sleeper implies a full gate, and a cancelled sleeper has a watcher that has yet to wake it |
| Admission.NoSleeperWithoutHolder | internal/augment/pipeline.go:67-113 | no lost wake-up: when no run holds a slot, no caller sleeps |
| Admission.StepMakesProgress | internal/augment/pipeline.go:85-147 | every step of the system itself, wake-ups included, lowers a well-founded measure, so no schedule runs for ever |
| Admission.EveryScheduleEnds | internal/augment/pipeline.go:85-147 | no schedule of the steps of the system itself, however unfair, is longer than a bound read off the state |
| Admission.SomeStepIsEnabled | internal/augment/pipeline.go:85-147 | as long as some caller is not out, or some watcher has not ended, the system can take a step |
| Admission.Drains | internal/augment/pipeline.go:115-147 | from every reachable state the system can let everybody out, and then both counters are zero: no exit path leaks a slot or a place |
| Admission.StuckMeansDone | internal/augment/pipeline.go:100-112 | a reachable state that the system cannot leave by itself has everybody out |
| Admission.AcquireDecides | internal/augment/pipeline.go:137-146 | in every reachable state, acquiring admits the caller if and only if fewer than maxInflight callers hold a slot, ends it if and only if maxInflight hold one and maxQueue wait, leaves it waiting otherwise, and moves nobody else |
| Admission.TurnDecides | internal/augment/pipeline.go:100-112 | in every reachable state, a waiter at its turn enters if and only if a slot is free, leaves if and only if none is and it was cancelled, and sleeps otherwise |
| Admission.WaitsThenEnters | internal/augment/pipeline.go:67-112 | in every reachable state with a full gate and room in the queue, a caller that comes falls asleep, and enters once a holder has let go |
| Admission.CancelledSleeperLeaves | internal/augment/pipeline.go:85-109 | in every reachable state, a sleeper that is cancelled is woken by its watcher and gives its place back |
| Admission.OnlyCompleteRequestsRun | internal/augment/pipeline.go:117-125 | in every run, a request without prompt, project or request id has its caller finished at once and for good |
| Admission.DoorDecides | internal/augment/pipeline.go:117-135 | a new caller is let in if and only if its request is complete, and on to the gate if and only if its context was not cancelled before |
| Admission.CancelledEarlyStaysOut | internal/augment/pipeline.go:133-135 | whatever happens later, a caller that was cancelled before it came to the gate gets neither slot nor place |
| Admission.CheckDecides | internal/augment/budget_gate.go:46-62 | in every reachable state, the check lets a run go on if and only if it asks for a positive number of tokens that stays, with what its project has spent, within a hundred times that number |
| Spending.ChargeBounded | internal/augment/pipeline.go:263-287 | a run is charged at most its budget, or what ProjectMeta alone is estimated at if that is more |
| Spending.SpendRecords | internal/augment/pipeline.go:263-296 | in every run, committing adds exactly one ledger entry for a new request id and none for a known one; its tokens are the static and volatile estimates of what the guard must return (`Guarded`) on the whole of what the run found |
| Spending.WholeChargeWhenItFits | internal/augment/pipeline.go:268-296 | in every run, a run whose estimate fits its budget pays for ProjectMeta, all summaries and all fused results |
| Spending.TokensToCommit | internal/augment/pipeline.go:263-286 | splitting, truncating and adding the two estimates computes the charge |
| Spending.EverySummaryIsCharged | internal/augment/pipeline.go:263-286 | within the budget, one more summary costs its own estimate and five tokens more |
| Spending.SampleChargeWithSummary | internal/augment/pipeline.go:263-286 | a request that pays 155 tokens with a summary of 50 |
| Spending.NoDoctrineIsDefault | internal/augment/pipeline.go:126-128 | a request that names no doctrine is charged as one that names the default |
| Spending.SomebodyWaits | internal/augment/pipeline.go:52-113 | at every gate with slots and a queue, some run has a caller that waits, asleep, and later enters |
| Spending.ChargedOnce | internal/augment/budget_gate.go:64-83 | a request id is recorded at most once, however often it is committed and by whichever project |
| Spending.SpendBound | internal/augment/pipeline.go:184-296 | over admission, check, truncation and commit, in every interleaving: a project is charged at most 99 budgets plus one largest charge for every slot |
| Spending.CapHoldsExactlyWhenSerial | internal/augment/budget_gate.go:46-62 | with a ledger-summing store, and budgets that ProjectMeta fits, the cap of 100 budgets holds in every run if and only if the gate has one slot |
| Spending.ZeroReadingUnbounded | internal/daemon/dispatcheradapter/budget_hooks.go:263-266 | with the reading now wired in, which always answers zero, some run spends more than any given bound |
| Truncation.EstimateStaticTokens | internal/augment/cache_split.go:44-52 | the static estimate is the fixed part and the lengths of ProjectMeta plus a weight per summary, over four |
| Truncation.EstimateVolatileTokens | internal/augment/cache_split.go:54-66 | the volatile estimate sums the lengths of fused results, callers and callees, over four |
| Truncation.EstimateSummaryTokens | internal/augment/truncation.go:106-119 | a summary is estimated from its names, and at least at one token |
| Truncation.Split | internal/augment/cache_split.go:23-42 | the two halves hold what was given, each with the estimate of its content |
| Truncation.Apply | internal/augment/truncation.go:20-104 | the result is the one that the guard must return: without a positive limit only ProjectMeta stays; else the longest fitting prefix of fused results, and if that is not enough every list cut to its first five and the longest prefix of summaries that then fits; the flag is set if and only if some content differs from the input |
| Truncation.KeptIsGuarded | internal/augment/truncation.go:20-104 | phase by phase the guard keeps what it must: no list is cut if dropping fused results is enough; else every kept summary has the first five of its symbols and files, and every longer prefix cut the same way is over the limit |
| Truncation.GuardDetermined | internal/augment/truncation.go:20-104 | there is only one such result for every input |
| Truncation.CuttingCanSave | internal/augment/truncation.go:74-101 | a summary that fits the limit with five of its six symbols is kept with them |
| Truncation.OneOfEach | internal/augment/cache_split.go:44-66 | what one summary, one fused result, one caller and one callee add to the estimates |
| Truncation.Trim | internal/augment/truncation.go:74-95 | the in-place pass cuts every long list; from the first cut on every summary is estimated anew, and the flag says whether anything was cut |
| Truncation.FitFusedKeepsLongest | internal/augment/truncation.go:56-60 | phase one keeps a prefix of the fused results that fits or is empty, and every longer prefix would not fit |
| Truncation.FitSummariesKeepsLongest | internal/augment/truncation.go:97-101 | phase three keeps a prefix of the summaries that fits or is empty, and every longer prefix would not fit |
| Truncation.KeepsPrefixes | internal/augment/truncation.go:8-12 | whatever the limit: ProjectMeta is untouched, fused results and summaries are kept from the front, lists are only cut at the end, and the estimates are those of the content |
| Truncation.FusedGoFirst | internal/augment/truncation.go:8-12 | the longest fitting prefix of fused results stays, and while one fused result stays nothing else is touched |
| Truncation.FitsOrIsMinimal | internal/augment/truncation.go:56-101 | the total is within the limit or comes down to what is never dropped |
| Truncation.FitsExactlyWhen | internal/augment/truncation.go:62-72 | exactly when the result meets the limit: ProjectMeta must fit, with callers and callees unless the static half alone was over |
| Truncation.CallersCanOverrun | internal/augment/truncation.go:62-72 | with callers there is an input whose ProjectMeta fits and whose result does not |
| AdrValidator.DetectSupersedeCycle | internal/adr/validator.go:102-189 | terminates, and reports every cycle of the superseded-by relation inside the corpus once, as a chain of links, and nothing else; it reports something if and only if some id reaches itself |
| AdrValidator.StrongConnect | internal/adr/validator.go:119-166 | one visit keeps the stack, index and low-link relation, and either settles all that its id leads to or leaves it linked back into the stack |
| AdrValidator.PopGroup | internal/adr/validator.go:143-165 | what is popped together is one whole cycle, or a single id that is on no cycle |
| SupersedeCycles.CycleMembersAreOnCycle | internal/adr/validator.go:155-164 | every member of a reported group reaches itself in one or more links |
| SupersedeCycles.SharedMemberSameCycle | internal/adr/validator.go:145-165 | two cycles that share a member have the same members |
| SupersedeCycles.ReportsAgree | internal/adr/validator.go:168-189 | any two complete reports of one corpus have the same node sets, and as many groups |
| AdrValidator.OrderDoesNotMatter | internal/adr/validator.go:104-109 | with unique ids, permuting the input list leaves the corpus, and so the report, as it is |
| AdrValidator.BuildCorpus | internal/adr/validator.go:104-109 | records by id, the last of several with one id, none without an id |
| AdrValidator.CheckIDUniqueness | internal/adr/validator.go:86-100 | accepts exactly the lists with unique non-empty ids, and otherwise names the first repeated id and the paths that claim it |
| AdrValidator.ValidateAll | internal/adr/validator.go:60-84 | a list passes if and only if every record meets the schema, ids are unique and no id is on a cycle; the first failing kind of check is the one reported, a collision with the first repeated id and its two paths |
| AdrValidator.CheckSchema | internal/adr/validator.go:60-84 | every failing record is listed as often as it occurs, and no other |
| EditDistance.Levenshtein | cmd/hades/main.go:36-71 | the two swapped rows compute the recursive edit distance for all strings |
| EditDistance.DistanceIsFewestEdits | cmd/hades/main.go:36-71 | the distance is the least number of insertions, deletions and replacements that lead from one string to the other |
| EditDistance.DistanceZeroIffEqual | cmd/hades/main.go:36-71 | metric law: zero if and only if equal |
| EditDistance.DistanceSymmetric | cmd/hades/main.go:36-71 | metric law: symmetry |
| EditDistance.DistanceTriangle | cmd/hades/main.go:36-71 | metric law: triangle inequality |
| EditDistance.FillRow | cmd/hades/main.go:50-67 | one pass of the inner loop turns row i - 1 of the distance table into row i |
| EditDistance.Suggest | cmd/hades/main.go:105-123 | for all commands, the loop finds the nearest eligible command, alphabetically first among equals, if and only if every eligible command has a name or some eligible command is nearer than the empty name |
| EditDistance.EligibleExactlyWhen | cmd/hades/main.go:105-119 | a command is eligible if and only if it is available and two edits make it of what was typed, or its name starts with that in lower case |
| EditDistance.SuggestionIgnoresOrder | cmd/hades/main.go:100-104 | the suggestion depends only on which commands there are, not on their order |
| Welford.Welford | internal/budget/anomaly.go:167-186 | the one-pass loop yields the mean and, for any square root, a deviation whose square times n times n - 1 is the sum of the squared distances of all pairs of samples; the clamp at zero never changes it |
| Welford.SpreadFromPairs | internal/budget/anomaly.go:184-185 | the squared deviation times n times n - 1 is what the pairs of samples lie apart |
| Welford.PairsExpanded | internal/budget/anomaly.go:167-186 | the squared distances of all pairs are n times the sum of squares less the square of the sum |
| Welford.NeverNegative | internal/budget/anomaly.go:184 | the variance is never negative before the clamp |
| Welford.MeanIsClosest | internal/budget/anomaly.go:167-186 | the mean is the one centre with the least sum of squared deviations |
| Welford.ZeroSpreadExactlyWhenConstant | internal/budget/anomaly.go:156-165 | the deviation is zero if and only if the window has fewer than two samples or all are equal |
| Welford.OrderDoesNotMatter | internal/budget/doc.go:63-65 | permuting the window changes neither mean nor deviation |
| Welford.ComputeZScore | internal/budget/anomaly.go:148-165 | the error cases exactly, and otherwise the number of deviations between mean and sample; the same for every permutation of the window |
| Welford.TriggersExactlyWhen | internal/budget/anomaly.go:103-114 | a sample is an outlier if and only if its squared distance from the mean exceeds threshold squared times a non-zero variance |
| Welford.ReadingIgnoresOrder | internal/budget/doc.go:63-65 | the whole reading of a window, trigger included, is the same for every permutation |
| Anomaly.AnomalyDetector.Update | internal/budget/anomaly.go:89-136 | the new memory, the row appended with its scope, value and reading, the result and the error of one update, whatever the store answers |
| Anomaly.RowsAreOutliersCollapsed | internal/budget/anomaly.go:115-133 | over any run, the rows stored under a key are exactly its storable outliers with every run of repeats stored once |
| Anomaly.NoEqualNeighbours | internal/budget/anomaly.go:115-133 | no two neighbouring rows of a key come from the same sample |
| Anomaly.RepeatsStoredOnce | internal/budget/anomaly.go:115-119 | any number of repeats of one sample under a key, with other keys in between, stores at most one row |
| Anomaly.OtherKeysDoNotInterfere | internal/budget/anomaly.go:138-146 | what a key stores and remembers is as if no other key had been updated |
| Anomaly.KeysCollideExactlyWhen | internal/budget/anomaly.go:139 | two scope and value pairs share a key if and only if one scope extends the other past a colon and the rest agrees |
| Anomaly.ColonFreeScopesApart | internal/budget/anomaly.go:139 | between colon-free scopes the key is the pair |
| Anomaly.ColonsInterfere | internal/budget/anomaly.go:138-146 | two pairs whose scopes hold a colon can share memory, and one then hides the outlier of the other |
| Pause.Pauser.Trigger | internal/budget/pause.go:92-112 | the row written and the errors, with the deadline in milliseconds, zero for none |
| Pause.Pauser.Resume | internal/budget/pause.go:114-122 | the row is gone, for a known scope |
| Pause.Pauser.IsPaused | internal/budget/pause.go:124-136 | paused if and only if there is a row without a deadline or with one still to come |
| Pause.Pauser.RunSchedulerOnce | internal/budget/pause.go:146-163 | an undisturbed pass leaves exactly the unexpired rows, in whatever order they are listed, and changes no answer at or after its clock reading |
| Pause.SchedulerRemovesOnlyExpired | internal/budget/pause.go:146-163 | in every interleaving of operators and a scheduler that lists first and clears row by row, only rows expired by a clock reading are missing |
| Pause.SchedulerInvisible | internal/budget/pause.go:146-163 | in every such interleaving, a pause re-triggered between list and clear included, the scheduler changes no IsPaused answer at or after its clock readings |
| Pause.AnswersFromHistory | internal/budget/pause.go:6-15 | IsPaused says whether the last accepted operator event on the target is a trigger still in force |
| Pause.RowIsLastTrigger | internal/budget/pause.go:92-112 | in every interleaving each row tells reason, time and deadline, in milliseconds, of the last accepted operator event on its target |
| Pause.TriggerTakesEffectExactlyWhen | internal/budget/pause.go:92-136 | a trigger pauses its target at once if and only if it has no end or its duration reaches the next millisecond |
| Pause.PassSweeps | internal/budget/pause.go:146-163 | a pass without operator events in between leaves exactly the unexpired rows, step by step |
| Pause.RawFlagAfterPass | internal/budget/enforce.go:108-114 | right after such a pass the bare presence of a row is the last word of the operators |
| Pause.RawFlagRightExactlyWhen | internal/budget/enforce.go:108-114 | at any moment of any run, the presence of a row is the last word of the operators if and only if it is not a row whose deadline has passed uncleared |
| Pause.RawFlagCanBeStale | internal/budget/enforce.go:108-114 | a run after which the row of a pause that is over is still there |
| Enforce.Check | internal/budget/enforce.go:72-129 | the error cases exactly; else the blocking scopes, most restrictive first, the remaining amount of all four, and allowed if and only if none blocks |
| Enforce.DecisionDetermined | internal/budget/enforce.go:116-122 | the decision is determined by the answers of the store, so not by the order of map iteration |
| Enforce.BlockedSpelledOut | internal/budget/enforce.go:80-122 | the blocked scopes are worker, stage, doctrine and project, in this order, each listed if and only if its own spend with the estimate exceeds its own cap or it has a pause row |
| Enforce.RemainingSpelledOut | internal/budget/enforce.go:94-103 | the remaining amount of each of the four scopes is its own cap less its own spend and the estimate |
| Enforce.ScopesArePausable | internal/budget/enforce.go:80-92 | the four scopes of the gate are the four that an operator can pause |
| Enforce.AllowedAfterPass | internal/budget/enforce.go:98-128 | right after an undisturbed scheduler pass a call is allowed if and only if every scope has room and none is paused by the history of the operators |
| Enforce.BlockedRightExactlyWhen | internal/budget/enforce.go:98-114 | at any moment of any run, the scopes listed are those without room or with a pause in force if and only if no scope with room holds a row whose deadline has passed uncleared |
| Enforce.AllowedRightExactlyWhen | internal/budget/enforce.go:98-128 | a call is allowed exactly when it should be, unless such rows are all that is in its way |
| Enforce.StaleRowBlocks | internal/budget/enforce.go:108-114 | a run after which the gate refuses a call although every scope has room and no pause is in force |
| Document.ReadPreamble | internal/adr/parser.go:40-56 | finds the first line with anything on it, and keeps what came before |
| Document.ReadYaml | internal/adr/parser.go:74-90 | collects the lines up to the first closing fence, and says whether there is one |
| Document.ParseLines | internal/adr/parser.go:33-115 | the loops compute the document: no text, no frontmatter, missing fence, bad frontmatter, or frontmatter and body |
| Document.RoundTrip | internal/adr/transitions.go:84-89 | parsing what a transition writes gives back the frontmatter and the normalised body, for every body |
| Document.WithoutFrontmatter | internal/adr/parser.go:40-72 | a file without a fence is all body, normalised, and one with nothing on its lines is empty |
| Document.OpenedLines | internal/adr/parser.go:40-58 | blank lines before the opening fence do not matter |
| Document.Unclosed | internal/adr/parser.go:74-94 | an opening fence without a closing one is an error, whatever stands before and after |
| Document.Closed | internal/adr/parser.go:74-115 | between two fences stands the frontmatter, or nothing, and what follows is the body |
| Document.FenceExactlyWhen | internal/adr/parser.go:47-86 | a fence is three dashes with nothing but blanks after them |
| Document.BodyKeptExactlyWhen | internal/adr/parser.go:102-106 | a body survives unchanged if and only if all its lines are terminated and none ends in a carriage return |
| Document.CarriageReturnsWearOff | internal/adr/parser.go:102-106 | a body that loses one carriage return in each round |
| Document.TextFormatRoundTrips | internal/adr/transitions.go:84-89 | the text format as a whole: everything written is read back, with the body normalised |
| Document.LinesAppend | internal/adr/parser.go:34-49 | splitting into lines distributes over text that ends at a line break |
| Lifecycle.AdrFile.ApplyTransition | internal/adr/transitions.go:36-116 | the errors in their order; on success the new file, and the event if the sink takes it; when the sink fails the file is rewritten all the same |
| Lifecycle.AdrFile.Transition | internal/adr/transitions.go:118-163 | the four moves; each error exactly when its cause comes first, and the file is rewritten if and only if the request has a reason, was not cancelled, names a well-formed successor if it needs one, and moves from its proper status |
| Lifecycle.AdmitsExactlyWhen | internal/adr/transitions.go:16-34 | acceptance and rejection from proposed, superseding and deprecation from accepted, given a reason and no cancellation, and nothing else |
| Lifecycle.AdrIdExactlyWhen | internal/adr/transitions.go:14 | a record id is the prefix and four digits |
| Lifecycle.RunSetsFields | internal/adr/transitions.go:36-116 | over every run, the document read at the end has the status of the last move it took and the date of that day, and names the successor of the superseding move it took; without a move nothing changed, and without a superseding one the successor is what it was |
| Lifecycle.RunReadsBack | internal/adr/transitions.go:36-116 | a readable file stays readable over every run; what is read then is the frontmatter of the run and the body as worn by its rewrites, what was logged is what it reported, and a run that rewrites nothing leaves the file alone |
| Lifecycle.UnreadableStays | internal/adr/transitions.go:62-65 | a file that cannot be read is never touched |
| Lifecycle.RunKeepsFields | internal/adr/transitions.go:16-34 | over every run all fields but status, date and superseded-by are kept, and the file is rewritten once for each level the status goes down, so at most twice |
| Lifecycle.RunKeepsBody | internal/adr/transitions.go:78-89 | a body of plainly terminated lines is kept to the letter by every run |
| Lifecycle.LogTellsAllExactlyWhen | internal/adr/transitions.go:101-113 | the emitted events lead from the first status to the last by valid moves if and only if the sink takes the event of every request that moves the document |
| Lifecycle.AllReportedExactlyWhen | internal/adr/transitions.go:101-113 | as many events as rewrites if and only if the sink takes the event of every request that moves the document |
| Lifecycle.LogCanStartLate | internal/adr/transitions.go:101-113 | accepted under a failing sink and deprecated under a working one: two rewrites, and a log that begins with an accepted document |
| Migration.Extract | internal/adr/migrate.go:138-165 | an id is found if and only if some line is a title or the file name starts with four digits; the first title line gives id and title, else those digits the id |
| Migration.LinesJoinBack | internal/adr/migrate.go:141 | the lines that are searched for a title are the text cut at its line breaks |
| Migration.LegacyFile.Migrate | internal/adr/migrate.go:99-136 | skips exactly the files with an id, else composes the structured text, and writes it unless it is a dry run |
| Migration.SkippedExactlyWhen | internal/adr/migrate.go:99-136 | a migrated file is skipped the next time if and only if a title line or the file name gave it an id |
| Migration.Idempotent | internal/adr/migrate.go:99-136 | any number of migrations leaves what one does, for a file that has an id or gets one |
| Migration.SecondChangesNothingExactlyWhen | internal/adr/migrate.go:99-136 | for a body pattern that does not shorten what was composed, the second migration leaves the text alone if and only if the first gave it an id |
| Deciders.ParseDeciders | internal/adr/migrate.go:232-264 | the loops terminate on every text and compute the staged definition; every decider is trimmed, non-empty and without commas |
| Deciders.NamesComeBack | internal/adr/migrate.go:232-264 | names joined by commas come back, in order, if nothing in them is to be taken out |
| Deciders.RemarkedNamesComeBack | internal/adr/migrate.go:232-264 | and so they do with a bracketed remark at the end |
| Deciders.OneRemarkOut | internal/adr/migrate.go:234-241 | a remark between texts without brackets is taken out, and the rest is trimmed |
| Deciders.OneQuoteOut | internal/adr/migrate.go:243-251 | two backticks are taken out with what stands between them, and the rest is trimmed |
| Deciders.ViaCut | internal/adr/migrate.go:253-255 | everything from the first word via on is cut |
| Deciders.RemarkLeftExactlyWhen | internal/adr/migrate.go:234-241 | a bracketed remark survives the removal if and only if one scan of the text from the left meets a closing bracket outside any remark with an opening and then a closing bracket after it |
| Deciders.StrayBracketStops | internal/adr/migrate.go:238-240 | a text whose stray closing bracket keeps the remark after it |
| Deciders.BackticksPair | internal/adr/migrate.go:243-251 | of the backticks one is left if their number was odd, else none |
| Graph.BuildEdges | internal/adr/graph.go:36-113 | the loops and the sort yield, in order, every superseding link and one edge for each related pair whose key is new |
| Graph.OneEdgePerPair | internal/adr/graph.go:82-97 | if no two pairs share a key, a related pair has exactly one edge, from whichever side and however often it is named, and an unrelated one has none |
| Graph.MutualNamesShareOneEdge | internal/adr/graph.go:82-97 | if no two pairs share a key, two records of which one names the other, or each the other, have one edge, from the smaller id to the larger |
| Graph.SupersedingEdges | internal/adr/graph.go:74-80 | an id has a superseding edge to a successor for every record of that id that names it |
| Graph.KindsByName | internal/adr/graph.go:104-113 | edges from one id are ordered by the name of their kind |
| Graph.EveryPairHasEdgeExactlyWhen | internal/adr/graph.go:82-97 | for any corpus, every related pair has exactly one edge if and only if no two related pairs share a key |
| Graph.OrderDoesNotMatter | internal/adr/graph.go:100-113 | if no two pairs share a key, the edge list does not depend on the order in which the files are read |
| Graph.OrderDoesNotMatterExactlyWhen | internal/adr/graph.go:82-113 | for any corpus, all orders of reading give the same edge list if and only if any two records that name pairs with one key name the same one first |
| Graph.BarFreeApart | internal/adr/graph.go:82-91 | ids without a vertical bar never share a key |
| Graph.ClashingInterfere | internal/adr/graph.go:87-91 | if two pairs share a key, the order of the files decides which gets an edge |
| Graph.BarsInterfere | internal/adr/graph.go:87-91 | two records whose ids hold a vertical bar for which this happens |
| Heartbeat.Probe.LastBeats | cmd/hades-ctld/plan5_background_runtime.go:464-509 | one poll moves the cursor and the index past the records that the query returns; a failed query changes nothing |
| Heartbeat.PollIsReplay | cmd/hades-ctld/plan5_background_runtime.go:464-509 | over any interleaving of appends and polls, a poll answers exactly what replaying the whole log would |
| Heartbeat.AnswersAreReplays | cmd/hades-ctld/plan5_background_runtime.go:464-509 | over any interleaving, the answers to all polls, each at its own moment, are those of a probe that replays the whole log every time |
| Heartbeat.BeatIsSeen | cmd/hades-ctld/plan5_background_runtime.go:464-509 | in every run, a beat that is appended is reported by the next poll |
| Heartbeat.QueryFromCursor | cmd/hades-ctld/plan5_background_runtime.go:478-488 | what the query returns from the cursor is what the whole log adds to the part already passed |
| Heartbeat.ReplayMeans | cmd/hades-ctld/plan5_background_runtime.go:485-503 | the replay lists a worker with the time of its last beat |
| Heartbeat.SilentNotListed | cmd/hades-ctld/plan5_background_runtime.go:485-503 | the replay does not list a worker without a beat |
| Inbox.BackgroundInbox.constructor | cmd/hades-ctld/plan5_background_runtime.go:259-267 | a size that is not positive falls back to the default |
| Inbox.BackgroundInbox.Publish | cmd/hades-ctld/plan5_background_runtime.go:273-298 | an uninterrupted call enqueues the newest record and drops the oldest if the buffer is full, unless cancelled or closed |
| Inbox.UninterruptedPublish | cmd/hades-ctld/plan5_background_runtime.go:273-298 | the four channel operations in a row are that call |
| Inbox.AlwaysSound | cmd/hades-ctld/plan5_background_runtime.go:273-298 | in every interleaving of publisher, consumer and close, the records that left, those buffered and the one in hand are together what was published, in order, save the last record once its call was abandoned under a close; and the buffer stays within capacity |
| Inbox.PublishEnqueues | cmd/hades-ctld/plan5_background_runtime.go:288-297 | a call that ends while the inbox is open ends with its record at the end of the buffer |
| Inbox.BufferIsNewestStretch | cmd/hades-ctld/plan5_background_runtime.go:281-297 | between calls, while open, the buffer is the newest stretch of what was published, and an empty one means the newest record was consumed, not dropped |
| Inbox.ConsumedInOrder | cmd/hades-ctld/plan5_background_runtime.go:269-298 | what the consumer got is a subsequence of what was published, in order |
| Inbox.ConsumerGetsBuffer | cmd/hades-ctld/plan5_background_runtime.go:269-298 | in every run, a consumer that keeps at it gets the whole buffer, in order |
| Inbox.NothingAfterClose | cmd/hades-ctld/plan5_background_runtime.go:269-286 | once the inbox is closed nothing is published any more, whatever follows |
| Summarize.PathClusterKey | internal/augment/community_summarize.go:121-137 | never indexes out of range, and names the first two components of the path |
| Summarize.UncategorizedExactlyWhen | internal/augment/community_summarize.go:121-137 | exactly which paths share the cluster of results without a path |
| Summarize.TitleGivesBack | internal/augment/community_summarize.go:105-119 | a title put together from symbol, path and line number gives symbol and path back |
| Summarize.PathWithoutLine | internal/augment/community_summarize.go:105-119 | and so does one without a line number |
| Summarize.InferTopic | internal/augment/community_summarize.go:139-173 | the topic is the kind with most symbols, the smallest name among equals, whatever order the counts are walked in |
| Summarize.KindsTold | internal/augment/community_summarize.go:152-161 | a name is a constant if and only if it has capitals and no small letters, else its first letter tells types from functions |
| Summarize.Summarize | internal/augment/community_summarize.go:29-103 | the five best clusters at most, by score and then id, each describing its results in full, and no omitted cluster better than a kept one |
| Summarize.DigestUnique | internal/augment/community_summarize.go:13 | the result is determined by the input, not by map iteration order |
| Summarize.DigestSize | internal/augment/community_summarize.go:98-101 | all clusters are reported if there are five at most, and else exactly five |
| Summarize.GroupMeans | internal/augment/community_summarize.go:43-66 | a cluster has exactly the paths and symbols of its results, and the sum of their scores |
| Summarize.EstimatedAnew | internal/augment/community_summarize.go:175-189 | estimating a summary anew, as the truncation guard does, comes to no less than its first estimate and to at most two tokens more |
| Summarize.ClustersPartitionNotes | internal/augment/community_summarize.go:43-66 | before the cap the clusters hold every note exactly as often as the input |
| Summarize.NotesInOrder | internal/augment/community_summarize.go:64 | within a cluster the notes keep the order of the input |
| Citation.ValidateId | internal/citation/types.go:15-29 | a citation id is valid if and only if it has 4 to 18 characters, the prefix, and lower-case letters and digits after it |
| Citation.Validate | internal/citation/types.go:120-159 | an envelope validates if and only if every field meets its rule |
| Citation.MakeCitationId | internal/augment/pipeline.go:714-751 | the id built is valid if and only if the note id has a letter or digit or the index has at most 13 digits; up to sixteen letters and digits make the id, longer note ids keep twelve and a digest, and without any the index stands in |
| Citation.SanitiseForCitationId | internal/citation/envelope.go:56-76 | the first sixteen letters and digits, in lower case |
| Citation.EnvelopeFromAuditEvent | internal/citation/envelope.go:24-54 | succeeds if and only if the row has an id and a project, and then the envelope is valid |
| Citation.BuildCitations | internal/augment/pipeline.go:628-678 | one envelope per result, in order, each with the fields that its result gives, and valid if and only if the result has a usable id, a project and some text |
| CiGate.Classify | internal/ci/classifier.go:92-125 | each bucket exactly when it applies: success, else infrastructure, else flake, else real; empty and malformed quarantine entries match nothing |
| CiGate.Evaluate | internal/ci/rolling_window.go:52-98 | the loop tallies successes and real failures, and the gates are tried in their order |
| CiGate.PassExactlyWhen | internal/ci/rolling_window.go:73-97 | a pass takes thirty commits that count, no more real failures than allowed, and the required share of successes, without division |
| CiGate.DefaultPassExactlyWhen | internal/ci/rolling_window.go:32-97 | under the default thresholds a pass takes thirty commits that count and at most two real failures |
| CiGate.EveryCommitCounted | internal/ci/rolling_window.go:57-71 | every commit that is neither infrastructure nor flake counts, as a success or as a real failure |
| CiGate.OrderDoesNotMatter | internal/ci/rolling_window.go:52-71 | permuting the commits leaves the tally, and so the verdict, as it is |
| CiGate.ExcludedDoNotMatter | internal/ci/rolling_window.go:61-64 | adding infrastructure failures and flakes leaves the verdict as it is |
| CiGate.QuarantineOnlyShrinksSample | internal/ci/classifier.go:109-122 | more quarantine patterns turn a pass into a failure only through the sample-size gate |
| CiGate.RatioGateIdleExactlyWhen | internal/ci/rolling_window.go:72-97 | for every window, the ratio gate never decides if and only if no sample reaches it or the worst sample that does has the required share |
| CiGate.RatioGateIdleByDefault | internal/ci/rolling_window.go:32-38 | under the default thresholds the ratio gate never decides |

## Left out

- Spending.SpendBound: needs a bound on the budget and on the ProjectMeta estimate of the project's callers; the reading must sum the ledger.
- Admission.Drains: says that a schedule letting everybody out exists; that every schedule ends is `EveryScheduleEnds`, and that it ends with everybody out is `StuckMeansDone`, both without new callers. Which waiter gets a freed slot is left open.
- Lifecycle.RunKeepsBody: concerns bodies of plainly terminated lines; for all others `RunReadsBack` says what is left of the body.
- Migration.Extract: the title pattern and all other header patterns are parameters, and the collapsing of leading blank lines is part of the body pattern.
- Deciders.ParseDeciders: lower-casing is ASCII, so letters whose lower case has another length in bytes are not modelled; white space is ASCII.
- The unused `releaseQueued` of the admission gate, the doctrine gate, the audit anchor, the five retrieval lanes, fusion and the privacy filter: in `Admission` a failure in any of them is one event that leaves the run.
- Failures of the budget store in a commit or a roll-up read are the same event; the ledger's other columns are not modelled.
- The closure variables of the cycle search are one value handed from call to call, not heap cells; no aliasing arises in the source.
- Error texts, including how a cycle or a collision is rendered: only the data they are rendered from.
- The type of an audit event, which is determined by its two statuses.
- Store failures while pausing: a failed write changes nothing, and a pass that stops half-way is a run that ends there.
- The trimming of the anomaly window by the store, and the loss of the detector's memory at a restart.
- Several publishers on one inbox: the daemon has one.
- The line-length limit of the scanner, and file-system failures in the decision-record code.
- The nodes of the relation graph, sorted by id alone, its walk over the directory, and the index of decision records.
- NaN, infinities and rounding; the validation of finite scores is met by every real.
- Expiration and platform renders of an envelope, its canonical JSON and its hash.
- The quarantine file's own format and the age limit of its entries.
- HTTP, sockets, terminals, launchers, editors and the rest of the command line.
- The packages for rank fusion, the event log and the audit chain are not part of this model.
