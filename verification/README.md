# Browser session agent: verified model

A Dafny model of the parts of the agent that decide something: what the provider is sent, what a
page plan may do, how a job's task graph moves, which controls the model sees, when a consequential
act is allowed, and the small text machines around them. The browser, the model provider, the clock,
the operator and the disk are parameters: every theorem holds whatever they answer.

| file | what it models |
|---|---|
| Common, Ordering | options, results, decimal text, the host's stable sort |
| Compaction, CompactionLaw, ContextFeed | dropping superseded page snapshots, and the write-back of every turn |
| PagePlan, PredicateLaw, Interpreter, StepLaw, PlanLaw, PlanTrace | the page-plan language, its interpreter, when a step succeeds, and what the trace tells |
| PlanValidate, PlanRoundTrip, ValidateLaw | validation of raw plans, what it lets through, and what a raw value must say |
| PlanGraph, JobSafety, AttemptCaps, JobProgress | the task graph, what every run of writes keeps, attempt caps over runs, and which jobs can be finished |
| Sprints, JobRunner, JobLaw | the tasks a job works on next, and ticks as code |
| JobSpec, SpecLaw, Materialize | from a draft to a canonical spec, and from its templates to tasks |
| JobTicks, SprintRuns | sequences of ticks: which jobs successful ticks finish, and what sprints let through |
| Controls, Delta, PageLaw, RowLoss | which controls fit the budget, which changes of a page are reported, and which rows come or go unreported |
| Approvals, Gate, GateLaw, GateRuns | sticky approvals, one gated call, and whole runs of gated calls |
| LedgerFile, LedgerRuns | the event file, and any sequence of appends to it, each cut short anywhere |
| FlagList, TextLaw, Terminal, TerminalLaw | flag splitting, terminal widths and wrapping |
| Settle, AttemptBudget, ChainKeys | waiting for a page to settle, the no-progress budget, and which keys share one |

Each operation is specified twice. Its function follows the code; a law, in the file of that name, says what
the function answers in the fields of its data alone: which messages become the placeholder, when a wait
succeeds, what opening a tick makes of each task, which grant pays for an act, which raw value spells which
plan. Constants and texts appear there as the numbers and strings they are.

Code that changes state is a class or a method with loops, proved equal to a function of the old
state; the theorems are about that function. A crash is modelled where the source can suffer one: the
job store and the gate carry a `fuel` counter, the number of writes or effects the process still lives
to make, and their contracts describe the store for every value of it. Every induction is written out: lemmas
carry `{:induction false}`, so that nothing rests on the verifier's own choice of induction.

The main results, in the order of the table:

- Compacting the list that was already compacted and written back sends what compacting the untouched
  history would send, over any number of turns; and this is so exactly when no result hides a snapshot
  behind a bare value and the coach boundary holds. A message once rewritten is never rewritten again.
- A result becomes the placeholder exactly when it may be dropped and at least the quota of later results
  counted with it in its piece of work may be dropped too; every other message is kept.
- The interpreter's trace is a sentence of a grammar, and a validated plan acts at most 10752 times.
  Acceptance promises `doneWhen` exactly of attempts with steps after their gate.
- The validated plans are exactly the well-formed ones, and a raw value validates to a plan exactly when the
  plan is within the limits and the value spells it.
- Over any interleaving of ticks, crashes, discoveries and answers the attempts ever started are within
  the limits of the tasks ever created, and every start finds its dependencies done. A task that
  may be started keeps to its cap in every run exactly when the cap is a whole number.
- A draft without readiness issues materializes into one task per seed with exactly the images of its
  dependencies; the job can be run to the end exactly when its templates are not circular. Any successful
  ticks finish it then once they are as many as its tasks, whatever sprints are made on the way, provided
  no resource cools down; with cooling resources, provided each tick lets some ready task through.
- Selecting twice is selecting once. The page delta is silent exactly when nothing differs, and a
  change of a row is missed exactly when a later row has taken its entry; a row that comes or goes,
  exactly when another row holds the key it takes along and all entries agree.
- A claimed key acts at most once while the entity holds fewer than 500 keys; every act under "ask" has
  a yes or a grant for the same target behind it; after a recorded yes nobody asks again. Every use of a grant
  is of one that pays for its act, and with one that pays nobody is asked. Claims are shared by the same act alone.
- A ledger written by any appends, each cut anywhere, reads back exactly the events it holds whole,
  exactly when no two appends share a line of which either is whole.
- Splitting undoes joining on exactly the lists whose pieces are not cut and do not run on, JSON
  included. Wrapping is minimal.

Where the code departs from what its comments or a reader would expect, a lemma shows it:

- `Compaction.HiddenSnapshotBreaks`, `Compaction.BoundaryLostBreaks`, `Compaction.BoundaryMovedBreaks`:
  bare-value results, and coach markers inside a snapshot that is dropped, make the write-back differ
  from a fresh compaction; `Compaction.IncrementalExactIff` says exactly when it does not, and
  `Compaction.ExactIffAnchored` in terms of the history alone.
- `PlanTrace.DoneWhenKeptIff`: `doneWhen` is not looked at when an attempt has no `then` steps.
- `AttemptCaps.CapKeptIff`: a task that may be started has a run that starts it more often than its cap,
  exactly when the cap is not a whole number.
- `JobSafety.AnswerKeepsDoneIff`: an answer reopens a task that is done.
- `JobRunner.NamelessReplanStaysRunning`: a replan of a task without an approach leaves it running.
- `SprintRuns.FailureSticksIff`, `SprintRuns.StuckForever`: a failed task never counts as settled, so that
  its sprint never ends; these say exactly when that leaves a job no tick works on again, though a task
  is ready. `SprintRuns.PassedOverIff` says when a tick passes over ready work.
- `JobSpec.NormalizeTwiceIff`: a spec drafted with two negative pacing numbers changes when normalized again.
- `Materialize.CircularPassesChecks`, `Materialize.CircularNeverStarts`: templates that wait for each
  other pass every check, and no run ever starts them; `Materialize.JobFinishesIff` is the exact condition.
- `Delta.EveryChangeSeenIff`, `RowLoss.RowLossUnseenIff`: a control named like a numbered sibling hides
  changes of rows, and rows that come or go; these say exactly which.
- `GateRuns.RepeatRefusedIff`: with 500 keys held, the next claimed act can be repeated.
- `GateRuns.GrantedActRemembered`: an act under a grant is remembered as the user's own approval.
- `LedgerFile.AppendedIff`, `LedgerRuns.RunReadsBackIff`: what is appended behind a torn line is lost.
- `Terminal.OneColumnOverflowsIff`: at one column a line can be too wide.
- `ChainKeys.OwnChainIff`, `ChainKeys.StarredTarget`: keys that differ share a chain when a part holds
  the separator, and a missing target shares one with a star.

## Model

| member | source | states |
|---|---|---|
| Compaction.PruneMessages | src/runtime/prune.ts:240-281 | the backward scan computes the specified pruning: each live snapshot with `keep` newer ones of its group becomes its placeholder |
| Compaction.EpochStart | src/runtime/prune.ts:179-184 | the last operator message after the first message, or 0 |
| Compaction.CoachEpochStart | src/runtime/prune.ts:187-193 | the last message after the first with a coach marker in its text, whatever its role, or -1 |
| Compaction.CompactFinishedWork | src/runtime/prune.ts:214-238 | finished and current segment pruned with their own quotas, then every tool result reshaped into parts |
| Compaction.KeptCount | src/runtime/prune.ts:240-281 | a pruned segment holds, of each group, the quota or all there were |
| Compaction.Absorb | src/runtime/prune.ts:240-281 | pruning with a larger quota first does not change what a smaller quota leaves, whatever is appended |
| Compaction.IncrementalExact | src/runtime/prune.ts:214-281 | compacting the compacted history with anything appended equals compacting the untouched history, provided no result shows a snapshot only once printed as text and the coach boundary holds |
| Compaction.IncrementalExactIff | src/runtime/prune.ts:94-238 | that holds for every continuation exactly when no result shows a snapshot only once printed and compaction neither adds nor loses a coach boundary nor moves it over anything live |
| Compaction.HiddenSnapshotBreaks | src/runtime/prune.ts:94-109 | with any such result, a coach review is a continuation on which the two differ |
| Compaction.BoundaryLostBreaks | src/runtime/prune.ts:187-229 | if compaction takes the coach boundary away or makes one up, a page, a request and copies of the page are a continuation on which the two differ |
| Compaction.BoundaryMovedBreaks | src/runtime/prune.ts:187-229 | if it moves the boundary over a live page, compacting again already differs |
| Compaction.NothingKeptExact | src/runtime/prune.ts:214-281 | with nothing kept the boundary does not matter, wherever markers are |
| Compaction.MarksKeepBoundary | src/runtime/prune.ts:187-193 | markers kept out of what is dropped or printed keep the boundary |
| Compaction.BoundaryHoldsIff | src/runtime/prune.ts:187-229 | where printing and dropping make no markers, the boundary holds exactly when its marker is not about to be superseded, or an earlier marker is in no droppable page |
| Compaction.ExactIffAnchored | src/runtime/prune.ts:94-238 | so exactness for every continuation can be told from the history before compacting it |
| Compaction.MarkedSnapshotBreaks | src/runtime/prune.ts:187-193 | whatever the history, if its only marker is in a page that newer ones supersede, the boundary goes with that page, and behind the next request a page survives that should not |
| Compaction.DefaultPlaceholderUnmarked | src/runtime/prune.ts:62 | the default placeholder holds no coach marker |
| Compaction.ResentStable | src/runtime/prune.ts:111-238 | a message already sent is resent equal, unless it was a live snapshot and is now its placeholder |
| Compaction.LiveBound | src/runtime/prune.ts:214-238 | with one group, at most twice `keepLatest` snapshots are live in what is sent |
| Compaction.NewestKept | src/runtime/prune.ts:240-281 | the newest snapshot of a group in the current piece of work is never dropped |
| CompactionLaw.CompactsExactly | src/runtime/prune.ts:53-281 | for every history and position, in the fields of the messages: replaced exactly when it is a tool result, no error, not dropped before, of a perishable tool or showing a page, with at least the quota of such results of its group later in its piece of work; otherwise the same message in parts |
| CompactionLaw.StartsAt | src/runtime/prune.ts:179-229 | the current piece of work starts at the last message after the first that holds one of the two coach texts, else at the last request |
| CompactionLaw.TextOfContent | src/runtime/wire.ts:199-208 | what the text of a content is, for every kind of content |
| ContextFeed.MeasureContext | src/runtime/prune.ts:141-170 | live and placeholder bytes add up, and `rewrittenFrom` is the first position whose content differs, or -1 |
| ContextFeed.BytesPartition | src/runtime/prune.ts:141-170 | live and placeholder bytes are all the bytes, and stale is what has the placeholder as its whole text |
| ContextFeed.FirstRewriteIs | src/runtime/prune.ts:155-168 | the first rewrite is one position: contents agree before it and differ at it, and everywhere agree when there is none |
| ContextFeed.Feed.TransformContext | src/runtime/runtime.ts:159-187 | under the conditions of `IncrementalExact` the write-back sends what compacting everything ever appended would send; always, old messages change only by dropping, and `rewrittenFrom` names a snapshot that was live |
| ContextFeed.RunExact | src/runtime/runtime.ts:159-187 | the same over any number of turns, if no result hides a snapshot and the boundary holds at the end of each turn |
| ContextFeed.RunIsChain | src/runtime/runtime.ts:159-187 | each context of a run extends the one before, but for live snapshots that are now placeholders |
| ContextFeed.RunRewritesOnce | src/runtime/runtime.ts:159-187 | a message rewritten in one turn is untouched in every later turn |
| Interpreter.Session.ScrollUntilFound | src/plan/interpret.ts:160-180 | the scroll loop: inspect, test, scroll at most the limit, test once more |
| Interpreter.Session.WaitUntil | src/plan/interpret.ts:182-196 | the wait loop against its deadline, each pass costing at least one moment |
| Interpreter.Session.RunStep | src/plan/interpret.ts:159-212 | one step as the semantics says, whatever the page answers |
| StepLaw.WaitsIff | src/plan/interpret.ts:182-196 | a wait succeeds exactly when some pass sees what it waits for, that pass and all before it begun before the deadline |
| StepLaw.ScrollsIff | src/plan/interpret.ts:160-180 | scrolling succeeds exactly when some inspection within the limit finds it and every scroll before worked |
| StepLaw.ClicksFirst | src/plan/interpret.ts:198-209 | the first target that resolves is the one clicked, and its click decides; with none there is no act |
| PredicateLaw.Asks | src/plan/evaluate.ts:3-24 | what each kind of predicate asks of the page: where case is folded, where it is not, and whose value is read |
| PredicateLaw.HintMet | src/plan/evaluate.ts:74-87 | when the page is still the one the hint describes |
| PlanLaw.SetsUp | src/plan/interpret.ts:73-100 | the shared setup runs before an attempt exactly when it has not gone well yet or is asked for every time; an attempt whose setup fails goes no further |
| Interpreter.Session.RunSteps | src/plan/interpret.ts:141-157 | steps in order until one fails, an event each |
| Interpreter.Session.RunBody | src/plan/interpret.ts:91-130 | steps, gate, `then` steps and `doneWhen` of one attempt |
| Interpreter.Session.RunAction | src/plan/interpret.ts:65-139 | attempts in order until one is accepted, with setup run once or every time |
| Interpreter.Session.RunActions | src/plan/interpret.ts:24-62 | actions in order until one fails or the page is left; the completed ids are a prefix of the plan's, the failed id the next one |
| Interpreter.Session.InterpretPagePlan | src/plan/interpret.ts:8-63 | the whole run: progress, completed ids, failed id and status are those of the semantics |
| PlanTrace.EveryRunReads | src/plan/interpret.ts:8-157 | whatever the page does, the trace is a sentence of the grammar, and its ending tells how many actions were completed |
| PlanTrace.OneEnding | src/plan/interpret.ts:17-62 | exactly one `plan_done` or `escalate`, and it is the last event |
| PlanTrace.AttemptsPaired | src/plan/interpret.ts:73-136 | each `attempt_start` has exactly one `attempt_result`; at most one attempt is open |
| PlanTrace.NothingAfter | src/plan/interpret.ts:73-157 | an accepted attempt is the last of its action, a failed step the last of its attempt |
| PlanTrace.ActBound | src/plan/interpret.ts:65-212 | a plan within the limits acts at most 10752 times, the product of its limits, whatever the page does |
| PlanTrace.ValidatedActBound | src/plan/validate.ts:29-163 | so does every plan that validation lets through |
| PlanTrace.CompletedOnPage | src/plan/interpret.ts:24-62 | a plan that completes ends on the page its hint describes |
| PlanTrace.AcceptedDone | src/plan/interpret.ts:104-135 | a successful action names the accepted attempt, whose gate held where its first steps ended, and whose `doneWhen` holds at the end if it had `then` steps |
| PlanTrace.AcceptedUndone | src/plan/interpret.ts:111-130 | an attempt without `then` steps that is accepted would be accepted with the negation of its gate as `doneWhen`, on the page where that is false |
| PlanTrace.DoneWhenKeptIff | src/plan/interpret.ts:104-130 | acceptance promises `doneWhen`, whatever it says, exactly of attempts with `then` steps |
| PlanTrace.DoneWhenIgnored | src/plan/interpret.ts:111-130 | removing every `doneWhen` that has no `then` steps changes no run |
| PlanValidate.ValidatePagePlan | src/plan/validate.ts:29-78 | the validator as code gives the specified verdict; what it lets through is well-formed and within every limit |
| PlanValidate.MapActions | src/plan/validate.ts:42-68 | the mapping with its growing set of ids refuses a repeated id and any bad action |
| PlanValidate.ValidatedSound | src/plan/validate.ts:29-222 | a validated plan is well-formed and within every limit |
| PlanRoundTrip.ValidatedExactly | src/plan/validate.ts:29-222 | the validated plans are exactly the well-formed ones |
| ValidateLaw.ValidatesIff | src/plan/validate.ts:29-222 | a raw value validates to a plan exactly when the plan is within the limits and the value spells it field by field, with the defaults for what it leaves out; everything else is refused as `invalid_plan` |
| ValidateLaw.LimitsInNumbers | src/plan/types.ts:3-11 | the limits in numbers: 8 actions, 6 attempts, 12 steps, 4 of setup, 8 scrolls, predicates 4 deep, waits of 15000, and nothing required empty |
| PlanRoundTrip.ValidateTwice | src/plan/validate.ts:98-163 | validating a validated plan again gives it back exactly when no `select` step lost both label and value |
| PlanGraph.ReadyTasks | src/core/plan.ts:287-303 | exactly the eligible tasks, oldest first |
| JobLaw.ReadyExactly | src/core/plan.ts:287-303 | which tasks are ready, in their fields |
| PlanGraph.CompleteAgrees | src/jobs/runner.ts:394-406 | the runner's verdict "complete" and the store's `isComplete` agree |
| PlanGraph.LimitExact | src/core/plan.ts:295-298 | the largest number of starts a cap allows |
| PlanGraph.WholeCaps | src/core/plan.ts:295-298 | the limit on starts is within the cap exactly when the cap is whole or not positive |
| JobSafety.SoundRun | src/core/plan.ts:216-258 | over every run, ids stay unique and every task stays within its limit |
| JobSafety.Conservation | src/core/plan.ts:230-233 | attempts on record are those there were plus one for each start, and all starts ever made are within the limits of all tasks ever created |
| JobSafety.RemainingDrops | src/core/plan.ts:230-233 | each start uses up one of the remaining attempts, and only a new task adds any |
| AttemptCaps.CapKeptIff | src/core/plan.ts:230-298 | a task that may be started keeps to its cap in every legal run exactly when the cap is a whole number |
| AttemptCaps.StartedToLimit | src/core/plan.ts:230-298 | and retrying it brings it to its limit |
| AttemptCaps.JobCapsIff | src/core/plan.ts:230-298 | in a new layered job every task keeps to its cap in every run exactly when all caps are whole |
| JobSafety.StartsAfterDependencies | src/core/plan.ts:287-303 | every start of a run finds every dependency done |
| JobSafety.TickKeepsDone | src/jobs/runner.ts:126-466 | nothing a tick writes, crash or not, takes a task out of done |
| JobSafety.AnswerKeepsDoneIff | src/jobs/service.ts:195-217 | a person's answer keeps done tasks done exactly when the task answered for is not done |
| JobSafety.DependencySafety | src/core/plan.ts:287-303 | while no done task is answered for, every attempted task has only done dependencies |
| JobSafety.OneAtATime | src/jobs/runner.ts:139-210 | at most one task is running, at every point of every run |
| JobSafety.SomethingReady | src/core/plan.ts:287-303 | in an acyclic graph that nothing else hinders there is a task to run until all are done |
| JobProgress.NeverStarted | src/core/plan.ts:287-303 | over every run that leaves their dependencies alone, tasks that wait for each other are never started |
| JobProgress.LayersKept | src/core/plan.ts:194-258 | a layered graph stays layered over every run whose new tasks depend on tasks of lower layers |
| JobProgress.AlwaysSomethingReady | src/core/plan.ts:287-303 | so at every point of such a run that nothing else hinders there is a task to run, until all are done |
| JobProgress.StartedInOrder | src/core/plan.ts:287-303 | in every run a dependency is started before the task that waits for it |
| JobProgress.CanFinishIff | src/core/plan.ts:287-303 | a new graph in which only dependencies hold tasks back has a run that finishes every task exactly when it is acyclic |
| JobRunner.PlanStore.Commit | src/core/plan.ts:216-228 | one atomic replacement of the stored record, recorded as a legal write of the run |
| JobRunner.PlanStore.AnswerHuman | src/jobs/service.ts:195-217 | a person's answer returns the task to the queue, whatever its status |
| JobRunner.PlanStore.Sweep | src/jobs/runner.ts:408-466 | recovery, waking and exhaustion rewrite exactly the tasks they are about, task by task |
| JobRunner.PlanStore.OpenTick | src/jobs/runner.ts:139-143 | the three sweeps in their order |
| JobRunner.OpenedSettled | src/jobs/runner.ts:408-466 | afterwards nothing is running, and whatever waits is under its cap |
| JobLaw.OpensEachTask | src/jobs/runner.ts:408-466 | what opening a tick makes of each task: a running one is done exactly if its criteria pass, else failed at its cap and pending below it, as is a parked one that is due; what waits at its cap fails; every other task stays |
| JobLaw.DoneOnlyBy | src/jobs/runner.ts:126-391 | a task that a tick makes done was running with its criteria passing, or is the one attempted, reconciled or successful |
| JobLaw.JudgesPicked | src/jobs/runner.ts:293-391 | one attempt more, and the status that follows from the verdict, the cap and the approach |
| JobLaw.StatusAfter | src/jobs/runner.ts:144-391 | when a tick completes a job, when it fails it, and that it otherwise leaves it active |
| JobLaw.EndsExactly | src/jobs/runner.ts:394-406 | a graph is complete or failed exactly by the statuses of its tasks |
| JobRunner.PlanStore.Discover | src/core/plan.ts:194-207 | discovered tasks are appended one by one, in order |
| JobRunner.PlanStore.Conclude | src/jobs/runner.ts:315-392 | each verdict leads to one write and one outcome, in the source's precedence; the outcome of a failed task tells whether the job is over |
| JobRunner.PlanStore.RunTask | src/jobs/runner.ts:208-392 | start, reconcile or run and settle: the whole graph afterwards, with exactly one more start |
| JobRunner.PlanStore.EnsureSprint | src/jobs/runner.ts:468-494 | the sprint at hand, or a new one of the first ready tasks, written before the job points to it |
| JobRunner.PlanStore.TakeSprint | src/jobs/runner.ts:161-170 | the sprint the tick works by: refreshed, and closed and followed by another if its members are settled |
| JobRunner.PlanStore.Work | src/jobs/runner.ts:161-392 | sprint, pick and attempt; a tick that picks nothing puts back the pointer to the sprint it found |
| Sprints.RolloverIff | src/jobs/sprint.ts:39-72 | a sprint that is not holding rolls over exactly when it has members and each is done, abandoned, parked or blocked |
| JobRunner.PlanStore.RunLocked | src/jobs/runner.ts:126-392 | one tick: wherever it is cut, the stored graph is the result of a legal run with at most one more start; if it survives, the graph, the sprint, the job's status and the outcome are as specified |
| JobRunner.PlanStore.TickJob | src/jobs/runner.ts:104-124 | a job that is not active is left alone; an active one is left as `AfterTick` computes; wherever the process dies, whatever was started had its dependencies done |
| JobRunner.PlanStore.TickAll | src/jobs/runner.ts:104-392 | any sequence of ticks leaves the job as `AfterTicks` computes, with at most one start each |
| JobRunner.PicksOldest | src/jobs/runner.ts:496-509 | the task picked is the oldest that is ready and allowed |
| JobRunner.OthersKept | src/jobs/runner.ts:208-392 | a tick leaves every other task as it was, except those of an approach it gives up |
| JobRunner.NamelessReplanStaysRunning | src/jobs/runner.ts:364-373 | after a replan the task is left running exactly when it has no approach |
| JobSpec.UniqueId | src/jobs/spec.ts:183-190 | the renaming loop ends with the first free candidate |
| JobSpec.AssignedUnique | src/jobs/spec.ts:183-190 | the rule "first free candidate, in turn" determines every name |
| JobSpec.NormalizeTemplates | src/jobs/spec.ts:179-206 | every draft takes its name by that rule, also one without an objective, which is then dropped; ids come out distinct |
| JobSpec.SelfNamedKept | src/jobs/spec.ts:179-206 | names that were distinct already are left alone |
| JobSpec.NormalizeSpec | src/jobs/spec.ts:321-380 | the canonical templates and every default and bound of budgets and pacing |
| JobSpec.NormalizedUnique | src/jobs/spec.ts:321-380 | a draft has only one canonical spec |
| SpecLaw.NamesTaken | src/jobs/spec.ts:179-191 | each draft takes the name it wants while no earlier one has it, else that name with the first free number from two on |
| SpecLaw.CanonicalExactly | src/jobs/spec.ts:191-206 | one template per draft with an objective, in order, the same but for its name |
| SpecLaw.DefaultsFilled | src/jobs/spec.ts:349-364 | the numbers filled in and their bounds |
| JobSpec.NormalizeTwiceIff | src/jobs/spec.ts:357-362 | normalizing again gives the same spec exactly when not both pacing numbers were negative |
| JobSpec.CollectReadinessIssues | src/jobs/spec.ts:382-440 | the issues of the canonical spec, in order; none exactly when it meets every requirement |
| JobSpec.NoIssueIff | src/jobs/spec.ts:382-440 | an issue list is empty exactly for a ready spec |
| SpecLaw.IssuesSay | src/jobs/spec.ts:382-438 | each issue is raised exactly when what it says of the spec is so, unknown and unmaterialized dependencies included, and no other code is |
| SpecLaw.ReadyExactly | src/jobs/spec.ts:382-438 | what a ready spec has, in its fields: every dependency names a seed that the job starts with |
| JobSpec.AssertMaterializablePlan | src/jobs/graph.ts:11-36 | passes exactly when the templates can be materialized; otherwise names the first rule broken |
| Materialize.MaterializePlan | src/jobs/graph.ts:38-72 | the planted graph; or refused: by the check without a write, by a seed without criteria with exactly the seeds before it planted and none linked; cut anywhere, the result of a legal run |
| Materialize.PlantSeeds | src/jobs/graph.ts:45-63 | first pass: one task per seed, and the map from template to task; ends at the first seed without criteria, the seeds before it planted |
| Materialize.LinkPlan | src/jobs/graph.ts:64-70 | second pass: dependencies translated through the map, never through a missing entry |
| Materialize.ReadyMaterializes | src/jobs/spec.ts:382-449 | a ready spec passes the check made before materializing |
| Materialize.PlantedFaithful | src/jobs/graph.ts:38-86 | one task per seed template, whose dependency ids are exactly the images of the template's dependencies, none dangling |
| Materialize.LayeredJobStarts | src/jobs/graph.ts:38-86 | a fresh job whose templates can be layered has a task to run |
| Materialize.FreshJobReadyIff | src/jobs/graph.ts:38-86 | a fresh job has a task to run exactly when a seed waits for nothing and may be attempted |
| Materialize.CircularPassesChecks | src/jobs/spec.ts:382-449 | any seed of any ready spec can be made to wait for itself, and the spec is still ready |
| Materialize.CircularNeverStarts | src/jobs/graph.ts:38-86 | over every run after materializing that leaves their links alone, seeds that wait for each other are never started and stay held back |
| Materialize.ReadyNeverFinished | src/jobs/graph.ts:11-86 | so the job made of such a ready spec is finished by no run that leaves the links between tasks alone |
| Materialize.JobFinishesIff | src/jobs/graph.ts:11-86 | a materialized job whose caps are positive has a run that finishes it exactly when its templates can be layered |
| JobTicks.TickCompletes | src/jobs/runner.ts:126-392 | with nothing but dependencies in the way, a successful tick completes the task it picks and changes no other; if all are done it completes the job |
| JobTicks.TicksFinishIff | src/jobs/runner.ts:126-392 | successful ticks that each let some ready task through, as many as there are tasks, finish a new job exactly when its dependencies are not circular; one more completes it |
| JobTicks.JobTicksFinishIff | src/jobs/graph.ts:11-86 | the same of a materialized job and its templates, whatever sprint it points to |
| SprintRuns.PicksIff | src/jobs/runner.ts:468-509 | a tick picks a task exactly when one is ready and free among the members of the open sprint, or, if that has none or rolls over, among the first ready tasks |
| SprintRuns.PassedOverIff | src/jobs/runner.ts:468-509 | with nothing cooling down, ready work is passed over exactly when an open sprint that does not roll over has none of it as a member |
| SprintRuns.StuckForever | src/jobs/sprint.ts:39-72 | once all members of an open sprint have come to an end, one of them failed, no sequence of ticks attempts anything or completes the job; with budget and a task that could be attempted it stays active |
| SprintRuns.FailureSticksIff | src/jobs/runner.ts:375-389 | an attempt that fails its task for good leads there exactly when every other member has come to an end and some task has not |
| SprintRuns.SprintsAdmit | src/jobs/runner.ts:468-509 | while attempts succeed and nothing cools down, sprints let a ready task through at every tick |
| SprintRuns.SprintsFinishIff | src/jobs/runner.ts:126-392 | so successful ticks, as many as there are tasks, finish a new job exactly when its dependencies are not circular |
| SprintRuns.MadeFinishesIff | src/jobs/graph.ts:11-86 | the same of a materialized job: one tick more than its tasks completes it exactly when its templates can be layered |
| Controls.ChooseIsBest | src/core/diff.ts:122-148 | as many controls of the pool as fit, in document order, each before every control left out in rank and place |
| PageLaw.ChoosesByBand | src/core/diff.ts:122-149 | no control is chosen before a more urgent one, an old one before one that just appeared, furniture before content, or a later one of the same band |
| PageLaw.ChoosesCompetitors | src/core/diff.ts:122-149 | what is chosen competes, with a dialog open only what is in one, and as many are chosen as fit |
| PageLaw.CutsPage | src/core/diff.ts:151-155 | the page is cut to 80 and marked as cut exactly when something is left out |
| Controls.ChooseTwice | src/core/diff.ts:122-148 | selecting m and then k of them is selecting k, dialogs included |
| Controls.WireSelection | src/runtime/wire.ts:60 | the model is shown what one selection from the whole page would show |
| Delta.KeyControls | src/core/diff.ts:41-51 | the host's map: each row under its key, keys in first-set order |
| Delta.KeyedOnePerControlIff | src/core/diff.ts:36-51 | one entry per control exactly when no base key is the numbered key of another row |
| Delta.DiffControls | src/core/diff.ts:75-108 | additions, removals and alterations in order, cut at twelve; silent exactly when the two indices do not differ |
| Delta.ReportsExactly | src/core/diff.ts:75-108 | before the cut, a change is listed exactly when it happened |
| Delta.DeltaComplete | src/core/diff.ts:36-108 | without aliasing, no difference exactly when every row has its counterpart by base and number, equal in value, check mark and disabled state, both ways |
| Delta.CoveredCounts | src/core/diff.ts:36-51 | then every base key occurs as often |
| Delta.RowChangeSeenIff | src/core/diff.ts:36-108 | on any page, a change of a row that keeps its base key goes unreported exactly when a later row has taken its entry |
| PageLaw.AlteredIdentitySeen | src/core/diff.ts:36-108 | without aliasing, a row altered in its role alone, its name alone or its link address alone is always reported |
| Delta.EveryChangeSeenIff | src/core/diff.ts:36-108 | every such change is reported exactly when no two rows share an entry |
| RowLoss.RowLossUnseenIff | src/core/diff.ts:36-108 | on any page, a row comes or goes unreported, wherever it stands, exactly when a row with another base key holds the key of its last sibling and every entry is filled before and after by rows that agree |
| RowLoss.RowLossSeen | src/core/diff.ts:36-108 | without aliasing no row comes or goes unreported |
| RowLoss.TopRowHides | src/core/diff.ts:36-51 | a row at the top that is named like a later sibling comes and goes unreported, whatever it shows |
| Delta.BorrowerHides | src/core/diff.ts:36-51 | so on any page without aliasing, a row named like a numbered sibling that it agrees with hides |
| Delta.RowChangeSeen | src/core/diff.ts:75-108 | without aliasing, a change in one of many identical rows is never lost |
| Delta.AliasHidesARow | src/core/diff.ts:36-51 | a page on which a control named like a numbered sibling vanishes unreported |
| Approvals.KeyDecides | src/core/approvals.ts:33-41 | keys are equal exactly when host, kind, folded name, rule and spec are, even when a page puts the separator into a name |
| Approvals.ApprovalsFromEvents | src/core/approvals.ts:64-72 | the set read back holds exactly the keys of the rows that are honoured |
| GateLaw.HonouredRow | src/core/approvals.ts:55-62 | which rows are honoured later, in their fields |
| GateLaw.YesIsRemembered | src/core/gate.ts:457-491 | a yes to a control named in all its parts is remembered |
| Gate.Gatekeeper.Authorize | src/core/gate.ts:402-495 | a grant, else a remembered yes, else the operator; a yes is recorded before the act |
| GateLaw.GrantsPay | src/core/gate.ts:141-160 | every grant a call uses is one it carries, by its id, with uses left, not expired, for its host, authorization, spec, kind and folded name |
| GateLaw.RunGrantsPay | src/core/gate.ts:141-160 | so in every run |
| GateLaw.PaidIsNotAsked | src/core/gate.ts:402-424 | with such a grant nobody is asked and a grant is used |
| GateLaw.UnpaidIsAsked | src/core/gate.ts:425-495 | without one the operator is asked unless the yes is remembered, and the act needs one of the two |
| Gate.Gatekeeper.ClaimAndAct | src/jobs/runner.ts:265-280 | the journal's entry, the claim, the act, its row, in this order; a verified journal refuses before the entry, a consumed key after it |
| GateLaw.SameKeyIff | src/core/gate.ts:497-499 | two acts share a claim exactly when they are for the same control, rule and spec |
| GateLaw.FreshActMade | src/core/gate.ts:497-517 | an act that has permission and that no earlier call of the run was for is made, not refused as a duplicate |
| GateLaw.StakeEnds | src/core/gate.ts:457-564 | a call at stake ends parked, as a duplicate, or with the act, claimed before and followed by its row |
| Gate.Gatekeeper.OpenCall | src/core/gate.ts:186-335 | restoring, the envelope's refusal, the checkpoint saved first, exploring and restoring after a broken promise |
| Gate.Gatekeeper.GuardedAct | src/core/gate.ts:284-572 | whenever the process dies, the stores hold what a prefix of the decided effects leaves; the outcome tells whether the act was made, parked, explored or the page restored |
| GateRuns.AtMostOnce | src/core/state.ts:179-187 | for any calls and crashes, a key acts at most once while it is held or fewer than 500 keys are |
| GateRuns.RepeatRefusedIff | src/core/redact.ts:49 | repeating an act that went through is refused exactly when the entity held fewer than 500 keys |
| GateRuns.EveryActIsBacked | src/core/gate.ts:407-532 | in every run, an act under "ask" comes after an operator's yes, or the use of a grant, for the same host, kind, normalized name and rule; on a nameless control, right after the operator's yes to it with at most its claim in between |
| GateRuns.EveryActHasAYes | src/core/gate.ts:425-532 | without grants it was an operator's yes, now or earlier |
| GateRuns.EveryActLetThrough | src/core/gate.ts:300-380 | in every run, an act that leaves the session passed the envelope, its precondition and the policy, and an exploring one passed the envelope and stays in the session |
| GateRuns.NeverAskedAgain | src/core/gate.ts:457-491 | once a yes with all its parts is on the ledger, that key is never asked again |
| GateRuns.AutoAddsNothing | src/core/gate.ts:532-564 | an act on the automatic policy adds nothing to what is remembered |
| GateRuns.GrantedActRemembered | src/core/gate.ts:546-561 | what a granted act under "ask" adds: the key without its spec, though nobody was asked |
| FlagList.SplitFlagList | src/cli/main.ts:75-97 | the scan computes the pieces, and they join back to the value |
| FlagList.SplitJoinIff | src/cli/main.ts:75-97 | splitting undoes joining exactly when no piece is cut and none but the last runs on |
| TextLaw.PlainTextSplits | src/cli/main.ts:75-97 | text without brackets is cut at every comma |
| FlagList.JsonListSurvives | src/cli/main.ts:75-97 | printed JSON objects and arrays come back whole, however nested and whatever their strings hold |
| TextLaw.QuoteReadsBack | src/cli/main.ts:75-97 | the printed form of any text reads back as it by the escapes of section 7 of RFC 8259, and no list splits it |
| FlagList.ParseArgs | src/cli/main.ts:35-59 | the argument loop computes the specified flags |
| FlagList.RepeatedFlagReadBack | src/cli/main.ts:48-54 | a flag given several times reads back as exactly its values when they survive the join, whatever else is on the line |
| LedgerFile.ReadFrom | src/core/ledger.ts:173-190 | the reading loop: blank lines skipped, a bad last line forgiven, any other an error |
| LedgerFile.CorruptIff | src/core/ledger.ts:182-187 | reading fails exactly when a line does not parse and a later line is not blank |
| LedgerFile.CrashConsistent | src/core/ledger.ts:164-190 | any prefix of an appended file reads without error as exactly the events whose whole text it holds |
| LedgerFile.AppendedIff | src/core/ledger.ts:164-190 | events appended behind a torn line read back with what was there exactly when nothing was torn |
| LedgerFile.AppendedAfterTear | src/core/ledger.ts:164-190 | when the torn line and the event joined to it do not parse, that event is lost, and with a second one the ledger is corrupt |
| LedgerFile.Ledger.Append | src/core/ledger.ts:164 | one line, or as much of it as was written; the file is always the text of the appends made |
| LedgerRuns.ReadsCallByCall | src/core/ledger.ts:164-190 | reading the file left by any appends, each cut anywhere, is reading it append by append |
| LedgerRuns.RunReadsBackIff | src/core/ledger.ts:164-190 | that file reads back as exactly the events written whole exactly when no two appends share a line of which either is whole |
| LedgerRuns.HostExists | src/core/ledger.ts:164-190 | some serializer and parser meet all that is asked of the host's |
| Terminal.FitLine | src/host/pi-tool-view.ts:69-83 | the text, or its longest prefix that leaves room for the mark; never wider than the terminal |
| TerminalLaw.FittedIff | src/host/pi-tool-view.ts:69-83 | there is one way to fit a line, and what it is: the prefix before the mark is the longest that leaves it room |
| TerminalLaw.WidthsByTable | src/host/pi-tool-view.ts:30-59 | the columns of every code point, by two tables of ranges that ascend and never meet |
| Terminal.WrapToWidth | src/host/pi-tool-view.ts:86-113 | the nested loops compute the specified lines |
| Terminal.WrapBreaks | src/host/pi-tool-view.ts:86-113 | from two columns on, no line of a paragraph is too wide and together they are the paragraph |
| TerminalLaw.WrapKeeps | src/host/pi-tool-view.ts:86-113 | from one column on every code point is kept in order, a mark standing for one too wide; without a column there is one empty line |
| Terminal.WrapMinimal | src/host/pi-tool-view.ts:86-113 | no way of breaking the paragraph into lines that fit uses fewer |
| Terminal.OneColumnOverflowsIff | src/host/pi-tool-view.ts:94-111 | at one column a line is too wide exactly when a wide code point follows zero-width ones that start the paragraph or follow a wide one |
| Terminal.ParagraphsExact | src/host/pi-tool-view.ts:89 | splitting at line breaks loses nothing and leaves none inside |
| Terminal.RenderToolResult | src/host/pi-tool-view.ts:139-161 | no line drawn is wider than the terminal; at most two hundred lines and a note; shown as wrapped from two columns on |
| Settle.SettleVerification | src/core/settle.ts:93-138 | at most five reads; ends with the first read that settles or runs out of time; reports the latest read served, the sum of the pauses and the reads served; throws only if every read threw |
| Settle.EndsOnce | src/core/settle.ts:106-128 | the number of reads, and so the report, is determined by the page, the mode and the budget |
| Settle.ServedCounts | src/core/settle.ts:106-128 | reads served are those that did not throw |
| Settle.DefaultReads | src/core/settle.ts:33-128 | within the default budget a wait ends before its fifth read only because a read settled it |
| Settle.PassIffSomePassed | src/core/settle.ts:112-113 | in "pass" mode the verdict is a pass exactly when some read passed |
| Settle.StableExit | src/core/settle.ts:112-122 | a "stable" wait that ends with time left ends on a read that passed, was painted and agrees with the passing read before it |
| Settle.InterruptedAgreement | src/core/settle.ts:112-122 | of two passing reads in a row, whatever fails or throws in between, the second settles a "stable" wait exactly if it agrees and is painted |
| Settle.EmptyWaitsOut | src/core/settle.ts:112-128 | a page that shows no control on any passing read is read until the time is up |
| Settle.SignatureDecides | src/core/settle.ts:89-91 | signatures are equal exactly when address and number of controls are |
| AttemptBudget.Tracker.Decide | src/runtime/attempt-budget.ts:51-91 | the verdict and the chain's new record |
| AttemptBudget.Tracker.DecideAll | src/runtime/attempt-budget.ts:51-91 | any sequence of calls on one tracker gives the verdicts and records of the specification |
| AttemptBudget.AllowedIff | src/runtime/attempt-budget.ts:71-91 | when the j-th call of a chain is allowed, in terms of the calls before it alone |
| AttemptBudget.StagesCounted | src/runtime/attempt-budget.ts:84-90 | a chain's record counts its allowed calls stage by stage |
| AttemptBudget.NoRepeat | src/runtime/attempt-budget.ts:77-84 | two successive allowed attempts never repeat both evidence and strategy |
| AttemptBudget.EveryChainBounded | src/runtime/attempt-budget.ts:71-73 | over any interleaving a chain is allowed at most its cap |
| AttemptBudget.ChainsApart | src/runtime/attempt-budget.ts:51-91 | a chain's verdicts and record equal those of running its own calls alone |
| AttemptBudget.ChainsCollide | src/runtime/attempt-budget.ts:18-20 | text moved over the seam between goal and page leaves the chain the same, for the parts are joined without escaping |
| ChainKeys.OwnChainIff | src/runtime/attempt-budget.ts:18-20 | a key shares its chain only with keys written alike exactly when no part holds the separator, within or across a seam |
| ChainKeys.StarredTarget | src/runtime/attempt-budget.ts:18-20 | a missing target and a star share a chain |
| ChainKeys.AloneIff | src/runtime/attempt-budget.ts:18-20 | no other key shares the chain exactly when the parts are clean and the target is not written as a star |
| ChainKeys.TameKeysApart | src/runtime/attempt-budget.ts:18-20 | keys whose first three parts hold no separator share a chain exactly when all parts agree as written, whatever the target holds |

## Left out

- Compaction.IncrementalExactIff: takes a printer that never prints the placeholder sentence, and some droppable page without a marker as a probe; without any such page there is nothing to tell the two compactions apart by.
- Compaction: message contents are text, a list of parts, nothing, or another value; what counts as a snapshot and how a value prints are parameters, and the search for a snapshot inside nested values is not modelled.
- Interpreter: the prose of reasons and details, and the list of actuals, carry nothing the trace does not.
- Interpreter.Session.WaitUntil: the clock is taken to advance at least one unit each pass, without which the source's loop has no bound.
- PlanValidate.ValidatePagePlan: every refusal carries the same code, so that the order of the checks and the wording of refusals do not show; numbers are reals, so NaN and infinities do not occur.
- JobProgress.CanFinishIff: about graphs in which every task is pending, may be attempted, and waits for nothing but tasks; what facts, cool-downs and people hold back is not part of it.
- JobTicks.TicksFinishIff: about ticks whose attempt succeeds, discovers nothing and finds a model, a browser and budget, and which let some ready task through if there is any; a tick that lacks any of these may leave the graph as it was.
- SprintRuns.SprintsFinishIff: the same, with no resource cooling down in place of the last condition, which it proves.
- SprintRuns.StuckForever: about ticks alone; a person's answer to the failed task can set the sprint going again.
- Materialize.JobFinishesIff: about a job planted into an empty graph with positive attempt caps; a cap of zero holds a task back whatever the templates.
- JobRunner: leases, human items, the scheduler's spending and cool-downs are inputs of a tick; their own records are not modelled. Ticks and other store updates run one at a time, and a tick has one moment, though the source reads the clock again when it makes a sprint.
- Sprints: of a sprint its members, status and counters; its notes, and the sprint id written on each member, decide nothing.
- JobRunner.PlanStore: `block`, `provideInputs` and adopting a new approach are not part of the tick and are left out. Lists are taken as stored whole, although storing cuts them at 500 entries.
- JobRunner.PlanStore.TickJob: taking and losing the leases, and an active job without an approved spec.
- JobSpec: coercing unknown values to strings and lists, grants, assumptions and hashes; templates that are not objects.
- JobSpec.CollectReadinessIssues: the approval envelope, whose required entries normalizing always adds, so that its issue cannot be raised.
- Materialize: discovery from a template creates tasks through the same appending that `JobRunner.PlanStore.Discover` models; its entities are left out.
- Controls.ChooseIsBest: controls are pairwise different, as two objects of the source always are; so for the laws of `PageLaw`.
- Delta.DeltaComplete: assumes that no base key equals a numbered key on either page; `KeyedOnePerControlIff`, `EveryChangeSeenIff` and `RowLossUnseenIff` say what holds without it.
- Gate: screenshots; the classifier, the page and the operator are part of the call. The payload of a row is kept whole, although one over 4000 characters is replaced.
- Gate.Gatekeeper.OpenCall: a checkpoint that exists but cannot be put back ends a restore request with an exception in the source, and with a refusal here.
- Gate.Gatekeeper.ClaimAndAct: of the journal only whether it is verified is kept; how it becomes so is a step of the run. An act that throws is not told apart from the death of the process.
- GateLaw.SameKeyIff: of calls in which only a control's name holds the key separator; `Approvals.KeyDecides` says the same of keys.
- GateRuns.EveryActIsBacked: identities are taken to hold the key separator in the control's name alone.
- FlagList.ParseArgs: flag names are plain keys; names inherited from the host's object prototype are not modelled.
- LedgerFile: serializing and parsing are parameters; the theorems state what they need of them, which section 4 of RFC 8259 gives for objects printed on one line.
- LedgerFile.Ledger.Append: the event is taken as it is written, after redaction, the payload cap and the filling in of id and time.
- LedgerRuns.RunReadsBackIff: needs that a line glued from the beginnings of two or more events never parses, as is so of objects whose first key begins with a letter.
- Terminal: text is a list of code points, as the host iterates it; the summary line is a parameter.
- Settle: the budget is a real number; the changes attached to a read are left out.
- AttemptBudget: caps and clock are whole numbers; the blocked outcome and the stage classifier are left out.
- Browser, perception, providers, the terminal user interface, leases, redaction patterns and the remaining commands: calls into code outside the model.
