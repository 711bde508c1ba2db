# Verified models of Candace's protocols and algorithms

A Dafny 4.11 model of five parts of the Candace repository, with proofs of what they keep over every input, every run
and every interleaving. `dafny verify dfyconfig.toml` checks the whole project.

| part | files |
|---|---|
| shared datatypes, Go's integers and strings, sequence facts | `Wrappers.dfy`, `GoStrings.dfy` |
| `csf` controller compiler, stack evaluator, runtime, dashboard | `CsfController.dfy`, `CsfCompiler.dfy`, `CsfEvaluator.dfy`, `CsfRuntime.dfy`, `CsfEpisodes.dfy`, `Dashboard.dfy` |
| `pkg/cron` schedules, store, catch-up, runs, replicas | `CronTime.dfy`, `CronSchedule.dfy`, `CronStore.dfy`, `CronCatchUp.dfy`, `CronReconcile.dfy`, `CronRuns.dfy`, `CronRecords.dfy`, `CronOverlap.dfy`, `CronReplicas.dfy`, `CronCycles.dfy` |
| `copilot-adapter` locks, prompt delivery, session creation | `CopilotRegistry.dfy`, `CopilotPrompts.dfy`, `CopilotReplies.dfy`, `CopilotCreation.dfy`, `CopilotCreationReplies.dfy` |
| `pkg/workcontinuity` checkpoint history, repair and writers | `Continuity.dfy`, `ContinuityRepair.dfy`, `ContinuityWriters.dfy`, `ContinuityAnswers.dfy` |
| `candaceos` source digest, budget, extraction | `SourceDigest.dfy`, `SourceBudget.dfy`, `SourceMaterialization.dfy` |

How it is built:

- What the source updates in place is a class whose methods are proved against specification functions on values:
  `MemoryStore`, `Runtime`, the evaluator's two arrays, `MutationRegistry`, `AppSourceBudget`, `DigestHash`,
  `SourceRoot`, the dashboard's `Snapshot`. Loops of the source are loops here, and a Go map is visited in an arbitrary
  order.
- Concurrency is a step relation over the same specification functions. Each durable write is one atomic step that may
  commit and be acknowledged, commit with the acknowledgement lost, or not commit; processes may crash between any two
  steps and lose everything that is not durable. Theorems quantify over all finite action sequences.
- Go's arithmetic is written out: `/` rounds toward zero, durations saturate or wrap at 64 bits, the attempt counter
  wraps at 32.
- An instant is a number of nanoseconds since Go's zero time, so `IsZero` is `== 0`. `OccurrenceID` is an injective
  constructor of job and instant. Lease tokens, SDK attempt tokens and checkpoint IDs are values; freshness is a
  hypothesis or a guard of the step that draws them.

## Where code and documentation part

- `Schedule.Next` (pkg/cron/schedule.go:420-431) promises a time after its argument. For intervals it keeps the promise
  exactly while one more step from the anchor fits a 64-bit duration; past that the product wraps and the answer lies
  before the anchor (`NextEveryExactly`, with a concrete schedule in `NextEveryCanWrap`).
- The overlap policy (pkg/cron/store.go:297-336) is checked by claims and not by renewals. Two leases of a job are live
  at once exactly when an accepted renewal revives a lapsed lease beside another live one (`OverlapExactly`). That
  cannot happen while each accepted renewal of the job is stamped not before the job's earlier acquired claims
  (`OverlapExcluded`); `LateRenewalOverlaps` is a run from the empty store in which it happens.
- "unknown must never cross that boundary a second time" (services/copilot-adapter/handlers.go:1424-1425) holds with one
  live process at a time (`DeliveredAtMostOnce`). With two, a handler whose own mark failed reads the other's mark as its
  own; `RepeatExactly` says precisely when a prompt can cross again.
- `reconcileStartingSession` (services/copilot-adapter/handlers.go:636-669) reads the row and the receipt separately. The
  pair it calls inconsistent is never in the store, but it is observed exactly when another process's transaction commits
  between the two reads (`VerdictExactly`).
- `Continuity.Checkpoint` verifies its append by ID alone (pkg/workcontinuity/continuity.go:161). For a trusted account
  that is its own checkpoint (`TrustedCallVerifiesItself`). In general it is exactly when that checkpoint is published
  (`SuccessVerifiesOwnExactly`), and otherwise it is another writer's payload (`UntrustedCallVerifiesAnother`).
- An ID has a pattern but a predecessor has none (proto/candace/work/v1/work.proto:39-48), so a trusted checkpoint can name
  a predecessor that no checkpoint can have. No later comment repairs that, nor a fork, a cycle or an unreadable comment;
  everything else can be repaired (`DamageIsPermanentExactly`).

## Model

| member | source | states |
|---|---|---|
| `CsfCompiler.CompileExpressionExactly` | csf/compiler.go:60-91 | compileExpression succeeds exactly on trees whose nodes pass instructionArity and that still fit the remaining depth and instruction budgets, and then appends the tree's postfix form |
| `CsfCompiler.CompileSucceedsExactly` | csf/compiler.go:29-58 | Compile accepts exactly the supported controllers whose two trees have at most 128 nodes and height at most 16, and emits both postfix forms |
| `CsfController.WellFormedExactly` | csf/compiler.go:93-132 | a supported node has exactly its operator's arguments, operands within the profile, and none that its operator does not use |
| `CsfController.ClampTo` | csf/compiler.go:205-207 | of the numbers between the bounds, clamp gives the one nearest to its argument |
| `CsfController.MeaningNodeByNode` | csf/compiler.go:178-199 | what each node computes from its arguments' values, in plain arithmetic: its constant, its input, the sum or the product divided by 1000 without its fraction, each held within a thousand million, and the value nearest to the argument between the clamp's bounds |
| `CsfEvaluator.ExecutePostfix` | csf/compiler.go:159-203 | running a tree's postfix form on any stack pushes exactly one slot, holding the tree's saturating meaning and its height |
| `CsfEvaluator.DecompilePostfix` | csf/compiler.go:60-91 | reading a postfix form back pushes exactly the tree it came from |
| `CsfEvaluator.DecompileSound` | csf/compiler.go:93-132 | every instruction sequence that decompiles is the postfix form of the well-formed trees it decompiles to |
| `CsfEvaluator.ExecuteAgreesWithDecompile` | csf/compiler.go:159-203 | whatever instruction sequence the machine runs decompiles, into trees within the depth budget whose meanings are what the stack holds |
| `CsfEvaluator.EvaluatorAcceptsExactlyCompiledTrees` | csf/compiler.go:159-203 | the evaluator accepts an arbitrary instruction sequence if and only if it is the postfix form of a tree within both budgets, and returns that tree's meaning |
| `CsfEvaluator.PostfixIsInjective` | csf/compiler.go:60-91 | two different trees never compile to the same code, and decompiling inverts compiling |
| `CsfEvaluator.CompiledControllerComputesItsMeaning` | csf/compiler.go:136-157 | a compiled controller fails on exactly the out-of-range features and otherwise computes both trees' meanings, or the nearest actuator limit |
| `CsfEvaluator.EvaluationExactly` | csf/compiler.go:136-157 | Evaluate answers any program, compiled here or not, exactly when it is version 1 without unknown fields, the four features are in range, and both instruction lists are postfix forms of trees within the budgets; the outputs are the trees' values or the nearest actuator limit |
| `CsfEvaluator.Clamp64` | csf/compiler.go:205-207 | clamping in 64 bits gives the mathematical clamp |
| `CsfEvaluator.Quotient64` | csf/compiler.go:190-190 | the 64-bit quotient is the one that rounds toward zero |
| `CsfEvaluator.Operate64` | csf/compiler.go:182-193 | the operator switch reads its arguments off the array and no addition, product or quotient leaves 64 bits |
| `CsfEvaluator.EvaluateInstructions` | csf/compiler.go:159-203 | the loop over the two fixed arrays and the counter answers as the recursive machine does, with the same value or the same error, without overflow or an index out of range |
| `CsfEvaluator.Evaluate` | csf/compiler.go:136-157 | Evaluate with its checks in order: program, feature count, feature range, then both programs |
| `CsfRuntime.Runtime.constructor` | csf/runtime.go:20-20 | a new runtime has no program, epoch zero and no observation |
| `CsfRuntime.Runtime.Activate` | csf/runtime.go:24-38 | replaces the program and starts a new episode only for a later epoch and a controller that compiles |
| `CsfRuntime.Runtime.Reset` | csf/runtime.go:41-50 | starts a new episode of the same program only for a later epoch |
| `CsfRuntime.Runtime.Step` | csf/runtime.go:54-80 | the new state and action of every refusal, in the source's order, and of an accepted observation |
| `CsfRuntime.Runtime.Handle` | csf/runtime.go:82-113 | dispatches each request and reports the epoch after it |
| `CsfRuntime.StatesAdvance` | csf/runtime.go:24-80 | over any run, epoch, and within an epoch sequence and tick, never go back |
| `CsfRuntime.ActiveProgramIsCompiled` | csf/runtime.go:24-38 | in every reachable state the active program is the output of some compilation |
| `CsfRuntime.ActionsAdvance` | csf/runtime.go:54-80 | between any two acted-on observations of a run the (epoch, sequence) pair strictly increases, ticks do not go back within an epoch, and none is from the future or more than three ticks old |
| `CsfRuntime.FailureChangesNothing` | csf/runtime.go:54-113 | a failed request, or a step answered by the fallback, leaves the state as it was |
| `CsfRuntime.InvalidObservationMeansBadFeatures` | csf/runtime.go:64-80 | an observation that passes the epoch, age and replay checks is refused exactly when its features are out of profile |
| `CsfEpisodes.StateIsItsHistory` | csf/runtime.go:24-80 | in every reachable state the program is that of the last accepted activation, the epoch that of the last accepted activation or reset, and sequence and tick those of the last observation acted on since |
| `CsfEpisodes.EpisodesStartExactly` | csf/runtime.go:24-50 | an activation is accepted exactly for a later epoch and a supported controller, a reset exactly for a later epoch when some controller is active |
| `CsfEpisodes.StepsExactly` | csf/runtime.go:54-80 | a step acts exactly when a controller is active and the observation is of its epoch, at most three ticks old, newer than the last one acted on, and in the profile; it then drives by the active controller's trees |
| `CsfEpisodes.FallbackSaysWhy` | csf/runtime.go:56-75 | every other step brakes with steering 0 and acceleration -1000, and its reason is the first check that failed |
| `CsfEpisodes.ResponsesExactly` | csf/runtime.go:82-113 | which requests fail and which program or action each response carries |
| `Dashboard.ValidateEvent` | csf/dashboard.go:127-166 | accepts an event exactly when the registry allows it, and registers a definition only when its name is new and there is room |
| `Dashboard.Evict` | csf/dashboard.go:93-96 | dropping from the front until both bounds hold leaves the window of the list |
| `Dashboard.WindowIsFittingSuffix` | csf/dashboard.go:93-96 | the window is a suffix of the list within both bounds |
| `Dashboard.WindowIsLongest` | csf/dashboard.go:93-96 | no longer suffix of the list is within both bounds |
| `Dashboard.WindowStreams` | csf/dashboard.go:91-96 | evicting after each push keeps exactly the window of everything pushed so far |
| `Dashboard.RegistrationsAreDefinitions` | csf/dashboard.go:84-90 | the definition events shown are exactly the registered definitions |
| `Dashboard.RegistrationsCount` | csf/dashboard.go:127-146 | each registered definition is shown once, and there are at most 128 |
| `Dashboard.ReadDashboardEvents` | csf/dashboard.go:61-104 | the snapshot shows the definitions and then the longest suffix of the accepted observations within both bounds, at most 20000 events, and is marked truncated exactly when an observation or an issue was dropped |
| `Dashboard.ShownMeasurementsAreDefined` | csf/dashboard.go:147-151 | however much is dropped, a shown measurement's definition is shown too |
| `Dashboard.VerdictsExactly` | csf/dashboard.go:70-166 | which lines are passed over, registered, repeated, accepted and rejected, by the lines before them |
| `CronSchedule.DefinitionRoundTrip` | pkg/cron/schedule.go:224-305 | a constructed schedule projects to a definition exactly when it is valid; the definition rebuilds the schedule with its raw expression in canonical spacing, which is the same schedule if and only if the spacing was canonical |
| `CronSchedule.RebuiltScheduleAgrees` | pkg/cron/schedule.go:502-512 | the rebuilt schedule has the same definition and the same next time after every instant as the original, whatever the spacing |
| `GoStrings.NormalizeIsIdempotent` | pkg/cron/schedule.go:510-512 | splitting a text at white space and joining it with single blanks is idempotent |
| `CronSchedule.RebuiltScheduleIsConstructed` | pkg/cron/schedule.go:263-305 | a persisted definition is accepted only if it rebuilds to a valid constructed schedule of its own kind and zone, whose definition rebuilds exactly that schedule again |
| `CronSchedule.NextIntervalExactly` | pkg/cron/schedule.go:420-431 | for every anchor and positive interval the interval branch gives the least anchor + k*interval after its argument if and only if the argument lies before the anchor or the next step still fits 64 bits; otherwise the answer lies before the anchor |
| `CronSchedule.NextEveryExactly` | pkg/cron/schedule.go:416-431 | Next answers every valid Every schedule, with its least tick after the argument if and only if the argument lies before the anchor or one more step fits 64 bits; otherwise the answer lies before the anchor |
| `CronSchedule.NextEveryCanWrap` | pkg/cron/schedule.go:420-431 | a valid Every schedule for which Next answers a concrete argument with a time before its anchor |
| `CronSchedule.ScanMinutes` | pkg/cron/schedule.go:445-453 | the minute-by-minute scan ends and returns the first match up to the five-year deadline |
| `CronSchedule.FirstMatchIsLeast` | pkg/cron/schedule.go:445-453 | the first match is the least matching minute of its window, and there is one exactly when some minute matches |
| `CronSchedule.NextCalendarIsLeast` | pkg/cron/schedule.go:416-454 | for typed calendar rules Next gives the least matching whole minute strictly after its argument |
| `CronSchedule.NextIsLeastRuleTime` | pkg/cron/schedule.go:416-480 | in UTC Next answers every valid typed rule, with the least instant after its argument that is the rule's hour and minute on a day of the rule's kind: every day, that weekday, that day of the month, or the month's last |
| `CronSchedule.NextHasRuleFields` | pkg/cron/schedule.go:416-480 | in any other zone the answer is a whole minute after the argument whose civil hour, minute and day are the rule's, and no earlier whole minute is |
| `CronSchedule.ValidExactly` | pkg/cron/schedule.go:310-348 | a constructed schedule is valid exactly when its zone and anchor are usable and its rule is in range |
| `CronSchedule.DefinitionNamesTheRule` | pkg/cron/schedule.go:224-261 | the definition holds the rule's own fields and its canonical text |
| `CronSchedule.UtcAlwaysHasNext` | pkg/cron/schedule.go:439-480 | in UTC every valid typed rule has a next occurrence, at most 95 days away |
| `CronTime.DateOfNumber` | pkg/cron/schedule.go:456-480 | the proleptic Gregorian calendar behind UTC field extraction inverts the day count |
| `CronStore.MemoryStore.constructor` | pkg/cron/store.go:185-191 | a new store holds nothing |
| `CronStore.MemoryStore.Reconcile` | pkg/cron/store.go:199-266 | replaces the active jobs by the normalized definitions, keeping cursors of unchanged schedules, and returns their states in the order of their names, or changes nothing and reports the first bad definition |
| `CronStore.MemoryStore.JobStatesLocked` | pkg/cron/store.go:631-640 | lists every job once, in ascending order of name, in whatever order the map is visited |
| `CronStore.MemoryStore.AdvanceLocked` | pkg/cron/store.go:612-619 | moves a job's cursor forward, never back |
| `CronStore.MemoryStore.HasLiveOverlap` | pkg/cron/store.go:621-629 | finds a live lease of the job other than the excepted one, in whatever order the map is visited |
| `CronStore.MemoryStore.Claim` | pkg/cron/store.go:268-354 | the whole new store and the disposition of every claim: first claim, reclaim, held, terminal, overlap and each refusal |
| `CronStore.MemoryStore.Renew` | pkg/cron/store.go:356-378 | extends the lease of the owner while it is durably alive, and otherwise reports a lost lease |
| `CronStore.MemoryStore.Complete` | pkg/cron/store.go:380-408 | finishes the occurrence of the owner while its lease is durably alive, and otherwise reports a lost lease |
| `CronStore.MemoryStore.Expired` | pkg/cron/store.go:471-505 | returns running occurrences of active jobs whose lease ran out, by expiry, then schedule, then identity text; one that is left out comes after all returned ones, and only when the limit is reached |
| `CronStore.MemoryStore.Skip` | pkg/cron/store.go:410-469 | the whole new store and result of every skip: terminal, running, expired, first recorded and each refusal |
| `CronStore.ReconcileAllStops` | pkg/cron/store.go:215-261 | one refused definition makes the whole reconciliation fail with its error |
| `CronReconcile.ReconcileExactly` | pkg/cron/store.go:199-266 | a reconciliation succeeds exactly when the names are distinct and every job can be reconciled with its stored state; cursor, anchor, and times of creation and update of each job are then determined, and a failure changes nothing |
| `CronReconcile.ReconcileIsIdempotent` | pkg/cron/store.go:199-266 | reconciling the same definitions again, at any later time, changes nothing |
| `CronCatchUp.CollectDue` | pkg/cron/service.go:476-493 | the loop collects the due occurrences in order up to the limit and says whether more are due |
| `CronCatchUp.LimitedPassIsPrefix` | pkg/cron/service.go:476-493 | a limited pass is a prefix of the unlimited one, says exactly whether it is proper, and leaves the rest due from its last cursor |
| `CronCatchUp.BatchesRefineUnboundedPass` | pkg/cron/service.go:224-253 | for every policy, startup flag and limit of at least one, repeated limited cycles run and skip exactly what one unlimited cycle would |
| `CronCatchUp.CyclesDecideExactly` | pkg/cron/service.go:495-506 | for every limit the cycles run every due occurrence under all, none at a startup under none, and otherwise exactly the last, with every earlier one skipped as superseded |
| `CronCatchUp.CollectedExactly` | pkg/cron/service.go:476-493 | an unlimited pass collects exactly the instants that follow Next from the cursor until the first that is not due |
| `CronRuns.AlwaysWellKept` | pkg/cron/store.go:268-469 | in every state of every run records sit under their own deterministic identity and only running ones carry a lease |
| `CronRuns.IdentityNeverConflicts` | pkg/cron/store.go:590-595 | in such a state the identity check of a claim or skip never fails |
| `CronRuns.TerminalIsForever` | pkg/cron/store.go:285-311 | once an occurrence has left running, no operation of any run changes its record |
| `CronRuns.LastTokenIsLatest` | pkg/cron/store.go:305-352 | the last token of an occurrence is that of an acquisition after which there is no other |
| `CronRuns.AcquisitionsAccounted` | pkg/cron/store.go:305-352 | Attempt counts the acquired claims modulo 2^32, and a running record carries the last acquired claim's token |
| `CronRuns.OneCompletion` | pkg/cron/store.go:380-408 | over a whole run at most one Complete of an occurrence succeeds, and it carries the last acquired token |
| `CronRuns.SupersededTokenIsFenced` | pkg/cron/store.go:356-408 | with fresh tokens, a well-formed Renew or Complete with a superseded token reports a lost lease and changes nothing, for ever after |
| `CronRecords.RecordIsItsHistory` | pkg/cron/store.go:268-469 | over every run each stored record is what the requests that succeeded say: attempts and start are the claims', the lease is the last acquired claim's or accepted renewal's, and status, error, reason and finish are those of the operation that ended it |
| `CronRecords.ClaimsExactly` | pkg/cron/store.go:268-354 | which claims succeed, what each is told, by the occurrence's history and the other leases of its job, and how it moves the job's cursor |
| `CronRecords.RenewalsExactly` | pkg/cron/store.go:356-378 | a renewal succeeds if and only if it is well formed and the occurrence runs under its token with a live lease |
| `CronRecords.CompletionsExactly` | pkg/cron/store.go:380-408 | a completion succeeds if and only if it is well formed and the occurrence runs under its token with a live lease |
| `CronRecords.SkipsExactly` | pkg/cron/store.go:410-469 | which skips succeed and how each other one fails |
| `CronRecords.CompletionIsForever` | pkg/cron/store.go:380-408 | in every later state the occurrence has the status, error and finish of its successful completion, and its other fields as they were |
| `CronRecords.AbandonedExactly` | pkg/cron/store.go:471-505 | what Expired lists are the occurrences of registered jobs that were claimed, have not ended, and whose lease is over |
| `CronOverlap.AcquisitionLeavesOneLive` | pkg/cron/store.go:297-336 | after a claim of a skip-policy job acquires, no time from its stamp on sees two live leases of the job, whatever the store held before |
| `CronOverlap.RenewalKeepsOneLiveExactly` | pkg/cron/store.go:356-378 | an accepted renewal keeps a time free of two live leases if and only if it does not revive a lease that is no longer live at that time beside another live one |
| `CronOverlap.OverlapExactly` | pkg/cron/store.go:297-378 | over a whole run of a skip-policy job, no time from the acquired claims on ever sees two live leases if and only if no accepted renewal of the job revives a lapsed lease beside another live one |
| `CronOverlap.OverlapExcluded` | pkg/cron/store.go:297-378 | it is enough that each accepted renewal of the job is stamped not before the earlier acquired claims of the job; nothing is asked of other jobs, refused requests or the order of claims |
| `CronOverlap.LateRenewalOverlaps` | pkg/cron/store.go:356-377 | a run of four operations from the empty store that ends with two live leases: reconcile an hourly job, claim two of its occurrences, renew the first lease late |
| `CronReplicas.RecordingIsGapless` | pkg/cron/service.go:164-357 | from an empty store, in every state of every interleaving of lagging replicas, crashes, workers and other jobs from the registration on, exactly the first n instants of the schedule are recorded, the durable cursor is the n-th, and every replica's cursor is on that sequence at or before it |
| `CronReplicas.RegistrationAgrees` | pkg/cron/service.go:164-199 | only a replica that starts can register the job, and it does so without an error, on the first instant, with nothing recorded |
| `CronReplicas.NoReplicaConflicts` | pkg/cron/service.go:257-357 | no replica's claim or skip, however far it lags, ever fails with an occurrence conflict or a missing job, from the registering step on |
| `CronCycles.BootStarts` | pkg/cron/service.go:164-212 | a service follows its job exactly when the reconciliation succeeds and the stored schedule rebuilds, from the stored cursor, by the stored policy, as a startup with nothing pending |
| `CronCycles.GatherDecides` | pkg/cron/service.go:214-253 | a cycle decides what is due from the replica's cursor by its policy, and ends the startup once nothing more is due |
| `CronCycles.RunsAsDecided` | pkg/cron/service.go:316-357 | a decision to run claims the occurrence under the replica's own token and lease, unless the overlap policy skips it; an error stops the replica and leaves the store as it was |
| `CronCycles.SkipsAsDecided` | pkg/cron/service.go:293-314 | a decision to skip is recorded with its reason, and the replica goes on to the following instant |
| `CronCycles.RecoveredAgain` | pkg/cron/service.go:257-291 | an expired occurrence is claimed again under the replica's own token exactly while its lease is over, and otherwise stays as it is |
| `CopilotRegistry.AlwaysConsistent` | services/copilot-adapter/session_mutations.go:22-42 | in every state of every interleaving each goroutine is on the registered object of its key, each object counts its users, and each mutex names its holder |
| `CopilotRegistry.LocksExclude` | services/copilot-adapter/session_mutations.go:22-42 | under every interleaving at most one goroutine holds a key, all its users share one mutex, the reference count is their number, and the entry exists exactly while there are any |
| `CopilotRegistry.FreeKeyCanBeAcquired` | services/copilot-adapter/session_mutations.go:32-34 | a waiter's acquisition succeeds exactly when nobody holds its key, so it never waits on a stale object |
| `CopilotRegistry.EnterJoins` | services/copilot-adapter/session_mutations.go:22-31 | a goroutine joins the registered object of its key, or registers a new one |
| `CopilotRegistry.UnlockFrees` | services/copilot-adapter/session_mutations.go:35-36 | unlocking frees the mutex and keeps the entry |
| `CopilotRegistry.LeaveForgets` | services/copilot-adapter/session_mutations.go:36-41 | leaving drops the entry exactly when the goroutine was its only user |
| `CopilotRegistry.MutationRegistry.Reserve` | services/copilot-adapter/session_mutations.go:22-32 | the first critical section of lock, on the map and the counters, is one enter step of the interleaving model |
| `CopilotRegistry.MutationRegistry.Forget` | services/copilot-adapter/session_mutations.go:36-41 | the second critical section of release is one leave step of the interleaving model |
| `CopilotPrompts.DeliveryIsRecorded` | services/copilot-adapter/handlers.go:1336-1419 | with any number of processes, crashes and lost acknowledgements: only the persisted prompt crosses, only after the turn left pending; a turn is recorded accepted only once it crossed; an answered caller's prompt is the turn's |
| `CopilotPrompts.DeliveredAtMostOnce` | services/copilot-adapter/handlers.go:1193-1420 | with one live process at a time, over any sequence of retries, lost acknowledgements and crashes, a keyed prompt crosses to the bridge at most once |
| `CopilotPrompts.RepeatExactly` | services/copilot-adapter/handlers.go:1336-1378 | with several live processes, a prompt that crossed can cross again if and only if another handler is already sending, or is marking or re-reading while the turn is unknown |
| `CopilotPrompts.RiskIsRealized` | services/copilot-adapter/handlers.go:1356-1378 | a handler in that position does send once its next steps meet no error |
| `CopilotPrompts.TwoProcessesCanSendTwice` | services/copilot-adapter/handlers.go:1356-1378 | a run of two live processes in which a keyed prompt crosses twice |
| `CopilotReplies.SubmissionConcludes` | services/copilot-adapter/handlers.go:1193-1457 | from every state, and for every outcome of each read, write and send, what an undisturbed submission is answered with, the turn it leaves, and whether it sent |
| `CopilotReplies.OthersDecide` | services/copilot-adapter/handlers.go:1336-1419 | beside other handlers, what a failed mark, a rejected send or a failed acceptance then finds decides |
| `CopilotReplies.LateOpenAnswers` | services/copilot-adapter/handlers.go:1250-1335 | the opening transaction answers by the session and turn it finds, whatever has become of them since the replay |
| `CopilotReplies.RestartSettles` | services/copilot-adapter/restoration.go:119-181 | a restoring process fails a turn that cannot have been sent, and closes any other as it is |
| `CopilotCreation.CreatesAtMostOnce` | services/copilot-adapter/handlers.go:529-634 | with any number of processes, crashes and lost acknowledgements the SDK is asked to create at most one session per receipt, for the persisted attempt |
| `CopilotCreation.OnlyTheOwnerCreates` | services/copilot-adapter/handlers.go:540-594 | a handler about to ask holds the persisted attempt's own token, nothing was asked before, and no other handler is about to |
| `CopilotCreation.PhasesArePaired` | services/copilot-adapter/handlers.go:464-734 | in every reachable state an existing session is starting exactly while its receipt is incomplete, a live one has an attempt, and a caller is only answered with a session that has left starting for good |
| `CopilotCreation.VerdictExactly` | services/copilot-adapter/handlers.go:641-669 | the reconciliation's verdict is committed exactly when its first read saw the session out of starting, uncommitted exactly when it is starting now, inconsistent exactly when it left starting between the reads |
| `CopilotCreation.InconsistentExactly` | services/copilot-adapter/handlers.go:661-668 | the handler gives up as inconsistent exactly on the third verdict |
| `CopilotCreation.SingleProcessIsConsistent` | services/copilot-adapter/handlers.go:641-669 | with one live process at a time the inconsistent branch is never taken |
| `CopilotCreation.InconsistentIsReachable` | services/copilot-adapter/handlers.go:641-669 | a run of two live processes in which it is taken although the store never held an inconsistent pair |
| `CopilotCreationReplies.RepeatIsAnswered` | services/copilot-adapter/handlers.go:308-378 | a repeated request of a session that has left starting is answered with it as it is, another request under its key is refused, and nothing changes |
| `CopilotCreationReplies.FoundSessionIsAnswered` | services/copilot-adapter/handlers.go:440-540 | wherever a handler finds the session out of starting, it answers with it as it is |
| `CopilotCreationReplies.NewSessionGoesLive` | services/copilot-adapter/handlers.go:440-634 | an undisturbed creation asks the SDK once and is answered with the live session, whichever acknowledgements are lost |
| `CopilotCreationReplies.FailedCreationIsRecorded` | services/copilot-adapter/handlers.go:575-634 | when the SDK creates nothing the session fails for good, together with its receipt |
| `CopilotCreationReplies.RestoredSessionSettles` | services/copilot-adapter/handlers.go:529-634 | a restored session with a recorded attempt goes live if the SDK has it and fails if not, without asking the SDK again |
| `CopilotCreationReplies.RestoredSessionIsCreated` | services/copilot-adapter/handlers.go:529-634 | a restored session without an attempt is created once |
| `CopilotCreationReplies.RetryCompletes` | services/copilot-adapter/handlers.go:678-702 | after a completion that did not commit, the retried request completes the same session without asking the SDK again |
| `CopilotCreationReplies.VerdictIsAnswered` | services/copilot-adapter/handlers.go:641-669 | what a committed and an uncommitted verdict are answered with, and whether the bridge's handle is kept |
| `Continuity.UniqueChain` | pkg/workcontinuity/records.go:149-167 | a set of consistent checkpoints has at most one covering chain |
| `Continuity.HistorySucceedsExactly` | pkg/workcontinuity/records.go:128-168 | history succeeds if and only if the trusted checkpoints are well formed, for this task, consistent per ID and form one predecessor chain from the empty root covering all of them, and it returns that chain |
| `Continuity.OrderIsIrrelevant` | pkg/workcontinuity/records.go:128-168 | neither success nor the chain depends on the order of the comments |
| `Continuity.ExtensionKeepsHistory` | pkg/workcontinuity/records.go:128-168 | when the history succeeds before and after comments are appended, the earlier one is a prefix of the later one |
| `ContinuityAnswers.OnlyCountedMatter` | pkg/workcontinuity/records.go:173-183 | a comment without a login, of neither owner nor collaborator, or without the marker, and a repeated checkpoint, change no history |
| `ContinuityAnswers.InvalidExactly` | pkg/workcontinuity/records.go:128-147 | a history fails as invalid exactly when the first trusted comment that cannot be taken in does not decode, and otherwise as a conflict |
| `Continuity.Scan` | pkg/workcontinuity/records.go:129-147 | the first loop indexes the trusted checkpoints by ID or stops with the error of the first comment that cannot be taken in |
| `Continuity.Children` | pkg/workcontinuity/records.go:148-155 | the second loop, in whatever order the map is visited, finds a fork exactly when there is one and otherwise files every receipt under its predecessor |
| `Continuity.Walk` | pkg/workcontinuity/records.go:156-167 | the third loop follows the predecessors from the root until it has as many receipts as there are or no child is left |
| `Continuity.History` | pkg/workcontinuity/records.go:128-168 | the three loops together return the covering chain when there is one and the right kind of error otherwise |
| `ContinuityWriters.Resume` | pkg/workcontinuity/records.go:192-223 | the condition, tip and findings of a snapshot |
| `ContinuityRepair.DamageIsPermanent` | pkg/workcontinuity/records.go:128-168 | over a damaged history every later history fails, whatever is appended |
| `ContinuityRepair.DamageIsPermanentExactly` | pkg/workcontinuity/records.go:128-168 | every later history fails if and only if a trusted comment cannot be read, two checkpoints share a predecessor, one names a predecessor that cannot be an ID, or some have their predecessors among themselves; every other history can be completed by comments |
| `ContinuityRepair.Complete` | pkg/workcontinuity/records.go:148-167 | consistent checkpoints without such damage extend, with the missing ones, to one chain from the root |
| `ContinuityWriters.ReadyExactly` | pkg/workcontinuity/records.go:192-223 | a snapshot is ready exactly when its trusted checkpoints are readable and form one chain that ends in one with the caller's revision, the issue's present fingerprint and an age between zero and the limit |
| `ContinuityAnswers.ConditionsExactly` | pkg/workcontinuity/records.go:192-223 | when a snapshot is not found, invalid, conflicting or stale |
| `ContinuityAnswers.FindingsExactly` | pkg/workcontinuity/records.go:205-220 | the findings name exactly what differs between the tip and the caller's revision, the issue and the clock |
| `ContinuityWriters.SameAsExisting` | pkg/workcontinuity/continuity.go:99-115 | a retried draft matches the recorded checkpoint exactly when everything it says agrees |
| `ContinuityWriters.FillNew` | pkg/workcontinuity/continuity.go:117-148 | a new checkpoint takes its defaults and is posted only if it fits the issue, follows the tip, is valid and is fresh |
| `ContinuityWriters.Decide` | pkg/workcontinuity/continuity.go:71-148 | what a call does with the snapshot it loaded: refuse, answer from an existing checkpoint, or post |
| `ContinuityAnswers.RetriesExactly` | pkg/workcontinuity/continuity.go:87-116 | a draft whose ID is recorded is answered when everything that it says is what was recorded, and clashes otherwise |
| `ContinuityAnswers.NewDraftsExactly` | pkg/workcontinuity/continuity.go:117-151 | a draft with a new ID is posted, with its blanks filled, exactly when it is for this issue as it stands, follows the tip, is valid and is fresh, and how each other one is refused |
| `ContinuityAnswers.CallsStartExactly` | pkg/workcontinuity/continuity.go:71-152 | a call is refused or answered at once, or goes on to append once its intent is logged |
| `ContinuityWriters.VerifiedStayInHistory` | pkg/workcontinuity/continuity.go:152-167 | under every interleaving of writers and other comments, the verified checkpoints lie, in the order of verification, on every later history that succeeds |
| `ContinuityWriters.OneSuccessPerPredecessor` | pkg/workcontinuity/continuity.go:152-167 | at most one checkpoint per predecessor is ever verified |
| `ContinuityWriters.SuccessVerifiesOwnExactly` | pkg/workcontinuity/continuity.go:160-163 | a successful call has verified its own checkpoint if and only if that checkpoint is published, since only IDs are compared |
| `ContinuityWriters.UntrustedCallVerifiesAnother` | pkg/workcontinuity/continuity.go:71-168 | from every state in which a call would post, a run in which it succeeds on another writer's checkpoint with its ID and other content, its own never being published |
| `ContinuityWriters.TrustedCallVerifiesItself` | pkg/workcontinuity/continuity.go:152-167 | a successful call by a trusted account has verified its own checkpoint, under every interleaving |
| `ContinuityWriters.UndisturbedCallExtends` | pkg/workcontinuity/continuity.go:71-168 | a call that nobody disturbs and whose checkpoint stays fresh succeeds and makes the history exactly one receipt longer |
| `ContinuityAnswers.RepeatedCallIsAnswered` | pkg/workcontinuity/continuity.go:71-168 | a call repeated with the same draft after it succeeded is answered with the recorded checkpoint and posts nothing |
| `ContinuityAnswers.CallsFailExactly` | pkg/workcontinuity/continuity.go:148-168 | how a call ends whose append or verification fails, and that it verifies nothing |
| `SourceDigest.DecodeRecordRoundTrip` | services/candaceos/source_digest.go:160-171 | one record is recognised whatever follows it |
| `SourceDigest.DecodesExactlyEncodings` | services/candaceos/source_digest.go:109-171 | a byte stream decodes to a file list if and only if it is that list's encoding |
| `SourceDigest.HashedBytesDetermineFiles` | services/candaceos/source_digest.go:109-144 | two different ordered file lists never feed the hash the same bytes |
| `SourceDigest.RecordLayout` | services/candaceos/source_digest.go:160-171 | where a record holds its tag, path, executable bit and content with their lengths |
| `SourceDigest.DigestHash.WriteUint64` | services/candaceos/source_digest.go:194-198 | the filled buffer is the number's eight bytes, most significant first |
| `SourceDigest.DigestHash.WriteRecord` | services/candaceos/source_digest.go:146-182 | a record is accepted exactly when the file is regular and unchanged before and after reading and holds exactly its size, and then the hash received its encoding |
| `SourceBudget.AncestorsAreValid` | services/candaceos/source_digest.go:50-53 | the directories above a valid path are valid paths |
| `SourceBudget.ValidPathExactly` | services/candaceos/source_digest.go:50-53 | a valid path is one to 64 components joined by slashes, none of them empty, a dot or two dots, within 1024 bytes and without a backslash |
| `SourceBudget.AdmitsExactlyFittingClosures` | services/candaceos/source_digest.go:50-70 | a list of paths is admitted one after the other if and only if all are valid and their ancestor closure has at most twice the file limit, in any order |
| `SourceBudget.AppSourceBudget.AdmitPath` | services/candaceos/source_digest.go:50-70 | admits a valid path with its missing ancestors exactly when they fit; a refused path leaves at most some of them |
| `SourceBudget.AppSourceBudget.AdmitFile` | services/candaceos/source_digest.go:72-84 | counts a file and its bytes exactly when both limits still hold |
| `SourceMaterialization.ExtractAppArchive` | services/candaceos/source_materialization.go:182-223 | succeeds exactly on archives whose entries can follow one another, and leaves the archive's tree and a budget charged for exactly it |
| `SourceMaterialization.WriteAppArchiveFile` | services/candaceos/source_materialization.go:225-242 | creates the file with its missing directories exactly when nothing is in the way and the content is complete |
| `SourceMaterialization.ExtractableExactly` | services/candaceos/source_materialization.go:182-223 | extraction succeeds if and only if the archive fits as a whole, whatever the order of its entries |
| `SourceMaterialization.HeadersExactly` | services/candaceos/source_materialization.go:187-212 | an entry's name is the raw one without one slash at its end, and which entries are taken |
| `SourceMaterialization.ExtractedTreeHolds` | services/candaceos/source_materialization.go:182-242 | the extracted tree holds every regular file with its declared content and executable bit, and every other named path is a directory |
| `SourceMaterialization.ExtractedIsAdmissible` | services/candaceos/source_materialization.go:75-82 | the extracted tree fits the same limits again |
| `SourceMaterialization.DigestAppSourceRoot` | services/candaceos/source_digest.go:109-144 | the walk of a quiet tree succeeds exactly when the tree is admissible, whatever the order, and then the hash received the domain and the encoding of its files in that order |
| `SourceMaterialization.MaterializeArchive` | services/candaceos/source_materialization.go:42-83 | a digest is computed exactly when the limits are valid and the archive is extractable, over exactly the files of its tree |

## Left out

- CsfCompiler.CompileSucceedsExactly: the controller hash is an injective value and proto marshalling errors are not modelled; the name length counts characters, not bytes; the generated node validator adds nothing to instructionArity and is left out of the condition.
- Dashboard.ReadDashboardEvents: the scanner and the JSON decoder are inputs (a token's size, whether it is blank or unterminated, its decoded event); issue texts are counted, not written; the byte counter does not wrap.
- CronSchedule.NextCalendarIsLeast: zones other than UTC use an abstract map from instants to civil fields, because the zone tables are data outside the repository.
- CronSchedule.DefinitionRoundTrip: the canonical text of a rule is a value with injective constructors; a text's length counts characters, not bytes; raw cron expressions parse through an abstract predicate and have an abstract next time, because robfig/cron is not part of this model.
- CronSchedule.ValidExactly: times of day come from At24; the 12-hour constructors are not modelled.
- CronStore.MemoryStore.Expired: the text of an identity is an abstract function of job and instant, by which the last ties are ordered.
- Snapshot of the cron store is not modelled; what it lists is what Reconcile and Expired read.
- CronRuns.SupersededTokenIsFenced: a malformed request with a superseded token is refused as invalid rather than lost, and also changes nothing.
- CronReplicas.RecordingIsGapless: the service's cycle is modelled as atomic steps on values, one store operation each; its goroutines, timers, renew ticker, retry waits, contexts and handler results are not modelled beyond the store operations they issue.
- CopilotRegistry.LocksExclude: Go's mutex is a holder field; fairness and the termination of waiting are not modelled.
- CopilotPrompts.DeliveredAtMostOnce: follows one session and one idempotency key; scheduled submissions, whose unknown turns may be sent again, and submissions without a key are left out, as are commits that land after the process has already read the row back.
- CopilotCreation.CreatesAtMostOnce: follows one receipt; worktree preparation, its locks, the deletion of rows and commits that land after a later read are left out; other statuses between starting and the terminal ones are one status.
- Continuity.History: decodeComment and ValidateCheckpoint are an input of each comment, with IDs that match the generated pattern; only the fields the history looks at are named.
- ContinuityRepair.DamageIsPermanentExactly: the checkpoints that complete a history copy the other fields of their successor, so that they are as valid as it; the limit on the size of a comment is part of its decoding and not looked at.
- ContinuityWriters.Decide: the generated validation is an abstract predicate and the posted body decodes to what was encoded; Fingerprint is an opaque value of the issue; comments are never edited or deleted.
- SourceDigest.HashedBytesDetermineFiles: speaks of the bytes fed to SHA-256, not of the hash.
- SourceMaterialization.ExtractAppArchive: the tar reader, Git, cancellation and I/O errors are left out; a header comes with the content bytes it delivers, and a path component's limit of 255 characters is an abstract predicate, because it counts runes rather than bytes.
- SourceMaterialization.DigestAppSourceRoot: nothing changes the tree during the walk; a file that changes is covered by WriteRecord alone. The order of the walk is any order.
- SQL, HTTP, MCP, Docker, AWS, OpenSearch, `pkg/pgmem`, the simulation and metrics adapters: their meaning lives in services outside the repository.
- Plain validators, configuration and wire parsers, views and pagination: they would only add easy members.
