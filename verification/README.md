# OpenASICManager: a verified model

This project models the stateful core of OpenASICManager in Dafny and proves what that core is
relied on for: the weekly scheduler and its manual override, the verified control jobs and the
workers that drive them, bulk control, the anomaly engine and its three policy layers, recurring
maintenance with its lifecycle events, backup restore, in-place upgrade, and telemetry bucketing.

Time is a number of seconds since the epoch and the timezone is UTC, the default of
`app/config.py`. A table is a `seq` or `map` held by a class whose methods are the transactions,
lock sections and request handlers of the program; one method call is one atomic step. What comes
from outside (miner answers, clocks, file operations that may fail, other requests in between) is
an arbitrary parameter, so every theorem quantifies over it.

`dafny verify dfyconfig.toml` checks everything.

## What is in the files

| file | content |
|---|---|
| `Prelude.dfy`, `Sorting.dfy`, `Calendar.dfy` | `Option`, strictly ascending lists, weekday arithmetic |
| `ScheduleTimes.dfy` | the eight- and nine-day searches of one rule against their unbounded meaning |
| `ScheduleState.dfy` | the winner per scope, GROUP over FARM, stability up to the reported transition |
| `ScheduleStore.dfy` | the rule table under its handlers, conflict checks, independence of row order |
| `SchedulerService.dfy` | scheduler passes over whole runs and the manual override contract |
| `ControlJobs.dfy` | the job table and the protocol of enqueues, workers and restarts |
| `ControlWorker.dfy`, `RebootWorker.dfy` | the two workers against arbitrary environments |
| `BulkControl.dfy` | selection and fan-out while the job table keeps changing |
| `AnomalyIssues.dfy` | the issue state machine over scan histories, hysteresis |
| `AnomalyScan.dfy` | the scan loop under effective policies and maintenance windows, its audit log over whole runs |
| `AnomalyPolicy.dfy`, `PolicyStore.dfy` | layered policies, patches, and the store under every edit |
| `RecurringTimes.dfy`, `Materializer.dfy` | enumeration of occurrences, exactly-once materialization with catch-up |
| `Lifecycle.dfy` | START / COMPLETE / CANCEL events while windows are ended and extended |
| `Restore.dfy`, `Upgrade.dfy` | the two file transactions under arbitrary failures |
| `Telemetry.dfy` | history windows, buckets, missing points, retention |

## Where the code does not do what one would expect

Each of these is proved, with the exact condition under which the expected property does hold.

- A rule that is not yet in force still supplies its next run, so the reported "next transition"
  can be no change at all (`ReportedTransitionCanBeEmpty`). It is a change exactly when some
  deciding rule that occurs then is in force at that instant (`TransitionChangesIff`). The rule
  table keeps every `effective_from` in the past, so for stored rules it always is one
  (`StoredTransitionsAreExact`).
- A queue call of the bulk fan-out that raises after its job row is committed is reported as
  rejected although the job exists. Accepted results equal created jobs exactly when that never
  happens (`AcceptedMatchesCreated`).
- A worker whose driver is unset between enqueue and start leaves its job active
  (`OrphanIsReachable`). Without a restart an active job can end exactly when some thread still
  owns it (`CanFinishIffOwned`), and an orphan is not changed at all (`OrphanWaitsForRestart`).
- A restore whose compensations succeed leaves a temporary behind exactly when the unlink that
  clears the name of the database rollback fails (`TemporariesRemainIff`). Over all failures, a
  failed restore loses the old database exactly when the archive had taken its place, putting it
  back fails, and the cleanup gets to delete its rollback copy (`FailedPutBackLosesDatabase`). What
  a reader of the database sees afterwards can change with less: a log left parked away from its
  database, by a failed unparking or a failed restore of the sidecars, is enough
  (`ReaderSeesChangeIff`).
- An upgrade loses the only old tree exactly when the second rename of the switch and the swap
  back both fail (`PerformUpgrade`, `StrandedUpgradeLosesOldTree`); and when the rollback phase
  cannot be recorded, nothing is rolled back and the target stays as it stands
  (`UnrecordedRollbackNeverStarts`).
- Lifecycle events are decided by the occurrence's own end, not by the extended end of its window:
  a scan completes an occurrence whose window is still open exactly when that window was extended
  past the end and has been neither ended nor reported (`CompletesOpenWindowIff`,
  `ExtendedWindowCompletesEarly`).
- An occurrence can be reported both completed and cancelled: exactly when a scan at or after its
  own end is followed by an accepted end of its window at an earlier time, and that by another scan
  (`BothTerminalsIff`, `BackwardClockBreaksExclusion`), which takes a clock that goes back; with
  one that does not, never (`EventsAreOrderly`).
- Passes more than seven days apart lose the occurrences between (`LongGapLosesOccurrences`).

## Model

| member | source | states |
|---|---|---|
| Calendar.PlansMeet | app/scheduler/repository.py:602-688 | the conflict query's guard (same minute, overlapping masks) holds exactly when two weekly plans share an instant |
| Calendar.BitsAreWeekdays | app/scheduler/policy.py:72-108 | the seven mask bits are Monday to Sunday |
| Calendar.LatestExists | app/scheduler/repository.py:46-136 | every weekly plan has a latest occurrence at or before any instant |
| Calendar.EarliestAfterExists | app/scheduler/policy.py:130-209 | every weekly plan has an earliest occurrence after any instant |
| ScheduleTimes.LastOccurrence | app/scheduler/repository.py:46-136 | the greatest eligible occurrence not after now, over unbounded time |
| ScheduleTimes.NothingOlder | app/scheduler/repository.py:46-136 | if the eight days hold no eligible occurrence in the past, no older day does |
| ScheduleTimes.RuleLastOccurrence | app/scheduler/repository.py:46-136 | the eight-day backward loop returns the unbounded last occurrence, effective_from included |
| ScheduleTimes.InForceOnly | app/scheduler/repository.py:46-136 | every occurrence since the rule took effect counts and none before it does, a stored 0 meaning always |
| ScheduleTimes.NextRun | app/scheduler/policy.py:130-209 | the least occurrence after now of an enabled rule, none for a disabled one |
| ScheduleTimes.RuleNextRun | app/scheduler/policy.py:130-209 | the nine-day forward loop returns the unbounded next run and never falls through for an enabled rule |
| ScheduleState.SelectRulesForScope | app/scheduler/repository.py:253-293 | keeps exactly the rows of the scope (and group), in order |
| ScheduleState.ScopeStateDetails | app/scheduler/repository.py:139-192 | the strict-greater loop yields the scope's winner |
| ScheduleState.WinnerIsLatest | app/scheduler/repository.py:139-192 | the winner holds the maximum last occurrence of its scope; none exactly when no rule has one |
| ScheduleState.ScopeNextTransition | app/scheduler/repository.py:195-226 | the candidate list's minimum is the scope's next transition |
| ScheduleState.NextIsEarliest | app/scheduler/repository.py:195-226 | the next transition is some enabled rule's next run and no enabled rule runs earlier |
| ScheduleState.EffectiveScheduleDetails | app/scheduler/repository.py:296-434 | GROUP over FARM: action, source, winner and next transition of a miner |
| ScheduleState.DetailsMean | app/scheduler/repository.py:359-434 | the action is that of the rule leading the reported layer; the layer is GROUP exactly when some rule of the miner's group has occurred, FARM exactly when none has and some farm rule has |
| ScheduleState.ScheduleStable | app/scheduler/repository.py:296-434 | at every instant before the reported transition (forever if none) the whole effective schedule is identical |
| ScheduleState.NextAfterNow | app/scheduler/repository.py:296-434 | the reported transition lies after now, is no later than any occurrence of a deciding rule, and is absent exactly when no rule can decide |
| ScheduleState.TransitionChangesIff | app/scheduler/repository.py:296-434 | the reported transition changes the winning occurrence exactly when a deciding rule occurring then is in force |
| ScheduleState.TransitionIsFirstChange | app/scheduler/repository.py:296-434 | with all rules in force, the winning occurrence stays constant up to an instant exactly when it precedes the transition |
| ScheduleState.ReportedTransitionCanBeEmpty | app/scheduler/repository.py:195-226 | a rule not yet in force yields a reported transition that changes nothing |
| ScheduleState.GroupTakeoverSticks | app/scheduler/repository.py:359-434 | once GROUP decides for a miner it decides from then on |
| ScheduleStore.QueryDecidesFit | app/scheduler/repository.py:602-688 | the conflict query finds nothing exactly when the rule overlaps no other enabled rule of its layer |
| ScheduleStore.WellFormedIff | app/scheduler/validation.py:49-347 | what the validator lets through is exactly a valid plan with a well-formed scope |
| ScheduleStore.ToggleConflictsIff | app/api/scheduler.py:692-781 | enabling a stored rule conflicts exactly when, enabled, it would not fit |
| ScheduleStore.CreatedMeans | app/api/scheduler.py:510-584 | a new rule has the draft's values and is in force from its creation |
| ScheduleStore.EditedMeans | app/api/scheduler.py:587-689 | an edit takes the draft's values and moves effective_from exactly when it switches on or changes timing, action or target of a rule it leaves on |
| ScheduleStore.FitKeepsApart | app/api/scheduler.py:510-584 | a fitting rule keeps distinct enabled rules of one layer from ever sharing an instant |
| ScheduleStore.RuleTable.Create | app/api/scheduler.py:510-584 | exact response and new row; the table stays free of shared instants |
| ScheduleStore.RuleTable.Update | app/api/scheduler.py:587-689 | exact response and edited row, with effective_from moved exactly on a timing change or switch-on; invariant kept |
| ScheduleStore.RuleTable.Toggle | app/api/scheduler.py:692-781 | exact response; enabling is checked for group and conflict and moves effective_from; invariant kept |
| ScheduleStore.RuleTable.Delete | app/api/scheduler.py:784-818 | removes exactly the named row |
| ScheduleStore.RuleTable.MarkSeen | app/scheduler/repository.py:980-1013 | true exactly when the occurrence was not yet recorded, and then only that column changes |
| ScheduleStore.WinnerIgnoresOrder | app/scheduler/repository.py:139-192 | without shared instants every permutation of a scope has the same winner |
| ScheduleStore.ScheduleIgnoresOrder | app/scheduler/repository.py:229-250 | any listing of the enabled rows of a consistent table gives every miner the same schedule |
| ScheduleStore.OrderMattersOnClash | app/scheduler/repository.py:139-192 | two rules at one instant win by row order, so the conflict check is needed |
| SchedulerService.MarkRuleSeen | app/scheduler/service.py:69-114 | records the winning occurrence, logs exactly the first time, and leaves every rule's timing alone |
| SchedulerService.ServeMiner | app/scheduler/service.py:160-298 | one pass of the loop body takes exactly the decided action and records exactly a listed miner's winner |
| SchedulerService.SchedulerIteration | app/scheduler/service.py:117-298 | a pass issues exactly the decided commands and records exactly the winners of listed miners; nothing while the scheduler is off |
| SchedulerService.CommandedExactly | app/scheduler/service.py:160-298 | who is commanded to do what, in columns: not overridden, seen within 60 s, 30 s since the last action, in a state the leading rule's action can move; and every such miner |
| SchedulerService.RecordedIs | app/scheduler/service.py:69-114 | what a pass leaves recorded for a rule is an occurrence it won with for a listed miner, or what was there before |
| SchedulerService.WinnersAreSeen | app/scheduler/service.py:160-298 | after a pass the winner of every listed miner is recorded with its winning occurrence |
| SchedulerService.CommandsAreDecisions | app/scheduler/service.py:160-298 | every command is some listed miner's decision |
| SchedulerService.SeenMarksDecideNothing | app/scheduler/repository.py:980-1013 | recording occurrences as seen changes neither scheduled action nor next transition |
| SchedulerService.RunScheduler | app/scheduler/service.py:301-311 | over any number of passes each issues what the initial rules decide at its time |
| SchedulerService.NoTransitionNoTarget | app/scheduler/repository.py:469-526 | without a next transition there is no scheduled target, now or later |
| SchedulerService.OverrideContract | app/control/queue.py:257-278 | for a miner carrying the value such a request stores: before the transition no command names it; from it on (or with 0 stored) the override blocks nothing |
| SchedulerService.OverrideHoldsOverRuns | app/scheduler/service.py:117-298 | in a whole run any command for a miner carrying the stored value comes at or after the transition |
| SchedulerService.OverrideEnds | app/scheduler/service.py:160-298 | from the stored transition on, a listed, fresh, cooled-down miner whose state differs from its target is commanded again |
| SchedulerService.RequestManually | app/control/queue.py:191-313 | an accepted manual pause or resume stores exactly the next transition (0 for none) with its job; otherwise nothing changes |
| SchedulerService.PauseThenRun | app/control/queue.py:257-287 | from the accepted request through the passes that follow, every command for the miner comes at or after its next transition |
| SchedulerService.StoredTransitionsAreExact | app/scheduler/repository.py:469-526 | for the rows a table can hold, the reported transition is exactly the first change |
| ControlJobs.ActiveJob | app/control/repository.py:55-73 | an active job of the miner, none exactly when it has none |
| ControlJobs.JobTable.GetActiveControlJob | app/control/repository.py:55-73 | the newest active job of a miner |
| ControlJobs.JobTable.Queue | app/control/queue.py:191-313 | the lock section: refusal, already-active or one new job, with its override, and still one active job per miner |
| ControlJobs.JobTable.UpdateControlJob | app/control/repository.py:195-240 | overwrites one row whatever its status, and no other |
| ControlJobs.JobTable.AbortOnRestart | app/db.py:737-751 | aborts exactly the active jobs |
| ControlJobs.StepKeepsInv | app/control/queue.py:240-287 | every atomic step of enqueues, workers and restarts keeps one active job per miner and each row in its worker's phase |
| ControlJobs.StepMoves | app/control/worker.py:74-116 | statuses only move QUEUED to RUNNING or FAILED, RUNNING to VERIFIED or FAILED, and active to ABORTED on restart; terminal rows are frozen |
| ControlJobs.RunIsSafe | app/control/queue.py:134-161 | over every interleaving: the invariant, forward-only statuses, frozen terminal rows, no abort without a restart |
| ControlJobs.ScriptDecidesRow | app/control/repository.py:195-240 | what a worker's writes make of its row: status, attempts and reported state, VERIFIED or FAILED as the closing write says |
| ControlJobs.ReachableIsSafe | app/control/queue.py:240-287 | in every state reachable from an empty table each miner has at most one active job and no job two owners |
| ControlJobs.AlreadyActiveChangesNothing | app/control/queue.py:245-256 | a request for a miner with an active job changes nothing at all |
| ControlJobs.AcceptedBecomesActive | app/control/queue.py:257-287 | an accepted request is its miner's active job; only a manual pause or resume moves an override, and only that miner's |
| ControlJobs.RestartAbortsAll | app/db.py:737-751 | after a restart no job is active and no worker remains to touch one |
| ControlJobs.OrphanWaitsForRestart | app/control/worker.py:165-179 | an active job no thread owns is unchanged by every run without a restart |
| ControlJobs.CanFinishIffOwned | app/control/worker.py:74-116 | without a restart an active job can end exactly when some thread still owns it |
| ControlJobs.OrphanIsReachable | app/control/worker.py:165-179 | enqueue, submit, RUNNING and a raise lead from an empty table to such a job |
| ControlJobs.JobTable.SetManualOverride | app/control/repository.py:265-281 | stores one override, in a transaction of its own |
| ControlWorker.ClockAdvances | app/control/worker.py:196-438 | k completed waits advance the clock by at least 5k seconds |
| ControlWorker.SendRecorded | app/control/worker.py:196-232 | one more send decided after the retry gap keeps the sends bounded, truthful and spaced |
| ControlWorker.RunSendsWell | app/control/worker.py:200-340 | at every point of every run: at most 3 sends, the first in the first round, each later one decided at least the gap after the previous ended |
| ControlWorker.NoTargetOnTheWay | app/control/worker.py:342-410 | nothing read before the loop ends is the target |
| ControlWorker.EndIsUnique | app/control/worker.py:200-440 | a given environment ends the loop in one round and one way |
| ControlWorker.VerdictIsExact | app/control/worker.py:200-440 | VERIFIED exactly when some entered round, reached without an earlier end and without a failed send, reads the target; no verdict exactly when such a round is stopped or finds no row; a timeout only when stopped or past the deadline |
| ControlWorker.SendsAreGood | app/control/worker.py:200-340 | the sends of a finished loop are bounded, spaced and truthful, and it gives up sending only after a third failure |
| ControlWorker.ReadsAreGood | app/control/worker.py:342-410 | what is observed is exactly what was read, and the target is among it exactly when the job is verified |
| ControlWorker.WritesTellOutcome | app/control/worker.py:74-116 | the writes follow the job protocol, close the job exactly when there is a verdict, and write VERIFIED exactly when it is verified |
| ControlWorker.VerifiedByItsState | app/control/worker.py:342-410 | a pause is verified by a read of PAUSED, a resume by one of MINING, as the last read of the last round |
| ControlWorker.FirstReadVerifies | app/control/worker.py:342-410 | a first round that sends and reads that state verifies the job at once |
| ControlWorker.SendsExactly | app/control/policy.py:92-116 | a round sends exactly when it is the first, or has an attempt left, the gap past and a last state the action can move, each state named |
| ControlWorker.LastStateIsLastRead | app/control/worker.py:189-198 | the state that decides a retry is the last one read, or the one on record |
| ControlWorker.RowTellsOutcome | app/control/worker.py:74-116 | the job's row ends VERIFIED exactly when the target was read in time, RUNNING exactly after a stop or a lost row, FAILED otherwise |
| ControlWorker.TimeoutsInNumbers | app/control/policy.py:45-89 | the timeouts and retry gaps of each driver and action, in seconds |
| ControlWorker.Pass | app/control/worker.py:200-410 | one pass of the loop body advances the locals and ends the loop as the round decides |
| ControlWorker.SendAndVerify | app/control/worker.py:181-440 | the loop is the environment's own run, ended where the environment ends it, within a number of rounds the timeout bounds |
| ControlWorker.VerifiedControlWorker | app/control/worker.py:119-440 | missing miner and unset driver give their exact traces; otherwise the environment's run with bounded, spaced sends, VERIFIED exactly when the target is read in time after a successful or unneeded send, and no verdict exactly for a stop or a lost row |
| RebootWorker.AwaitTransition | app/control/worker.py:558-697 | seen exactly when a qualifying transition is read before the first deadline; stopped exactly when a wait is cut short before one |
| RebootWorker.AwaitReturn | app/control/worker.py:709-856 | seen exactly when two consecutive operational reads come before the second deadline; stopped exactly when a wait is cut short before them |
| RebootWorker.RebootWorker | app/control/worker.py:443-856 | one send at most; VERIFIED exactly when a transition and then a stable return are seen in time; no verdict exactly when a wait is cut short before that; missing rows reset the count; writes follow the job protocol |
| RebootWorker.EvidenceIs | app/control/worker.py:600-822 | the states that count as transition and as return, each named |
| RebootWorker.RebootRow | app/control/worker.py:74-116 | the reboot job's row ends VERIFIED, RUNNING or FAILED as its outcome says |
| RebootWorker.FlickerIsNotReturn | app/control/worker.py:725-822 | isolated operational reads never verify a reboot |
| BulkControl.Normalize | app/control/bulk.py:59-227 | accepts exactly one selector with 1 to 50 distinct positive ids, or one group, and sorts the ids |
| BulkControl.DuplicatesDecided | app/control/bulk.py:59-227 | the duplicate test is exact |
| BulkControl.ResolvedIsBoundedAndOrdered | app/control/bulk.py:448-647 | a selection has 1 to 50 targets, strictly ascending by id |
| BulkControl.ResolvedIsWhatWasAsked | app/control/bulk.py:448-647 | the selection holds exactly the requested ids, or exactly the group's members |
| BulkControl.ResolvedExactly | app/control/bulk.py:448-647 | which selections are accepted: 1 to 50 distinct positive ids, or an existing group with 1 to 50 members |
| BulkControl.QueueOne | app/control/bulk.py:841-1035 | one queue call has exactly the effect and result its table, its row and the place where it raises decide, an override stored before a failed insert included |
| BulkControl.ServeTarget | app/control/bulk.py:775-1035 | one pass of the loop: preview verdict or queue call, with its exact table and result |
| BulkControl.OtherActivity | app/control/queue.py:240-287 | other requests and live workers' writes in between change the table as their fold says and keep one active job per miner |
| BulkControl.FanOut | app/control/bulk.py:775-1043 | the table and the results are exactly those of the interleaved fold of activity and targets |
| BulkControl.ExecuteBulk | app/control/bulk.py:732-1077 | raises exactly for an invalid selection or an unconfirmed reboot, and then changes nothing; otherwise the fan-out of the resolved selection |
| BulkControl.TargetsAreDecided | app/control/bulk.py:775-1035 | a job is made for a target exactly when the preview and its row let it through, it has no active job in the table it meets and nothing raises before the insert; accepted, with that job, exactly when nothing raises after it either |
| BulkControl.CodesAreDecided | app/control/bulk.py:289-337 | the rejection code of each target, by its row and what it meets |
| BulkControl.ActivityMeans | app/control/queue.py:240-287 | a request in between adds its job exactly where its row passes and no job is queued or running; a worker's write reaches exactly such a job |
| BulkControl.RowsAreAttributed | app/control/bulk.py:775-1035 | each job made is a row of the final table for its own target and action, ids ascending with the targets |
| BulkControl.NewRowsHaveOrigin | app/control/bulk.py:732-1077 | every new row was made by a target of the call or asked for by another request |
| BulkControl.ServingConcernsTarget | app/control/bulk.py:841-1035 | a queue call touches no other miner's override or active job and no existing row |
| BulkControl.TargetOverrideMovesIff | app/control/queue.py:240-287 | a target's override moves, to the stored transition, exactly when a pause or resume gets past the active-job check, even where the insert then fails |
| BulkControl.OutsiderUntouched | app/control/bulk.py:732-1077 | a miner that is no target and that nobody else asks for gets no job and keeps its override |
| BulkControl.CreatedIsAcceptedOrLate | app/control/bulk.py:732-1077 | jobs created equal accepted results plus late failures |
| BulkControl.AcceptedMatchesCreated | app/control/bulk.py:732-1077 | accepted count equals jobs created exactly when no queue call raised after committing |
| BulkControl.LateFailureLeavesJob | app/control/bulk.py:994-1035 | for any eligible miner and action, the run whose queue call raises late ends with the job queued and active and an accepted count of 0 |
| AnomalyIssues.LastActive | app/anomalies/repository.py:1019-1031 | the newest active issue of a pair, none exactly when none is active |
| AnomalyIssues.IssueTables.Transition | app/anomalies/repository.py:1001-1171 | one pair moves by one transition, all other pairs stay; opened and resolved are reported exactly |
| AnomalyIssues.NextIsWellFormed | app/anomalies/repository.py:1001-1171 | a transition never leaves a candidate beside an active issue, nor two active issues |
| AnomalyIssues.TransitionStamps | app/anomalies/repository.py:1044-1171 | what opening, continuing and resolving write into an issue |
| AnomalyIssues.CandidateIsBlockStart | app/anomalies/repository.py:1044-1110 | the candidate's time is that of the first scan of the current observed, unsuppressed block |
| AnomalyIssues.OpensExactly | app/anomalies/repository.py:1001-1171 | an issue opens at scan k exactly when none is active and k is the first scan of its maximal block that satisfies the grace; first_seen is the block's start |
| AnomalyIssues.ActiveSinceOpening | app/anomalies/repository.py:1001-1171 | an issue is active exactly from an opening for as long as the condition stays observed |
| AnomalyIssues.MaintenanceRestartsGrace | app/anomalies/repository.py:1044-1110 | no issue opens within the grace of a suppressed scan |
| AnomalyIssues.EventsAlternate | app/anomalies/service.py:46-87 | ISSUE_OPEN and ISSUE_RESOLVED strictly alternate, their difference is the number of active issues, and openings count the issues |
| AnomalyIssues.IssuesAreDisjoint | app/anomalies/repository.py:1001-1171 | with a forward clock the issues of a pair occupy disjoint intervals, and a candidate starts after the last |
| AnomalyIssues.OverheatOpensOnlyWhenHot | app/anomalies/service.py:246-287 | an OVERHEAT issue opens only after readings at or above hot, unsuppressed, spanning the grace |
| AnomalyIssues.HysteresisBand | app/anomalies/policy.py:440-455 | a reading in [clear, hot) changes nothing; an issue resolves exactly on a missing reading or one below clear |
| AnomalyScan.ActiveMaintenance | app/maintenance_windows/repository.py:489-565 | the farm flag and miner set together cover exactly the miners some open FARM, MINER or GROUP window covers |
| AnomalyScan.ScanHasPolicy | app/anomalies/repository.py:227-363 | under any valid global policy the loaders leave every miner a policy that resolves, whatever is stored |
| AnomalyScan.SetCondition | app/anomalies/service.py:46-87 | one pair's transition, with ISSUE_OPEN or ISSUE_RESOLVED logged exactly when it happens |
| AnomalyScan.OnlyOverheatLooksBack | app/anomalies/policy.py:433-471 | only the temperature condition depends on whether an issue is open |
| AnomalyScan.ScanMiner | app/anomalies/service.py:152-325 | the three conditions of one miner make exactly their own transitions; no other pair or log entry is touched |
| AnomalyScan.AnomalyScan | app/anomalies/service.py:105-325 | one scan moves every pair of a listed miner exactly once and leaves every other pair alone |
| AnomalyScan.RunScans | app/anomalies/service.py:328-358 | over any run of scans each pair's tables are the fold of what it was asked and its log alternates between opened and resolved |
| AnomalyScan.ScanAt | app/anomalies/service.py:105-325 | a miner listed throughout sees one scan per run |
| AnomalyScan.AlertsHaveLastingCause | app/anomalies/service.py:105-325 | an alert is raised only where none is active and after its cause, in the columns of the row, held unsuppressed in every scan of a stretch as long as the grace in force |
| AnomalyScan.CauseIsObserved | app/anomalies/policy.py:433-471 | a cause is observed, whether an issue is open or not |
| AnomalyScan.LastingCauseRaises | app/anomalies/service.py:105-325 | a cause that lasts as long as the grace leaves the pair with an active issue |
| AnomalyScan.AlertsExactly | app/anomalies/service.py:105-325 | an alert is raised exactly when none is active and its cause has lasted as long as the grace |
| AnomalyScan.GraceIsPolicyField | app/anomalies/service.py:222-325 | each condition's grace is the value of its field of the effective policy |
| AnomalyScan.DisabledSettles | app/anomalies/service.py:195-216 | one scan of a disabled miner resolves its active issues and drops its candidates |
| AnomalyPolicy.NormalizePolicy | app/anomalies/policy.py:100-139 | accepts exactly complete bodies of in-range values with clear below hot |
| AnomalyPolicy.AcceptedRanges | app/anomalies/policy.py:68-97 | the accepted range of each field, in numbers |
| AnomalyPolicy.Resolve | app/anomalies/policy.py:200-220 | a resolved policy is complete, in range, with clear below hot |
| AnomalyPolicy.ResolveLayered | app/anomalies/policy.py:223-260 | likewise through three layers, the group layer valid by itself |
| AnomalyPolicy.ApplyPatch | app/anomalies/policy.py:263-378 | the loop over a patch accepts exactly acceptable patches whose merge resolves, and returns that merge |
| AnomalyPolicy.SourcesAreTruthful | app/anomalies/policy.py:401-430 | each effective value is the one held by the layer reported as its source |
| AnomalyPolicy.InheritedPatchAgrees | app/anomalies/policy.py:223-317 | resolving a miner against the inherited policy equals three-layer resolution |
| AnomalyPolicy.PatchEffect | app/anomalies/policy.py:263-317 | a patched field takes its value, a null field is inherited, every other field keeps its effective value |
| AnomalyPolicy.NullPatchClears | app/anomalies/policy.py:263-317 | nulls for all set fields clear the overrides |
| PolicyStore.SnapshotsDropNothing | app/anomalies/repository.py:176-363 | from a consistent store the snapshot loaders drop no stored row |
| PolicyStore.EveryMinerHasPolicy | app/anomalies/repository.py:227-288 | every miner has a valid effective policy that honours its own overrides |
| PolicyStore.EffectiveIsLayered | app/anomalies/repository.py:227-288 | each field of a miner's policy is its own override, else its group's, else the global value |
| PolicyStore.EditsTakeEffect | app/anomalies/repository.py:657-923 | each edit stores what it is given and touches nothing else |
| PolicyStore.DeletionTakesEffect | app/miner_groups/repository.py:176-248 | a deleted group leaves no row, no layer and no member; everybody else stays |
| PolicyStore.MinerPatchTakesEffect | app/api/anomaly_overrides.py:467-579 | after an accepted patch each field is the patched number, what is inherited where it was cleared, and unchanged otherwise |
| PolicyStore.GlobalEditKeeps | app/anomalies/repository.py:366-472 | an accepted global policy keeps every override in force |
| PolicyStore.GroupEditKeeps | app/anomalies/repository.py:475-561 | an accepted group edit keeps every override in force |
| PolicyStore.MinerEditKeeps | app/anomalies/repository.py:784-901 | an accepted miner edit keeps every override in force |
| PolicyStore.MembershipEditKeeps | app/anomalies/repository.py:564-626 | an accepted move of a miner keeps every override in force |
| PolicyStore.GroupDeletionKeeps | app/miner_groups/repository.py:176-248 | an accepted deletion of a group keeps every override in force |
| PolicyStore.GlobalFitsIff | app/anomalies/repository.py:366-472 | a global policy is let through exactly when the store stays consistent under it |
| PolicyStore.GroupFitsIff | app/anomalies/repository.py:475-561 | a group's layer is let through exactly when the store stays consistent with it |
| PolicyStore.MinerFitsIff | app/anomalies/repository.py:784-901 | a miner's overrides are let through exactly when the store stays consistent with them |
| PolicyStore.MembershipFitsIff | app/anomalies/repository.py:564-626 | a move is let through exactly when the store stays consistent after it |
| PolicyStore.RemovalFitsIff | app/anomalies/repository.py:629-654 | a deletion is let through by its members exactly when the store stays consistent after it |
| PolicyStore.Store.ValidateGlobal | app/anomalies/repository.py:366-472 | its two loops decide exactly whether anything that resolves now stops resolving |
| PolicyStore.Store.ValidateGroup | app/anomalies/repository.py:475-561 | its loop decides exactly whether the layer and its members still resolve |
| PolicyStore.Store.ValidateRemoval | app/anomalies/repository.py:629-654 | its loop decides exactly whether every member resolves without the group |
| PolicyStore.Store.PutGlobalPolicy | app/api/anomalies.py:30-88 | exact verdict, exact new tables, consistency kept |
| PolicyStore.Store.PutGroupPatch | app/api/anomaly_overrides.py:316-399 | exact verdict, exact new tables, consistency kept |
| PolicyStore.Store.ClearGroupOverrides | app/api/anomaly_overrides.py:401-455 | exact verdict, exact new tables, consistency kept |
| PolicyStore.Store.PutMinerPatch | app/api/anomaly_overrides.py:467-579 | accepted exactly when the patch is acceptable and three-layer resolution succeeds |
| PolicyStore.Store.ClearMinerOverrides | app/api/anomaly_overrides.py:581-642 | always possible for an existing miner, consistency kept |
| PolicyStore.Store.AssignGroup | app/api/miner_groups.py:328-554 | accepted exactly when miner and group exist and the policies resolve together |
| PolicyStore.Store.RemoveGroup | app/api/miner_groups.py:243-323 | accepted exactly when it exists, no schedule rule names it and every member resolves without it |
| PolicyStore.Store.Serve | app/anomalies/repository.py:291-654 | after any sequence of edits the store is consistent and the snapshots drop nothing |
| RecurringTimes.ActiveOccurrences | app/recurring_maintenance/policy.py:167-197 | exactly the occurrences in progress, sorted; eight days back are enough |
| RecurringTimes.NextOccurrence | app/recurring_maintenance/policy.py:200-222 | always found, and the least occurrence at or after now |
| RecurringTimes.OccurrencesBetween | app/recurring_maintenance/policy.py:225-278 | the complete, sorted, duplicate-free list of starts in the range |
| RecurringTimes.RangeListIsBetween | app/recurring_maintenance/policy.py:225-278 | that list is unique |
| RecurringTimes.KeyIsInjective | app/recurring_maintenance/policy.py:163-164 | the minute in an occurrence key identifies the occurrence |
| Materializer.DueOccurrences | app/recurring_maintenance/service.py:127-164 | exactly the occurrences from max(effective time, now - 7 days) to now |
| Materializer.Tables.MaterializeOccurrence | app/recurring_maintenance/repository.py:409-567 | creates one occurrence with its own window or nothing; existing rows are untouched |
| Materializer.Tables.MaterializeRule | app/recurring_maintenance/service.py:167-200 | one rule's due occurrences are all ensured; each added occurrence and its window have that rule's start, duration, target and members, one window each |
| Materializer.Tables.MaterializeDue | app/recurring_maintenance/service.py:167-200 | the occurrences grow by exactly the due keys of walked rules with existing targets, each with its own window, both made for such a rule in this pass's world and at its time |
| Materializer.Tables.RunPasses | app/recurring_maintenance/service.py:225-277 | over any passes the table holds exactly the ensured keys; every added occurrence has exactly one added window, both made for a rule some pass walked |
| Materializer.OriginsAreWalked | app/recurring_maintenance/service.py:167-200 | what a run makes rows for is a walked rule of one of its passes with its target in place there |
| Materializer.EnsuredForRule | app/recurring_maintenance/service.py:127-164 | a pass ensures an occurrence's key exactly when it is due |
| Materializer.DueInColumns | app/recurring_maintenance/service.py:127-164 | when an occurrence is due, in the rule's columns |
| Materializer.EnsuredInColumns | app/recurring_maintenance/service.py:127-200 | what a pass ensures: occurrences of an enabled, undeleted rule with an existing target, of the last seven days and not before its last edit |
| Materializer.MadeInColumns | app/recurring_maintenance/repository.py:409-567 | the times, target and members written for a materialized occurrence |
| Materializer.SomePassIsInTime | app/recurring_maintenance/service.py:127-164 | with gaps of at most 7 days some pass finds each occurrence within its catch-up window |
| Materializer.CatchUpIsComplete | app/recurring_maintenance/service.py:127-200 | the ensured occurrences of an unchanged rule are exactly those from max(effective time, first - 7 days) to the last pass |
| Materializer.LongGapLosesOccurrences | app/recurring_maintenance/service.py:127-164 | in a run, an occurrence between two consecutive passes is ensured exactly when the later one still finds it within the window; no later pass recovers it |
| Lifecycle.LifecycleTable.ClaimLifecycleEvents | app/recurring_maintenance/repository.py:597-730 | every row is claimed once; the returned events are exactly the claims, in order |
| Lifecycle.LifecycleTable.EndWindow | app/maintenance_windows/repository.py:439-486 | ends exactly a window that is still open |
| Lifecycle.LifecycleTable.ExtendWindow | app/api/maintenance.py:246-359 | extends exactly an open window, within seven days of its start, when the conflict query finds nothing |
| Lifecycle.StepKeepsInv | app/recurring_maintenance/repository.py:597-730 | each scan, ending or extension keeps events, columns and window in agreement |
| Lifecycle.RunKeepsInv | app/recurring_maintenance/repository.py:597-730 | so does every run with a forward clock |
| Lifecycle.EventsAreOrderly | app/recurring_maintenance/repository.py:597-730 | over any run at most one START, then at most one of COMPLETE and CANCEL, never both |
| Lifecycle.ScanAfterEndSettles | app/recurring_maintenance/repository.py:597-730 | a scan at or after the end leaves a terminal event: CANCEL exactly when the window was ended early |
| Lifecycle.EventsAgreeWithState | app/recurring_maintenance/lifecycle.py:13-28 | what a scan emits is the lifecycle state at that moment, and claiming does not change the state |
| Lifecycle.ClaimingIsIdempotent | app/recurring_maintenance/repository.py:597-730 | the same moment claims nothing twice |
| Lifecycle.TerminalsAreDecided | app/recurring_maintenance/repository.py:597-730 | whatever the clock does: CANCEL is emitted exactly when a scan follows an early end, COMPLETE exactly when a late scan comes with no early end before it |
| Lifecycle.StartedIff | app/recurring_maintenance/repository.py:597-730 | whatever the clock does: START is emitted exactly when some scan falls within the occurrence, before its window is ended and before any late scan |
| Lifecycle.ClaimStamps | app/recurring_maintenance/repository.py:640-730 | what each claim writes into the event columns |
| Lifecycle.ClaimsInOrder | app/recurring_maintenance/repository.py:597-730 | a scan reports each row's claim and nothing else, in row order |
| Lifecycle.StateInColumns | app/recurring_maintenance/lifecycle.py:13-28 | the lifecycle states in the columns of the row |
| Lifecycle.BothTerminalsIff | app/recurring_maintenance/repository.py:597-730 | whatever the clock does: both are emitted exactly when a scan at or after the own end is followed by an accepted end of the window at an earlier time, and that by another scan |
| Lifecycle.BackwardClockBreaksExclusion | app/recurring_maintenance/repository.py:597-730 | a concrete run in which both are emitted |
| Lifecycle.OutlastsIffExtended | app/maintenance_windows/repository.py:388-436 | a window outlasts its occurrence exactly when some operation of the run extended it |
| Lifecycle.CompletesOpenWindowIff | app/recurring_maintenance/repository.py:597-730 | after any run a scan completes an occurrence whose window is still open exactly when it is un-ended, now lies between the two ends and nothing was completed before; and then an extension happened |
| Lifecycle.ExtendedWindowCompletesEarly | app/recurring_maintenance/repository.py:640-700 | a window extended from 100 to 200 is reported complete at 100 |
| Restore.ReplayIsIdempotent | app/maintenance/backup.py:840-848 | replaying the parked log over a snapshot that contains it changes nothing |
| Restore.Disk.SnapshotDatabase | app/maintenance/backup.py:980-1016 | the rollback copy holds the logical database, or nothing is replaced |
| Restore.Disk.CopyDatabaseStage | app/maintenance/backup.py:713-759 | stages the archive exactly when nothing fails; a failed stage leaves its temporary exactly when its own unlink fails too |
| Restore.Disk.MoveSidecars | app/maintenance/backup.py:791-837 | both sidecars are parked, or both are where they were, or the log is stranded when putting it back fails |
| Restore.Disk.Prepare | app/maintenance/backup.py:980-1085 | up to the first replacement: ready exactly when nothing fails, with complete rollbacks and stages; otherwise nothing replaced and every leftover named |
| Restore.Disk.Forward | app/maintenance/backup.py:980-1109 | the try block succeeds exactly when no planned operation fails; which files are replaced and parked, and with what rollbacks, whatever fails |
| Restore.Disk.Compensate | app/maintenance/backup.py:1111-1153 | puts back each part exactly as far as its own steps and those before it succeed |
| Restore.Disk.CleanUp | app/maintenance/backup.py:1155-1173 | removes the known temporaries up to its first failure |
| Restore.Disk.RestoreBackup | app/maintenance/backup.py:890-1173 | whatever fails, compensations included: it restores exactly when no planned operation fails, returns exactly when moreover no cleanup of the sidecars there were and the rollback copies made fails, and leaves what Ended says |
| Restore.SuccessInstallsArchive | app/maintenance/backup.py:1087-1109 | a successful restore has the archive and its environment in place and no sidecar, even if its cleanup fails |
| Restore.FailureChangesNothing | app/maintenance/backup.py:1111-1153 | when the compensations succeed a failed restore leaves logical database, environment and sidecars as before |
| Restore.TemporariesRemainIff | app/maintenance/backup.py:980-1000 | and a temporary remains exactly when clearing the rollback name was what failed |
| Restore.StagesCoverThePlan | app/maintenance/backup.py:980-1109 | the operations of the stages are all the planned ones |
| Restore.FailedPutBackLosesDatabase | app/maintenance/backup.py:1111-1173 | over all failures: a failed restore loses the old database exactly when it had been replaced, putting it back fails, and the cleanup gets to delete its rollback copy |
| Restore.ReaderSeesChangeIff | app/maintenance/backup.py:791-853 | over all failures: after a failed restore the logical database differs exactly when the archive stayed in its place, or its own log stayed parked |
| Upgrade.Installation.Begin | app/maintenance/upgrade.py:425-468 | nothing installed changes before the try block; a staging directory remains exactly when it was made |
| Upgrade.Installation.SnapshotUnits | app/maintenance/upgrade.py:263-280 | a completed snapshot equals the units |
| Upgrade.Installation.InstallTargetUnits | app/maintenance/upgrade.py:302-314 | succeeds exactly when every unit does, and then all units are the target's |
| Upgrade.Installation.SwitchTrees | app/maintenance/upgrade.py:498-505 | both renames, or the old tree back in place, or the old tree stranded aside when the swap back fails |
| Upgrade.Installation.Attempt | app/maintenance/upgrade.py:470-541 | the stage reached is that of the first failing step, with the exact state it leaves; the old tree is never gone meanwhile |
| Upgrade.Installation.RestoreUnits | app/maintenance/upgrade.py:283-299 | puts back every unit of the snapshot exactly when no unit fails |
| Upgrade.Installation.RecoverBeforeSwitch | app/maintenance/upgrade.py:383-411 | restores units and restarts both services, each part independent of the others' failures |
| Upgrade.Installation.Rollback | app/maintenance/upgrade.py:321-380 | tree, units, data and services are each restored exactly when their own steps succeed; complete exactly when all do |
| Upgrade.Installation.CleanUp | app/maintenance/upgrade.py:602-611 | what the finally block removes, and that it removes the last old tree exactly when that was stranded |
| Upgrade.Installation.PerformUpgrade | app/maintenance/upgrade.py:414-611 | the outcome decided by the faults, the final trees, units, loaded units, data and services for each outcome, and the exact condition under which the old tree is lost before success |
| Upgrade.CleanUpEnds | app/maintenance/upgrade.py:602-611 | the cleaned state is the one promised for the outcome |
| Upgrade.UpgradeIsTransactional | app/maintenance/upgrade.py:414-611 | with successful compensations a failed upgrade leaves the old tree, old units loaded and both services running, the data being the backup's after a switch |
| Upgrade.SucceededExactly | app/maintenance/upgrade.py:425-541 | an upgrade succeeds exactly when none of its forward steps, each named, fails |
| Upgrade.RecoveredExactly | app/maintenance/upgrade.py:383-411 | the previous service is reported restored exactly when the deployment was begun, did not reach the switch and every undoing step succeeds; any failing one is reported |
| Upgrade.RolledBackExactly | app/maintenance/upgrade.py:321-380 | a rollback is reported complete exactly when it was needed and no step of it, recording included, fails |
| Upgrade.OutcomesAreHonest | app/maintenance/upgrade.py:543-600 | after Recovered and RolledBack the old units are in place and loaded and both services up; after RolledBack also the old tree and the backed-up data |
| Upgrade.StrandedUpgradeLosesOldTree | app/maintenance/upgrade.py:498-505 | after a failed swap back nothing is installed and the old tree is gone |
| Upgrade.UnrecordedRollbackNeverStarts | app/maintenance/upgrade.py:543-575 | if the rollback phase cannot be recorded the new tree stays installed with its units loaded, and data, service and timer stay as starting the target left them |
| Telemetry.WindowSpansExpected | app/telemetry/history.py:32-45 | a window spans exactly expected_points buckets |
| Telemetry.NewestIn | app/telemetry/repository.py:141-229 | the newest row of a bucket |
| Telemetry.MissingIsExact | app/telemetry/analytics.py:72-113 | for every supported range the points never exceed the expected number, so the missing count is exact and never clamped |
| Telemetry.PointsAreTheBuckets | app/telemetry/repository.py:141-229 | there is a point for exactly the buckets that hold a row, with their row count and the state of a newest row |
| Telemetry.SamplesAreConserved | app/telemetry/repository.py:141-229 | sample counts sum to the number of rows in the window |
| Telemetry.TelemetryTable.SaveSnapshot | app/telemetry/repository.py:30-120 | appends one row per miner and deletes exactly the rows older than 90 days |
| Telemetry.SnapshotHasEveryMiner | app/telemetry/repository.py:30-120 | a snapshot has one row for every miner, with its state, at its moment |
| Telemetry.SupportedRanges | app/telemetry/history.py:7-29 | the supported ranges, their expected points, and that the buckets fill them exactly |
| Telemetry.RetentionIsInvisible | app/telemetry/repository.py:103-116 | the retention delete removes no row inside any supported window at that instant |

## Left out

- Zones other than UTC and daylight saving: `zoneinfo` is a library; with other zones a local minute may occur twice or not at all.
- Times below one second: the model's clock and instants are whole seconds.
- HTTP, JSON and string parsing (`schedule_normalize_input`, request bodies with unknown keys or wrong types): the model starts from typed values and keeps the range checks.
- Audit events, messages, notifications, dashboards: text without effect on state.
- Races inside one step (a check and an insert on two connections): each handler, lock section and loop pass is atomic here.
- ControlWorker.VerifiedControlWorker: models a failed or missing poll as a missing row, because both end the worker without a verdict.
- RebootWorker.RebootWorker: the polls are given per phase, because the second phase starts a new clock base.
- BulkControl.ExecuteBulk: the preview rows are those of one query; other requests and workers act between targets, not inside one queue call.
- Materializer.Tables.MaterializeOccurrence: the rule re-read inside the transaction is the one the pass listed, because edits between the two reads are races inside a step.
- Lifecycle.LifecycleTable.ExtendWindow: the conflict query over all windows is a parameter, because operator windows are not rows of this table; notes and actors are not modelled.
- Restore.Disk.RestoreBackup: file modes and owners are not modelled, and the verification of the backup and its manifest happens before the first modelled operation.
- Upgrade.Installation.PerformUpgrade: version and source-tree validation and the doctor report are one fallible step; what the restarted old release then writes to the database is not modelled.
- SQLite itself: transactions are atomic, a backup is a faithful snapshot, and a log replays by overriding pages.
- Creation of operator windows and their conflict query (`app/maintenance_windows/repository.py`): an interval test only.
- AnomalyScan.AnomalyScan: the miners' effective schedule states are a parameter of a scan, because ScheduleState proves what they are; the temperature arrives already normalized.
- Telemetry averages, farm totals and history statistics: sums and means without a hard property.
- Discovery, drivers, Telegram, nginx, doctor checks, schema migrations, inventory, service history, remote web access: foreign input or easy members only.
