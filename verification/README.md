# ControlledJob operator: a verified model

A ControlledJob starts and stops one Kubernetes Job on a cron schedule. Its operator
repeats one step, the reconcile: read the schedule, list the jobs, decide which jobs to
create, delete and unsuspend, send those calls one by one, and save a status. The
operator promises that **at most one job ever runs**. This project models the reconcile
in Dafny, from the calendar arithmetic up to whole runs of the operator among its
users, and proves that promise and the others that its code and comments make.

`dafny verify dfyconfig.toml` checks everything.

## How it is laid out

| file | models |
|---|---|
| `Calendar.dfy`, `CalendarLaws.dfy` | the proleptic Gregorian calendar in a zone of fixed offset, in whole seconds; the same in closed form, and known dates |
| `Cron.dfy`, `CronPrev.dfy` | cron masks; the backward search as a function and as the loops of `cronPrev` |
| `CronFields.dfy` | what the fields of a specification mean for its firings |
| `NearestEvent.dfy`, `ScheduleState.dfy` | the nearest event over many schedules; the state of a schedule |
| `EventKinds.dfy` | which events count as stops and starts, and what the decision reads of the state |
| `ScheduleTheorems.dfy`, `LeapDay.dfy` | what that state means in terms of the instants at which events fire; a schedule that the search window forgets |
| `Transitions.dfy` | from a firing to the decision it brings about |
| `JobNaming.dfy`, `Jobs.dfy` | job names; job predicates; building and recreating jobs |
| `Decisions.dfy` | the decision as a function of the state and the list of jobs |
| `CandidateOrder.dfy`, `DecisionEffects.dfy` | the list read as a set; the jobs right after a decision |
| `PlainDecision.dfy`, `IrrelevantConditions.dfy` | the decision in terms of the fields of the jobs; what of a job does not matter |
| `Stability.dfy`, `Convergence.dfy` | deciding again; two rounds from any cluster |
| `RunOrder.dfy` | which of two jobs is preferred, and whether a job created by hand is adopted |
| `Conditions.dfy`, `ActionHistory.dfy`, `ControlledJobs.dfy` | the status and its updates in place |
| `TransitionTimes.dfy`, `SavedTransitions.dfy` | when the transition time of a condition moves, over a list of writes and over a reconcile |
| `DecisionStatus.dfy`, `MakeDecision.dfy` | what a decision writes to the status; `makeDecision` as it runs |
| `Failures.dfy`, `OverallConditions.dfy`, `Reconciling.dfy` | why a reconcile fails; the summary conditions; one reconcile and its calls |
| `CallConditions.dfy` | what the calls leave in the conditions and the history, over any run of reconciles |
| `RecordedCalls.dfy` | the history after a reconcile names its calls and their jobs |
| `StatusMeaning.dfy`, `StatusFixpoint.dfy` | what the saved status says of the cluster; two reconciles over it |
| `ConditionTexts.dfy` | every condition of the saved status and its reason, from the fields of the jobs |
| `DocumentedStatus.dfy` | when the conditions mean what their declarations say |
| `Wakeups.dfy` | why the operator may sleep until the next event |
| `ExclusiveRun.dfy`, `RunEffects.dfy` | every interleaving of the operator with everything else; decisions carried out by those steps |
| `Witnesses.dfy` | clusters in which the exceptions of the theorems occur |

Code that updates things in place is a method or a class, proved against a function;
the theorems are about those functions. An unset (zero) time is `None`. `time.Now()`
inside `SetCondition` is an arbitrary instant at every call, and the reply to each API
call is arbitrary. Reasons and messages are constructors of `Explanation`.

## What the proofs found

- `cronPrev` truncates to the minute with `t.Truncate`, which counts absolute minutes.
  It finds the latest match, at all instants and for all specifications with given
  seconds, exactly when the zone is a whole number of minutes or the specification never
  fires in the seconds between (`ExactIffMinutesAlign`). Schedules parsed from five
  fields fire at second 0 only and are always searched exactly (`FiveFieldsExact`).
- The extra offset cancels except for -2^31 (`OffsetCancels`), where a reported event is
  2^32 seconds early (`LeastOffsetMisplaces`).
- No transition is missed between two events exactly as long as the five-year window
  still sees the last event and the last stop (`NoTransitionBeforeNext`). A stop on every
  29 February is forgotten for two years before the next one wherever there is none for
  eight years (`WindowForgets`), as after 2096 (`GapAround2100`).
- Deciding again does nothing, except that outside the run period the operator may clear
  the suspend flag of a completed job that was started by hand, one decision after
  deleting the only running one. `DecisionsAreStable` gives the exact condition and
  `SecondThoughtsHappen` a cluster.
- The second of two rounds fails exactly when no job remains inside the run period and
  none can be started, for want of a start or because the deadline has passed
  (`TwoRoundsConverge`); a job that is deleted late in its run period is such a case
  (`LateDeletionHappens`).
- The starting deadline means what it says, for every start and every now, exactly when
  there is none or its nanoseconds fit into an int64; below one second there is none
  (`DeadlineExactIff`). Longer ones wrap around (`DeadlinesWrap`).
- Of the conditions a job reports, only a true Complete or Failed matters: no other
  changes anything in a decision or in the status (`DecisionIgnoresOthers`,
  `StatusIgnoresOthers`).
- The comment at `pkg/metadata/job_metadata.go:80` wants more than one ready pod for a job
  to count as running; the code wants more than none (`RunningIff`).
- An event that is neither a start nor a stop, such as a restart, is no stop and begins
  no run period (`OtherEventsDoNotCount`); but when one was the last to fire, the job should
  not be running (`OnlyStartsRun`).
- The name of a created job can already be taken by a job named from its own annotations
  only when the run ids have wrapped around int64 (`CreatedNameIsFresh`), and then it
  does happen (`NamesCanClash`).
- `docs/user-manual/manually-created-jobs.md:16` promises that a job created by hand with
  a higher index is adopted. Names are compared as text, and the scheduled start comes
  before the index in them. The new job takes over exactly when the old one is out of
  date, or the start of the new one is the greater text, or the starts are equal and its
  index is the greater text; the one that wins is kept exactly when one should run or
  it is marked as manual (`AdoptedIff`). Starts of as many digits are in the order of time
  (`LaterStartWins`), so index 5 of an earlier start loses to index 0
  (`HigherIndexIsDeleted`), and of equal starts index 10 loses to index 9
  (`TenLosesToNine`).
- The reconcile of a suspended ControlledJob does not look at the jobs, so its summary
  repeats what was found in the status. It is about the jobs listed exactly when that
  happens to agree with them (`SummaryTellsClusterIff`); after the job of a suspended
  ControlledJob has gone, the status still says that it runs as expected
  (`SummaryGoesStale`).
- `api/v1/controlledjob_types.go:277-278` declares JobExists as a current job that is not
  being deleted. The code sets it for any job with a readable run id, expired or on its
  way out (`JobExistsIs`, `LeavingJobExists`); `JobExistsAsDeclaredIff` says when the two
  agree.
- `api/v1/controlledjob_types.go:317-327` declares the summary in terms of a job that may
  be running. The code looks at whether the reported job exists and has not failed, so a
  completed job is said to run expectedly (`CompletedRunsExpectedly`);
  `SummaryAsDeclaredIff` says when the two agree.
- `api/v1/controlledjob_types.go:302-312` says of the four FailedTo conditions that there
  was an error at the last try. This is so for deletes and creates, and only for them
  (`PromiseIff`): a suspend or unsuspend that works sets its condition to true as well
  (`pkg/reconciliation/reconcile.go:152`, `:164`). What the condition does say after any
  number of reconciles is `AlwaysTellsLastTry`.
- A failed reconcile is recorded in the history only after the status has been sent (the
  deferred calls of `pkg/reconciliation/reconcile.go:87-105` run last first), so in any
  run of reconciles no saved status has a failure in its history
  (`FailuresAreNeverSaved`).

## Model

| member | source | states |
|---|---|---|
| Cron.SkipsNoMatch | pkg/schedule/cron_prev.go:65-118 | where zone and seconds align, no second that the walk jumps over, for a failed month, day, hour or minute, matches the specification |
| Cron.SearchIsLatest | pkg/schedule/cron_prev.go:9-11 | where zone and seconds align, from any instant and down to any limit, the search finds the greatest match, and nothing exactly when there is none |
| Cron.ExactIffMinutesAlign | pkg/schedule/cron_prev.go:102-109 | the result is the latest match in the five years searched, for every specification with these seconds and every instant, if and only if the zone and the seconds align |
| Cron.FiveFieldsExact | pkg/schedule/util.go:24-28 | for the five-field schedules that the operator parses the result is the latest match in every zone |
| Cron.SearchAheadIsEarliest | pkg/schedule/nearest_event.go:94-94 | the specification of the library's Next: the least match from an instant on, or none before the limit |
| CalendarLaws.YearsInClosedForm | pkg/schedule/cron_prev.go:55-59 | adding up the years one by one, as far as any year before or after 1970, agrees with counting leap years by the rule of 4, 100 and 400 |
| CalendarLaws.CenturiesRepeat | pkg/schedule/cron_prev.go:55-59 | 400 years are a whole number of weeks, whatever the first of them |
| CalendarLaws.FieldsMakeInstant | pkg/schedule/cron_prev.go:65-118 | date, hour, minute and second of an instant in a zone, put together, are the instant |
| CalendarLaws.InstantHasFields | pkg/schedule/cron_prev.go:65-118 | fields in range are those of the instant they make |
| CalendarLaws.WeekdaysFollow | pkg/schedule/cron_prev.go:134-134 | the first day of 1970 was a Thursday, and each day has the weekday after that of the day before |
| CalendarLaws.LeapDayOf2000 | pkg/schedule/cron_prev_test.go:122-123 | 951782400 is 2000-02-29, a Tuesday |
| CronFields.StarredNeedsBoth | pkg/schedule/cron_prev.go:129-140 | with a star in either day field, a specification fires exactly when it does with either field replaced by a plain star; that is, when time, day of month and weekday all fit |
| CronFields.UnstarredNeedsOne | pkg/schedule/cron_prev.go:129-140 | with no star, it fires exactly when it does with one field or the other replaced; that is, when the time and either of the two fit |
| CronFields.FiresOnItsWeekdays | pkg/schedule/cron_prev.go:136-138 | with a star for the days of the month, what is found, backward or forward, is on one of the weekdays |
| CronFields.FiresOnItsMonthDays | pkg/schedule/cron_prev.go:136-138 | with a star for the weekdays, it is on one of the days of the month |
| CronFields.WeekendLooksBack | pkg/schedule/cron_prev.go:9-121 | 0 17 * * 1-5, looked for at any time up to the end of Saturday, was last on Friday at 17 |
| CronFields.NoStopOnSaturday | pkg/schedule/cron_prev.go:129-140 | at 17 on Saturday 2024-07-06 that is exactly one day ago |
| CronPrev.CronPrev | pkg/schedule/cron_prev.go:12-121 | the restarting loops terminate for every mask and return what the search does, which SearchIsLatest shows to be the latest match |
| CronPrev.MatchMonth | pkg/schedule/cron_prev.go:65-73 | the month loop keeps the answer of the whole search, and ends on a matching month of a searched year or strictly earlier when it wraps |
| CronPrev.MatchDay | pkg/schedule/cron_prev.go:75-90 | the same for the day loop, which keeps the month matching unless it wraps |
| CronPrev.MatchHour | pkg/schedule/cron_prev.go:92-100 | the same for the hour loop, keeping month and day |
| CronPrev.MatchMinute | pkg/schedule/cron_prev.go:102-109 | the same for the minute loop, keeping month, day and hour |
| CronPrev.MatchSecond | pkg/schedule/cron_prev.go:111-118 | the same for the second loop, after which every field matches |
| NearestEvent.OffsetCancels | pkg/schedule/nearest_event.go:89-108 | adding the offset and then its int32 negation gives the instant back if and only if the offset is not -2^31 |
| NearestEvent.NearestIndexIsUnique | pkg/schedule/nearest_event.go:70-74 | "nearest occurrence, first listed among ties" determines both the time and the index |
| NearestEvent.FindNearestScheduleTime | pkg/schedule/nearest_event.go:75-117 | returns the nearest occurrence over all schedules in the direction, with the first index among ties, or none and -1 when no schedule has one |
| NearestEvent.NearestIsNearestEvent | pkg/schedule/nearest_event.go:20-28 | over the filtered events: the first parse error if any fails to parse, else the nearest occurrence with the action of its own event |
| NearestEvent.NearestEventIsUnique | pkg/schedule/nearest_event.go:20-28 | that description has one answer only |
| NearestEvent.FindNearestEvent | pkg/schedule/nearest_event.go:29-67 | the loops over events return exactly that answer |
| ScheduleState.FindStartOfCurrentRunPeriod | pkg/schedule/state.go:139-186 | the first start after the most recent stop; none, or an error, when no stop is found, depending on whether any start event is listed |
| ScheduleState.ComputeState | pkg/schedule/state.go:71-105 | the whole state, or the first of the errors in the order they are met |
| EventKinds.StopsGiveLastStop | pkg/schedule/state.go:126-137 | the last stop is the previous event of the stops alone, whatever other events there are |
| EventKinds.StartsGiveRunPeriod | pkg/schedule/state.go:139-186 | the run period begins with the next event of the starts alone after the last of the stops alone; without a stop, an error exactly when there are starts |
| EventKinds.OnlyStartsRun | pkg/schedule/state.go:114-116 | the job should be running exactly when the last event to fire was a start |
| EventKinds.OtherEventsDoNotCount | pkg/schedule/state.go:126-186 | events of other kinds change neither the last stop nor the run period |
| EventKinds.StateFailsIff | pkg/schedule/state.go:71-105 | no state for an unknown zone, then for an event that cannot be parsed, of whatever kind and the first of them, and then exactly for starts without a stop; which error it is |
| EventKinds.DecisionReads | pkg/reconciliation/state.go:39-69 | every part of the decision's input, from the state of the schedule and the spec |
| ScheduleTheorems.PreviousIsLastEvent | pkg/schedule/state.go:80-80 | the previous event is the last thing that fired in the window up to and including now, named by the first event listed among ties |
| ScheduleTheorems.NextIsFirstEvent | pkg/schedule/state.go:84-84 | the next event is the first thing that fires strictly after now within the window |
| ScheduleTheorems.NoTransitionBeforeNext | pkg/schedule/state.go:70-116 | until the next event the state stays the same at every instant, if and only if the window still sees the last event and the last stop |
| LeapDay.WindowForgets | pkg/schedule/cron_prev.go:55-61 | a stop on every 29 February: in an eight-year gap, from the fifth to the sixth year, nothing fires, the next event is still to come, and the state changes because the last stop is no longer seen |
| ScheduleTheorems.TransitionAtNext | pkg/schedule/state.go:107-116 | at its own instant, the next event is the previous one, because the backward search is inclusive and the forward one is not |
| ScheduleTheorems.RunPeriodCoherence | pkg/schedule/state.go:114-186 | with starts and stops only, the run period begins strictly after the last stop, and the job should run exactly when that start has passed or a start listed first coincides with the stop |
| ScheduleTheorems.SamePeriodSameStart | pkg/schedule/state.go:139-186 | with no stop between two instants both have the same last stop and the same start of the run period |
| ScheduleTheorems.LeastOffsetMisplaces | pkg/schedule/nearest_event.go:108-108 | with the offset -2^31 the occurrence reported, previous or next, is 2^32 seconds before an instant at which the event fires on the right side of now |
| Transitions.StateAtNext | pkg/schedule/state.go:70-116 | the whole state at the next event: it can be read exactly when a last stop is seen or there is no start event; the next event is the previous one; the last stop is that instant if a stop fires then; with the same last stop the run period is the same, and with the new one it begins later |
| Transitions.StopDeletesJobs | docs/user-manual/manually-created-jobs.md:11-11 | once a stop has fired, for as long as the window sees it, after the next decision every job that was scheduled before it or at no readable time is being deleted, and none such is created |
| Transitions.StartIsSeen | pkg/schedule/state.go:114-186 | after a start that no stop has followed the job should be running, in the run period that began after the last stop and at or before that start |
| Transitions.InsideRunPeriod | pkg/schedule/state.go:70-186 | from the firings alone: a stop, a start after it and no other stop since put the schedule inside a run period with that last stop |
| Transitions.StartCreatesJob | pkg/reconciliation/decision.go:253-276 | once a start has fired with no stop after it and no job is current, the next decision succeeds exactly within the starting deadline, and then creates one job, for the beginning of this run period |
| JobNaming.SubmatchIff | pkg/metadata/job_naming.go:14-14 | the greedy pattern matches exactly the splits at the last two hyphens with digits after them and a non-empty name without newline before |
| JobNaming.ParseOfName | pkg/metadata/job_naming.go:14-44 | parsing a job name gives back name, time and run id if and only if the name is non-empty and newline-free and both numbers are non-negative and in range |
| JobNaming.ParseOfMatch | pkg/metadata/job_naming.go:21-44 | of a text that matches, as much is returned as was read before a number that does not fit, and it fails exactly when one does not |
| JobNaming.ParseOfOther | pkg/metadata/job_naming.go:22-26 | of a text that does not match, nothing is returned |
| JobNaming.NameOfParse | pkg/metadata/job_naming.go:17-44 | naming what was parsed gives the text back exactly when neither numeral has a leading zero |
| JobNaming.JobNameInjective | pkg/metadata/job_naming.go:17-19 | different names, times or run ids have different job names |
| JobNaming.JobNameDeterminesRun | pkg/metadata/job_naming.go:17-19 | within one ControlledJob the job name determines time and run id, for negative numbers too |
| Jobs.NewJob | pkg/job/builder.go:42-95 | the job built step by step is BuildJob's: name, annotations over the template's, suspend flag |
| Jobs.BuiltFromTemplate | pkg/job/builder.go:42-95 | a built job is suspended or manual exactly when it is asked for or the template is, keeps the rest of the template's annotations, and nothing has happened to it |
| Jobs.GreaterIsTotal | pkg/reconciliation/decision.go:472-473 | string comparison is asymmetric, and total on different strings |
| CandidateOrder.BetterIsAsymmetric | pkg/reconciliation/decision.go:458-474 | isBetterCandidateJob is asymmetric, and total on jobs of different names |
| CandidateOrder.BetterIsTransitive | pkg/reconciliation/decision.go:458-474 | isBetterCandidateJob is transitive |
| CandidateOrder.BestIsGreatest | pkg/reconciliation/decision.go:160-166 | the loop's candidate beats every other job that is not expired, and there is none only when all are expired |
| CandidateOrder.MaxRunIdIsGreatest | pkg/reconciliation/decision.go:85-101 | the high watermark is the greatest readable run id, or -1 |
| CandidateOrder.DeletesAre | pkg/reconciliation/decision.go:281-304 | a job is deleted exactly when it is listed, not already being deleted, and expired or neither chosen nor completed |
| CandidateOrder.MayUnsuspendIff | pkg/reconciliation/decision.go:306-321 | a job is unsuspended exactly when it is chosen, suspended, not by the user, not being deleted, and, counting one that is being created, exactly one job has not completed; UnsuspendedIff says the same in fields |
| CandidateOrder.DecisionIgnoresOrder | pkg/reconciliation/decision.go:110-113 | any permutation of the list gives the same failure, or the same creates and unsuspends and the same set of deletes |
| DecisionEffects.BuiltStateIsWellTimed | pkg/schedule/state.go:174-185 | the start of the run period that the decision reads is strictly after its last stop, for every schedule and every offset but -2^31 |
| DecisionEffects.Partition | pkg/reconciliation/decision.go:281-304 | after a decision every expired job is on its way out, at most one job is neither completed nor being deleted, inside the run period some job is current, and outside it a live job was scheduled by hand |
| DecisionEffects.CreatedJobs | pkg/reconciliation/decision.go:218-276 | at most one job is created: named by its annotations, current, with the desired hash; it replaces the best current job, which is deleted, with its scheduled time and manual flag and the next run id, and waits suspended; or, if no job is current, it is the first of the run period, suspended exactly while another job has not completed or the template says the user stopped it |
| DecisionEffects.CreatedNameIsFresh | pkg/reconciliation/decision.go:85-101 | a created name is taken by a job named from its own annotations if and only if the run ids have wrapped around and the wrapped id was used for that start |
| DecisionEffects.NamesFreeIff | pkg/reconciliation/decision.go:85-101 | among jobs named from their own annotations, the names that a decision creates are free if and only if no run id wraps onto a used one |
| DecisionEffects.SuspendedDeletesEverything | pkg/reconciliation/decision.go:72-79 | while the ControlledJob is suspended every job is deleted and nothing else is done |
| DecisionEffects.DeadlineExactIff | pkg/reconciliation/decision.go:476-492 | the deadline is exceeded exactly when one of at least a second is set, there is a start, and it is later than start plus seconds, for all starts and times, if and only if the nanoseconds fit into an int64 |
| DecisionEffects.DeadlinesWrap | pkg/reconciliation/decision.go:488-488 | a deadline of 9223372037 seconds is exceeded before the start, and one of 18446744074 seconds a second after it |
| PlainDecision.PreferenceOrder | pkg/reconciliation/decision.go:458-474 | a job that is not being deleted is preferred, then one of the current spec, then the greater name |
| PlainDecision.DeletedIff | pkg/reconciliation/decision.go:136-304 | in fields: a job is deleted exactly when it is listed and not going already, and either its run period has ended or it has neither finished nor is it the one that stays |
| PlainDecision.UnsuspendedIff | pkg/reconciliation/decision.go:306-330 | in fields: a job is unsuspended exactly when it stays, waits (suspended, not by the user), is not going, and exactly one job has not finished |
| PlainDecision.LoneJobStarts | pkg/reconciliation/decision.go:317-330 | the one job of a run period, of the current spec and suspended, is unsuspended exactly unless it is complete or has failed, whatever else it reports, and nothing else is done |
| PlainDecision.CreatedIff | pkg/reconciliation/decision.go:184-276 | in fields: a job is created exactly when one makes way (wanted, of another spec and saying so, not finished, not stopped by the user, not going, and recreation on), or no job is current inside the run period |
| PlainDecision.WayIsMade | pkg/reconciliation/decision.go:200-226 | for a job that makes way exactly one is created, suspended, with the same start and the run id after the greatest in use, which is 0 when none can be read and wraps after the greatest int64 |
| PlainDecision.FirstJobIsCreated | pkg/reconciliation/decision.go:253-330 | inside the run period, with none current and in time, exactly one job is created: for the start of the run period, with run id 0, and suspended unless all jobs have finished and the template is not stopped by the user |
| PlainDecision.FailsIff | pkg/reconciliation/decision.go:200-272 | a decision fails exactly when one should run, none is current and it is too late or there is no start, or when the start of a job that makes way cannot be read |
| PlainDecision.RunningIff | pkg/metadata/job_metadata.go:78-90 | a job is running exactly when it has not finished and has ready pods, or active ones if it does not tell |
| IrrelevantConditions.DecisionIgnoresOthers | pkg/metadata/job_metadata.go:53-59 | jobs that differ only in conditions other than a true Complete or Failed give the same failure, or the same creates and requeue and the same jobs deleted and unsuspended |
| IrrelevantConditions.StatusIgnoresOthers | pkg/metadata/job_metadata.go:53-59 | and the same conditions written, active list and other fields of the status |
| Stability.DecisionsAreStable | pkg/reconciliation/decision.go:110-113 | provided that the created names are free, after carrying a decision out, deciding again at any time does nothing if and only if the cluster has no second thoughts |
| Stability.StableWithoutSuspendedCompletions | pkg/reconciliation/decision.go:110-113 | provided that the created names are free, it does nothing when no completed job carries the suspend flag |
| Stability.SecondThoughtsHappen | pkg/reconciliation/decision.go:306-330 | for every ControlledJob without events, two jobs from which a decision deletes the running one and the next decision unsuspends the completed one |
| Convergence.FirstRoundSettles | pkg/reconciliation/decision.go:253-330 | once the deletions of a decision have finished nothing is expired or being deleted, and a job that has not completed is the one that stays chosen |
| Convergence.SecondRoundRests | pkg/reconciliation/decision.go:253-330 | from there the next decision fails if and only if no job remains inside the run period and none can be started, and otherwise leaves at most one job that has not completed, which may run |
| Convergence.TwoRoundsConverge | pkg/reconciliation/decision.go:253-330 | from any cluster the second round fails if and only if nothing remains and a job cannot be started; otherwise two rounds lead to rest (nothing expired, at most one job not completed, one inside the run period, unsuspended unless by the user), and a third does nothing |
| Convergence.OwnClustersConverge | pkg/reconciliation/decision.go:253-330 | the same without any hypothesis on names, for jobs named from their annotations with run ids in range |
| RunOrder.BetterIff | pkg/reconciliation/decision.go:458-474 | of two jobs alike in hash and deletion and named from their annotations, the better candidate is the one whose start, or run id if they start together, is the greater text: the higher number exactly when its leading digits, as many as the other has, are no less than the other |
| RunOrder.AdoptedIff | docs/user-manual/manually-created-jobs.md:16 | a live job of the current spec beside the preferred one, at whatever start, both named from their annotations and unexpired: it is kept if and only if the other is out of date or is outranked by start, then index, and one should run or the new job is manual; the other is kept if and only if it is not so and one should run or the other is manual |
| RunOrder.LaterStartWins | pkg/reconciliation/decision.go:472-473 | of different starts with numerals of one length, the later outranks, whatever the indexes |
| RunOrder.HigherIndexIsDeleted | docs/user-manual/manually-created-jobs.md:16 | index 5 at 1720081800 beside the running index 0 at 1720083600: the decision deletes the job with the higher index |
| RunOrder.TenLosesToNine | docs/user-manual/manually-created-jobs.md:16 | at any one start index 10 does not outrank index 9, and 9 does outrank 10 |
| Conditions.PutFrame | api/v1/helpers.go:24-37 | setting a condition leaves every condition of another type as and where it was |
| Conditions.PutAllKeepsUnique | api/v1/helpers.go:12-12 | condition types stay unique in the list |
| Conditions.SecondPassChangesNothing | api/v1/helpers.go:14-38 | writing the same conditions again, at other times, changes nothing when each type is written once |
| Conditions.FlippingNeverSettles | pkg/reconciliation/reconcile.go:191-193 | a pass that writes one type with two statuses changes the list again exactly when the clock has moved since the last pass |
| TransitionTimes.ReasonsDoNotMove | api/v1/helpers.go:29-38 | writing the status there is, with whatever reason and at whatever time, changes the reason and nothing else |
| TransitionTimes.FirstOfStretchCounts | api/v1/helpers.go:29-33 | after any writes, transition time and generation of a type are those of the first write of its last stretch of equal statuses, whatever the reasons |
| TransitionTimes.RepeatsDoNotMove | api/v1/helpers.go:29-33 | they stay as found when every write of the type repeats the status found |
| TransitionTimes.StretchOrRepeats | api/v1/helpers.go:29-33 | one of these two is always the case |
| SavedTransitions.ReconcileMovesWithStatus | api/v1/helpers.go:29-33 | after any reconcile, for every condition but those of calls, transition time and generation are those found exactly as long as the status is the one found, and otherwise the generation is the current one |
| ActionHistory.HistoryOfRun | pkg/events/action_history.go:21-51 | from an empty status the history is the newest of the recorded actions without consecutive repeats, newest first, as many as are kept; SecondIsAdded says what a repeat is and SixteenAreKept how many |
| ActionHistory.SecondIsAdded | pkg/events/action_history.go:21-44 | right after an action another is added if and only if they differ in kind, message, scheduled start, index or job name, and then before the newest 15 |
| ActionHistory.SixteenAreKept | pkg/events/action_history.go:11-11 | after any run of actions without repeats there are as many entries as actions, up to 16 |
| ActionHistory.AllAreKept | pkg/events/action_history.go:21-51 | of up to 16 actions in a row, none like the one before it, all are among the newest entries, newest first, whatever the history before |
| ActionHistory.HeadIsMostRecent | pkg/events/action_history.go:30-31 | the most recent action is the head of the history, and is the last recorded or, as in SecondIsAdded, the same in every field but the time |
| ControlledJobs.ControlledJob.FindCondition | api/v1/helpers.go:41-49 | returns the first condition of the type |
| ControlledJobs.ControlledJob.SetCondition | api/v1/helpers.go:14-38 | the status after is the one before with that one condition put, at some instant, and nothing else changed; when the transition time and the generation move is said in TransitionTimes |
| ControlledJobs.ControlledJob.SetConditionBasedOnFlag | api/v1/helpers.go:51-59 | puts true with one explanation or false with the other |
| ControlledJobs.ControlledJob.AddActionHistoryEntry | pkg/events/action_history.go:21-32 | the history after is Record's of the one before, and nothing else changes |
| MakeDecision.NewState | pkg/reconciliation/state.go:39-69 | the state the decision reads, or the failure of the schedule |
| MakeDecision.SetShouldBeRunningStatus | pkg/reconciliation/decision.go:342-367 | sets the flag and writes that one condition, in its three variants |
| MakeDecision.SetConditionIfTrueForAnyJob | pkg/reconciliation/decision.go:436-451 | the condition is true exactly when some job passes the test |
| MakeDecision.SetConditionsForAllJobs | pkg/reconciliation/decision.go:369-385 | writes the two conditions about all jobs, and changes nothing else |
| MakeDecision.SetJobConditions | pkg/reconciliation/decision.go:387-434 | writes the six conditions about one job, or about none, and changes nothing else |
| MakeDecision.ReadRuns | pkg/reconciliation/decision.go:85-105 | the greatest readable run id, and the best of the jobs whose run id is readable |
| MakeDecision.SortJobs | pkg/reconciliation/decision.go:119-167 | the count and names of jobs that may run, the expired and the other positions in order, and the best of the latter |
| MakeDecision.ChooseJob | pkg/reconciliation/decision.go:169-279 | the choice or the failure is Choose's, and the two conditions written tell which |
| MakeDecision.RebuildIfOutOfDate | pkg/reconciliation/decision.go:184-238 | a replacement is built exactly when the chosen job must be recreated, and the out-of-date condition is the right one of its six variants |
| MakeDecision.ListDeletes | pkg/reconciliation/decision.go:281-304 | the two loops over positions list the jobs that DeletesAre characterises |
| MakeDecision.Conclude | pkg/reconciliation/decision.go:281-335 | deletes, creates, unsuspends and requeue time are those of Finish |
| MakeDecision.Make | pkg/reconciliation/decision.go:46-340 | the result is Decide's, every field of the status is accounted for, and the conditions written are exactly DecisionWrites; an unreadable schedule leaves the status alone |
| DecisionStatus.DecisionWritesRanked | pkg/reconciliation/reconcile.go:191-193 | a decision writes each condition type at most once, in one fixed order |
| OverallConditions.CalculateOverallConditions | pkg/reconciliation/reconcile.go:173-284 | writes the error condition and the four others as OverallWrites says, from the conditions found before |
| OverallConditions.SummarySelectsOne | pkg/reconciliation/reconcile.go:171-284 | exactly one of the four conditions is true and the other three unknown, selected by "exists and has not failed" and "should run or was scheduled by hand"; the error condition tells the failure, and no other condition is touched |
| Reconciling.SendOne | pkg/reconciliation/reconcile.go:117-166 | one call: a success is recorded and clears or sets its condition, a failure sets its condition and records nothing |
| Reconciling.SendAll | pkg/reconciliation/reconcile.go:117-166 | sends planned calls in order and stops at the first that fails; all before it have worked and are recorded in order |
| Reconciling.SendPlan | pkg/reconciliation/reconcile.go:117-166 | deletes, creates, suspends and unsuspends are sent in this order as a prefix of the plan that ends with the first failure, and the status tells exactly that |
| Reconciling.PlanTakesTurns | pkg/reconciliation/reconcile.go:117-166 | in every plan deletes come before creates, these before suspends, and these before unsuspends, with nothing left out |
| Reconciling.Reconcile | pkg/reconciliation/reconcile.go:47-169 | the calls sent, the status saved, and the failure recorded after it, for every decision and all replies of the API; the controller is told an error exactly when the last call sent failed, and that call's; neither error nor delay when the decision failed; and else the delay until the decision is due again |
| Reconciling.ResultTells | pkg/reconciliation/reconcile.go:47-57 | the same of the result of any reconcile: failed calls are retried and failed decisions are not |
| StatusMeaning.ReportedIsBest | pkg/reconciliation/decision.go:89-105 | the conditions describe the best of the jobs with a readable run id, or say that there is none |
| StatusMeaning.SummaryOfReconcile | pkg/reconciliation/reconcile.go:171-284 | after any reconcile, whatever its calls and replies, exactly the one condition is true that belongs to two verdicts: the reported job exists and has not failed, and one should run or was scheduled by hand. The verdicts are of the jobs listed; for a suspended ControlledJob they are those found in the status but for the schedule, and with an unreadable schedule those found |
| StatusMeaning.SummaryTellsClusterIff | pkg/reconciliation/decision.go:72-79 | the summary is about the jobs listed if and only if the ControlledJob is not suspended or the verdicts found agree with the jobs |
| StatusMeaning.SummaryGoesStale | pkg/reconciliation/decision.go:72-79 | after a running job, a suspension and the end of the job, the status still says that a job is running, and expectedly |
| StatusMeaning.ChoiceTellsCluster | pkg/reconciliation/decision.go:184-279 | OutOfDate is true exactly when the job that is kept is out of date and is not replaced, and StartingDeadlineExceeded true or false exactly when a job is missing, past or before the deadline; both stay as they were for a suspended ControlledJob and when the job cannot be replaced |
| StatusMeaning.ActiveAre | pkg/reconciliation/decision.go:122-134 | the active list names exactly the jobs that have not completed |
| StatusMeaning.ChosenIff | pkg/reconciliation/decision.go:114-118 | a decision that succeeds ends with a job chosen exactly when one should run or the best current job was scheduled by hand; one that fails, exactly when there is a current job |
| StatusMeaning.FieldsTellCluster | pkg/reconciliation/decision.go:46-118 | the other fields of the saved status after any reconcile: from the state and the jobs listed; for a suspended ControlledJob the active list and isRunning stay as they were, and with an unreadable schedule all fields do |
| ConditionTexts.ScheduleIsTold | pkg/reconciliation/decision.go:342-367 | ShouldBeRunning and Suspended in the saved status, each with its reason, from the schedule and the user's flag |
| ConditionTexts.JobListIsTold | pkg/reconciliation/decision.go:369-385 | JobManuallyScheduled and JobBeingDeleted with their reasons, from the annotations and deletion times of all jobs |
| ConditionTexts.ReportedJobIsTold | pkg/reconciliation/decision.go:396-432 | JobExists, JobRunning, JobComplete, JobFailed, JobSuspended and JobStoppedByUser with their reasons, from the fields of the reported job |
| ConditionTexts.NoReportedJobIsTold | pkg/reconciliation/decision.go:388-395 | the same six when no job has a readable run id |
| ConditionTexts.WantedJobIsTold | pkg/reconciliation/decision.go:184-238 | OutOfDate with its reason, from the fields of the wanted job, and that no job is to be started |
| ConditionTexts.MissingJobIsTold | pkg/reconciliation/decision.go:253-279 | without a wanted job nothing is out of date, and StartingDeadlineExceeded tells, inside the run period, whether it is too late |
| ConditionTexts.LastCallIsTold | pkg/reconciliation/reconcile.go:117-166 | the last call of each kind that was sent, by type, status and reason of its condition, with job and reply of a failure |
| ConditionTexts.SummaryIsTold | pkg/reconciliation/reconcile.go:173-284 | the summary and its reasons, from the four flags in the same saved status, and the error condition |
| ConditionTexts.FailureOfRound | pkg/reconciliation/reconcile.go:86-123 | the failure that the error condition tells is the decision's, or that of the last call sent |
| CallConditions.AlwaysTellsLastTry | api/v1/controlledjob_types.go:302-312 | in every run of reconciles from an empty status, each finding the status that the one before it saved, after each of them: the condition of each kind of call is true exactly when the last call of that kind ever sent failed or is a suspend or unsuspend call |
| CallConditions.PromiseIff | api/v1/controlledjob_types.go:302-312 | for all calls and replies the condition of a kind tells whether the last call of that kind failed, if and only if the kind is delete or create |
| CallConditions.FailuresAreNeverSaved | pkg/reconciliation/reconcile.go:86-105 | in every such run no saved status has a failure in its history |
| CallConditions.RecordedFailureWarns | pkg/reconciliation/reconcile.go:87-96 | the failure that is recorded after the save does show in the history in memory |
| RecordedCalls.PassIsRecorded | pkg/reconciliation/reconcile.go:117-166 | of a reconcile that sends up to 16 calls, all of which work, each call is among the newest entries of the saved history, newest first, with its kind, message and job |
| RecordedCalls.DeletesAreNamed | pkg/reconciliation/reconcile.go:117-128 | when up to 16 jobs are deleted and nothing else is sent, the newest entries name them all |
| RecordedCalls.FailureHasKind | pkg/reconciliation/reconcile.go:87-96 | a failed reconcile is recorded as the kind of its failed call, of the schedule, or of the decision |
| CallConditions.TypesStayUnique | api/v1/helpers.go:11-13 | in every such run each saved status has at most one condition of each type |
| DocumentedStatus.JobExistsIs | pkg/reconciliation/decision.go:387-399 | after any reconcile JobExists is true exactly when a listed job has a readable run id; for a suspended ControlledJob, when it was |
| DocumentedStatus.JobExistsAsDeclaredIff | api/v1/controlledjob_types.go:277-278 | JobExists tells whether a current job is not being deleted if and only if the jobs are neither all expired or leaving nor all without a readable run id; for a suspended ControlledJob, if and only if it was so |
| DocumentedStatus.LeavingJobExists | api/v1/controlledjob_types.go:277-278 | with one job, which is being deleted, JobExists is true |
| DocumentedStatus.SummaryAsDeclaredIff | api/v1/controlledjob_types.go:317-327 | the summary is about jobs that may be running if and only if the reported job speaks for all of them: one that failed when nothing runs, one that is complete when something else does, and none when nothing runs; for a suspended ControlledJob, if and only if the verdicts found agree with the jobs |
| DocumentedStatus.CompletedRunsExpectedly | api/v1/controlledjob_types.go:317-318 | inside the run period, with one job, which has completed, the summary says that it is running expectedly |
| StatusFixpoint.StatusIsFixpoint | pkg/reconciliation/reconcile.go:191-193 | after a reconcile that sends nothing, a later one that sees the same leaves the whole saved status as it is: statuses, explanations, transition times, generations, order and all other fields |
| StatusFixpoint.ReconcileKeepsUnique | api/v1/helpers.go:11-13 | whatever a reconcile does, condition types stay unique |
| Wakeups.WakesAtNextEvent | pkg/reconciliation/decision.go:332-335 | a successful reconcile is repeated exactly at the next event, and is not requeued when there is none or the ControlledJob is suspended |
| Wakeups.DelaysSaturate | pkg/reconciliation/reconcile.go:168-168 | a delay is exact when its nanoseconds fit into an int64, and otherwise the nearest that does |
| Wakeups.ZeroTimeIsYearOne | pkg/reconciliation/reconcile.go:168-168 | the unset requeue time is the beginning of year 1 |
| Wakeups.NothingToDoBeforeNextEvent | pkg/reconciliation/decision.go:332-335 | at every instant before the next event at which the window still sees the last event and the last stop, and provided that the created names are free, the state is the same, and a decision on the resulting jobs does nothing if and only if there are no second thoughts |
| Wakeups.SamePeriodSameName | pkg/job/builder.go:43-44 | two reconciles with no stop between them give the first job of the run period the same name and annotations, whatever jobs each of them sees |
| Wakeups.PeriodsAreNamedApart | pkg/job/builder.go:43-44 | first jobs have the same name if and only if their run periods start at the same instant |
| ExclusiveRun.DecisionIsSafe | pkg/reconciliation/decision.go:306-330 | no call that a decision plans can start a second job, now or later in the pass |
| ExclusiveRun.StepKeepsInvariant | pkg/reconciliation/reconcile.go:117-166 | every step of the operator or of its environment keeps the invariant |
| ExclusiveRun.AtMostOneRuns | pkg/reconciliation/decision.go:306-316 | in every run and at every moment at most one job is active, and at most one holds pods |
| ExclusiveRun.EnvironmentIsFree | pkg/reconciliation/decision.go:306-316 | at any moment pods may start and stop, jobs complete, users suspend and delete, deletions finish and a pass end |
| RunEffects.PassCarriesOut | pkg/reconciliation/reconcile.go:117-166 | the calls of a decision, sent to the cluster it listed with no step in between, are all accepted and leave a cluster that lists the jobs Apply gives |
| RunEffects.PassIsStable | pkg/reconciliation/decision.go:110-113 | after such a pass the next decision, from any listing of the cluster and at any time, does nothing if and only if there were no second thoughts |
| RunEffects.TwoPassesConverge | pkg/reconciliation/decision.go:253-330 | two such passes with the deletions finishing in between bring the cluster to rest, unless a job cannot be started |
| Witnesses.NamesCanClash | pkg/reconciliation/decision.go:85-101 | for every ControlledJob without events that recreates its jobs, and any start: jobs with the greatest and the least run id, for which the decision creates a job whose name is taken |
| Witnesses.LateDeletionHappens | pkg/reconciliation/decision.go:253-262 | an hour into any open run period, with a deadline of a minute: a job being deleted, for which the decision does nothing, and once it is gone the next one fails because the deadline has passed |
| Witnesses.ShiftIsOpen | pkg/schedule/state.go:70-186 | a stop at midnight and a start at one on 29 February: in every leap year, at two o'clock, the run period is open |
| Witnesses.AJobRuns | pkg/reconciliation/decision.go:253-330 | from an empty cluster, inside a run period and in time, a run in which a job comes to hold pods |

## Left out

- Kubernetes itself: caches, owner references, events, metrics and logging. The cluster is a set of jobs changed by steps and the API a list of replies.
- Stale listings and a second active operator: in `ExclusiveRun` a decision is taken from a listing of the cluster as it is, and the calls come later; for a racing create see `SamePeriodSameName`.
- `ExclusiveRun` takes from Kubernetes that an update fails when the object it was read from has been replaced, and from the operator's users that they add only suspended jobs and never unsuspend one.
- Loading the ControlledJob and its jobs, the outcome of saving the status (every status saved is taken to be the one found next), and the text of a recorded failure.
- Mutators and the remote webhook, template labels, time zone annotations and owner references of built jobs. Every other annotation of the template is kept, so a template may carry the operator's own.
- Daylight-saving transitions and the time zone database: a zone is a fixed number of seconds east, or a failed lookup. A schedule in the `Local` zone uses the zone of the time given.
- Sub-second time. Times are whole seconds, and durations are nanoseconds with Go's overflow and saturation where the code computes them.
- A firing at exactly the zero time (1 January of year 1), which the code takes for "none".
- The cron library: parsing, and `Next`, which is specified as the least match within five years.
- `pkg/schedule/util.go:36-38` returns neither a schedule nor an error for a parsed schedule of another type, such as `@every 1h`, because wrapping no error gives none. An event here has a schedule or an error; this third outcome is excluded.
- JSON, SHA-256 and RFC 3339 (section 5.6) texts: a template's hash and the reading of each annotation are inputs.
- `RemoveCondition` and the status mappers that nothing in the reconcile uses.
- ScheduleTheorems.PreviousIsLastEvent: for zones and seconds that align and offsets other than -2^31; `ExactIffMinutesAlign` and `LeastOffsetMisplaces` say what goes wrong otherwise. The same holds for the theorems built on it.
- Convergence.TwoRoundsConverge: the two rounds see the same state of the schedule.
- RunEffects.PassCarriesOut: the names that the decision creates are free; `NamesFreeIff` says when they are.
