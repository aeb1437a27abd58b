# ChaosSchedule controller: a model and its proofs

The chaos scheduler reconciles `ChaosSchedule` objects: it creates a chaos engine now, once, or on a
cron-like calendar, keeps the list of running engines in the object's status, and completes or halts the
schedule. This project models that controller in Dafny and proves what it keeps.

**The machine** (`Protocol.dfy`). The stored object is a sequence of versions; a resource version is an index
into it. A read may return any version (the client reads from a cache), a write succeeds only over the last
one and carries spec and status together (the CRD has no status subresource), and an engine is created only if
its name is free. One worker walks through a pass call by call; between any two calls the clock may advance,
engines may finish or be deleted, the user may set `scheduleState` or delete the schedule, and the pass may
stop (a crash, or a call that fails). A log of every engine created, the set of creations whose recording was
lost, and a count of deletions are kept beside it and looked at by no step.

**What holds of it** (`Invariants.dfy`, `Exclusion.dfy`, `Safety.dfy`). Fourteen invariants, each kept by every
step, and from them statements over all reachable states and all runs. `Witnesses.dfy` gives runs that meet
the bounds, so that stronger forms are false; `Rounds.dfy` builds runs of round after round, and from them says
exactly which scheduled times runs can give and when they keep the declared interval.

**The code** (`ActiveList.dfy`, `RepeatTimes.dfy`, `Cluster.dfy`, `Calls.dfy`, `Controller.dfy`,
`Labels.dfy`). The
controller's functions as imperative methods over a mutable cluster whose calls interleave with everything
else. Each is proved to move only by steps of the machine (`Reaches`), so the statements about all runs apply
to it, and its result is tied to the pure decision functions of `Decision.dfy`. The cluster keeps a trace of the
calls made to it with their answers; every method says which calls it makes, in which order and with what
content, and what it returns for the answers it gets.

**The calendar** (`Cron.dfy`, `Spacing.dfy`, `ScheduleTime.dfy`, `WorkCalendar.dfy`, `CalendarLists.dfy`,
`Plans.dfy`, `EngineTimes.dfy`). The cron text the controller builds, the weekly set of minutes it means, the
catch-up loop, the spacing of ticks, and the controller's own reading of day and hour lists. Instants are
whole nanoseconds, UTC; stored timestamps are whole seconds; every `time.Now` is a reading of its own. Where
the cron library has no tick to give it gives the zero time, which is before every reading of the clock; here
that is `None`.

Where the code differs from its own comments and documentation, the model follows the code:

- The comment at controllers/createEngineForRepeat.go:108-114 takes the engine name as a lock against creating
  twice. The name holds the scheduled second, so it locks out only a retry within that second
  (`Safety.SecondsIncrease`, `Safety.NameTaken`); with one recording lost, two engines can run at once
  (`Witnesses.TwoCanRun`), and never more than one per lost recording besides one (`Safety.Forbid`).
- `minChaosInterval` is documented as a minimum period (api/litmuschaos/v1alpha1/chaosschedule_types.go:146).
  The first run is at the present, not at a tick, so a second run can follow it within a second whatever the
  interval (`Rounds.SecondRunTooSoon`). With no end time, the runs that start at a given time keep the interval
  after every recorded engine exactly if the first tick after that second is an interval away and the ticks keep it
  (`Rounds.IntervalForever`; with an end time `Rounds.IntervalExact`). Ticks keep it exactly under the
  conditions of `Spacing.ShortIntervalExact`, `Spacing.LongIntervalExact`, `Spacing.SingleMinuteExact`,
  `Spacing.EveryHourExact` and `Spacing.HourModeExact`. After a lost recording, engines can be a second apart
  (`Witnesses.TwoCanRun`).
- The first run need not keep to the included days and hours: `Decision.FirstRunExact` says when it does, and
  `EngineTimes.FirstRunOffCalendar` gives a schedule for Mondays that runs on a Sunday.
- A list of commas alone is accepted by cron and lists nothing, so that there are no ticks. An accepted schedule
  has a tick in each week, and the catch-up loop ends, exactly if each list that is given has an item
  (`EngineTimes.TicksAndTermination`). Without ticks a first run can still be created, on a day that is not
  included; once it is recorded, the next pass to make its gating write never leaves the loop, and the worker
  does nothing more until its process ends (`EngineTimes.CommaHangs`, `Safety.HangsForever`,
  `Safety.NoTicksOneRun`). A method here takes the number of turns its process lives for, and reports a pass
  that outlasts them as hung.
- In hour mode the step binds to the last item of the hour list, so later runs can leave the included hours;
  `EngineTimes.HourModeExactly` says when they do.
- `lastScheduleCompletionTime` is documented as the time an engine completed
  (api/litmuschaos/v1alpha1/chaosschedule_types.go:106). It is set exactly when an engine on the active list is
  not listed any more (`ActiveList.Prune`).
- A schedule that the user completes while its active list is not empty reaches the status completed only if
  the pass then under way is one that completes it for another reason; otherwise the stored object never changes
  again without an edit (`Safety.UserCompletedExact`, `Witnesses.StuckIsReachable`), because
  controllers/chaosschedule_controller.go:117-123 prunes a copy and drops it.
- The list parser looks up day names without checking that they are ones (controllers/createEngineForRepeat.go:268-276):
  `CalendarLists.DayItemExact` says which day items it misreads, and `CalendarLists.TakenForSunday` gives three.
  The pattern at deploy/crds/chaosschedule_crd.yaml:2634 wants a day name somewhere in the text; `Mon-Fri/2`
  satisfies it, and is marked as no day at all (`CalendarLists.TakenForNoDay`).
- The comment at controllers/schedule.go:43 speaks of starting a minute early; the code starts strictly after
  the start time (`Decision.NoLostStart`).

Conditions built into the machine: a listing omits no running engine of the schedule and reports none of them
finished (it may be out of date about all others), a finished engine stays finished, making an object
reference succeeds, the user edits `scheduleState` alone, and one worker serves the schedule.

## Model

| member | source | states |
|---|---|---|
| Safety.Forbid | controllers/createEngineForRepeat.go:22-87 | in every reachable state the running engines number at most one more than the recording writes lost; with none lost, at most one |
| Witnesses.TwoCanRun | controllers/createEngineForRepeat.go:97-139 | the bound is met: after one lost recording and one second, two engines run |
| Safety.RunsConserved | controllers/createEngineForRepeat.go:99-139 | engines ever created are RunInstances plus recordings lost plus the one in flight |
| Safety.RunsChange | controllers/createEngineForRepeat.go:125 | of all steps, the completion retry included, only a recording write changes RunInstances, by one |
| Safety.RecordingWrite | controllers/createEngineForRepeat.go:116-137 | over the version it replaces, a recording leaves exactly the new engine active, its whole second recorded, the run counted, the start time set |
| Safety.SingleRecordingWrite | controllers/createEngineForNowAndOnce.go:45-54 | a single run adds its engine to the active list of the version it replaces, with its creation second as start and scheduled time, and changes nothing else but state and status |
| Safety.SecondsIncrease | controllers/createEngineForRepeat.go:97-104 | scheduled seconds never go back over any run; two engines share one only if the first was never recorded and is gone; with no deletion they strictly increase |
| Witnesses.SecondCanRepeat | controllers/createEngineForRepeat.go:97-104 | the exception occurs: lost recording, engine deleted, same name created again |
| Safety.NameTaken | controllers/createEngineForRepeat.go:97-103 | a creation is refused for its name if and only if an engine of that very second exists |
| Safety.LastIncreases | controllers/createEngineForRepeat.go:124 | between any two stored versions a changed LastScheduleTime is strictly later |
| Safety.Freshness | controllers/createEngineForRepeat.go:22-83 | each engine follows a gating write of its own that replaced the very version read, unhalted, not deleted, with no active engine and an earlier record |
| Safety.ListPrunes | controllers/updateStatus.go:28-53 | the list step keeps each reference of the copy, with its multiplicity and in order, if and only if its engine is listed and not seen finished, and sets the completion time to the reading if and only if some engine is not listed |
| Safety.PruningStored | controllers/createEngineForRepeat.go:22-30 | if its gating write takes effect, whatever others do before, the stored object is the one it replaced, so pruned, with the second of the reading |
| Safety.TimeRange | controllers/schedule.go:46-59 | every scheduled time is after the start, not after the end and never in the future of its creation; every recorded time is in the range |
| Safety.OnCalendar | controllers/createEngineForRepeat.go:154-170 | every engine created after a recorded one is at a tick, so on an included weekday and hour |
| Safety.EnginesApart | controllers/createEngineForRepeat.go:154-170 | in minute mode two such engines are as far apart as ticks are, unless the first was never recorded, is gone, and the second was created anew for the very same time |
| Safety.EnginesApartHours | controllers/createEngineForRepeat.go:335-338 | in hour mode with unrestricted hours, likewise with 24 |
| Safety.FollowsRecord | controllers/createEngineForRepeat.go:154-170 | every engine created after a recorded one, the first run included, is at a tick, no earlier than the first tick after the second on record |
| Safety.AfterCompletion | controllers/createEngineForRepeat.go:164-170 | an engine created after a recorded one is for a time later than the completion stored at its gating write |
| Rounds.FirstTimesExact | controllers/createEngineForRepeat.go:145-214 | over all runs, the time of the first engine can be exactly those that some ordered clock readings after the start give |
| Rounds.LaterTimesExact | controllers/createEngineForRepeat.go:154-170 | the scheduled times that can follow a recorded first run at a given time are the ticks after its second within the time range: all of them and no others |
| Rounds.IntervalExact | api/litmuschaos/v1alpha1/chaosschedule_types.go:146 | over all runs that start with a recorded engine at a given time, each engine is n minutes after every recorded one before it if and only if the first time and the ticks after its second are |
| Rounds.IntervalForever | api/litmuschaos/v1alpha1/chaosschedule_types.go:146 | with no end time, if and only if the first tick after that second is n minutes after the first run and the cron schedule keeps n minutes |
| Rounds.SecondRunTooSoon | controllers/createEngineForRepeat.go:213 | with nothing lost or deleted, a first run just before a tick is followed by a second within a second, so then no interval is kept |
| EngineTimes.MinuteModeInterval | controllers/createEngineForRepeat.go:330-333 | from spec text, for any lists: when the engines of an every-n-minutes schedule keep n minutes |
| EngineTimes.HourModeInterval | controllers/createEngineForRepeat.go:335-338 | from spec text, for any lists: when the engines of an every-n-hours schedule keep n hours |
| Safety.SingleRun | controllers/createEngineForNowAndOnce.go:24-66 | a now or once schedule creates at most one engine plus one per deleted engine, none in the future of its creation, and a once schedule none before its execution time |
| Witnesses.SingleByTime | controllers/schedule.go:20-35 | over all runs, an engine of a single run can have been created by a time if and only if the schedule is a now schedule or the time is after its execution time |
| Safety.CompletedAfterFinish | controllers/createEngineForNowAndOnce.go:60-66 | the controller moves a single run to complete only after an engine of it finished; with no deletion, after its one engine finished |
| Safety.HaltSafety | controllers/createEngineForRepeat.go:27-99 | from a stored halt until it is lifted at most one engine is created, and none unless the pass under way had already made its gating write |
| Safety.BarredSafety | controllers/createEngineForRepeat.go:27-56 | the same for a repeat schedule while it is being deleted or in any state but active and unset: at most one more engine, and none unless the pass under way had gated over an object not being deleted |
| Witnesses.OneCanFollowHalt | controllers/createEngineForRepeat.go:27-99 | that one engine can occur |
| Safety.HaltStays | controllers/createEngineForRepeat.go:116-137 | no controller write turns a stored halt into active or unset, and the one kind that turns it into complete is the write of a retried completion |
| Safety.CompletedIsEmpty | controllers/updateStatus.go:86-105 | no stored version is completed in status with a nonempty active list |
| Safety.RestIsFinal | controllers/chaosschedule_controller.go:89-101 | once complete/completed or halt/halted, with no pass under way past its gate, any number of passes, stale ones included, write and create nothing until an edit |
| Safety.UserCompletedExact | controllers/chaosschedule_controller.go:117-123 | completed by the user with a nonempty active list, the object can still be completed in status without an edit if and only if the pass under way is completing it or may yet find cause to; otherwise it never changes again |
| Witnesses.StuckIsReachable | controllers/chaosschedule_controller.go:117-123 | such a state, with no pass under way, occurs |
| Safety.CompletionWrite | controllers/updateStatus.go:86-105 | a completion write on either path changes state, status, end time and active list of the version it replaces and nothing else |
| Safety.StoredWhole | controllers/createEngineForRepeat.go:124-135 | every stored timestamp is a whole second in every reachable state |
| Safety.ReachableInv | controllers/chaosschedule_controller.go:66-102 | every reachable state of every schedule satisfies all invariants |
| Safety.StepInv | controllers/chaosschedule_controller.go:66-102 | every step of controller or environment keeps all invariants together |
| Witnesses.HaltSettles | controllers/chaosschedule_controller.go:104-113 | one undisturbed pass over a stored halt leaves status halted and all else as it was |
| Witnesses.CompletionSettles | controllers/chaosschedule_controller.go:125-133 | one undisturbed pass over a stored completion with no active engine leaves status completed |
| Witnesses.PassCreates | controllers/createEngineForRepeat.go:20-103 | an undisturbed pass over a fresh active schedule does create its engine, under the name of the present second |
| Witnesses.KeptStarts | controllers/createEngineForRepeat.go:179-214 | any time inside the range that keeps to the lists is one at which such a pass creates its engine |
| Invariants.OrderStep | controllers/createEngineForRepeat.go:154-170 | every step keeps scheduled seconds in order, recorded times behind the record and unrecorded ones ahead of it |
| Invariants.ChosenIsLatest | controllers/createEngineForRepeat.go:154-214 | a chosen time is in no earlier second than any engine created before, recorded or lost |
| Invariants.InTimeStep | controllers/createEngineForRepeat.go:32-73 | every step keeps the time-range invariant |
| Invariants.CompletionStep | controllers/updateStatus.go:48-51 | every step keeps recorded completions out of the future and engines past the completion their pass gated with |
| Invariants.AccountingStep | controllers/createEngineForRepeat.go:125-137 | every step keeps the conservation of runs |
| Invariants.CompletedEmptyStep | controllers/updateStatus.go:86-105 | every step keeps completed versions without active engines |
| Exclusion.ExclusiveStep | controllers/createEngineForRepeat.go:77-83 | every step keeps: all running engines but the newest are lost, a recorded running one is on the stored active list unless the end time has passed |
| Exclusion.HonestKeepsRunning | controllers/updateStatus.go:28-53 | pruning with a listing that omits no running engine drops no running engine from the active list |
| Exclusion.GatesStep | controllers/createEngineForRepeat.go:22-30 | every step keeps each engine behind its own gating write, in order |
| Exclusion.SingleStep | controllers/createEngineForNowAndOnce.go:28-66 | every step keeps single runs after their execution time and completed only after a finish |
| Decision.LaunchFacts | controllers/createEngineForRepeat.go:32-83 | with separate clock readings, a launch is due, within the range, past the record and past any completion recorded before the pass, not before any missed tick, with no active engine |
| Decision.NoLostWakeup | controllers/createEngineForRepeat.go:35-81 | for any ordered readings: a waiting pass sets no timer exactly when the end time lies between its first and last reading while its time is still ahead and no engine is active |
| Decision.WakeupInTime | controllers/createEngineForRepeat.go:35-81 | with one reading per pass, exactly when it finds the end time itself; otherwise the delay is the lesser of time to due and time to end |
| Decision.NoLostStart | controllers/schedule.go:20-61 | a pass over a once or repeat schedule proceeds exactly after the execution or start time, waits the time left otherwise, and sets no timer exactly at that time |
| Decision.LaunchExactly | controllers/createEngineForRepeat.go:32-83 | with one reading per pass, it launches if and only if the end time has not passed, the schedule is not being deleted, its due time has come and nothing is active; and exactly when it completes, quits, fails, or comes to no verdict |
| Decision.RecordedExactly | controllers/createEngineForRepeat.go:32-83 | with a run on record and one reading, by ticks alone: it launches if and only if the range is open, the schedule stays, nothing is active and the last missed tick is after any recorded completion, and for that tick; else it waits for the first tick ahead or the end time |
| Decision.CatchUpByTicks | controllers/createEngineForRepeat.go:154-170 | the due time is the last missed tick if that is after any recorded completion, and else the first tick after the present and the record |
| Decision.RouteExactly | controllers/chaosschedule_controller.go:85-102 | which objects are halted, closed, reviewed, left alone or refused, exactly |
| Decision.FirstRunTime | controllers/createEngineForRepeat.go:171-214 | with nothing on record, for any readings: the present if the weekday and hour read satisfy the lists given, else the first tick after the later of creation and start if that is ahead, else the present |
| Decision.FirstRunExact | controllers/createEngineForRepeat.go:179-214 | for any lists that parse, with one reading per pass: the first run is the present if and only if the lists allow it or no tick is ahead, else the first tick; and it keeps to the given lists if and only if the present does, or that tick is still ahead and does |
| Decision.FirstRunRefused | controllers/createEngineForRepeat.go:184-209 | the first run fails if and only if the day list cannot be read, or the hour list cannot and the day does not already decide |
| EngineTimes.FirstRunOffCalendar | controllers/createEngineForRepeat.go:184-194 | a schedule for Mondays only, ten days old when first let run, creates an engine on a Sunday |
| ScheduleTime.CatchUpMeaning | controllers/createEngineForRepeat.go:154-170 | the due time is the greatest missed tick unless a completion at or after it is recorded, and otherwise the first tick ahead of now (or of the record, if that is later) |
| ScheduleTime.CatchUpTime | controllers/createEngineForRepeat.go:155-170 | the loop ends within so many turns if and only if the schedule has ticks and no more of them are in (last, now]; it then turns exactly once for each and computes that time |
| ScheduleTime.LoopEndsExactly | controllers/createEngineForRepeat.go:157-160 | some value of the loop variable is after now if and only if the schedule has ticks; otherwise it is the zero time after any number of turns |
| EngineTimes.TicksAndTermination | controllers/createEngineForRepeat.go:148-160 | from spec text: an accepted schedule has a tick within seven days of any instant, and the loop ends, if and only if each list that is given has an item |
| EngineTimes.CommaHangs | controllers/createEngineForRepeat.go:157-193 | a Mondays-only schedule with a comma for its hour list creates and records an engine on a Sunday, and its next pass hangs whatever else happens |
| Safety.HangsForever | controllers/createEngineForRepeat.go:157-160 | with no ticks, no end time and a run on record, a pass past its gate stays there and nothing is created, over any run in which its process does not end |
| Safety.NoTicksOneRun | controllers/createEngineForRepeat.go:157-213 | with no ticks, at most one run is ever recorded, and every engine but the newest is one whose recording was lost |
| ScheduleTime.LatestTickIsGreatest | controllers/createEngineForRepeat.go:157-160 | the walk over Next ends at the greatest tick not after now, or there is none |
| Cron.Next | controllers/createEngineForRepeat.go:157-162 | it gives a tick if and only if there is one after the instant at all, and then the first one, at most seven days away |
| Cron.NextUnique | controllers/createEngineForRepeat.go:157-162 | that tick is the only instant with these properties |
| Cron.Periodic | controllers/createEngineForRepeat.go:331-336 | with day-of-month and month always free, the schedule repeats weekly |
| Cron.TickExactly | controllers/createEngineForRepeat.go:331-336 | an instant is a tick if and only if it is a whole minute and its minute, hour and weekday are included |
| Cron.CalendarSteps | controllers/createEngineForRepeat.go:228-250 | known dates have their weekday and hour, and days and hours follow each other |
| Cron.DayNames | pkg/types/types.go:34-42 | the seven three-letter names stand for 0 to 6 from Sunday, and no other text for any day |
| Cron.MatchWithinWeek | controllers/createEngineForRepeat.go:331-336 | a schedule has a tick in any given week if and only if none of its sets is empty |
| Cron.ParseStandard | controllers/createEngineForRepeat.go:148-151 | an accepted text gives sets of minutes, hours and weekdays within their fields, empty ones included |
| Cron.FieldNonempty | controllers/createEngineForRepeat.go:148-151 | an accepted field lists something if and only if some item stands between its commas |
| Spacing.MinuteModeSpacing | controllers/createEngineForRepeat.go:330-333 | any two ticks of an n-minute schedule are n minutes apart if n divides 60, 60 mod n if it does not, 60 if n is above 60 |
| Spacing.ShortIntervalExact | controllers/createEngineForRepeat.go:330-333 | up to an hour, the interval is kept if and only if n divides 60 or no included hour is followed by an included one |
| Spacing.LongIntervalExact | controllers/createEngineForRepeat.go:330-333 | above an hour, if and only if no two included hours are closer than n minutes |
| Spacing.SingleMinuteExact | controllers/createEngineForRepeat.go:335-338 | at a single minute of the hour, as in hour mode with any hours and days, any interval is kept if and only if no two included hours are closer |
| Spacing.EveryHourExact | controllers/createEngineForRepeat.go:330-333 | with every hour and day included, if and only if n divides 60 |
| Spacing.HourModeSpacing | controllers/createEngineForRepeat.go:335-338 | the same law for hours with 24 |
| Spacing.HourModeExact | controllers/createEngineForRepeat.go:335-338 | with every hour and day included, hour mode keeps its interval if and only if n divides 24 |
| Plans.MinutePlan | controllers/createEngineForRepeat.go:313-334 | the built text parses to every n-th minute within exactly the hours and days the lists declare |
| Plans.HourPlan | controllers/createEngineForRepeat.go:313-338 | the built text parses to minute m of the hours given, the step binding to the last item of an hour list alone |
| Plans.PeriodExact | controllers/createEngineForRepeat.go:333-338 | the requeue period after a run is the declared interval if and only if that fits in 64 bits |
| Plans.HourModeWithin | controllers/createEngineForRepeat.go:336 | those hours stay inside the included ones if and only if the last item is a range, or a number all of whose later steps are included |
| Plans.AcceptedSpec | controllers/createEngineForRepeat.go:145-151 | whenever cron accepts the built text, in either mode, both lists are texts the list parser runs on without leaving its array |
| Plans.AcceptedPlan | controllers/createEngineForRepeat.go:313-338 | whatever the lists, an accepted text means exactly what its minute, hour and day texts mean as fields |
| Plans.HasTicksExactly | controllers/createEngineForRepeat.go:148-151 | the schedule of an accepted text lacks no minute, hour or day if and only if each list that is given has an item |
| Plans.StarIsNoList | controllers/createEngineForRepeat.go:184-188 | a spelled-out `*` is accepted by cron and refused by the list parser |
| EngineTimes.MinuteModeEngines | controllers/createEngineForRepeat.go:306-334 | from spec text to engines, for any lists cron accepts: after the first recorded run, days and hours are those cron reads and the spacing holds, unless an engine is another created anew |
| EngineTimes.MinuteModeDeclared | controllers/createEngineForRepeat.go:306-334 | for lists with a declared meaning, those days and hours are the declared ones |
| EngineTimes.HourModeEngines | controllers/createEngineForRepeat.go:335-338 | in hour mode, after the first recorded run, days are the declared ones; hours are those of the stepped list, and declared ones if the hours are free or all the steps are listed |
| EngineTimes.HourModeExactly | controllers/createEngineForRepeat.go:336 | with no end time, all later runs are in included hours if and only if all the steps of the last item are listed |
| WorkCalendar.IsListed | controllers/createEngineForRepeat.go:217-256 | marking the array and looking one index up agrees with membership in the marked set, with no index out of range |
| WorkCalendar.AcceptedInBounds | controllers/createEngineForRepeat.go:225-227 | for any text cron accepts, steps and stars included, no marked index leaves 0..6 or 0..23 |
| WorkCalendar.StepIsRefused | controllers/createEngineForRepeat.go:282-304 | an item with a step, which cron accepts, is an error to the numeric parser |
| CalendarLists.ReadersAgree | controllers/createEngineForRepeat.go:217-304 | on lists of numbers, names and unmixed ranges, cron and the list parser both read exactly the declared union |
| CalendarLists.ParserReadsItem | controllers/createEngineForRepeat.go:259-304 | each well-written item is read as its declared range |
| Text.AtoiFormat | controllers/createEngineForRepeat.go:295-302 | printed integers are read back, a plus sign allowed, exactly if they fit in 64 bits |
| CalendarLists.MixedRangeExact | controllers/createEngineForRepeat.go:261-270 | a range between a number and a name is marked as cron reads it if and only if the number is 0 |
| CalendarLists.DayItemExact | controllers/createEngineForRepeat.go:259-279 | a day item cron accepts is read as cron does, or refused, when short; a longer one is read by its day names alone, all else as Sunday: right if and only if cron reads Sunday too, or there is no step and the ends are those names |
| CalendarLists.TakenForSunday | controllers/createEngineForRepeat.go:268-276 | `01`, `*/2` and `1-5/2` are accepted by cron as other days and marked as Sunday |
| CalendarLists.SteppedNames | controllers/createEngineForRepeat.go:261-270 | a range of day names with a step is read by cron as the stepped days, and marks Sunday if it starts there and no day otherwise |
| CalendarLists.TakenForNoDay | controllers/createEngineForRepeat.go:261-270 | `Mon-Fri/2` is Monday, Wednesday and Friday to cron and no day to the list parser |
| CalendarLists.HoursNeverMisread | controllers/createEngineForRepeat.go:238-304 | any hour list cron accepts is marked exactly as cron reads it, or refused |
| CalendarLists.PrintParse | controllers/createEngineForRepeat.go:217-256 | printing any nonempty day or hour set and reading it back, by either reader, gives the set |
| Objects.NameIsSecond | controllers/createEngineForRepeat.go:97 | spelled engine names of one repeat schedule are equal if and only if their Unix seconds are |
| Objects.PlansAreValid | controllers/createEngineForRepeat.go:306-342 | every plan made from a spec with whole-second times is one the results apply to |
| ActiveList.KeptMeaning | controllers/updateStatus.go:33-53 | pruning keeps a reference, with its multiplicity, exactly when its engine is listed and not finished |
| ActiveList.KeptOrder | controllers/updateStatus.go:58-69 | what is kept stays in order |
| ActiveList.KeptTwice | controllers/updateStatus.go:33-53 | pruning again with the same listing changes nothing and finds nothing missing |
| ActiveList.KeptIsPruned | controllers/updateStatus.go:33-53 | the filter has the meaning of a pruning: membership, multiplicity, order and completion time, by the listing alone |
| ActiveList.Prune | controllers/updateStatus.go:33-53 | the two mutating loops compute that filter, and move the completion time to the last clock reading exactly when some reference was unlisted |
| ActiveList.DropFinished | controllers/updateStatus.go:33-42 | the first loop notes every listed UID and drops exactly the finished ones |
| ActiveList.DeleteFromActiveList | controllers/updateStatus.go:58-69 | the loop removes every reference with the UID and keeps the rest in order |
| ActiveList.InActiveList | controllers/updateStatus.go:71-78 | found if and only if some active reference has the UID |
| RepeatTimes.IsWeekdayPossible | controllers/createEngineForRepeat.go:217-235 | the weekday of the reading is looked up in the listed days, or the list is an error |
| RepeatTimes.IsHoursPossible | controllers/createEngineForRepeat.go:238-256 | the hour of the reading is looked up in the listed hours, or the list is an error |
| RepeatTimes.FirstScheduleTime | controllers/createEngineForRepeat.go:179-214 | computes the first time from its own ordered clock readings |
| RepeatTimes.GetRecentUnmetScheduleTime | controllers/createEngineForRepeat.go:145-176 | computes the due time of the decision, from the record if there is one and else from the later of creation and start; it is not done exactly if the loop outlasts the process |
| RepeatTimes.Weigh | controllers/createEngineForRepeat.go:64-83 | waits, defers to the end time, defers to an active engine, or launches, by its readings |
| RepeatTimes.NextMove | controllers/createEngineForRepeat.go:32-83 | from spec text to verdict: exactly the decision on ordered readings, unless the loop is reached and outlasts the process |
| Clusters.Cluster.Update | controllers/createEngineForRepeat.go:27-30 | takes effect only over the version read; on success the copy is the stored object, and a conflict means it did not apply; another error may hide a write that took effect; every outcome is a run of the machine |
| Clusters.Cluster.CreateEngine | controllers/createEngineForRepeat.go:99-103 | creates under a free name, fails, or creates and fails to answer, as steps of the machine |
| Controllers.UpdateActiveStatus | controllers/updateStatus.go:20-56 | one List; if answered, the copy is pruned by an honest listing as described at Safety.ListPrunes, and otherwise left as it was |
| Controllers.UpdateSchedulerStatus | controllers/updateStatus.go:86-109 | one Update of the completed copy, with the present as end time; after a conflict, and only then, at most so many tries of a Get and an Update of what it read, up to the first that succeeds; without error the last version is the one before it, completed, unless the first write failed otherwise than by conflict |
| Controllers.Attempt | controllers/updateStatus.go:95-105 | one try is a Get and, if answered, an Update with the completed form of what was read; it succeeds if and only if that is answered |
| Controllers.CreateNewEngine | controllers/createEngineForRepeat.go:90-143 | one Create under the name of the scheduled second and, if answered, one Update with the creation recorded; it succeeds if and only if both are answered, and then the log and the stored object have it |
| Controllers.CreateEngineRepeat | controllers/createEngineForRepeat.go:20-88 | its calls are List, the gating Update of the pruned copy, and those of the verdict decided on the gated object; it stops if the opening fails, hangs exactly if its loop is reached and outlasts the process, and otherwise answers as decided |
| Controllers.CreateForNowAndOnce | controllers/createEngineForNowAndOnce.go:17-68 | its calls are List, the gating Update, the Get of the engine, and those for what that found: create and record, nothing, or complete |
| Controllers.ReconcileForHalt | controllers/chaosschedule_controller.go:104-114 | one Update of the object read with status halted; its answer is the result |
| Controllers.ReconcileForComplete | controllers/chaosschedule_controller.go:115-134 | with active engines one List and no write, else one Update of the object read with status completed and the present as end time; the answer is the result |
| Controllers.Reconcile | controllers/chaosschedule_controller.go:66-102 | one pass is a run of the machine from idle to idle and keeps reachability; it is a Get and, if that is answered, exactly the calls, the result and the effects of the route of the object read |
| Calls.FailureHasCause | controllers/chaosschedule_controller.go:66-102 | a pass fails only if some call was not answered, or its object has no mode, or its verdict is to fail; with all calls answered halts and completions are stored |
| Calls.RepeatAnswered | controllers/createEngineForRepeat.go:20-143 | with all calls answered a launch ends in the requeue period with its engine created and recorded, a finish with the completion stored |
| Calls.SingleAnswered | controllers/createEngineForNowAndOnce.go:17-68 | with all calls answered a single pass succeeds: the engine is created and recorded, or at work, or the completion is stored |
| Labels.EngineLabels | controllers/schedule.go:75-89 | the schedule's labels lie over the two selector labels, and the listing finds the engine if and only if they do not change those two |

## Left out

- Safety.Forbid: takes it as a premise that listings omit no running engine; pruning by one that does drops that engine from the active list (`ActiveList.KeptMeaning`).
- Safety.SecondsIncrease: not stated for edits of spec.schedule during a run, which may move the calendar back.
- Failure of making an object reference: the repeat path would then record an engine without listing it as active.
- Text with white space in the day and hour lists: between characters it can shift the fields of the cron text; at the ends cron drops it, and the list parser then takes a padded day name standing alone for Sunday.
- Cron texts with day-of-month or month other than `*`: the controller never builds them from lists without white space.
- Time zones and daylight saving: instants are UTC.
- Saturation of time differences beyond 292 years; the wrap-around of the requeue period is modelled.
- The API server's rule that an update without change makes no new version: in the model every write makes one, which adds conflicts and removes no run.
- Removal of the schedule itself, and a Get that finds it gone: the pass then returns at once.
- The number of completion retries and the waits between them: a parameter, and no waits.
- Unicode case folding and white space in list texts: ASCII only.
- The engine template, annotations, owner references, events, logs, and the manager setup: they do not affect the state modelled.
- Concurrency policy, random start and the expected next run time: declared in the API, never acted on.
- Name clashes between different schedules and direct edits of the status by users.
