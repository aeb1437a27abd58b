/** The ChaosSchedule object as the controller reads and writes it, and the schedule it
    asks for. */
module Objects {
  import opened Text
  import opened Instants
  import opened Cron
  import opened WorkCalendar

  /** spec.scheduleState; Other stands for any text the controller does not act on. */
  datatype ScheduleState = Unset | Active | Halted | Completed | Other

  /** status.schedule.status; Unknown stands for empty or any other text. */
  datatype ChaosStatus = Unknown | StatusRunning | StatusHalted | StatusCompleted

  /** An engine's name: the schedule's own, or with a Unix second appended. */
  datatype EngineName = Plain(schedule: string) | Timed(schedule: string, second: int) {
    /** The name as the API server sees it. */
    function Spelled(): string {
      match this
      case Plain(schedule) => schedule
      case Timed(schedule, second) => schedule + "-" + FormatInt(second)
    }
  }

  /** An entry of status.active: the engine's name and UID. */
  datatype Ref = Ref(name: EngineName, uid: nat)

  /** The mutable part of the object: scheduleState, deletionTimestamp and the status. */
  datatype Object = Object(
    state: ScheduleState,
    deleting: bool,
    status: ChaosStatus,
    active: seq<Ref>,
    lastSchedule: Option<int>,
    lastCompletion: Option<int>,
    startTime: Option<int>,
    endTime: Option<int>,
    runs: nat)

  function FloorOption(t: Option<int>): Option<int> {
    match t
    case Some(v) => Some(Floor(v))
    case None => None
  }

  /** The object as it comes back from the API server: timestamps in whole seconds. */
  function Persist(o: Object): Object {
    o.(lastSchedule := FloorOption(o.lastSchedule), lastCompletion := FloorOption(o.lastCompletion),
       startTime := FloorOption(o.startTime), endTime := FloorOption(o.endTime))
  }

  // ---------------------------------------------------------------- the repeat spec

  datatype HourStep = HourStep(everyNthHour: int, minuteOfTheHour: int)

  datatype MinChaosInterval = MinChaosInterval(minute: Option<int>, hour: Option<HourStep>)

  /** spec.schedule.repeat; a missing time range is one with neither end. */
  datatype RepeatSpec = RepeatSpec(
    startTime: Option<int>,
    endTime: Option<int>,
    includedDays: Option<string>,
    includedHours: Option<string>,
    minChaosInterval: Option<MinChaosInterval>)

  /** Which days (or hours) the first run may fall on, as the list parser reads them. */
  datatype Rule = Anytime | Only(included: set<int>) | Unreadable

  /** What a repeat spec comes to: the cron schedule, or None if it is refused. */
  datatype Plan = Plan(
    startTime: Option<int>,
    endTime: Option<int>,
    cron: Option<Schedule>,
    period: int,
    days: Rule,
    hours: Rule)

  /** scheduleRepeat: the cron text and the requeue period after a run. */
  function ScheduleRepeat(spec: RepeatSpec): Option<(string, int)> {
    var days := if spec.includedDays.Some? then spec.includedDays.value else "*";
    var hours := if spec.includedHours.Some? then spec.includedHours.value else "*";
    match spec.minChaosInterval
    case Some(MinChaosInterval(Some(n), _)) =>
      Some(("*/" + FormatInt(n) + " " + hours + " * * " + days, Wrap64(MINUTE * n)))
    case Some(MinChaosInterval(None, Some(h))) =>
      Some((FormatInt(h.minuteOfTheHour) + " " + hours + "/" + FormatInt(h.everyNthHour) + " * * " + days,
            Wrap64(HOUR * h.everyNthHour)))
    case _ => None
  }

  function RuleOf(text: Option<string>, days: bool): Rule {
    if text.None? || text.value == "" then Anytime
    else
      match Marked(text.value, days)
      case Some(included) => Only(included)
      case None => Unreadable
  }

  function PlanOf(spec: RepeatSpec): Plan {
    var cron := ScheduleRepeat(spec);
    Plan(spec.startTime, spec.endTime,
         if cron.Some? then ParseStandard(cron.value.0) else None,
         if cron.Some? then cron.value.1 else 0,
         RuleOf(spec.includedDays, true),
         RuleOf(spec.includedHours, false))
  }

  // ---------------------------------------------------------------- the whole spec

  /** The part of a schedule that stays fixed: name, creation time and spec.schedule. */
  datatype Config = Config(name: string, created: int, now: bool, once: Option<int>, repeat: Option<Plan>) {
    /** Created once, for `now` and `once` schedules. */
    predicate Single() { now || once.Some? }

    predicate Repeating() { !Single() && repeat.Some? }

    /** The earliest start of a repeat schedule. */
    function Start(): int
      requires repeat.Some?
    {
      if repeat.value.startTime.Some? then repeat.value.startTime.value else created
    }

    /** API timestamps carry whole seconds. */
    ghost predicate Valid() {
      && Whole(created)
      && (repeat.Some? ==>
            && (repeat.value.startTime.Some? ==> Whole(repeat.value.startTime.value))
            && (repeat.value.endTime.Some? ==> Whole(repeat.value.endTime.value))
            && (repeat.value.cron.Some? ==> repeat.value.cron.value.Valid()))
    }

    predicate Tick(t: int)
      requires repeat.Some?
    {
      repeat.value.cron.Some? && IsTick(repeat.value.cron.value, t)
    }

    /** Has the end of the time range passed at this instant? */
    predicate Ended(t: int)
      requires repeat.Some?
    {
      repeat.value.endTime.Some? && t > repeat.value.endTime.value
    }
  }

  /** Every plan made from a spec is one the results below apply to. */
  lemma PlansAreValid(spec: RepeatSpec, name: string, created: int)
    requires Whole(created)
    requires spec.startTime.Some? ==> Whole(spec.startTime.value)
    requires spec.endTime.Some? ==> Whole(spec.endTime.value)
    ensures Config(name, created, false, None, Some(PlanOf(spec))).Valid()
  {
    var cron := ScheduleRepeat(spec);
    if cron.Some? {
      assert ParseStandard(cron.value.0).Some? ==> ParseStandard(cron.value.0).value.Valid();
    }
  }

  /** getEngineFromTemplate and createNewEngine: the plain name for a single run, and the
      name with the Unix second of the scheduled time for a repeat run. */
  function NameAt(c: Config, at: int): EngineName {
    if c.Single() then Plain(c.name) else Timed(c.name, Unix(at))
  }

  /** The spelled names of one repeat schedule's engines clash exactly when their scheduled
      seconds do, so a structured name stands for its spelling. */
  lemma NameIsSecond(c: Config, s: int, t: int)
    requires !c.Single()
    ensures NameAt(c, s).Spelled() == NameAt(c, t).Spelled() <==> Unix(s) == Unix(t)
    ensures NameAt(c, s) == NameAt(c, t) <==> Unix(s) == Unix(t)
  {
    var m, n := NameAt(c, s).Spelled(), NameAt(c, t).Spelled();
    if m == n {
      var k := |c.name + "-"|;
      assert m[k..] == FormatInt(Unix(s));
      assert n[k..] == FormatInt(Unix(t));
      FormatIntInjective(Unix(s), Unix(t));
    }
  }
}
