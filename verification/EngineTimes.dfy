/** The scheduled times of engines, for schedules given as text. */
module EngineTimes {
  import opened Text
  import opened Instants
  import opened Cron
  import opened Spacing
  import opened CalendarLists
  import opened Objects
  import opened Plans
  import P = Protocol
  import A = ActiveList
  import D = Decision
  import opened ScheduleTime
  import opened WorkCalendar
  import opened Safety
  import opened Witnesses
  import opened Rounds

  ghost predicate Declares(spec: RepeatSpec, hs: Calendar, ds: Calendar) {
    && hs.Ok(false) && ds.Ok(true)
    && spec.includedHours == hs.Text() && spec.includedDays == ds.Text()
  }

  ghost predicate EveryMinutes(spec: RepeatSpec, n: nat) {
    && 0 < n <= MAX_INT64
    && spec.minChaosInterval.Some? && spec.minChaosInterval.value.minute == Some(n)
  }

  ghost predicate EveryHours(spec: RepeatSpec, n: nat, m: nat) {
    && 0 < n <= MAX_INT64 && m < 60
    && spec.minChaosInterval == Some(MinChaosInterval(None, Some(HourStep(n, m))))
  }

  /** Whatever its lists, a spec that cron accepts means every n-th minute, or minute m. */
  lemma AcceptedMinutes(spec: RepeatSpec, n: nat)
    requires PlanOf(spec).cron.Some? && SpaceFree(spec) && EveryMinutes(spec, n)
    ensures MinuteMode(PlanOf(spec).cron.value, n)
  {
    AcceptedPlan(spec);
    StarStepField(n, 59);
  }

  lemma AcceptedHours(spec: RepeatSpec, n: nat, m: nat)
    requires PlanOf(spec).cron.Some? && SpaceFree(spec) && EveryHours(spec, n, m)
    ensures PlanOf(spec).cron.value.minutes == {m}
  {
    AcceptedPlan(spec);
    NumberField(m, 59);
  }

  /** After the first recorded run, every engine of an every-n-minutes schedule is on a day and
      in an hour as cron reads the lists, whatever they are; and two such engines keep the
      spacing of the ticks, unless one is the other created anew. */
  lemma MinuteModeEngines(c: Config, w: P.World, spec: RepeatSpec, n: nat, i: nat, j: nat)
    requires c.Valid() && c.Repeating() && c.repeat == Some(PlanOf(spec)) && P.Reachable(c, w)
    requires EveryMinutes(spec, n) && SpaceFree(spec) && PlanOf(spec).cron.Some?
    requires AfterFirst(w, i) && AfterFirst(w, j)
    ensures var (days, hours) := (Field(DaysText(spec), 6, true), Field(HoursText(spec), 23, false));
            days.Some? && hours.Some? && WeekdayOf(w.log[i].at) in days.value && HourOf(w.log[i].at) in hours.value
    ensures i < j ==> w.log[j].at - w.log[i].at >= Gap(60, n) * MINUTE || Again(c, w, i, j)
  {
    AcceptedMinutes(spec, n);
    AcceptedPlan(spec);
    OnCalendar(c, w, i);
    if i < j {
      EnginesApart(c, w, n, i, j);
    }
  }

  /** For lists with a declared meaning these are the days and hours they declare. */
  lemma MinuteModeDeclared(c: Config, w: P.World, spec: RepeatSpec, n: nat, hs: Calendar, ds: Calendar, i: nat)
    requires c.Valid() && c.Repeating() && c.repeat == Some(PlanOf(spec)) && P.Reachable(c, w)
    requires EveryMinutes(spec, n) && Declares(spec, hs, ds)
    requires AfterFirst(w, i)
    ensures WeekdayOf(w.log[i].at) in ds.Covers(true) && HourOf(w.log[i].at) in hs.Covers(false)
  {
    MinutePlan(spec, n, hs, ds);
    OnCalendar(c, w, i);
  }

  /** In hour mode the same engines are on an included day, and in one of the hours the text
      of the list gives with the step on its last item. These are included hours if the
      hours are unrestricted, or if all the steps are listed. */
  lemma HourModeEngines(c: Config, w: P.World, spec: RepeatSpec, n: nat, m: nat, hs: Calendar, ds: Calendar, i: nat)
    requires c.Valid() && c.Repeating() && c.repeat == Some(PlanOf(spec)) && P.Reachable(c, w)
    requires EveryHours(spec, n, m) && Declares(spec, hs, ds)
    requires AfterFirst(w, i)
    ensures WeekdayOf(w.log[i].at) in ds.Covers(true)
    ensures HourOf(w.log[i].at) in if hs.Every? then Steps(0, 23, n) else Stepped(hs.es, n)
    ensures hs.Every? || StepsListed(hs.es, n) ==> HourOf(w.log[i].at) in hs.Covers(false)
  {
    HourPlan(spec, n, m, hs, ds);
    OnCalendar(c, w, i);
    match hs
    case Every => AnyHour(HourOf(w.log[i].at), n);
    case ListOf(es) => HourModeWithin(es, n);
  }

  lemma AnyHour(h: nat, n: nat)
    requires n > 0
    ensures h in Steps(0, 23, n) ==> h in Steps(0, 23, 1)
  {
    assert h in Steps(0, 23, n) ==> OnStep(h, 0, 1);
  }

  /** For a list of hours that condition is exact: with no end time, in hour mode every
      later engine of every run that starts at t is in an included hour exactly if it holds. */
  lemma HourModeExactly(c: Config, spec: RepeatSpec, n: nat, m: nat, es: seq<Entry>, ds: Calendar, t: int)
    requires D.MayBeFirst(c, t) && c.repeat == Some(PlanOf(spec)) && spec.endTime.None?
    requires EveryHours(spec, n, m) && Declares(spec, ListOf(es), ds)
    ensures (forall w, j: nat :: LaterRun(c, w, t, j) ==> HourOf(w.log[j].at) in Included(es)) <==> StepsListed(es, n)
  {
    HourPlan(spec, n, m, ListOf(es), ds);
    HourModeWithin(es, n);
    if StepsListed(es, n) {
      forall w, j: nat | LaterRun(c, w, t, j)
        ensures HourOf(w.log[j].at) in Included(es)
      {
        FollowsRecord(c, w, 0, j);
        OnCalendar(c, w, j);
      }
    } else {
      var h :| h in Stepped(es, n) && h !in Included(es);
      DeclaredHasItems(spec, ListOf(es), ds);
      HasTicksExactly(spec);
      LaterInHour(c, t, h);
    }
  }

  /** Every hour of a schedule is the hour of some later engine. */
  lemma LaterInHour(c: Config, t: int, h: nat)
    requires D.MayBeFirst(c, t) && c.repeat.value.endTime.None?
    requires c.repeat.value.cron.Some? && h in c.repeat.value.cron.value.hours && c.repeat.value.cron.value.Nonempty()
    ensures exists w, j: nat :: LaterRun(c, w, t, j) && HourOf(w.log[j].at) == h
  {
    var x := TickInHour(c, h, t);
    LaterTimesExact(c, t, x);
    var w, j: nat :| LaterRun(c, w, t, j) && w.log[j].at == x;
    assert HourOf(w.log[j].at) == h;
  }

  /** Lists with a declared meaning have items. */
  lemma DeclaredHasItems(spec: RepeatSpec, hs: Calendar, ds: Calendar)
    requires Declares(spec, hs, ds)
    ensures SpaceFree(spec)
    ensures spec.includedHours.Some? ==> HasItem(spec.includedHours.value)
    ensures spec.includedDays.Some? ==> HasItem(spec.includedDays.value)
  {
    if hs.ListOf? {
      ListHasItem(hs.es, false);
    }
    if ds.ListOf? {
      ListHasItem(ds.es, true);
    }
  }

  lemma ListHasItem(es: seq<Entry>, days: bool)
    requires WellFormed(es, days)
    ensures Spaceless(ListText(es)) && HasItem(ListText(es))
  {
    ListTextClean(es, days);
    SplitText(es, days);
    WrittenClean(es[0], days);
    var first := Written(es)[0];
    assert first == es[0].Written() && first in Split(ListText(es), ',');
  }

  /** Every hour of a schedule has a tick after any instant. */
  lemma TickInHour(c: Config, h: nat, t: int) returns (x: int)
    requires c.Valid() && c.repeat.Some? && c.repeat.value.cron.Some? && h in c.repeat.value.cron.value.hours
    requires c.repeat.value.cron.value.Nonempty()
    ensures c.Tick(x) && x > t && HourOf(x) == h
  {
    var cron := c.repeat.value.cron.value;
    var one := Schedule(cron.minutes, {h}, cron.days);
    assert h in one.hours;
    x := FirstAfter(one, t);
    TickCalendar(one, x);
    assert HourOf(x) == h;
    var minute := x / MINUTE;
    assert minute / 60 % 24 == h;
  }

  // ---------------------------------------------------------------- the declared interval

  /** With no end time, an every-n-minutes schedule that first runs at t keeps n minutes
      between its engines exactly if the first tick is n minutes after that run, and n
      divides 60 or no included hour follows another; above an hour, if no two included
      hours are closer than n minutes. */
  lemma MinuteModeInterval(c: Config, spec: RepeatSpec, n: nat, t: int)
    requires D.MayBeFirst(c, t) && c.repeat == Some(PlanOf(spec)) && spec.endTime.None?
    requires EveryMinutes(spec, n) && SpaceFree(spec) && PlanOf(spec).cron.Some?
    ensures var cron := PlanOf(spec).cron.value;
            RunsApart(c, t, n) <==>
            && TickWaits(cron, t, n)
            && (if n <= 60 then 60 % n == 0 || !AdjacentHours(cron) else !HoursWithin(cron, n))
  {
    AcceptedMinutes(spec, n);
    IntervalForever(c, t, n);
    if n <= 60 {
      ShortIntervalExact(PlanOf(spec).cron.value, n);
    } else {
      LongIntervalExact(PlanOf(spec).cron.value, n);
    }
  }

  /** In hour mode: exactly if the first tick is n hours after the first run and no two hours
      of the schedule are closer than n hours. */
  lemma HourModeInterval(c: Config, spec: RepeatSpec, n: nat, m: nat, t: int)
    requires D.MayBeFirst(c, t) && c.repeat == Some(PlanOf(spec)) && spec.endTime.None?
    requires EveryHours(spec, n, m) && SpaceFree(spec) && PlanOf(spec).cron.Some?
    ensures var cron := PlanOf(spec).cron.value;
            RunsApart(c, t, 60 * n) <==> TickWaits(cron, t, 60 * n) && !HoursWithin(cron, 60 * n)
  {
    AcceptedHours(spec, n, m);
    IntervalForever(c, t, 60 * n);
    SingleMinuteExact(PlanOf(spec).cron.value, m, 60 * n);
  }

  // ---------------------------------------------------------------- a first run off the calendar

  const MONDAYS: RepeatSpec := RepeatSpec(None, None, Some("Mon"), None, Some(MinChaosInterval(Some(30), None)))

  /** The tenth day of the epoch, a Sunday. */
  const SUNDAY: int := 10 * 24 * HOUR

  lemma MondaysPlan()
    ensures var plan := PlanOf(MONDAYS);
            && plan.cron.Some? && plan.days == Only({1}) && plan.hours == Anytime
            && plan.startTime.None? && plan.endTime.None?
  {
    var e := One("Mon", 1);
    assert ToLower("Mon") == "mon";
    var ds := ListOf([e]);
    assert ds.Ok(true);
    assert ListText([e]) == "Mon";
    MinutePlan(MONDAYS, 30, Every, ds);
    IncludedOne(e);
    assert Steps(1, 1, 1) == {1} by {
      assert OnStep(1, 1, 1);
    }
  }

  /** A schedule for Mondays, ten days old when it is first let run, runs on a Sunday. */
  lemma FirstRunOffCalendar(name: string)
    ensures var c := Config(name, 0, false, None, Some(PlanOf(MONDAYS)));
            exists w :: P.Reachable(c, w) && |w.log| == 1 && w.log[0].at == SUNDAY
                        && !D.Keeps(c.repeat.value, w.log[0].at)
  {
    MondaysPlan();
    var c := Config(name, 0, false, None, Some(PlanOf(MONDAYS)));
    SundayIsFirst(c);
    var w := FirstRound(c, SUNDAY);
    assert P.Reachable(c, w);
  }

  lemma SundayIsFirst(c: Config)
    requires c.created == 0 && c.Repeating() && c.repeat.value.startTime.None? && c.repeat.value.endTime.None?
    requires c.Valid() && c.repeat.value.cron.Some? && c.repeat.value.days == Only({1})
    ensures D.MayBeFirst(c, SUNDAY) && !D.Keeps(c.repeat.value, SUNDAY)
  {
    assert WeekdayOf(SUNDAY) == 0;
    var next := Next(c.repeat.value.cron.value, 0);
    assert next.Some? ==> next.value < SUNDAY;
    assert D.FirstBy(c, D.AllAt(SUNDAY), SUNDAY);
  }

  // ---------------------------------------------------------------- a schedule without ticks

  /** An accepted schedule has ticks after any instant, within seven days, exactly if each of
      its lists that is given has an item; and exactly then the catch-up loop ends. */
  lemma TicksAndTermination(spec: RepeatSpec, t: int, now: int)
    requires PlanOf(spec).cron.Some? && SpaceFree(spec)
    ensures var cron := PlanOf(spec).cron.value;
            var listed := (spec.includedHours.Some? ==> HasItem(spec.includedHours.value))
                          && (spec.includedDays.Some? ==> HasItem(spec.includedDays.value));
            && (listed <==> exists x :: t < x <= t + MINUTES_PER_WEEK * MINUTE && IsTick(cron, x))
            && (listed <==> exists turns :: !NotAfter(LoopInstant(cron, t, turns), now))
  {
    var cron := PlanOf(spec).cron.value;
    HasTicksExactly(spec);
    LoopEndsExactly(cron, t, now);
    var next := Next(cron, t);
    if next.Some? {
      assert t < next.value <= t + MINUTES_PER_WEEK * MINUTE && IsTick(cron, next.value);
    }
  }

  const COMMA: RepeatSpec := MONDAYS.(includedHours := Some(","))

  lemma CommaPlan()
    ensures var plan := PlanOf(COMMA);
            && plan.cron.Some? && !plan.cron.value.Nonempty() && plan.days == Only({1}) && plan.hours == Unreadable
            && plan.startTime.None? && plan.endTime.None?
  {
    MondaysPlan();
    CommaField();
    MondayField();
    StarStepField(30, 59);
    ParseFields("*/" + FormatInt(30), ",", "Mon", Steps(0, 59, 30), {}, {1});
    PlanCron(COMMA);
  }

  lemma CommaField()
    ensures Spaceless(",") && Field(",", 23, false) == Some({})
    ensures RuleOf(Some(","), false) == Unreadable
  {
    var parts := Split(",", ',');
    assert parts == ["", ""];
    assert parts[1..] == [""] && parts[1..][1..] == [];
    assert parts[..1] == [""];
    assert Parse("", false).None?;
    assert Marks(parts, false).None?;
  }

  lemma MondayField()
    ensures Spaceless("Mon") && Field("Mon", 6, true) == Some({1})
  {
    var e := One("Mon", 1);
    assert ToLower("Mon") == "mon";
    assert WellFormed([e], true) && ListText([e]) == "Mon";
    ReadersAgree([e], true);
    IncludedOne(e);
    assert Steps(1, 1, 1) == {1} by {
      assert OnStep(1, 1, 1);
    }
  }

  /** A schedule for Mondays whose hour list is a comma runs once, on a Sunday. The next pass
      to make its gating write hangs in its loop: until its process ends the worker does
      nothing more, and no engine is created again. */
  lemma CommaHangs(name: string)
    ensures var c := Config(name, 0, false, None, Some(PlanOf(COMMA)));
            exists w :: P.Reachable(c, w) && |w.log| == 1 && w.log[0].at == SUNDAY && w.controller.Gated? && Idles(c, w)
  {
    CommaPlan();
    var c := Config(name, 0, false, None, Some(PlanOf(COMMA)));
    SundayIsFirst(c);
    var w := SecondPassGates(c);
    forall acts | P.Allowed(c, w, acts) && P.Stop !in acts
      ensures P.Run(c, w, acts).controller == w.controller && P.Run(c, w, acts).log == w.log
    {
      HangsForever(c, w, acts);
    }
    assert Idles(c, w);
  }

  /** Whatever others do, the worker stays where it is and creates nothing. */
  ghost predicate Idles(c: Config, w: P.World) {
    forall acts :: P.Allowed(c, w, acts) && P.Stop !in acts ==>
      P.Run(c, w, acts).controller == w.controller && P.Run(c, w, acts).log == w.log
  }

  lemma SecondPassGates(c: Config) returns (w: P.World)
    requires D.MayBeFirst(c, SUNDAY)
    ensures P.Reachable(c, w) && |w.log| == 1 && w.log[0].at == SUNDAY && w.controller.Gated?
    ensures w.controller.local.lastSchedule.Some? && !w.controller.local.deleting
  {
    var w0 := FirstRound(c, SUNDAY);
    var w1 := P.Apply(c, w0, P.Advance(SECOND));
    P.ReachesStep(c, w0, P.Advance(SECOND));
    P.StillReachable(c, w0, w1);
    var uid := w1.Stored().active[0].uid;
    SettledGates(c, w1, uid);
    w := PassGates(c, w1, [A.Seen(uid, true)], w1.Stored().(active := []));
    P.StillReachable(c, w1, w);
  }
}
