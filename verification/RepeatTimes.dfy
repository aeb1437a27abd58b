/** The part of a repeat pass that reads the clock and decides, between its gating write
    and the creation of an engine. */
module RepeatTimes {
  import opened Text
  import opened Cron
  import opened WorkCalendar
  import opened Objects
  import opened Plans
  import opened ActiveList
  import opened ScheduleTime
  import opened Decision

  /** isWeekdayPossible; None is a parse error. */
  method IsWeekdayPossible(clock: Clock, includedDays: string) returns (possible: Option<bool>)
    requires includedDays != "" && Accepted(Some(includedDays), true)
    modifies clock
    ensures old(clock.now) <= clock.now
    ensures possible == match Marked(includedDays, true)
                        case Some(days) => Some(WeekdayOf(clock.now) in days)
                        case None => None
  {
    var now := clock.Now();
    possible := IsListed(includedDays, true, WeekdayOf(now));
  }

  /** isHoursPossible; None is a parse error. */
  method IsHoursPossible(clock: Clock, includedHours: string) returns (possible: Option<bool>)
    requires includedHours != "" && Accepted(Some(includedHours), false)
    modifies clock
    ensures old(clock.now) <= clock.now
    ensures possible == match Marked(includedHours, false)
                        case Some(hours) => Some(HourOf(clock.now) in hours)
                        case None => None
  {
    var now := clock.Now();
    possible := IsListed(includedHours, false, HourOf(now));
  }

  method NextOrNow(clock: Clock, cron: Schedule, earliest: int)
    returns (t: int, ghost compare: int, ghost clamp: int)
    requires cron.Valid()
    modifies clock
    ensures old(clock.now) <= compare <= clamp == clock.now
    ensures var next := Next(cron, earliest);
            t == if next.Some? && next.value > compare then next.value else clamp
  {
    var next := Next(cron, earliest);
    var now := clock.Now();
    compare := now;
    if NotAfter(next, now) {
      t := clock.Now();
    } else {
      t := next.value;
    }
    clamp := clock.now;
  }

  /** firstScheduleTime. */
  method FirstScheduleTime(clock: Clock, spec: RepeatSpec, plan: Plan, cron: Schedule, earliest: int,
                           ghost before: Readings)
    returns (t: Option<int>, ghost r: Readings)
    requires cron.Valid() && before == AllAt(clock.now).(end := before.end) && before.end <= clock.now
    requires plan.days == RuleOf(spec.includedDays, true) && Accepted(spec.includedDays, true)
    requires plan.hours == RuleOf(spec.includedHours, false) && Accepted(spec.includedHours, false)
    modifies clock
    ensures t == FirstTime(plan, cron, earliest, r)
    ensures r.Ordered(before.end) && r.end == before.end && r.now == before.now
    ensures r.clamp == r.wait == r.untilEnd == r.requeue == clock.now
  {
    r := before;
    if spec.includedDays.Some? && spec.includedDays.value != "" {
      var possible := IsWeekdayPossible(clock, spec.includedDays.value);
      r := AllAt(clock.now).(end := r.end, now := r.now);
      if possible.None? {
        return None, r;
      }
      if !possible.value {
        var next, compare, clamp := NextOrNow(clock, cron, earliest);
        r := AllAt(clamp).(end := r.end, now := r.now, day := r.day, hour := r.day, compare := compare);
        return Some(next), r;
      }
    }
    if spec.includedHours.Some? && spec.includedHours.value != "" {
      var possible := IsHoursPossible(clock, spec.includedHours.value);
      r := AllAt(clock.now).(end := r.end, now := r.now, day := r.day);
      if possible.None? {
        return None, r;
      }
      if !possible.value {
        var next, compare, clamp := NextOrNow(clock, cron, earliest);
        r := AllAt(clamp).(end := r.end, now := r.now, day := r.day, hour := r.hour, compare := compare);
        return Some(next), r;
      }
    }
    var now := clock.Now();
    r := AllAt(now).(end := r.end, now := r.now, day := r.day, hour := r.hour);
    return Some(now), r;
  }

  /** With a run on record, does the catch-up loop take more turns than these? */
  ghost predicate LoopOutlasts(c: Config, o: Object, now: int, turns: nat)
    requires c.Valid() && c.repeat.Some?
  {
    && c.repeat.value.cron.Some? && o.lastSchedule.Some?
    && var cron := c.repeat.value.cron.value;
       cron.Nonempty() ==> |Ticks(cron, o.lastSchedule.value, now)| > turns
  }

  /** getRecentUnmetScheduleTime; None is an error. If its loop takes more turns than the
      process lives for, it is not done. */
  method GetRecentUnmetScheduleTime(clock: Clock, c: Config, spec: RepeatSpec, o: Object, cronString: string,
                                    limit: nat, ghost before: Readings)
    returns (done: bool, due: Option<int>, ghost r: Readings)
    requires c.Valid() && c.repeat.Some? && c.repeat.value.cron == ParseStandard(cronString)
    requires c.repeat.value.days == RuleOf(spec.includedDays, true)
    requires c.repeat.value.hours == RuleOf(spec.includedHours, false)
    requires c.repeat.value.cron.Some? ==> Accepted(spec.includedDays, true) && Accepted(spec.includedHours, false)
    requires before == AllAt(clock.now)
    modifies clock
    ensures r.Ordered(before.end) && r.end == before.end
    ensures r.wait == r.untilEnd == r.requeue == clock.now
    ensures done <==> !LoopOutlasts(c, o, r.now, limit)
    ensures done ==> due == Due(c, o, r)
  {
    var now := clock.Now();
    r := AllAt(now).(end := before.end);
    var cron := ParseStandard(cronString);
    if cron.None? {
      return true, None, r;
    }
    if o.lastSchedule.Some? {
      var t, turns := CatchUpTime(cron.value, o.lastSchedule.value, o.lastCompletion, now, limit);
      return t.Some?, t, r;
    }
    done := true;
    var start := c.repeat.value.startTime;
    if start.Some? && !(c.created > start.value) {
      due, r := FirstScheduleTime(clock, spec, c.repeat.value, cron.value, start.value, r);
    } else {
      due, r := FirstScheduleTime(clock, spec, c.repeat.value, cron.value, c.created, r);
    }
  }

  /** createEngineRepeat, once the due time is known. */
  method Weigh(clock: Clock, endTime: Option<int>, o: Object, due: int, ghost before: Readings)
    returns (v: Verdict, ghost r: Readings)
    requires before.wait == before.untilEnd == before.requeue == clock.now
    modifies clock
    ensures before.wait <= r.wait <= r.untilEnd <= r.requeue == clock.now
    ensures r == before.(wait := r.wait, untilEnd := r.untilEnd, requeue := r.requeue)
    ensures v == if endTime.Some? && endTime.value - r.untilEnd < due - r.wait then Requeue(endTime.value - r.requeue)
                 else if due - r.wait > 0 || |o.active| > 0 then Requeue(due - r.wait)
                 else Launch(due)
  {
    var now := clock.Now();
    var wait := due - now;
    r := before.(wait := now, untilEnd := now, requeue := now);
    if endTime.Some? {
      now := clock.Now();
      r := r.(untilEnd := now, requeue := now);
      if endTime.value - now < wait {
        now := clock.Now();
        r := r.(requeue := now);
        return Requeue(endTime.value - now), r;
      }
    }
    if wait > 0 {
      return Requeue(wait), r;
    }
    if |o.active| > 0 {
      return Requeue(wait), r;
    }
    return Launch(due), r;
  }

  /** scheduleRepeat and getRecentUnmetScheduleTime, for a schedule given as text. */
  method DueFromText(clock: Clock, c: Config, spec: RepeatSpec, o: Object, limit: nat, ghost before: Readings)
    returns (done: bool, due: Option<int>, ghost r: Readings)
    requires c.Valid() && c.repeat == Some(PlanOf(spec)) && SpaceFree(spec)
    requires before == AllAt(clock.now)
    modifies clock
    ensures r.Ordered(before.end) && r.end == before.end
    ensures r.wait == r.untilEnd == r.requeue == clock.now
    ensures done <==> !LoopOutlasts(c, o, r.now, limit)
    ensures done ==> due == Due(c, o, r)
  {
    r := before;
    var text := ScheduleRepeat(spec);
    if text.None? {
      return true, None, r;
    }
    PlanCron(spec);
    if ParseStandard(text.value.0).Some? {
      AcceptedSpec(spec);
    }
    done, due, r := GetRecentUnmetScheduleTime(clock, c, spec, o, text.value.0, limit, r);
  }

  /** createEngineRepeat from its end-time test to its decision, unless its loop outlasts
      the process. */
  method NextMove(clock: Clock, c: Config, spec: RepeatSpec, o: Object, limit: nat)
    returns (done: bool, v: Verdict, ghost r: Readings)
    requires c.Valid() && c.repeat == Some(PlanOf(spec)) && SpaceFree(spec)
    modifies clock
    ensures r.Ordered(old(clock.now)) && r.requeue == clock.now
    ensures done <==> c.Ended(r.end) || o.deleting || !LoopOutlasts(c, o, r.now, limit)
    ensures done ==> v == Decide(c, o, r) && !v.Spin?
  {
    var endTime := c.repeat.value.endTime;
    if endTime.Some? {
      var now := clock.Now();
      if now > endTime.value {
        return true, Finish, AllAt(now);
      }
    }
    r := AllAt(clock.now);
    if o.deleting {
      return true, Quit, r;
    }
    var due;
    done, due, r := DueFromText(clock, c, spec, o, limit, r);
    if !done {
      return false, Spin, r;
    }
    if due.None? {
      return true, Verdict.Failed, r;
    }
    ghost var known := r;
    v, r := Weigh(clock, endTime, o, due.value, r);
    SameDue(c, o, known, r);
  }

  /** The due time does not depend on the readings taken after it. */
  lemma SameDue(c: Config, o: Object, r: Readings, s: Readings)
    requires c.Valid() && c.repeat.Some?
    requires s == r.(wait := s.wait, untilEnd := s.untilEnd, requeue := s.requeue)
    ensures Due(c, o, r) == Due(c, o, s)
  {
  }
}
