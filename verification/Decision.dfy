/** The choices one reconcile pass makes from its local copy and its clock readings. */
module Decision {
  import opened Text
  import opened Cron
  import opened Objects
  import opened ScheduleTime

  /** What Reconcile returns: an error, an empty result, or RequeueAfter; or that it did not
      return, its process having ended in the catch-up loop. */
  datatype Outcome = Failure | Done | After(delay: int) | Hung

  // ---------------------------------------------------------------- dispatch

  /** Where a pass goes after reading the object. Review lists the engines and returns. */
  datatype Route = Leave(outcome: Outcome) | Proceed | Review | Close | Halt

  /** Reconcile and schedule: by state first, then by mode and start time. */
  function Dispatch(c: Config, o: Object, now: int): Route {
    match o.state
    case Other => Leave(Done)
    case Halted => if o.status == StatusHalted then Leave(Done) else Halt
    case Completed =>
      if o.status == StatusCompleted then Leave(Done)
      else if o.active != [] then Review
      else Close
    case _ =>
      if c.now then Proceed
      else if c.once.Some? then
        if c.once.value - now < 0 then Proceed else Leave(After(c.once.value - now))
      else if c.repeat.Some? then
        if c.Start() - now < 0 then Proceed else Leave(After(c.Start() - now))
      else Leave(Failure)
  }

  /** Which object goes where. */
  lemma RouteExactly(c: Config, o: Object, now: int)
    ensures var (route, runs) := (Dispatch(c, o, now), o.state.Unset? || o.state.Active?);
            && (route == Halt <==> o.state.Halted? && !o.status.StatusHalted?)
            && (route == Close <==> o.state.Completed? && !o.status.StatusCompleted? && o.active == [])
            && (route == Review <==> o.state.Completed? && !o.status.StatusCompleted? && o.active != [])
            && (route == Leave(Done) <==>
                  || o.state.Other? || (o.state.Halted? && o.status.StatusHalted?)
                  || (o.state.Completed? && o.status.StatusCompleted?))
            && (route == Leave(Failure) <==> runs && !c.Single() && c.repeat.None?)
            && (runs && c.now ==> route == Proceed)
  {
  }

  // ---------------------------------------------------------------- a repeat pass

  /** The clock readings of one repeat pass, in program order. */
  datatype Readings = Readings(
    end: int,       // against the end time
    now: int,       // for the missed ticks
    day: int,       // for the weekday list
    hour: int,      // for the hour list
    compare: int,   // next tick against the present
    clamp: int,     // the present as the first scheduled time
    wait: int,      // time left to the scheduled time
    untilEnd: int,  // time left to the end time
    requeue: int)   // time left to the end time, as returned
  {
    predicate Ordered(from: int) {
      from <= end <= now <= day <= hour <= compare <= clamp <= wait <= untilEnd <= requeue
    }
  }

  /** The next tick, or the present if that is not ahead; without ticks it never is. */
  function Clamped(next: Option<int>, r: Readings): int {
    if next.Some? && next.value > r.compare then next.value else r.clamp
  }

  /** firstScheduleTime; None when an included list does not parse. */
  function FirstTime(plan: Plan, cron: Schedule, earliest: int, r: Readings): Option<int>
    requires cron.Valid()
  {
    match plan.days
    case Unreadable => None
    case Only(days) =>
      if WeekdayOf(r.day) !in days then Some(Clamped(Next(cron, earliest), r))
      else FirstHour(plan, cron, earliest, r)
    case Anytime => FirstHour(plan, cron, earliest, r)
  }

  function FirstHour(plan: Plan, cron: Schedule, earliest: int, r: Readings): Option<int>
    requires cron.Valid()
  {
    match plan.hours
    case Unreadable => None
    case Only(hours) =>
      if HourOf(r.hour) !in hours then Some(Clamped(Next(cron, earliest), r)) else Some(r.clamp)
    case Anytime => Some(r.clamp)
  }

  /** The instant the first tick is sought from. */
  function Earliest(c: Config): (e: int)
    requires c.repeat.Some?
    ensures e >= c.created && (c.repeat.value.startTime.Some? ==> e >= c.repeat.value.startTime.value)
    ensures e == c.created || Some(e) == c.repeat.value.startTime
  {
    var start := c.repeat.value.startTime;
    if start.Some? && c.created <= start.value then start.value else c.created
  }

  /** With a run on record and no ticks to come, the catch-up loop goes on for ever. */
  predicate Spins(c: Config, o: Object)
    requires c.repeat.Some?
  {
    c.repeat.value.cron.Some? && !c.repeat.value.cron.value.Nonempty() && o.lastSchedule.Some?
  }

  /** getRecentUnmetScheduleTime, where it returns. */
  function DueTime(c: Config, o: Object, r: Readings): Option<int>
    requires c.Valid() && c.repeat.Some? && c.repeat.value.cron.Some? && !Spins(c, o)
  {
    var cron := c.repeat.value.cron.value;
    match o.lastSchedule
    case Some(last) => Some(CatchUp(cron, last, o.lastCompletion, r.now))
    case None => FirstTime(c.repeat.value, cron, Earliest(c), r)
  }

  /** Spin is no verdict: the pass does not come to one. */
  datatype Verdict = Spin | Failed | Quit | Finish | Requeue(after: int) | Launch(at: int)

  /** createEngineRepeat after its gating write. */
  function Decide(c: Config, o: Object, r: Readings): Verdict
    requires c.Valid() && c.repeat.Some?
  {
    var plan := c.repeat.value;
    if c.Ended(r.end) then Finish
    else if o.deleting then Quit
    else if plan.cron.None? then Failed
    else if Spins(c, o) then Spin
    else
      match DueTime(c, o, r)
      case None => Failed
      case Some(due) =>
        var wait := due - r.wait;
        if plan.endTime.Some? && plan.endTime.value - r.untilEnd < wait then
          Requeue(plan.endTime.value - r.requeue)
        else if wait > 0 then Requeue(wait)
        else if |o.active| > 0 then Requeue(wait)
        else Launch(due)
  }

  // ---------------------------------------------------------------- what a launch means

  lemma FirstTimeFacts(plan: Plan, cron: Schedule, earliest: int, r: Readings, from: int)
    requires cron.Valid() && r.Ordered(from) && FirstTime(plan, cron, earliest, r).Some?
    ensures from <= FirstTime(plan, cron, earliest, r).value
  {
  }

  /** A launched engine is due: its time is reached, inside the time range, later than the
      recorded one and than a completion recorded by then, and no missed tick is later. */
  lemma LaunchFacts(c: Config, o: Object, r: Readings, from: int)
    requires c.Valid() && c.repeat.Some? && r.Ordered(from) && Decide(c, o, r).Launch?
    ensures var at := Decide(c, o, r).at;
            && c.repeat.value.cron.Some? && at <= r.wait && o.active == [] && !o.deleting
            && !c.Ended(from) && !c.Ended(at)
            && (o.lastSchedule.None? ==> from <= at)
            && (o.lastSchedule.Some? ==>
                  && IsTick(c.repeat.value.cron.value, at) && at > o.lastSchedule.value
                  && (forall x :: o.lastSchedule.value < x <= from && IsTick(c.repeat.value.cron.value, x) ==> x <= at)
                  && (o.lastCompletion.Some? && o.lastCompletion.value <= from ==> at > o.lastCompletion.value))
  {
    var cron := c.repeat.value.cron.value;
    if o.lastSchedule.Some? {
      CatchUpMeaning(cron, o.lastSchedule.value, o.lastCompletion, r.now);
      forall x | o.lastSchedule.value < x <= from && IsTick(cron, x)
        ensures x <= Decide(c, o, r).at
      {
        assert x in Ticks(cron, o.lastSchedule.value, r.now);
      }
    } else {
      FirstTimeFacts(c.repeat.value, cron, Earliest(c), r, from);
    }
  }

  function AllAt(t: int): Readings { Readings(t, t, t, t, t, t, t, t, t) }

  // ---------------------------------------------------------------- the first run

  /** An active object with nothing on record. */
  const FRESH: Object := Object(Active, false, Unknown, [], None, None, None, None, 0)

  /** Does this value satisfy the list, if one is given? */
  predicate Allows(rule: Rule, x: int) { rule.Only? ==> x in rule.included }

  /** Is this instant on the days and in the hours of whichever lists are given? */
  predicate Keeps(plan: Plan, t: int) { Allows(plan.days, WeekdayOf(t)) && Allows(plan.hours, HourOf(t)) }

  /** Do the readings of weekday and hour satisfy whichever lists are given? */
  predicate KeepsBy(plan: Plan, r: Readings) {
    Allows(plan.days, WeekdayOf(r.day)) && Allows(plan.hours, HourOf(r.hour))
  }

  /** No list that the first run has to consult is an error. */
  predicate Readable(plan: Plan, r: Readings) {
    !plan.days.Unreadable? && (plan.hours.Unreadable? ==> !Allows(plan.days, WeekdayOf(r.day)))
  }

  /** The time promised for the first run: the present, if the present satisfies the lists;
      else the first tick after the later of creation and start, if that is still ahead. */
  predicate Promised(c: Config, r: Readings, at: int)
    requires c.Valid() && c.repeat.Some? && c.repeat.value.cron.Some?
  {
    var plan := c.repeat.value;
    var later := if plan.startTime.Some? && plan.startTime.value > c.created then plan.startTime.value else c.created;
    var next := Next(plan.cron.value, later);
    at == if !KeepsBy(plan, r) && next.Some? && next.value > r.compare then next.value else r.clamp
  }

  /** With nothing on record that is the due time, if the lists that count can be read. */
  lemma FirstRunTime(c: Config, o: Object, r: Readings)
    requires c.Valid() && c.repeat.Some? && c.repeat.value.cron.Some? && o.lastSchedule.None?
    ensures Due(c, o, r).Some? <==> Readable(c.repeat.value, r)
    ensures Readable(c.repeat.value, r) ==> Promised(c, r, Due(c, o, r).value)
  {
  }

  /** Some pass after the start takes this time for the first run, by some clock readings. */
  ghost predicate MayBeFirst(c: Config, at: int) {
    && c.Valid() && c.Repeating() && c.repeat.value.cron.Some? && !c.Ended(at)
    && exists r: Readings :: FirstBy(c, r, at)
  }

  /** The readings after the lists are looked at may be taken to be that time itself. */
  ghost predicate FirstBy(c: Config, r: Readings, at: int)
    requires c.Valid() && c.repeat.Some? && c.repeat.value.cron.Some?
  {
    && c.Start() < r.end && r.Ordered(r.end) && r.wait == r.untilEnd == r.requeue == at
    && Readable(c.repeat.value, r) && Promised(c, r, at)
  }

  lemma FirstReadings(c: Config, at: int) returns (r: Readings)
    requires MayBeFirst(c, at)
    ensures c.Start() < r.end && r.Ordered(r.end) && Decide(c, FRESH, r) == Launch(at) && r.requeue == at
  {
    r :| FirstBy(c, r, at);
    FirstRunTime(c, FRESH, r);
  }

  /** A launch with nothing on record is for such a time. */
  lemma LaunchIsFirst(c: Config, o: Object, r: Readings, at: int)
    requires c.Valid() && c.Repeating() && c.Start() < r.end && r.Ordered(r.end)
    requires o.lastSchedule.None? && Decide(c, o, r) == Launch(at)
    ensures MayBeFirst(c, at)
  {
    LaunchFacts(c, o, r, r.end);
    FirstRunTime(c, o, r);
    assert FirstBy(c, r.(clamp := at, wait := at, untilEnd := at, requeue := at), at);
  }

  /** The first run, with one clock reading, is the present or the first tick. It keeps to
      the given lists exactly when the present does, or the first tick is still ahead and
      does; and that tick does whenever the lists cover the hours and days of cron. */
  lemma FirstRunExact(plan: Plan, cron: Schedule, earliest: int, t: int)
    requires cron.Valid() && !plan.days.Unreadable? && !plan.hours.Unreadable?
    ensures var first := FirstTime(plan, cron, earliest, AllAt(t));
            var next := Next(cron, earliest);
            && first.Some? && first.value >= t
            && (first.value == t || first == next)
            && (first.value == t <==> Keeps(plan, t) || next.None? || next.value <= t)
            && (Keeps(plan, first.value)
                <==> Keeps(plan, t) || (next.Some? && next.value > t && Keeps(plan, next.value)))
    ensures (forall d :: d in cron.days ==> Allows(plan.days, d)) ==>
            (forall h :: h in cron.hours ==> Allows(plan.hours, h)) ==>
              forall x :: Next(cron, earliest) == Some(x) ==> Keeps(plan, x)
  {
    if Next(cron, earliest).Some? {
      TickCalendar(cron, Next(cron, earliest).value);
    }
  }

  /** A list that cannot be read fails the first run, unless the day alone decides it. */
  lemma FirstRunRefused(plan: Plan, cron: Schedule, earliest: int, r: Readings)
    requires cron.Valid()
    ensures FirstTime(plan, cron, earliest, r).None? <==>
            plan.days.Unreadable? || (plan.hours.Unreadable? && Allows(plan.days, WeekdayOf(r.day)))
  {
  }

  // ---------------------------------------------------------------- runs after a recorded one

  /** The greatest tick since the record, up to t. */
  ghost predicate LastMissed(c: Config, last: int, t: int, x: int)
    requires c.repeat.Some?
  {
    c.Tick(x) && last < x <= t && forall y :: c.Tick(y) && last < y <= t ==> y <= x
  }

  /** The first tick after an instant. */
  ghost predicate FirstTick(c: Config, from: int, x: int)
    requires c.repeat.Some?
  {
    c.Tick(x) && from < x && forall y :: c.Tick(y) && from < y ==> x <= y
  }

  /** With a run on record and one clock reading, a pass launches exactly when the range is
      open, the schedule stays, nothing is active, and there is a missed tick the last of
      which is after any recorded completion; it launches for that tick. If there is none
      such, it waits for the first tick after the present and the record, or for the end
      time if that is sooner. */
  lemma RecordedExactly(c: Config, o: Object, t: int)
    requires c.Valid() && c.repeat.Some? && o.lastSchedule.Some?
    requires c.repeat.value.cron.Some? && c.repeat.value.cron.value.Nonempty()
    ensures var (v, last, end) := (Decide(c, o, AllAt(t)), o.lastSchedule.value, c.repeat.value.endTime);
            var (going, from) := (!c.Ended(t) && !o.deleting, if last > t then last else t);
            && (v.Launch? <==>
                  going && o.active == [] && exists x :: LastMissed(c, last, t, x) && IsPast(o.lastCompletion, x))
            && (v.Launch? ==> LastMissed(c, last, t, v.at))
            && (going && !(exists x :: LastMissed(c, last, t, x) && IsPast(o.lastCompletion, x)) ==>
                  forall x :: FirstTick(c, from, x) ==>
                    v == Requeue(if end.Some? && end.value < x then end.value - t else x - t))
  {
    var (v, last, end) := (Decide(c, o, AllAt(t)), o.lastSchedule.value, c.repeat.value.endTime);
    var from, due := if last > t then last else t, CatchUp(c.repeat.value.cron.value, last, o.lastCompletion, t);
    CatchUpByTicks(c, last, o.lastCompletion, t);
    assert FirstTick(c, from, due) ==> due > t;
    forall x | FirstTick(c, from, x) && FirstTick(c, from, due)
      ensures x == due
    {
    }
    assert Due(c, o, AllAt(t)) == Some(due);
    LaunchExactly(c, o, t);
  }

  /** The due time, by ticks alone. */
  lemma CatchUpByTicks(c: Config, last: int, completion: Option<int>, t: int)
    requires c.Valid() && c.repeat.Some? && c.repeat.value.cron.Some? && c.repeat.value.cron.value.Nonempty()
    ensures var due := CatchUp(c.repeat.value.cron.value, last, completion, t);
            if exists x :: LastMissed(c, last, t, x) && IsPast(completion, x) then
              LastMissed(c, last, t, due)
            else FirstTick(c, if last > t then last else t, due)
  {
    var cron := c.repeat.value.cron.value;
    LatestTickIsGreatest(cron, last, t);
    CatchUpMeaning(cron, last, completion, t);
    var latest := LatestTick(cron, last, t);
    if latest.Some? {
      LatestIsLastMissed(c, last, t);
    }
    forall x | LastMissed(c, last, t, x)
      ensures latest == Some(x)
    {
      LastMissedIsLatest(c, last, t, x);
    }
  }

  lemma LastMissedIsLatest(c: Config, last: int, t: int, x: int)
    requires c.Valid() && c.repeat.Some? && c.repeat.value.cron.Some? && c.repeat.value.cron.value.Nonempty()
    requires LastMissed(c, last, t, x)
    ensures LatestTick(c.repeat.value.cron.value, last, t) == Some(x)
  {
    var cron := c.repeat.value.cron.value;
    assert x in Ticks(cron, last, t);
    LatestTickIsGreatest(cron, last, t);
    if LatestTick(cron, last, t).Some? {
      LatestIsLastMissed(c, last, t);
      OneLastMissed(c, last, t, x, LatestTick(cron, last, t).value);
    }
  }

  lemma OneLastMissed(c: Config, last: int, t: int, x: int, y: int)
    requires c.repeat.Some? && LastMissed(c, last, t, x) && LastMissed(c, last, t, y)
    ensures x == y
  {
  }

  lemma LatestIsLastMissed(c: Config, last: int, t: int)
    requires c.Valid() && c.repeat.Some? && c.repeat.value.cron.Some? && c.repeat.value.cron.value.Nonempty()
    requires LatestTick(c.repeat.value.cron.value, last, t).Some?
    ensures LastMissed(c, last, t, LatestTick(c.repeat.value.cron.value, last, t).value)
  {
    var cron := c.repeat.value.cron.value;
    LatestTickIsGreatest(cron, last, t);
    forall y | c.Tick(y) && last < y <= t
      ensures y <= LatestTick(cron, last, t).value
    {
      assert y in Ticks(cron, last, t);
    }
  }

  /** Is this instant after the completion, if one is recorded? */
  predicate IsPast(completion: Option<int>, x: int) { completion.Some? ==> completion.value < x }

  // ---------------------------------------------------------------- no lost wakeup

  /** A pass that promises to come back, sets no timer and has no engine to be woken by. */
  ghost predicate Lost(v: Verdict, o: Object) { v.Requeue? && v.after <= 0 && o.active == [] }

  /** The due time, if the pass comes to one. */
  function Due(c: Config, o: Object, r: Readings): Option<int>
    requires c.Valid() && c.repeat.Some?
  {
    if c.repeat.value.cron.None? || Spins(c, o) then None else DueTime(c, o, r)
  }

  /** A repeat pass loses its wakeup exactly when it is still waiting and the end time falls
      between its first and its last clock reading. */
  lemma NoLostWakeup(c: Config, o: Object, r: Readings, from: int)
    requires c.Valid() && c.repeat.Some? && r.Ordered(from)
    ensures var (end, due) := (c.repeat.value.endTime, Due(c, o, r));
            Lost(Decide(c, o, r), o) <==>
            && end.Some? && r.end <= end.value <= r.requeue
            && !o.deleting && o.active == [] && due.Some? && end.value - r.untilEnd < due.value - r.wait
  {
  }

  /** With one clock reading per pass, that is to find the end time reached to the nanosecond
      while still waiting; and whenever it waits, the delay is the time to the due time or
      to the end time, whichever is less. */
  lemma WakeupInTime(c: Config, o: Object, t: int)
    requires c.Valid() && c.repeat.Some?
    ensures var end := c.repeat.value.endTime;
            var v := Decide(c, o, AllAt(t));
            var due := Due(c, o, AllAt(t));
            && (Lost(v, o) <==> end == Some(t) && !o.deleting && o.active == [] && due.Some? && due.value > t)
            && (v.Requeue? && (o.active == [] || v.after > 0) ==>
                  && due.Some?
                  && v.after == if end.Some? && end.value < due.value then end.value - t else due.value - t)
            && (v.Requeue? && v.after <= 0 && o.active != [] ==> due.Some? && (due.value <= t || end == Some(t)))
  {
  }

  /** What a schedule waits for before its first pass: the execution time of a once
      schedule, the start of a repeat schedule. */
  function Awaited(c: Config): int
    requires !c.now && (c.once.Some? || c.repeat.Some?)
  {
    if c.once.Some? then c.once.value
    else if c.repeat.value.startTime.Some? then c.repeat.value.startTime.value
    else c.created
  }

  /** Waiting for that time loses the wakeup exactly at the time itself. */
  lemma NoLostStart(c: Config, o: Object, t: int)
    requires !c.now && (c.once.Some? || c.repeat.Some?) && (o.state.Unset? || o.state.Active?)
    ensures Dispatch(c, o, t) == Proceed <==> t > Awaited(c)
    ensures Dispatch(c, o, t) != Proceed ==> Dispatch(c, o, t) == Leave(After(Awaited(c) - t))
    ensures (exists d :: d <= 0 && Dispatch(c, o, t) == Leave(After(d))) <==> t == Awaited(c)
  {
    assert t == Awaited(c) ==> Dispatch(c, o, t) == Leave(After(0));
  }

  /** With one clock reading, a pass launches exactly when the range is open, the schedule
      stays, its time has come and nothing is active; and it completes exactly when the
      end time has passed, deletion or not. */
  lemma LaunchExactly(c: Config, o: Object, t: int)
    requires c.Valid() && c.repeat.Some?
    ensures var v := Decide(c, o, AllAt(t));
            var due := Due(c, o, AllAt(t));
            && (v == Finish <==> c.Ended(t))
            && (v.Launch? <==> !c.Ended(t) && !o.deleting && due.Some? && due.value <= t && o.active == [])
            && (v.Launch? ==> v.at == due.value)
            && (v == Quit <==> !c.Ended(t) && o.deleting)
    ensures var (v, cron) := (Decide(c, o, AllAt(t)), c.repeat.value.cron);
            var spins := cron.Some? && !cron.value.Nonempty() && o.lastSchedule.Some?;
            && (v.Spin? <==> !c.Ended(t) && !o.deleting && spins)
            && (v.Failed? <==>
                  && !c.Ended(t) && !o.deleting
                  && (cron.None? || (o.lastSchedule.None? && !Readable(c.repeat.value, AllAt(t)))))
  {
  }
}
