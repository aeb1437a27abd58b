/** The cron schedules the controller builds, as the weekly sets of minutes they mean.
    The text of a field is read as `cron.ParseStandard` reads it (crontab entry format of
    IEEE Std 1003.1, `crontab` utility, with steps, three-letter day names and `?`). */
module Cron {
  import opened Text
  import opened Instants

  const MINUTES_PER_WEEK: int := 7 * 24 * 60

  // ---------------------------------------------------------------- field text

  function DayNumber(name: string): Option<nat> {
    match name
    case "sun" => Some(0)
    case "mon" => Some(1)
    case "tue" => Some(2)
    case "wed" => Some(3)
    case "thu" => Some(4)
    case "fri" => Some(5)
    case "sat" => Some(6)
    case _ => None
  }

  /** A non-negative number or, in the weekday field, a day name in any letter case. */
  function Atom(s: string, named: bool): Option<nat> {
    if named && DayNumber(ToLower(s)).Some? then DayNumber(ToLower(s))
    else
      match Atoi(s)
      case Some(v) => if v < 0 then None else Some(v)
      case None => None
  }

  predicate OnStep(x: int, from: int, step: nat)
    requires step > 0
  {
    x >= from && (x - from) % step == 0
  }

  /** from, from + step, from + 2 * step, ... up to `to`. */
  function Steps(from: nat, to: nat, step: nat): set<nat>
    requires step > 0
  {
    set x: nat | x <= to && OnStep(x, from, step)
  }

  /** The two ends of an item, before its step is looked at; None if it is malformed. */
  function Ends(range: string, max: nat, named: bool): Option<(nat, nat)> {
    var ends := Split(range, '-');
    if ends[0] == "*" || ends[0] == "?" then Some((0, max))
    else if |ends| > 2 then None
    else
      match (Atom(ends[0], named), Atom(ends[|ends| - 1], named))
      case (Some(from), Some(to)) => Some((from, to))
      case _ => None
  }

  /** One comma-separated item: `*`, `a`, `a-b`, each with an optional `/step`. */
  function Item(item: string, max: nat, named: bool): Option<set<nat>> {
    var parts := Split(item, '/');
    match Ends(parts[0], max, named)
    case None => None
    case Some((from, to)) =>
      if |parts| == 1 then
        if from <= to <= max then Some(Steps(from, to, 1)) else None
      else if |parts| > 2 then None
      else
        match Atoi(parts[1])
        case None => None
        case Some(step) =>
          // a lone number with a step runs to the end of the field
          var last := if '-' in parts[0] then to else max;
          if step > 0 && from <= last <= max then Some(Steps(from, last, step)) else None
  }

  function Items(parts: seq<string>, max: nat, named: bool): Option<set<nat>> {
    if parts == [] then Some({})
    else
      match (if parts[0] == "" then Some({}) else Item(parts[0], max, named),
             Items(parts[1..], max, named))
      case (Some(a), Some(b)) => Some(a + b)
      case _ => None
  }

  /** A whole field. Empty items are skipped, so a field of commas alone lists nothing. */
  function Field(text: string, max: nat, named: bool): Option<set<nat>> { Items(Split(text, ','), max, named) }

  lemma ItemNonempty(item: string, max: nat, named: bool)
    requires Item(item, max, named).Some?
    ensures Item(item, max, named).value != {}
  {
    var parts := Split(item, '/');
    var from := Ends(parts[0], max, named).value.0;
    var step := if |parts| == 1 then 1 else Atoi(parts[1]).value;
    assert OnStep(from, from, step) && from in Item(item, max, named).value;
  }

  lemma {:induction false} ItemsNonempty(parts: seq<string>, max: nat, named: bool)
    requires Items(parts, max, named).Some?
    ensures Items(parts, max, named).value != {} <==> exists p :: p in parts && p != ""
  {
    if parts != [] {
      assert parts == [parts[0]] + parts[1..];
      ItemsNonempty(parts[1..], max, named);
      var rest := Items(parts[1..], max, named).value;
      if parts[0] != "" {
        ItemNonempty(parts[0], max, named);
        var x :| x in Item(parts[0], max, named).value;
        assert x in Items(parts, max, named).value && parts[0] in parts;
      } else {
        assert Items(parts, max, named).value == {} + rest == rest;
        assert forall p :: p in parts && p != "" ==> p in parts[1..];
        assert forall p :: p in parts[1..] ==> p in parts;
      }
    }
  }

  /** Does some item of the list stand between its commas? */
  predicate HasItem(text: string) { exists p :: p in Split(text, ',') && p != "" }

  /** An accepted field lists something exactly when it has an item. */
  lemma FieldNonempty(text: string, max: nat, named: bool)
    requires Field(text, max, named).Some?
    ensures Field(text, max, named).value != {} <==> HasItem(text)
  {
    ItemsNonempty(Split(text, ','), max, named);
  }

  lemma {:induction false} ItemsRange(parts: seq<string>, max: nat, named: bool)
    requires Items(parts, max, named).Some?
    ensures forall x :: x in Items(parts, max, named).value ==> x <= max
  {
    if parts != [] {
      ItemsRange(parts[1..], max, named);
    }
  }

  // ---------------------------------------------------------------- schedules

  /** Day-of-month and month are always `*`, so three sets say everything. */
  datatype Schedule = Schedule(minutes: set<nat>, hours: set<nat>, days: set<nat>) {
    ghost predicate Valid() {
      && (forall m :: m in minutes ==> m < 60)
      && (forall h :: h in hours ==> h < 24)
      && (forall d :: d in days ==> d < 7)
    }

    /** Nothing is missing; else no minute ever matches. */
    predicate Nonempty() { minutes != {} && hours != {} && days != {} }

    /** Is this hour (counted from the epoch, a Thursday) an included one? */
    predicate HourIncluded(hour: int) {
      hour % 24 in hours && Weekday(hour / 24) in days
    }

    predicate Matches(minute: int) {
      minute % 60 in minutes && HourIncluded(minute / 60)
    }
  }

  /** 0 is Sunday; day 0 of the epoch was a Thursday. */
  function Weekday(day: int): nat { (day + 4) % 7 }

  function WeekdayOf(t: int): nat { Weekday(t / (24 * HOUR)) }

  function HourOf(t: int): nat { t / HOUR % 24 }

  predicate IsTick(s: Schedule, t: int) { t % MINUTE == 0 && s.Matches(t / MINUTE) }

  lemma TickCalendar(s: Schedule, t: int)
    requires IsTick(s, t)
    ensures WeekdayOf(t) in s.days && HourOf(t) in s.hours && Whole(t) && s.Nonempty()
  {
    var m := t / MINUTE;
    assert t == m * MINUTE;
    assert t / HOUR == m / 60;
    assert t / (24 * HOUR) == m / 60 / 24;
  }

  /** A tick is a whole minute whose minute of the hour, hour and weekday are included. */
  lemma TickExactly(s: Schedule, t: int)
    ensures IsTick(s, t) <==>
            t % MINUTE == 0 && t / MINUTE % 60 in s.minutes && HourOf(t) in s.hours && WeekdayOf(t) in s.days
  {
    var m := t / MINUTE;
    if t % MINUTE == 0 {
      assert t == m * MINUTE;
      assert t / HOUR == m / 60;
      assert t / (24 * HOUR) == m / 60 / 24;
    }
  }

  /** The epoch began at midnight on a Thursday, the year 2024 on a Monday; and days and hours
      follow each other. */
  lemma CalendarSteps(t: int)
    ensures WeekdayOf(0) == 4 && HourOf(0) == 0 && WeekdayOf(1_704_067_200 * SECOND) == 1
    ensures WeekdayOf(t + 24 * HOUR) == (WeekdayOf(t) + 1) % 7 && HourOf(t + 24 * HOUR) == HourOf(t)
    ensures HourOf(t + HOUR) == (HourOf(t) + 1) % 24
    ensures HourOf(t + HOUR) != 0 ==> WeekdayOf(t + HOUR) == WeekdayOf(t)
  {
    HourSteps(t);
    DaySteps(t);
    assert 1_704_067_200 * SECOND / (24 * HOUR) == 19_723;
  }

  lemma HourSteps(t: int)
    ensures HourOf(t + HOUR) == (HourOf(t) + 1) % 24
    ensures HourOf(t + HOUR) != 0 ==> WeekdayOf(t + HOUR) == WeekdayOf(t)
  {
    var h := t / HOUR;
    assert (t + HOUR) / HOUR == h + 1;
    DayOfHour(t);
    DayOfHour(t + HOUR);
  }

  lemma DayOfHour(t: int)
    ensures t / (24 * HOUR) == t / HOUR / 24
  {
  }

  lemma DaySteps(t: int)
    ensures WeekdayOf(t + 24 * HOUR) == (WeekdayOf(t) + 1) % 7 && HourOf(t + 24 * HOUR) == HourOf(t)
  {
    assert (t + 24 * HOUR) / (24 * HOUR) == t / (24 * HOUR) + 1;
    assert (t + 24 * HOUR) / HOUR == t / HOUR + 24;
  }

  /** The seven names, Sunday first, and no others. */
  lemma DayNames(name: string)
    ensures match DayNumber(name)
            case Some(d) => d < 7 && name == ["sun", "mon", "tue", "wed", "thu", "fri", "sat"][d]
            case None => name !in ["sun", "mon", "tue", "wed", "thu", "fri", "sat"]
  {
  }

  /** The text `cron.ParseStandard` is given, for the two shapes the controller builds. */
  function ParseStandard(text: string): (r: Option<Schedule>)
    ensures r.Some? ==> r.value.Valid()
  {
    var fields := Fields(text);
    if |fields| != 5 || fields[2] != "*" || fields[3] != "*" then None
    else
      match (Field(fields[0], 59, false), Field(fields[1], 23, false), Field(fields[4], 6, true))
      case (Some(minutes), Some(hours), Some(days)) =>
        assert Schedule(minutes, hours, days).Valid() by {
          ItemsRange(Split(fields[0], ','), 59, false);
          ItemsRange(Split(fields[1], ','), 23, false);
          ItemsRange(Split(fields[4], ','), 6, true);
        }
        Some(Schedule(minutes, hours, days))
      case _ => None
  }

  // ---------------------------------------------------------------- Next

  /** The weekly pattern of minutes repeats. */
  lemma Periodic(s: Schedule, minute: int, weeks: int)
    ensures s.Matches(minute + weeks * MINUTES_PER_WEEK) == s.Matches(minute)
  {
    var later := minute + weeks * MINUTES_PER_WEEK;
    assert later / 60 == minute / 60 + weeks * 168;
    assert later / 60 / 24 == minute / 60 / 24 + weeks * 7;
  }

  /** A schedule has a tick in any week exactly if none of its sets is empty. */
  lemma MatchWithinWeek(s: Schedule, minute: int)
    requires s.Valid()
    ensures s.Nonempty() <==> exists hit :: minute < hit <= minute + MINUTES_PER_WEEK && s.Matches(hit)
  {
    if s.Nonempty() {
      HitWithinWeek(s, minute);
    }
  }

  lemma HitWithinWeek(s: Schedule, minute: int)
    requires s.Valid() && s.Nonempty()
    ensures exists hit :: minute < hit <= minute + MINUTES_PER_WEEK && s.Matches(hit)
  {
    var m, h, d :| m in s.minutes && h in s.hours && d in s.days;
    var target := (d + 3) % 7 * 1440 + h * 60 + m;
    assert target / 60 == (d + 3) % 7 * 24 + h;
    assert target / 60 / 24 == (d + 3) % 7;
    assert s.Matches(target);
    var ahead := (target - (minute + 1)) % MINUTES_PER_WEEK;
    var hit := minute + 1 + ahead;
    var weeks := (hit - target) / MINUTES_PER_WEEK;
    assert hit == target + weeks * MINUTES_PER_WEEK;
    Periodic(s, target, weeks);
  }

  /** The least matching minute after `minute`, known to come no later than `bound`. */
  function Search(s: Schedule, minute: int, ghost bound: int): (r: int)
    requires minute < bound && s.Matches(bound)
    ensures minute < r <= bound && s.Matches(r)
    ensures forall k :: minute < k < r ==> !s.Matches(k)
    decreases bound - minute
  {
    if s.Matches(minute + 1) then minute + 1 else Search(s, minute + 1, bound)
  }

  ghost function Bound(s: Schedule, minute: int): (hit: int)
    requires s.Valid() && s.Nonempty()
    ensures minute < hit <= minute + MINUTES_PER_WEEK && s.Matches(hit)
  {
    HitWithinWeek(s, minute);
    var hit :| minute < hit <= minute + MINUTES_PER_WEEK && s.Matches(hit);
    hit
  }

  lemma NoTickBefore(s: Schedule, t: int, minute: int)
    requires forall k :: t / MINUTE < k < minute ==> !s.Matches(k)
    ensures forall x :: t < x < minute * MINUTE ==> !IsTick(s, x)
  {
    forall x | t < x < minute * MINUTE && x % MINUTE == 0
      ensures !s.Matches(x / MINUTE)
    {
      assert x == x / MINUTE * MINUTE;
      assert t / MINUTE < x / MINUTE < minute;
    }
  }

  /** The first tick strictly after `t`, at most a week away. */
  function FirstAfter(s: Schedule, t: int): (r: int)
    requires s.Valid() && s.Nonempty()
    ensures IsTick(s, r) && t < r <= t + MINUTES_PER_WEEK * MINUTE
    ensures forall x :: t < x < r ==> !IsTick(s, x)
  {
    var minute := Search(s, t / MINUTE, Bound(s, t / MINUTE));
    var r := minute * MINUTE;
    assert r / MINUTE == minute && r % MINUTE == 0;
    NoTickBefore(s, t, minute);
    r
  }

  /** cron.Schedule.Next: the first tick strictly after `t`, or None if there are no ticks,
      for which the source has the zero time. */
  function Next(s: Schedule, t: int): (r: Option<int>)
    requires s.Valid()
    ensures r.Some? <==> exists x :: x > t && IsTick(s, x)
    ensures r.Some? ==> IsTick(s, r.value) && t < r.value <= t + MINUTES_PER_WEEK * MINUTE
    ensures r.Some? ==> forall x :: t < x < r.value ==> !IsTick(s, x)
  {
    assert forall x :: IsTick(s, x) ==> s.Nonempty();
    if s.Nonempty() then Some(FirstAfter(s, t)) else None
  }

  /** Next is the only instant with these properties. */
  lemma NextUnique(s: Schedule, t: int, x: int)
    requires s.Valid() && s.Nonempty()
    requires IsTick(s, x) && t < x
    requires forall y :: t < y < x ==> !IsTick(s, y)
    ensures x == FirstAfter(s, t)
  {
    assert !(FirstAfter(s, t) < x);
  }
}
