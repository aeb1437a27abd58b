/** When the next engine of a repeat schedule is due. */
module ScheduleTime {
  import opened Text
  import opened Instants
  import opened Cron

  // ---------------------------------------------------------------- catching up

  /** The last tick in (after, now], if there is one. */
  function LatestTick(s: Schedule, after: int, now: int): Option<int>
    requires s.Valid() && s.Nonempty()
    decreases now - after
  {
    var t := FirstAfter(s, after);
    if t > now then None
    else
      match LatestTick(s, t, now)
      case Some(later) => Some(later)
      case None => Some(t)
  }

  /** The due time once a schedule has run: the last missed tick, or the tick after it if
      a completion at or after it is on record. */
  function CatchUp(s: Schedule, last: int, completion: Option<int>, now: int): int
    requires s.Valid() && s.Nonempty()
  {
    match LatestTick(s, last, now)
    case None => FirstAfter(s, last)
    case Some(previous) =>
      if completion.Some? && completion.value >= previous then FirstAfter(s, previous) else previous
  }

  ghost function Ticks(s: Schedule, after: int, upTo: int): set<int> {
    set t | after < t <= upTo && IsTick(s, t)
  }

  /** LatestTick is the greatest tick of the interval. */
  lemma {:induction false} LatestTickIsGreatest(s: Schedule, after: int, now: int)
    requires s.Valid() && s.Nonempty()
    ensures match LatestTick(s, after, now)
            case None => Ticks(s, after, now) == {}
            case Some(t) => t in Ticks(s, after, now) && forall x :: x in Ticks(s, after, now) ==> x <= t
    decreases now - after
  {
    var t := FirstAfter(s, after);
    if t <= now {
      LatestTickIsGreatest(s, t, now);
      TicksFrom(s, after, now);
    }
  }

  lemma TicksFrom(s: Schedule, after: int, now: int)
    requires s.Valid() && s.Nonempty() && FirstAfter(s, after) <= now
    ensures Ticks(s, after, now) == {FirstAfter(s, after)} + Ticks(s, FirstAfter(s, after), now)
    ensures FirstAfter(s, after) !in Ticks(s, FirstAfter(s, after), now)
  {
  }

  /** What the catch-up time means, without the walk: any number of missed ticks gives
      one due time, the greatest of them, unless a completion at or after it is recorded;
      otherwise the due time is the first tick still ahead. */
  lemma CatchUpMeaning(s: Schedule, last: int, completion: Option<int>, now: int)
    requires s.Valid() && s.Nonempty()
    ensures var r := CatchUp(s, last, completion, now);
            var missed := Ticks(s, last, now);
            && IsTick(s, r) && r > last
            && (forall x :: x in missed ==> x <= r)
            && (r <= now <==> exists x :: x in missed && (forall y :: y in missed ==> y <= x)
                                          && (completion.Some? ==> completion.value < x))
            && (r > now && last <= now ==> r == FirstAfter(s, now))
            && (r > now && last > now ==> r == FirstAfter(s, last))
  {
    var r := CatchUp(s, last, completion, now);
    LatestTickIsGreatest(s, last, now);
    match LatestTick(s, last, now)
    case None =>
      if last <= now {
        assert forall y :: now < y < r ==> !IsTick(s, y);
        NextUnique(s, now, r);
      }
    case Some(previous) =>
      if completion.Some? && completion.value >= previous {
        assert r in Ticks(s, last, now) <==> last < r <= now;
        NextUnique(s, now, r);
      } else {
        assert previous in Ticks(s, last, now);
      }
  }

  // ---------------------------------------------------------------- the loop

  /** Not after now; the zero time never is. */
  predicate NotAfter(t: Option<int>, now: int) { t.Some? ==> t.value <= now }

  function InstantOf(t: Option<int>): int { if t.Some? then t.value else ZERO_TIME }

  /** What the loop variable holds after some number of turns. */
  function LoopInstant(s: Schedule, last: int, turns: nat): Option<int>
    requires s.Valid()
  {
    if turns == 0 then Next(s, last) else Next(s, InstantOf(LoopInstant(s, last, turns - 1)))
  }

  /** The loop of getRecentUnmetScheduleTime, broken off after so many turns if it is still
      going. It comes to its end exactly if the schedule has ticks and the missed ones are
      not more than the turns, and then turns once for each of them. */
  method CatchUpTime(s: Schedule, last: int, completion: Option<int>, now: int, limit: nat)
    returns (due: Option<int>, turns: nat)
    requires s.Valid()
    ensures due.Some? <==> s.Nonempty() && |Ticks(s, last, now)| <= limit
    ensures due.Some? ==> due.value == CatchUp(s, last, completion, now) && turns == |Ticks(s, last, now)|
    ensures due.None? ==> turns == limit
  {
    var previous: Option<int> := None;
    turns := 0;
    var t := Next(s, last);
    ghost var from := last;
    while NotAfter(t, now)
      invariant turns <= limit && from >= last
      invariant s.Nonempty() ==> t == Some(FirstAfter(s, from))
      invariant !s.Nonempty() ==> t == None
      invariant s.Nonempty() ==> previous == if from == last then None else Some(from)
      invariant s.Nonempty() ==>
                  LatestTick(s, last, now)
                  == if LatestTick(s, from, now).Some? then LatestTick(s, from, now) else previous
      invariant s.Nonempty() ==> |Ticks(s, last, now)| == turns + |Ticks(s, from, now)|
      decreases limit - turns
    {
      if s.Nonempty() {
        TicksFrom(s, from, now);
        from := t.value;
      }
      if turns == limit {
        return None, turns;
      }
      previous := t;
      turns := turns + 1;
      t := Next(s, InstantOf(t));
    }
    LatestTickIsGreatest(s, from, now);
    if previous.None? {
      return Next(s, last), turns;
    }
    if completion.Some? && completion.value - previous.value >= 0 {
      return Next(s, previous.value), turns;
    }
    return previous, turns;
  }

  /** The loop comes to its end exactly if the schedule has ticks: without any, it never
      leaves the zero time. */
  lemma LoopEndsExactly(s: Schedule, last: int, now: int)
    requires s.Valid()
    ensures (exists turns :: !NotAfter(LoopInstant(s, last, turns), now)) <==> s.Nonempty()
    ensures !s.Nonempty() ==> forall turns :: LoopInstant(s, last, turns) == None
  {
    if s.Nonempty() {
      var turns: nat := if now > last then now - last else 0;
      LoopAdvances(s, last, turns);
      assert !NotAfter(LoopInstant(s, last, turns), now);
    }
  }

  lemma {:induction false} LoopAdvances(s: Schedule, last: int, turns: nat)
    requires s.Valid() && s.Nonempty()
    ensures LoopInstant(s, last, turns).Some? && LoopInstant(s, last, turns).value > last + turns
  {
    if turns > 0 {
      LoopAdvances(s, last, turns - 1);
    }
  }
}
