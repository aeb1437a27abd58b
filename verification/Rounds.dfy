/** Runs of round after round, with nothing lost: which scheduled times they can give, and
    when they keep the declared interval. */
module Rounds {
  import opened Text
  import opened Instants
  import opened Cron
  import opened Spacing
  import opened Objects
  import opened ActiveList
  import opened ScheduleTime
  import opened Decision
  import opened Protocol
  import opened Invariants
  import opened Safety
  import opened Witnesses

  // ---------------------------------------------------------------- one round

  /** Between two rounds: every engine created is recorded and finished, the last one is on
      the active list, and no pass is under way. */
  ghost predicate Settled(c: Config, w: World) {
    && Reachable(c, w) && w.controller.Idle? && w.lost == {} && w.deletions == 0
    && (forall name :: name in w.engines ==> w.engines[name].finished)
    && var o := w.Stored();
       && o.state.Active? && !o.deleting && |o.active| == 1 && o.lastSchedule.Some? && o.lastCompletion.None?
  }

  /** The recording write, and the engine runs to its end. */
  lemma RecordAndFinish(c: Config, w: World) returns (w': World)
    requires c.Valid() && c.Repeating() && Reachable(c, w) && w.lost == {} && w.deletions == 0
    requires w.controller.Recording? && w.controller.version == w.Last() && w.controller.at == w.clock
    requires NameAt(c, w.clock) in w.engines
    requires forall name :: name in w.engines ==> w.engines[name].finished || name == NameAt(c, w.clock)
    requires !w.Stored().deleting && w.Stored().lastCompletion.None?
    ensures Settled(c, w') && w'.clock == w.clock && w'.log == w.log
    ensures w'.Stored().lastSchedule == Some(Floor(w.clock))
  {
    ReachableShape(c, w);
    var write, finish := Write(w.clock), FinishEngine(NameAt(c, w.clock));
    var w1 := Apply(c, w, write);
    ReachesStep(c, w, write);
    w' := Apply(c, w1, finish);
    ReachesStep(c, w1, finish);
    ReachesTransitive(c, w, w1, w');
    StillReachable(c, w, w');
  }

  lemma FirstRound(c: Config, t: int) returns (w: World)
    requires MayBeFirst(c, t)
    ensures Settled(c, w) && w.clock == t && w.log == [Creation(t, 1)]
    ensures w.Stored().lastSchedule == Some(Floor(t))
  {
    var r := FirstReadings(c, t);
    var w0 := Start(r.end);
    PrunesNothing(FRESH, [], r.end);
    var w1 := PassLaunches(c, w0, [], FRESH, r, t);
    assert Reachable(c, w1);
    w := RecordAndFinish(c, w1);
  }

  /** At any tick after the record, and within the range, a round creates the engine. */
  lemma Round(c: Config, w: World, x: int) returns (w': World)
    requires c.Valid() && c.Repeating() && Settled(c, w)
    requires c.Tick(x) && x >= w.clock && x > w.Stored().lastSchedule.value && !c.Ended(x)
    ensures Settled(c, w') && w'.clock == x && w'.log == w.log + [Creation(x, |w.versions|)]
    ensures w'.Stored().lastSchedule == Some(Floor(x))
  {
    var w1 := Apply(c, w, Advance(x - w.clock));
    ReachesStep(c, w, Advance(x - w.clock));
    StillReachable(c, w, w1);
    NameIsFree(c, w, x);
    var uid, o := w.Stored().active[0].uid, w.Stored().(active := []);
    SettledGates(c, w1, uid);
    TickLaunches(c, o, x);
    var w2 := PassLaunches(c, w1, [Seen(uid, true)], o, AllAt(x), x);
    StillReachable(c, w1, w2);
    w' := RecordAndFinish(c, w2);
  }

  lemma SettledGates(c: Config, w: World, uid: nat)
    requires c.Valid() && c.Repeating() && Settled(c, w) && uid == w.Stored().active[0].uid
    requires w.clock > w.Stored().lastSchedule.value
    ensures CanGate(c, w, [Seen(uid, true)], w.Stored().(active := []))
  {
    ReachableShape(c, w);
    TimeRange(c, w);
    PrunesOne(w.Stored(), uid, w.clock);
    assert w.Stored() in w.versions;
    assert Persist(w.Stored()) == w.Stored();
  }

  lemma NameIsFree(c: Config, w: World, x: int)
    requires c.Valid() && c.Repeating() && Settled(c, w) && c.Tick(x) && x > w.Stored().lastSchedule.value
    ensures NameAt(c, x) !in w.engines
  {
    ReachableInv(c, w);
    var name := NameAt(c, x);
    if name in w.engines {
      var i := w.engines[name].uid;
      assert IsRecorded(w.log, w.lost, w.controller, i);
      AheadOfBehind(c, w.Stored().lastSchedule.value, w.log[i].at, x);
    }
  }

  lemma PrunesOne(o: Object, uid: nat, t: int)
    requires |o.active| == 1 && o.active[0].uid == uid
    ensures Pruned(o, [Seen(uid, true)], t) == o.(active := [])
  {
    var items, r := [Seen(uid, true)], o.active[0];
    assert o.active == [r] && items[0] in items;
    assert uid in Listed(items) && uid in Finished(items);
    assert Uids(o.active) == {uid};
    OutsideOne(r, Finished(items) + Unlisted(o.active, items));
  }

  lemma TickLaunches(c: Config, o: Object, x: int)
    requires c.Valid() && c.Repeating() && c.Tick(x) && !c.Ended(x)
    requires !o.deleting && o.active == [] && o.lastCompletion.None?
    requires o.lastSchedule.Some? && o.lastSchedule.value < x
    ensures Decide(c, o, AllAt(x)) == Launch(x)
  {
    var cron := c.repeat.value.cron.value;
    CatchUpMeaning(cron, o.lastSchedule.value, None, x);
    LatestTickIsGreatest(cron, o.lastSchedule.value, x);
    assert x in Ticks(cron, o.lastSchedule.value, x);
  }

  // ---------------------------------------------------------------- two rounds and three

  /** A tick after a whole second is at or after any instant of that second. */
  lemma TickAfterSecond(c: Config, t: int, x: int)
    requires c.repeat.Some? && c.Tick(x) && x > Floor(t)
    ensures x > t
  {
    TickCalendar(c.repeat.value.cron.value, x);
    FloorOrder(t, x);
  }

  /** After a first run at t, the later scheduled times are the ticks after the second of t
      that the time range allows: all of them, and no others. */
  lemma LaterTimesExact(c: Config, t: int, x: int)
    requires MayBeFirst(c, t)
    ensures (exists w, j: nat :: LaterRun(c, w, t, j) && w.log[j].at == x) <==> c.Tick(x) && x > Floor(t) && !c.Ended(x)
  {
    if w, j: nat :| LaterRun(c, w, t, j) && w.log[j].at == x {
      FollowsRecord(c, w, 0, j);
      TimeRange(c, w);
    }
    if c.Tick(x) && x > Floor(t) && !c.Ended(x) {
      var w := FirstRound(c, t);
      TickAfterSecond(c, t, x);
      w := Round(c, w, x);
      assert LaterRun(c, w, t, 1) && w.log[1].at == x;
    }
  }

  /** The first scheduled times of runs are those that some clock readings give. */
  lemma FirstTimesExact(c: Config, t: int)
    requires c.Valid() && c.Repeating()
    ensures (exists w :: Reachable(c, w) && w.log != [] && w.log[0].at == t) <==> MayBeFirst(c, t)
  {
    if w :| Reachable(c, w) && w.log != [] && w.log[0].at == t {
      ReachableInv(c, w);
    }
    if MayBeFirst(c, t) {
      var w := FirstRound(c, t);
      assert Reachable(c, w) && w.log[0].at == t;
    }
  }

  /** A run whose first engine is created at t and recorded, and a later engine of it. */
  ghost predicate LaterRun(c: Config, w: World, t: int, j: nat) {
    Reachable(c, w) && 0 < j < |w.log| && w.log[0].at == t && 0 !in w.lost
  }

  // ---------------------------------------------------------------- the declared interval

  /** In every run whose first engine is at t and recorded, every engine is at least n
      minutes after any recorded one before it. */
  ghost predicate RunsApart(c: Config, t: int, n: nat) {
    forall w, i: nat, j: nat :: LaterRun(c, w, t, j) && i < j && i !in w.lost ==>
      w.log[j].at - w.log[i].at >= n * MINUTE
  }

  /** The instant t, and the ticks of the time range after its second, are as far apart. */
  ghost predicate TicksApart(c: Config, t: int, n: nat)
    requires c.repeat.Some?
  {
    && (forall y :: c.Tick(y) && y > Floor(t) && !c.Ended(y) ==> y - t >= n * MINUTE)
    && (forall x, y :: c.Tick(x) && c.Tick(y) && Floor(t) < x < y && !c.Ended(y) ==> y - x >= n * MINUTE)
  }

  /** The interval between engines is kept exactly when it is between the first run and the
      ticks, and between the ticks themselves. */
  lemma IntervalExact(c: Config, t: int, n: nat)
    requires MayBeFirst(c, t)
    ensures RunsApart(c, t, n) <==> TicksApart(c, t, n)
  {
    if TicksApart(c, t, n) {
      forall w, i: nat, j: nat | LaterRun(c, w, t, j) && i < j && i !in w.lost
        ensures w.log[j].at - w.log[i].at >= n * MINUTE
      {
        FollowsRecord(c, w, 0, j);
        TimeRange(c, w);
        if i > 0 {
          FollowsRecord(c, w, 0, i);
          FollowsRecord(c, w, i, j);
          TickAfterSecond(c, w.log[i].at, w.log[j].at);
        }
      }
    }
    if RunsApart(c, t, n) {
      forall y | c.Tick(y) && y > Floor(t) && !c.Ended(y)
        ensures y - t >= n * MINUTE
      {
        var w := FirstRound(c, t);
        TickAfterSecond(c, t, y);
        w := Round(c, w, y);
        assert LaterRun(c, w, t, 1);
        assert w.log[1].at - w.log[0].at >= n * MINUTE;
      }
      forall x, y | c.Tick(x) && c.Tick(y) && Floor(t) < x < y && !c.Ended(y)
        ensures y - x >= n * MINUTE
      {
        var w := TwoRounds(c, t, x, y);
        assert LaterRun(c, w, t, 2);
        assert w.log[2].at - w.log[1].at >= n * MINUTE;
      }
    }
  }

  lemma TwoRounds(c: Config, t: int, x: int, y: int) returns (w: World)
    requires MayBeFirst(c, t) && c.Tick(x) && c.Tick(y) && Floor(t) < x < y && !c.Ended(y)
    ensures LaterRun(c, w, t, 2) && w.lost == {} && |w.log| == 3 && w.log[1].at == x && w.log[2].at == y
  {
    w := FirstRound(c, t);
    TickAfterSecond(c, t, x);
    w := Round(c, w, x);
    FloorOrder(x, y);
    w := Round(c, w, y);
  }

  lemma TickLater(s: Schedule, x: int, weeks: int)
    requires IsTick(s, x)
    ensures IsTick(s, x + weeks * MINUTES_PER_WEEK * MINUTE)
  {
    var m, later := x / MINUTE, x / MINUTE + weeks * MINUTES_PER_WEEK;
    assert x == m * MINUTE;
    assert x + weeks * MINUTES_PER_WEEK * MINUTE == later * MINUTE;
    assert later * MINUTE / MINUTE == later && later * MINUTE % MINUTE == 0;
    Periodic(s, m, weeks);
  }

  /** The first tick after the second of t, if there is one, is n minutes after t. */
  predicate TickWaits(cron: Schedule, t: int, n: nat)
    requires cron.Valid()
  {
    var next := Next(cron, Floor(t));
    next.Some? ==> next.value - t >= n * MINUTE
  }

  lemma FirstTickOnly(c: Config, t: int, n: nat)
    requires c.Valid() && c.repeat.Some? && c.repeat.value.cron.Some? && c.repeat.value.endTime.None?
    ensures TickWaits(c.repeat.value.cron.value, t, n) <==>
            forall y :: c.Tick(y) && y > Floor(t) && !c.Ended(y) ==> y - t >= n * MINUTE
  {
    var next := Next(c.repeat.value.cron.value, Floor(t));
    assert next.Some? ==> c.Tick(next.value);
  }

  /** With no end time: exactly when the first tick after the second of the first run is n
      minutes after that run, and the ticks keep the interval. */
  lemma IntervalForever(c: Config, t: int, n: nat)
    requires MayBeFirst(c, t) && c.repeat.value.endTime.None?
    ensures var cron := c.repeat.value.cron.value;
            RunsApart(c, t, n) <==> TickWaits(cron, t, n) && KeepsInterval(cron, n)
  {
    var cron := c.repeat.value.cron.value;
    IntervalExact(c, t, n);
    FirstTickOnly(c, t, n);
    if TicksApart(c, t, n) {
      forall x, y | IsTick(cron, x) && IsTick(cron, y) && x < y
        ensures y - x >= n * MINUTE
      {
        var shift := TicksBeyond(c, t, x, y);
      }
    }
  }

  /** The same two ticks some weeks later, past t. */
  lemma TicksBeyond(c: Config, t: int, x: int, y: int) returns (shift: int)
    requires c.repeat.Some? && c.Tick(x) && c.Tick(y)
    ensures x + shift > Floor(t) && c.Tick(x + shift) && c.Tick(y + shift)
  {
    var weeks := if x > t then 0 else t - x + 1;
    shift := weeks * MINUTES_PER_WEEK * MINUTE;
    TickLater(c.repeat.value.cron.value, x, weeks);
    TickLater(c.repeat.value.cron.value, y, weeks);
    assert shift >= weeks;
  }

  /** Whatever its interval, a schedule may run twice within a second: the first run comes
      just before a tick. */
  lemma SecondRunTooSoon(c: Config, t: int)
    requires MayBeFirst(c, t) && c.Tick(t + SECOND) && !c.Ended(t + SECOND)
    ensures exists w :: Reachable(c, w) && w.lost == {} && w.deletions == 0 && |w.log| == 2
                        && w.log[0].at == t && w.log[1].at == t + SECOND && AfterFirst(w, 1)
    ensures forall n: nat :: n > 0 ==> !RunsApart(c, t, n)
  {
    var w := FirstRound(c, t);
    TickCalendar(c.repeat.value.cron.value, t + SECOND);
    w := Round(c, w, t + SECOND);
    FollowsRecord(c, w, 0, 1);
    assert LaterRun(c, w, t, 1);
    forall n: nat | n > 0
      ensures !RunsApart(c, t, n)
    {
      assert w.log[1].at - w.log[0].at < n * MINUTE;
    }
  }
}
