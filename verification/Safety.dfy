/** What holds in every reachable state and along every run. */
module Safety {
  import opened Text
  import opened Instants
  import opened Cron
  import opened ActiveList
  import opened Spacing
  import opened Objects
  import opened Decision
  import opened Protocol
  import opened Invariants
  import opened Exclusion

  // ---------------------------------------------------------------- the invariant

  /** Later versions never lose or lower the recorded schedule time. */
  ghost predicate LastMonotone(c: Config, versions: seq<Object>) {
    c.Repeating() ==>
      forall i, j :: 0 <= i <= j < |versions| && versions[i].lastSchedule.Some? ==>
        versions[j].lastSchedule.Some? && versions[i].lastSchedule.value <= versions[j].lastSchedule.value
  }

  ghost predicate Inv(c: Config, w: World) {
    && Shape(c, w)
    && Accounting(c, w)
    && CompletedEmpty(w)
    && InTime(c, w)
    && Order(c, w)
    && ExclusiveOk(c, w)
    && GatesOk(c, w.versions, w.log, w.controller)
    && (c.Repeating() ==> RecordSeen(w.versions, w.log, w.lost))
    && CountOk(w.engines, w.log, w.deletions)
    && AllLive(c, w.engines, w.log, w.deletions)
    && SingleOk(c, w)
    && LastMonotone(c, w.versions)
    && (c.Repeating() ==> FirstOk(c, w))
    && CompletionOk(c, w)
  }

  /** Without a run on record an engine is for a time that may be the first; and before the
      first engine nothing is on record. */
  ghost predicate FirstOk(c: Config, w: World) {
    var k := w.controller;
    && (k.Creating? && k.local.lastSchedule.None? ==> MayBeFirst(c, k.at))
    && (forall e :: e in w.log ==>
          e.gate < |w.versions| && (w.versions[e.gate].lastSchedule.None? ==> MayBeFirst(c, e.at)))
    && (w.log != [] ==> w.versions[w.log[0].gate].lastSchedule.None?)
    && (w.log == [] ==> forall o :: o in w.versions ==> o.lastSchedule.None?)
  }

  lemma FirstOkStep(c: Config, w: World, a: Action)
    requires c.Valid() && c.Repeating() && Shape(c, w) && InTime(c, w) && FirstOk(c, w)
    requires Enabled(c, w, a) && Possible(c, w, a)
    ensures FirstOk(c, Apply(c, w, a))
  {
    StepFrame(c, w, a);
    var k, w' := w.controller, Apply(c, w, a);
    assert w.Stored() in w.versions;
    LogFirstStep(c, w, a);
    if a.Choose? && a.verdict.Launch? && k.local.lastSchedule.None? {
      LaunchIsFirst(c, k.local, a.readings, a.verdict.at);
    }
    if a.Create? && w.log == [] {
      assert w.versions[k.version] in w.versions;
    } else if w.log != [] {
      assert w.log[0] in w.log && w'.log[0] == w.log[0];
    }
  }

  lemma LogFirstStep(c: Config, w: World, a: Action)
    requires c.Repeating() && Shape(c, w) && FirstOk(c, w) && Possible(c, w, a)
    ensures var w' := Apply(c, w, a);
            forall e :: e in w'.log ==>
              e.gate < |w'.versions| && (w'.versions[e.gate].lastSchedule.None? ==> MayBeFirst(c, e.at))
  {
    StepFrame(c, w, a);
    var w' := Apply(c, w, a);
    forall e | e in w'.log
      ensures e.gate < |w'.versions| && (w'.versions[e.gate].lastSchedule.None? ==> MayBeFirst(c, e.at))
    {
      if e in w.log {
        assert w'.versions[e.gate] == w.versions[e.gate];
      }
    }
  }

  lemma InitInv(c: Config, w: World)
    requires c.Valid() && Init(c, w)
    ensures Inv(c, w)
  {
    assert w.versions == [w.Stored()];
    assert RunningUids(w.engines) == {};
  }

  /** Recording an engine raises the recorded time; no other step touches it. */
  lemma LastStep(c: Config, w: World, a: Action)
    requires c.Valid() && c.Repeating() && Shape(c, w) && Order(c, w) && Possible(c, w, a)
    ensures |Apply(c, w, a).versions| > 0
    ensures var (last, last') := (w.Stored().lastSchedule, Apply(c, w, a).Stored().lastSchedule);
            || last' == last
            || (a.Write? && w.controller.Recording? && last'.Some? && (last.Some? ==> last.value < last'.value))
  {
    StepFrame(c, w, a);
    var k := w.controller;
    var last := w.Stored().lastSchedule;
    if a.Write? && k.Recording? && last.Some? {
      TickCalendar(c.repeat.value.cron.value, k.at);
      FloorOrder(k.at, k.at);
    }
  }

  lemma LastMonotoneStep(c: Config, w: World, a: Action)
    requires c.Valid() && Shape(c, w) && Order(c, w) && LastMonotone(c, w.versions) && Possible(c, w, a)
    ensures LastMonotone(c, Apply(c, w, a).versions)
  {
    StepFrame(c, w, a);
    if c.Repeating() {
      LastStep(c, w, a);
      assert LastMonotone(c, w.versions + [Apply(c, w, a).Stored()]);
    }
  }

  lemma StepInv(c: Config, w: World, a: Action)
    requires c.Valid() && Inv(c, w) && Enabled(c, w, a)
    ensures Possible(c, w, a) && Inv(c, Apply(c, w, a))
  {
    EnabledIsPossible(c, w, a);
    ShapeStep(c, w, a);
    AccountingStep(c, w, a);
    CompletedEmptyStep(c, w, a);
    InTimeStep(c, w, a);
    OrderStep(c, w, a);
    ExclusiveStep(c, w, a);
    GatesStep(c, w, a);
    if c.Repeating() {
      RecordSeenStep(c, w, a);
    }
    CountStep(c, w, a);
    LiveStep(c, w, a);
    SingleStep(c, w, a);
    LastMonotoneStep(c, w, a);
    if c.Repeating() {
      FirstOkStep(c, w, a);
    }
    CompletionStep(c, w, a);
  }

  lemma {:induction false} RunInv(c: Config, w: World, acts: seq<Action>)
    requires c.Valid() && Inv(c, w) && Allowed(c, w, acts)
    ensures Inv(c, Run(c, w, acts))
    decreases |acts|
  {
    if acts != [] {
      StepInv(c, w, acts[0]);
      RunInv(c, Apply(c, w, acts[0]), acts[1..]);
    }
  }

  lemma ReachableInv(c: Config, w: World)
    requires c.Valid() && Reachable(c, w)
    ensures Inv(c, w)
  {
    var w0 :| Init(c, w0) && Reaches(c, w0, w);
    var acts :| Leads(c, w0, acts, w);
    InitInv(c, w0);
    RunInv(c, w0, acts);
  }

  lemma ReachableShape(c: Config, w: World)
    requires c.Valid() && Reachable(c, w)
    ensures Shape(c, w)
  {
    ReachableInv(c, w);
  }

  lemma ReachableOrder(c: Config, w: World)
    requires c.Valid() && Reachable(c, w)
    ensures |w.versions| > 0 && Order(c, w) && AllLive(c, w.engines, w.log, w.deletions) && LastMonotone(c, w.versions)
  {
    ReachableInv(c, w);
  }

  predicate WholeOrNone(t: Option<int>) { t.Some? ==> Whole(t.value) }

  /** Stored timestamps are whole seconds. */
  lemma StoredWhole(c: Config, w: World)
    requires c.Valid() && Reachable(c, w)
    ensures forall o :: o in w.versions ==>
              && WholeOrNone(o.lastSchedule) && WholeOrNone(o.lastCompletion)
              && WholeOrNone(o.startTime) && WholeOrNone(o.endTime)
  {
    ReachableShape(c, w);
    forall o | o in w.versions
      ensures WholeOrNone(o.lastSchedule) && WholeOrNone(o.lastCompletion)
      ensures WholeOrNone(o.startTime) && WholeOrNone(o.endTime)
    {
      assert Persist(o) == o;
    }
  }

  // ---------------------------------------------------------------- repeat schedules

  lemma SubsetSize(a: set<nat>, b: set<nat>)
    requires a <= b
    ensures |a| <= |b|
  {
    assert b == a + (b - a);
  }

  /** Forbid: at most one engine runs, plus one for each recording write lost. */
  lemma Forbid(c: Config, w: World)
    requires c.Valid() && c.Repeating() && Reachable(c, w)
    ensures |RunningUids(w.engines)| <= 1 + |w.lost|
    ensures w.lost == {} ==> |RunningUids(w.engines)| <= 1
  {
    ReachableInv(c, w);
    AllButNewest(RunningUids(w.engines), w.lost, |w.log|);
  }

  lemma AllButNewest(running: set<nat>, lost: set<nat>, count: nat)
    requires forall i :: i in running ==> i in lost || i + 1 == count
    ensures |running| <= 1 + |lost|
  {
    var newest := if count > 0 then {count - 1} else {};
    assert running <= lost + newest;
    SubsetSize(running, lost + newest);
  }

  /** Engines created are RunInstances, the recordings lost, and the one in flight. */
  lemma RunsConserved(c: Config, w: World)
    requires c.Valid() && c.Repeating() && Reachable(c, w)
    ensures |w.log| == w.Stored().runs + |w.lost| + (if w.controller.Recording? then 1 else 0)
  {
    ReachableInv(c, w);
  }

  /** Only a recording write changes RunInstances, by one. */
  lemma RunsChange(c: Config, w: World, a: Action)
    requires c.Valid() && c.Repeating() && Reachable(c, w) && Enabled(c, w, a)
    ensures |Apply(c, w, a).versions| > 0
    ensures Apply(c, w, a).Stored().runs
            == w.Stored().runs + if a.Write? && w.controller.Recording? then 1 else 0
  {
    ReachableShape(c, w);
    EnabledIsPossible(c, w, a);
    StepFrame(c, w, a);
  }

  /** The name is a lock: scheduled seconds never go back, and two engines share one only
      if the recording of the first was lost and that engine is gone; with no engine
      deleted they strictly increase. */
  lemma SecondsIncrease(c: Config, w: World, i: nat, j: nat)
    requires c.Valid() && c.Repeating() && Reachable(c, w) && i < j < |w.log|
    ensures Unix(w.log[i].at) <= Unix(w.log[j].at)
    ensures Unix(w.log[i].at) == Unix(w.log[j].at) ==> i in w.lost && !Live(c, w.engines, w.log, i)
    ensures w.deletions == 0 ==> Unix(w.log[i].at) < Unix(w.log[j].at)
  {
    ReachableOrder(c, w);
  }

  /** A Create is refused for its name only because an engine of that very second exists. */
  lemma NameTaken(c: Config, w: World)
    requires c.Valid() && c.Repeating() && Reachable(c, w) && w.controller.Creating?
    ensures NameAt(c, w.controller.at) in w.engines <==>
            exists i: nat :: i < |w.log| && Live(c, w.engines, w.log, i) && Unix(w.log[i].at) == Unix(w.controller.at)
  {
    ReachableInv(c, w);
    var name := NameAt(c, w.controller.at);
    if name in w.engines {
      var i := w.engines[name].uid;
      NameIsSecond(c, w.log[i].at, w.controller.at);
      assert Live(c, w.engines, w.log, i);
    }
    if i: nat :| i < |w.log| && Live(c, w.engines, w.log, i) && Unix(w.log[i].at) == Unix(w.controller.at) {
      NameIsSecond(c, w.log[i].at, w.controller.at);
    }
  }

  /** The recorded LastScheduleTime strictly increases whenever it changes. */
  lemma LastIncreases(c: Config, w: World, i: nat, j: nat)
    requires c.Valid() && c.Repeating() && Reachable(c, w) && i < j < |w.versions|
    requires w.versions[i].lastSchedule.Some? && w.versions[j].lastSchedule != w.versions[i].lastSchedule
    ensures w.versions[j].lastSchedule.Some? && w.versions[i].lastSchedule.value < w.versions[j].lastSchedule.value
  {
    ReachableOrder(c, w);
  }

  /** Freshness: each engine follows its own successful gating write, which replaced the
      very version the pass had read and found the schedule unhalted, not being deleted,
      with no active engine, and recorded strictly before the engine's time. */
  lemma Freshness(c: Config, w: World, i: nat)
    requires c.Valid() && c.Repeating() && Reachable(c, w) && i < |w.log|
    ensures var g := w.log[i].gate;
            && 0 < g < |w.versions|
            && w.versions[g] == w.versions[g - 1].(active := [], lastCompletion := w.versions[g].lastCompletion)
            && MayRun(w.versions[g].state) && !w.versions[g].deleting
            && (w.versions[g].lastSchedule.Some? ==> w.versions[g].lastSchedule.value < w.log[i].at)
    ensures forall j :: i < j < |w.log| ==> w.log[i].gate < w.log[j].gate
  {
    ReachableInv(c, w);
    assert GateOf(c, w.versions, w.log[i]);
  }

  /** The time range: every scheduled time is after the start and not after the end, no
      engine is created before its time, and every recorded time, in whole seconds, is
      within the range. */
  lemma TimeRange(c: Config, w: World)
    requires c.Valid() && c.Repeating() && Reachable(c, w)
    ensures var (start, end) := (c.repeat.value.startTime, c.repeat.value.endTime);
            && (forall i :: 0 <= i < |w.log| ==>
                  && w.log[i].at <= w.clock && (end.Some? ==> w.log[i].at <= end.value)
                  && w.log[i].at > if start.Some? then start.value else c.created)
            && (forall o :: o in w.versions && o.lastSchedule.Some? ==>
                  && (end.Some? ==> o.lastSchedule.value <= end.value)
                  && o.lastSchedule.value >= if start.Some? then start.value else c.created)
  {
    ReachableInv(c, w);
  }

  /** Created once something is on record, so at a tick of the cron schedule. */
  predicate AfterFirst(w: World, i: nat) {
    i < |w.log| && w.log[i].gate < |w.versions| && w.versions[w.log[i].gate].lastSchedule.Some?
  }

  /** Every engine after the first recorded one is on the work calendar. */
  lemma OnCalendar(c: Config, w: World, i: nat)
    requires c.Valid() && c.Repeating() && Reachable(c, w) && AfterFirst(w, i)
    ensures c.Tick(w.log[i].at)
    ensures WeekdayOf(w.log[i].at) in c.repeat.value.cron.value.days
    ensures HourOf(w.log[i].at) in c.repeat.value.cron.value.hours
  {
    ReachableInv(c, w);
    assert GateOf(c, w.versions, w.log[i]);
    TickCalendar(c.repeat.value.cron.value, w.log[i].at);
  }

  /** Created anew: the first creation was never recorded, its engine is gone, and the
      second is for the very same time. */
  predicate Again(c: Config, w: World, i: nat, j: nat)
    requires i < |w.log| && j < |w.log|
  {
    w.log[j].at == w.log[i].at && i in w.lost && !Live(c, w.engines, w.log, i)
  }

  /** Two such engines are at two ticks, in order, or one is the other created anew. */
  lemma LaterTick(c: Config, w: World, i: nat, j: nat)
    requires c.Valid() && c.Repeating() && Reachable(c, w)
    requires i < j && AfterFirst(w, i) && AfterFirst(w, j)
    ensures c.Tick(w.log[i].at) && c.Tick(w.log[j].at)
    ensures w.log[i].at < w.log[j].at || Again(c, w, i, j)
  {
    OnCalendar(c, w, i);
    OnCalendar(c, w, j);
    TickCalendar(c.repeat.value.cron.value, w.log[i].at);
    TickCalendar(c.repeat.value.cron.value, w.log[j].at);
    SecondsIncrease(c, w, i, j);
    FloorOrder(w.log[i].at, w.log[j].at);
    FloorOrder(w.log[j].at, w.log[i].at);
  }

  /** Such an engine is also for a time after the completion on record at its gating write. */
  lemma AfterCompletion(c: Config, w: World, i: nat)
    requires c.Valid() && c.Repeating() && Reachable(c, w) && AfterFirst(w, i)
    ensures var completion := w.versions[w.log[i].gate].lastCompletion;
            completion.Some? ==> w.log[i].at > completion.value
  {
    ReachableInv(c, w);
    assert w.log[i] in w.log;
  }

  // ---------------------------------------------------------------- pruning

  /** The list step prunes the copy by the listing. */
  lemma ListPrunes(c: Config, w: World, items: seq<Seen>, now: int)
    requires |w.versions| > 0 && Enabled(c, w, List(items, now))
    ensures var k := Apply(c, w, List(items, now)).controller;
            k.Gating? && k.version == w.controller.version && PrunedBy(w.controller.local, items, now, k.local)
  {
    KeptIsPruned(w.controller.local, items, now);
  }

  lemma {:induction false} OthersLeaveCopy(c: Config, w: World, acts: seq<Action>)
    requires Allowed(c, w, acts) && forall a :: a in acts ==> a.Environment()
    ensures Run(c, w, acts).controller == w.controller && w.versions <= Run(c, w, acts).versions
    decreases |acts|
  {
    if acts != [] {
      assert acts[0] in acts && forall a :: a in acts[1..] ==> a in acts;
      OthersLeaveCopy(c, Apply(c, w, acts[0]), acts[1..]);
    }
  }

  /** And if its gating write takes effect, whatever others did before that, the object stored
      is the one it replaced, so pruned, with the second of the reading as the time. */
  lemma PruningStored(c: Config, w: World, items: seq<Seen>, now: int, acts: seq<Action>, t: int)
    requires c.Valid() && Reachable(c, w) && Enabled(c, w, List(items, now))
    requires Allowed(c, Apply(c, w, List(items, now)), acts) && forall a :: a in acts ==> a.Environment()
    requires var u := Run(c, Apply(c, w, List(items, now)), acts); |u.versions| > 0 && Enabled(c, u, Write(t))
    ensures var u := Run(c, Apply(c, w, List(items, now)), acts);
            var s := Apply(c, u, Write(t)).versions;
            |s| > 1 && s[..|s| - 1] == u.versions && PrunedBy(s[|s| - 2], items, Floor(now), s[|s| - 1])
  {
    ReachableShape(c, w);
    ListPrunes(c, w, items, now);
    var w1 := Apply(c, w, List(items, now));
    OthersLeaveCopy(c, w1, acts);
    var u := Run(c, w1, acts);
    assert u.Stored() == w.controller.local && w.controller.local in w.versions;
    PrunedAsStored(w.controller.local, items, now, w1.controller.local);
  }

  lemma PrunedAsStored(o: Object, items: seq<Seen>, now: int, p: Object)
    requires PrunedBy(o, items, now, p) && Persist(o) == o
    ensures PrunedBy(o, items, Floor(now), Persist(p))
  {
  }

  // ---------------------------------------------------------------- spacing

  /** In minute mode their scheduled times keep the spacing of the ticks. */
  lemma EnginesApart(c: Config, w: World, n: nat, i: nat, j: nat)
    requires c.Valid() && c.Repeating() && Reachable(c, w)
    requires c.repeat.value.cron.Some? && MinuteMode(c.repeat.value.cron.value, n)
    requires i < j && AfterFirst(w, i) && AfterFirst(w, j)
    ensures w.log[j].at - w.log[i].at >= Gap(60, n) * MINUTE || Again(c, w, i, j)
  {
    LaterTick(c, w, i, j);
    if !Again(c, w, i, j) {
      MinuteModeSpacing(c.repeat.value.cron.value, n, w.log[i].at, w.log[j].at);
    }
  }

  /** In hour mode with unrestricted hours, likewise. */
  lemma EnginesApartHours(c: Config, w: World, n: nat, m: nat, i: nat, j: nat)
    requires c.Valid() && c.Repeating() && Reachable(c, w)
    requires c.repeat.value.cron.Some? && HourMode(c.repeat.value.cron.value, n, m)
    requires i < j && AfterFirst(w, i) && AfterFirst(w, j)
    ensures w.log[j].at - w.log[i].at >= Gap(24, n) * HOUR || Again(c, w, i, j)
  {
    LaterTick(c, w, i, j);
    if !Again(c, w, i, j) {
      HourModeSpacing(c.repeat.value.cron.value, n, m, w.log[i].at, w.log[j].at);
    }
  }

  /** Every engine created after a recorded one, the first of all included, is at a tick no
      earlier than the first tick after the second on record. */
  lemma FollowsRecord(c: Config, w: World, i: nat, j: nat)
    requires c.Valid() && c.Repeating() && Reachable(c, w)
    requires i < j < |w.log| && i !in w.lost
    ensures AfterFirst(w, j) && c.Tick(w.log[j].at)
    ensures w.log[j].at > Floor(w.log[i].at)
    ensures w.log[j].at >= FirstAfter(c.repeat.value.cron.value, Floor(w.log[i].at))
  {
    ReachableInv(c, w);
    assert GateOf(c, w.versions, w.log[j]);
    assert Behind(w.versions[w.log[j].gate].lastSchedule, w.log[i].at);
  }

  /** The recording write leaves exactly the one engine it records active, whatever was
      active before the pass began, and its whole second on record. */
  lemma RecordingWrite(c: Config, w: World, a: Action)
    requires c.Valid() && c.Repeating() && Reachable(c, w) && Enabled(c, w, a)
    requires a.Write? && w.controller.Recording?
    ensures var (o, s, k) := (w.Stored(), Apply(c, w, a).versions, w.controller);
            && |s| > 0 && |w.log| == k.uid + 1 && w.log[k.uid].at == k.at
            && s[|s| - 1] == o.(state := Active, status := StatusRunning, runs := o.runs + 1,
                                active := [Ref(NameAt(c, k.at), k.uid)],
                                lastSchedule := Some(Floor(k.at)), startTime := Some(c.Start()))
  {
    ReachableShape(c, w);
    assert w.Stored() in w.versions;
    FloorOrder(c.Start(), c.Start());
  }

  // ---------------------------------------------------------------- single runs

  /** At most one engine is ever created, plus one for each deleted. */
  lemma SingleRun(c: Config, w: World)
    requires c.Valid() && c.Single() && Reachable(c, w)
    ensures |w.log| <= 1 + w.deletions
    ensures forall e :: e in w.log ==> e.at <= w.clock
    ensures !c.now ==> forall e :: e in w.log ==> c.once.value < e.at
  {
    ReachableInv(c, w);
    assert w.engines.Keys <= {Plain(c.name)};
    assert |w.engines| == |w.engines.Keys| <= 1 by {
      var all := {Plain(c.name)};
      assert all == w.engines.Keys + (all - w.engines.Keys);
    }
  }

  /** The controller completes a single run only after an engine of it finished; with none
      deleted, that is the one engine there is. */
  lemma CompletedAfterFinish(c: Config, w: World, a: Action)
    requires c.Valid() && c.Single() && Reachable(c, w) && Enabled(c, w, a) && !a.Environment()
    requires |Apply(c, w, a).versions| > 0
    requires Apply(c, w, a).Stored().state.Completed? && !w.Stored().state.Completed?
    ensures w.finished != {}
    ensures w.deletions == 0 ==> w.finished == {0} && |w.log| == 1
  {
    ReachableInv(c, w);
    EnabledIsPossible(c, w, a);
    OnlyEndingCompletes(c, w, a);
    SingleRun(c, w);
    assert forall i :: i in w.finished ==> i < |w.log|;
    assert w.deletions == 0 ==> forall i :: i in w.finished ==> i == 0;
  }

  lemma OnlyEndingCompletes(c: Config, w: World, a: Action)
    requires Shape(c, w) && Possible(c, w, a) && !a.Environment()
    requires |Apply(c, w, a).versions| > 0
    requires Apply(c, w, a).Stored().state.Completed? && !w.Stored().state.Completed?
    ensures Ending(w.controller)
  {
  }

  /** The recording write of a single run: the engine joins the active list, and its
      creation time is both the start and the scheduled time. */
  lemma SingleRecordingWrite(c: Config, w: World, a: Action)
    requires c.Valid() && c.Single() && Reachable(c, w) && Enabled(c, w, a)
    requires a.Write? && w.controller.Recording?
    ensures var (o, s, k) := (w.Stored(), Apply(c, w, a).versions, w.controller);
            && |s| > 0 && |w.log| == k.uid + 1 && w.log[k.uid].at == k.at
            && s[|s| - 1] == o.(state := Active, status := StatusRunning,
                                active := o.active + [Ref(Plain(c.name), k.uid)],
                                lastSchedule := Some(Floor(k.at)), startTime := Some(Floor(k.at)))
  {
    ReachableShape(c, w);
    assert w.Stored() in w.versions;
  }

  // ---------------------------------------------------------------- halting and resting

  /** No controller write turns a stored halt back into active, and the one kind that ends
      it is the write of a retried completion. */
  lemma HaltStays(c: Config, w: World, a: Action)
    requires c.Valid() && Reachable(c, w) && Enabled(c, w, a) && !a.Environment()
    requires w.Stored().state.Halted?
    ensures var s := Apply(c, w, a).versions;
            && |s| > 0
            && (s[|s| - 1].state.Halted? || s[|s| - 1].state.Completed?)
            && (s[|s| - 1].state.Completed? <==> a.Write? && w.controller.Rewriting?)
  {
    ReachableShape(c, w);
    EnabledIsPossible(c, w, a);
    HaltKept(c, w, a);
  }

  lemma HaltKept(c: Config, w: World, a: Action)
    requires Shape(c, w) && Possible(c, w, a) && !a.Environment() && w.Stored().state.Halted?
    ensures var s := Apply(c, w, a).versions;
            && |s| > 0
            && s[|s| - 1].state == if a.Write? && w.controller.Rewriting? then Completed else Halted
  {
  }

  /** The stored state is halt before every step and at the end. */
  ghost predicate HaltedThroughout(c: Config, w: World, acts: seq<Action>)
    requires Allowed(c, w, acts)
    decreases |acts|
  {
    w.Stored().state.Halted? && (acts != [] ==> HaltedThroughout(c, Apply(c, w, acts[0]), acts[1..]))
  }

  /** A pass that has made its gating write may still create one engine. */
  function Due(k: Controller): nat { if k.Gated? || k.Looking? || k.Creating? then 1 else 0 }

  lemma HaltStep(c: Config, w: World, a: Action)
    requires Shape(c, w) && Possible(c, w, a) && w.Stored().state.Halted?
    ensures |Apply(c, w, a).log| + Due(Apply(c, w, a).controller) <= |w.log| + Due(w.controller)
  {
  }

  lemma {:induction false} HaltBudget(c: Config, w: World, acts: seq<Action>)
    requires c.Valid() && Shape(c, w) && Allowed(c, w, acts) && HaltedThroughout(c, w, acts)
    ensures |Run(c, w, acts).log| + Due(Run(c, w, acts).controller) <= |w.log| + Due(w.controller)
    decreases |acts|
  {
    if acts != [] {
      EnabledIsPossible(c, w, acts[0]);
      ShapeStep(c, w, acts[0]);
      HaltStep(c, w, acts[0]);
      HaltBudget(c, Apply(c, w, acts[0]), acts[1..]);
    }
  }

  /** From a stored halt until it is lifted at most one engine is created, and none unless
      the pass under way had made its gating write before the halt. */
  lemma HaltSafety(c: Config, w: World, acts: seq<Action>)
    requires c.Valid() && Reachable(c, w) && Allowed(c, w, acts) && HaltedThroughout(c, w, acts)
    ensures |Run(c, w, acts).log| <= |w.log| + 1
    ensures Due(w.controller) == 0 ==> |Run(c, w, acts).log| <= |w.log|
  {
    ReachableShape(c, w);
    HaltBudget(c, w, acts);
  }

  /** No pass over such an object of a repeat schedule goes on to create. */
  predicate Barred(o: Object) { !MayRun(o.state) || o.deleting }

  ghost predicate BarredThroughout(c: Config, w: World, acts: seq<Action>)
    requires Allowed(c, w, acts)
    decreases |acts|
  {
    Barred(w.Stored()) && (acts != [] ==> BarredThroughout(c, Apply(c, w, acts[0]), acts[1..]))
  }

  /** A pass that read the object before it was barred may still create one engine. */
  function Left(k: Controller): nat { if (k.Gated? && !k.local.deleting) || k.Creating? then 1 else 0 }

  lemma BarredStep(c: Config, w: World, a: Action)
    requires c.Repeating() && Shape(c, w) && Possible(c, w, a) && Barred(w.Stored())
    ensures |Apply(c, w, a).log| + Left(Apply(c, w, a).controller) <= |w.log| + Left(w.controller)
  {
  }

  lemma {:induction false} BarredBudget(c: Config, w: World, acts: seq<Action>)
    requires c.Valid() && c.Repeating() && Shape(c, w) && Allowed(c, w, acts) && BarredThroughout(c, w, acts)
    ensures |Run(c, w, acts).log| + Left(Run(c, w, acts).controller) <= |w.log| + Left(w.controller)
    decreases |acts|
  {
    if acts != [] {
      EnabledIsPossible(c, w, acts[0]);
      ShapeStep(c, w, acts[0]);
      BarredStep(c, w, acts[0]);
      BarredBudget(c, Apply(c, w, acts[0]), acts[1..]);
    }
  }

  /** The same for a repeat schedule while it is being deleted, or its state is anything but
      active or unset: at most one more engine, and none unless the pass under way had made
      its gating write over an object not being deleted. */
  lemma BarredSafety(c: Config, w: World, acts: seq<Action>)
    requires c.Valid() && c.Repeating() && Reachable(c, w) && Allowed(c, w, acts) && BarredThroughout(c, w, acts)
    ensures |Run(c, w, acts).log| <= |w.log| + 1
    ensures Left(w.controller) == 0 ==> |Run(c, w, acts).log| <= |w.log|
  {
    ReachableShape(c, w);
    BarredBudget(c, w, acts);
  }

  // ---------------------------------------------------------------- schedules without ticks

  /** If the schedule has no ticks, no engine follows a recorded one. */
  lemma NoTicksOneRun(c: Config, w: World)
    requires c.Valid() && c.Repeating() && Reachable(c, w)
    requires c.repeat.value.cron.Some? && !c.repeat.value.cron.value.Nonempty()
    ensures forall i :: 0 <= i < |w.log| - 1 ==> i in w.lost
    ensures w.Stored().runs <= 1
  {
    ReachableInv(c, w);
    forall i | 0 <= i < |w.log| - 1
      ensures i in w.lost
    {
      if i !in w.lost {
        FollowsRecord(c, w, i, i + 1);
      }
    }
    if |w.log| > 0 {
      SubsetSize(Below(|w.log| - 1), w.lost);
    }
  }

  function Below(n: nat): (s: set<nat>)
    ensures |s| == n && forall i: nat :: i in s <==> i < n
  {
    if n == 0 then {} else Below(n - 1) + {n - 1}
  }

  /** A pass that has gated over a run on record then hangs: it only ends with its process. */
  lemma Hangs(c: Config, w: World, a: Action)
    requires |w.versions| > 0 && w.controller.Gated? && c.Repeating() && !w.controller.local.deleting
    requires Spins(c, w.controller.local) && c.repeat.value.endTime.None?
    requires Enabled(c, w, a) && !a.Environment()
    ensures a.Stop?
  {
  }

  lemma {:induction false} HangsForever(c: Config, w: World, acts: seq<Action>)
    requires |w.versions| > 0 && w.controller.Gated? && c.Repeating() && !w.controller.local.deleting
    requires Spins(c, w.controller.local) && c.repeat.value.endTime.None?
    requires Allowed(c, w, acts) && Stop !in acts
    ensures Run(c, w, acts).controller == w.controller && Run(c, w, acts).log == w.log
    decreases |acts|
  {
    if acts != [] {
      assert acts[0] in acts && forall a :: a in acts[1..] ==> a in acts;
      if !acts[0].Environment() {
        Hangs(c, w, acts[0]);
      }
      HangsForever(c, Apply(c, w, acts[0]), acts[1..]);
    }
  }

  // ---------------------------------------------------------------- completion and rest

  /** Status completed always comes with an empty active list. */
  lemma CompletedIsEmpty(c: Config, w: World)
    requires c.Valid() && Reachable(c, w)
    ensures forall o :: o in w.versions && o.status.StatusCompleted? ==> o.active == []
  {
    ReachableInv(c, w);
  }

  ghost predicate AtRest(o: Object) {
    (o.state.Completed? && o.status.StatusCompleted?) || (o.state.Halted? && o.status.StatusHalted?)
  }

  /** A pass that can no longer write: it has not passed its gate, and if it holds the
      stored version it has not acted on it. */
  ghost predicate Harmless(w: World)
    requires |w.versions| > 0
  {
    var k := w.controller;
    && (k.Idle? || k.Loaded? || k.Listing? || k.Gating? || k.Halting? || k.Closing?)
    && (HasCopy(k) && k.version == w.Last() ==> k.Loaded?)
  }

  predicate LeavesObject(a: Action) { !a.SetState? && !a.DeleteSchedule? }

  lemma RestStep(c: Config, w: World, a: Action)
    requires Shape(c, w) && Possible(c, w, a) && LeavesObject(a)
    requires AtRest(w.Stored()) && Harmless(w)
    ensures var w' := Apply(c, w, a); w'.versions == w.versions && w'.log == w.log && Harmless(w')
  {
  }

  lemma {:induction false} Quiescence(c: Config, w: World, acts: seq<Action>)
    requires c.Valid() && Shape(c, w) && Allowed(c, w, acts)
    requires AtRest(w.Stored()) && Harmless(w)
    requires forall a :: a in acts ==> LeavesObject(a)
    ensures Run(c, w, acts).versions == w.versions && Run(c, w, acts).log == w.log
    decreases |acts|
  {
    if acts != [] {
      assert acts[0] in acts && forall a :: a in acts[1..] ==> a in acts;
      EnabledIsPossible(c, w, acts[0]);
      ShapeStep(c, w, acts[0]);
      RestStep(c, w, acts[0]);
      Quiescence(c, Apply(c, w, acts[0]), acts[1..]);
    }
  }

  /** Once completed or halted in both state and status, passes over the object, stale
      reads included, write nothing and create nothing until the object is edited. */
  lemma RestIsFinal(c: Config, w: World, acts: seq<Action>)
    requires c.Valid() && Reachable(c, w) && Harmless(w) && AtRest(w.Stored())
    requires Allowed(c, w, acts) && forall a :: a in acts ==> LeavesObject(a)
    ensures Run(c, w, acts).versions == w.versions && Run(c, w, acts).log == w.log
  {
    ReachableShape(c, w);
    Quiescence(c, w, acts);
  }

  // ---------------------------------------------------------------- completed by the user

  /** Completed by the user while the stored active list still names an engine. */
  ghost predicate Stuck(o: Object) { o.state.Completed? && o.active != [] }

  /** The pass under way is completing the schedule itself, or may still come to that: past
      its gate, a repeat pass can find the end time over, and a single pass its engine. */
  ghost predicate MayComplete(c: Config, w: World) {
    var k := w.controller;
    || Ending(k)
    || (k.Gated? && c.Repeating() && c.repeat.value.endTime.Some?)
    || ((k.Gated? || k.Looking?) && c.Single() && (w.finished != {} || w.engines != map[]))
  }

  lemma StuckStep(c: Config, w: World, a: Action)
    requires Shape(c, w) && Possible(c, w, a) && LeavesObject(a)
    requires Stuck(w.Stored()) && !MayComplete(c, w)
    ensures var w' := Apply(c, w, a); w'.versions == w.versions && !MayComplete(c, w')
  {
  }

  lemma {:induction false} StaysStuck(c: Config, w: World, acts: seq<Action>)
    requires c.Valid() && Shape(c, w) && Allowed(c, w, acts)
    requires Stuck(w.Stored()) && !MayComplete(c, w)
    requires forall a :: a in acts ==> LeavesObject(a)
    ensures Run(c, w, acts).versions == w.versions
    decreases |acts|
  {
    if acts != [] {
      assert acts[0] in acts && forall a :: a in acts[1..] ==> a in acts;
      EnabledIsPossible(c, w, acts[0]);
      ShapeStep(c, w, acts[0]);
      StuckStep(c, w, acts[0]);
      StaysStuck(c, Apply(c, w, acts[0]), acts[1..]);
    }
  }

  /** Without an edit, the object can still come to be completed in both fields. */
  ghost predicate CanComplete(c: Config, w: World) {
    exists acts :: Completes(c, w, acts)
  }

  ghost predicate Completes(c: Config, w: World, acts: seq<Action>) {
    && Allowed(c, w, acts) && (forall a :: a in acts ==> LeavesObject(a))
    && |Run(c, w, acts).versions| > 0
    && var o := Run(c, w, acts).Stored();
       o.state.Completed? && o.status.StatusCompleted? && o.active == []
  }

  lemma CompletesAfter(c: Config, w: World, a: Action)
    requires |w.versions| > 0 && Enabled(c, w, a) && LeavesObject(a) && CanComplete(c, Apply(c, w, a))
    ensures CanComplete(c, w)
  {
    var acts :| Completes(c, Apply(c, w, a), acts);
    assert ([a] + acts)[1..] == acts;
    assert Completes(c, w, [a] + acts);
  }

  lemma RewriteCompletes(c: Config, w: World)
    requires |w.versions| > 0 && w.controller.Rewriting? && w.controller.version == w.Last()
    ensures CanComplete(c, w)
  {
    var write := Write(w.clock);
    assert Completes(c, Apply(c, w, write), []);
    CompletesAfter(c, w, write);
  }

  lemma EndingCompletes(c: Config, w: World)
    requires Shape(c, w) && Ending(w.controller) && Stuck(w.Stored())
    ensures CanComplete(c, w)
  {
    if w.controller.Retrying? {
      RewriteCompletes(c, Apply(c, w, Reread(w.Last())));
      CompletesAfter(c, w, Reread(w.Last()));
    } else {
      var w' := Apply(c, w, Retry);
      RewriteCompletes(c, Apply(c, w', Reread(w.Last())));
      CompletesAfter(c, w', Reread(w.Last()));
      CompletesAfter(c, w, Retry);
    }
  }

  lemma GatedCompletes(c: Config, w: World)
    requires c.Valid() && Shape(c, w) && Stuck(w.Stored())
    requires w.controller.Gated? && c.Repeating() && c.repeat.value.endTime.Some?
    ensures CanComplete(c, w)
  {
    var end := c.repeat.value.endTime.value;
    var choose := Choose(AllAt(if w.clock > end then w.clock else end + 1), Finish);
    EnabledIsPossible(c, w, choose);
    ShapeStep(c, w, choose);
    EndingCompletes(c, Apply(c, w, choose));
    CompletesAfter(c, w, choose);
  }

  lemma LookingCompletes(c: Config, w: World)
    requires c.Valid() && Shape(c, w) && Stuck(w.Stored())
    requires w.controller.Looking? && c.Single() && w.finished != {}
    ensures CanComplete(c, w)
  {
    var found := LookUp(Ended);
    EnabledIsPossible(c, w, found);
    ShapeStep(c, w, found);
    EndingCompletes(c, Apply(c, w, found));
    CompletesAfter(c, w, found);
  }

  lemma {:induction false} SinglePassCompletes(c: Config, w: World)
    requires c.Valid() && Shape(c, w) && Stuck(w.Stored())
    requires (w.controller.Gated? || w.controller.Looking?) && c.Single()
    requires w.finished != {} || w.engines != map[]
    ensures CanComplete(c, w)
    decreases w.controller.Gated?, w.finished == {}
  {
    if w.controller.Looking? && w.finished != {} {
      LookingCompletes(c, w);
    } else {
      var a;
      if w.finished != {} {
        a := Note(w.clock);
      } else {
        var name :| name in w.engines;
        a := FinishEngine(name);
        assert w.engines[name].uid in Apply(c, w, a).finished;
      }
      ShapeStep(c, w, a);
      SinglePassCompletes(c, Apply(c, w, a));
      CompletesAfter(c, w, a);
    }
  }

  /** A schedule the user completes while an engine is on its active list can still come to
      be completed in its status exactly if the pass under way may complete it. If not,
      passes prune only their own copies, so however the engines fare the stored object
      never changes again without an edit. */
  lemma UserCompletedExact(c: Config, w: World)
    requires c.Valid() && Reachable(c, w) && Stuck(w.Stored())
    ensures !w.Stored().status.StatusCompleted?
    ensures CanComplete(c, w) <==> MayComplete(c, w)
    ensures !MayComplete(c, w) ==>
              forall acts :: Allowed(c, w, acts) && (forall a :: a in acts ==> LeavesObject(a)) ==>
                Run(c, w, acts).versions == w.versions
  {
    ReachableInv(c, w);
    if MayComplete(c, w) {
      if Ending(w.controller) {
        EndingCompletes(c, w);
      } else if c.Single() {
        SinglePassCompletes(c, w);
      } else {
        GatedCompletes(c, w);
      }
    } else {
      forall acts | Allowed(c, w, acts) && forall a :: a in acts ==> LeavesObject(a)
        ensures Run(c, w, acts).versions == w.versions
      {
        StaysStuck(c, w, acts);
      }
    }
  }

  /** A completion write, on the retry path too, changes state, status, end time and the
      active list of the version it replaces, and nothing else. */
  lemma CompletionWrite(c: Config, w: World, a: Action)
    requires c.Valid() && Reachable(c, w) && Enabled(c, w, a) && a.Write?
    requires w.controller.Completing? || w.controller.Rewriting?
    ensures var (o, s) := (w.Stored(), Apply(c, w, a).versions);
            && |s| > 0
            && s[|s| - 1] == o.(state := Completed, status := StatusCompleted, active := [],
                                endTime := Some(Floor(a.now)))
  {
    ReachableShape(c, w);
    assert w.Stored() in w.versions;
  }
}
