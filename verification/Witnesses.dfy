/** Runs that show the bounds of Safety are met: stronger forms of them are false. */
module Witnesses {
  import opened Text
  import opened Instants
  import opened Objects
  import opened ActiveList
  import opened Decision
  import opened Protocol
  import opened Exclusion
  import opened Safety

  /** A repeat schedule and a time inside its range that a pass at that time, with one clock
      reading, takes for the first run: any time in the range if no lists are given. */
  ghost predicate FreeStart(c: Config, t: int) {
    && c.Valid() && c.Repeating() && c.repeat.value.cron.Some?
    && Readable(c.repeat.value, AllAt(t)) && Promised(c, AllAt(t), t)
    && c.Start() < t && !c.Ended(t)
  }

  /** In particular any time inside the range that keeps to the lists. */
  lemma KeptStarts(c: Config, t: int)
    requires c.Valid() && c.Repeating() && c.repeat.value.cron.Some? && Keeps(c.repeat.value, t)
    requires !c.repeat.value.days.Unreadable? && !c.repeat.value.hours.Unreadable?
    requires c.Start() < t && !c.Ended(t)
    ensures FreeStart(c, t) && MayBeFirst(c, t)
  {
    assert FirstBy(c, AllAt(t), t);
  }

  /** An idle worker over an active object with nothing recorded. */
  ghost predicate Fresh(w: World) {
    && |w.versions| > 0 && w.controller.Idle?
    && w.Stored().state.Active? && !w.Stored().deleting && w.Stored().active == []
    && w.Stored().lastSchedule.None? && Persist(w.Stored()) == w.Stored()
  }

  /** One pass, up to the creation of an engine scheduled for the present. */
  lemma PassCreates(c: Config, w: World, items: seq<Seen>) returns (w': World)
    requires FreeStart(c, w.clock) && Fresh(w)
    requires Honest(w.engines, items) && NameAt(c, w.clock) !in w.engines
    ensures Reaches(c, w, w')
    ensures var (t, g, uid) := (w.clock, |w.versions|, |w.log|);
            w' == w.(versions := w.versions + [w.Stored()],
                     engines := w.engines[NameAt(c, t) := Engine(uid, false)],
                     log := w.log + [Creation(t, g)],
                     controller := Recording(w.Stored(), g, t, uid))
  {
    PrunesNothing(w.Stored(), items, w.clock);
    w' := PassLaunches(c, w, items, w.Stored(), AllAt(w.clock), w.clock);
  }

  lemma PrunesNothing(o: Object, items: seq<Seen>, t: int)
    requires o.active == []
    ensures Pruned(o, items, t) == o
  {
    assert Uids(o.active) == {};
  }

  /** One pass that is to launch an engine by its readings, over an object that pruning turns
      into `o`. */
  lemma PassLaunches(c: Config, w: World, items: seq<Seen>, o: Object, r: Readings, t: int) returns (w': World)
    requires CanGate(c, w, items, o) && c.Repeating()
    requires r.Ordered(w.clock) && Decide(c, o, r) == Launch(t) && NameAt(c, t) !in w.engines
    ensures Reaches(c, w, w')
    ensures var (g, uid) := (|w.versions|, |w.log|);
            w' == w.(versions := w.versions + [o],
                     engines := w.engines[NameAt(c, t) := Engine(uid, false)],
                     log := w.log + [Creation(t, g)],
                     clock := r.requeue,
                     controller := Recording(o, g, t, uid))
  {
    var gated := PassGates(c, w, items, o);
    var choose := Choose(r, Launch(t));
    var creating := Apply(c, gated, choose);
    ReachesStep(c, gated, choose);
    ReachesTransitive(c, w, gated, creating);
    w' := Apply(c, creating, Create);
    ReachesStep(c, creating, Create);
    ReachesTransitive(c, w, creating, w');
  }

  /** An idle worker over an active object, past the time awaited, and an honest listing. */
  ghost predicate CanGate(c: Config, w: World, items: seq<Seen>, o: Object) {
    && c.Valid() && (c.Single() || c.Repeating())
    && |w.versions| > 0 && w.controller.Idle? && w.Stored().state.Active?
    && (c.now || Awaited(c) < w.clock)
    && Honest(w.engines, items) && Pruned(w.Stored(), items, w.clock) == o && Persist(o) == o
  }

  lemma PassGates(c: Config, w: World, items: seq<Seen>, o: Object) returns (w': World)
    requires CanGate(c, w, items, o)
    ensures Reaches(c, w, w')
    ensures w' == w.(versions := w.versions + [o], controller := Gated(o, |w.versions|))
  {
    var t := w.clock;
    var read, enter, list := Read(w.Last()), Enter(t, Proceed), List(items, t);
    var w1 := Apply(c, w, read);
    ReachesStep(c, w, read);
    var w2 := Apply(c, w1, enter);
    ReachesStep(c, w1, enter);
    ReachesTransitive(c, w, w1, w2);
    var w3 := Apply(c, w2, list);
    ReachesStep(c, w2, list);
    ReachesTransitive(c, w, w2, w3);
    w' := Apply(c, w3, Write(t));
    ReachesStep(c, w3, Write(t));
    ReachesTransitive(c, w, w3, w');
  }

  /** The state before anything has happened, for an active schedule. */
  function Start(t: int): World { World([FRESH], map[], t, Idle, [], {}, {}, 0) }

  /** An engine is created, its recording is lost, and a second passes. */
  lemma FirstIsLost(c: Config, t: int) returns (w: World)
    requires FreeStart(c, t)
    ensures Reachable(c, w) && Fresh(w) && w.clock == t + SECOND && w.lost == {0} && |w.log| == 1
    ensures w.engines == map[NameAt(c, t) := Engine(0, false)]
  {
    var w0 := Start(t);
    var w1 := PassCreates(c, w0, []);
    var w2 := Apply(c, w1, Stop);
    ReachesStep(c, w1, Stop);
    ReachesTransitive(c, w0, w1, w2);
    w := Apply(c, w2, Advance(SECOND));
    ReachesStep(c, w2, Advance(SECOND));
    ReachesTransitive(c, w0, w2, w);
  }

  /** The forbid bound is met: a lost recording lets two engines run at once. The name does
      not lock the second out, because its second is a later one. */
  lemma TwoCanRun(c: Config, t: int)
    requires FreeStart(c, t) && FreeStart(c, t + SECOND)
    ensures exists w :: Reachable(c, w) && |w.lost| == 1 && |RunningUids(w.engines)| == 2
  {
    var w := FirstIsLost(c, t);
    NameIsSecond(c, t, t + SECOND);
    assert Unix(t + SECOND) == Unix(t) + 1;
    var w' := PassCreates(c, w, [Seen(0, false)]);
    var w0 :| Init(c, w0) && Reaches(c, w0, w);
    ReachesTransitive(c, w0, w, w');
    assert Reachable(c, w');
    TwoRunning(NameAt(c, t), NameAt(c, t + SECOND), w'.engines);
  }

  lemma TwoRunning(first: EngineName, second: EngineName, engines: map<EngineName, Engine>)
    requires first != second
    requires engines == map[first := Engine(0, false)][second := Engine(1, false)]
    ensures |RunningUids(engines)| == 2
  {
    assert engines[first].uid in RunningUids(engines) && engines[second].uid in RunningUids(engines);
    assert RunningUids(engines) == {0, 1};
  }

  /** A second can be reused: a lost recording, the engine deleted, and the retry creates
      under the very same name. */
  lemma SecondCanRepeat(c: Config, t: int)
    requires FreeStart(c, t)
    ensures exists w :: Reachable(c, w) && |w.log| == 2 && Unix(w.log[0].at) == Unix(w.log[1].at)
  {
    var w0 := Start(t);
    var w1 := PassCreates(c, w0, []);
    var w2 := Apply(c, w1, Stop);
    ReachesStep(c, w1, Stop);
    ReachesTransitive(c, w0, w1, w2);
    var w3 := Apply(c, w2, DeleteEngine(NameAt(c, t)));
    ReachesStep(c, w2, DeleteEngine(NameAt(c, t)));
    ReachesTransitive(c, w0, w2, w3);
    var w4 := PassCreates(c, w3, []);
    ReachesTransitive(c, w0, w3, w4);
    assert Reachable(c, w4);
  }

  /** One engine can still follow a halt: the pass had made its gating write before it. */
  lemma OneCanFollowHalt(c: Config, t: int)
    requires FreeStart(c, t)
    ensures exists w, w' :: Reachable(c, w) && w.Stored().state.Halted? && Reaches(c, w, w')
                            && |w'.log| == |w.log| + 1 && w'.versions == w.versions
  {
    var w0 := Start(t);
    PrunesNothing(w0.Stored(), [], t);
    var w1 := PassGates(c, w0, [], w0.Stored());
    var halt := SetState(Halted);
    var w := Apply(c, w1, halt);
    ReachesStep(c, w1, halt);
    ReachesTransitive(c, w0, w1, w);
    var choose := Choose(AllAt(t), Launch(t));
    assert Decide(c, w0.Stored(), AllAt(t)) == Launch(t);
    var w2 := Apply(c, w, choose);
    ReachesStep(c, w, choose);
    var w' := Apply(c, w2, Create);
    ReachesStep(c, w2, Create);
    ReachesTransitive(c, w, w2, w');
    assert Reachable(c, w);
  }

  /** The user completes a schedule whose engine is on the stored active list: no pass is
      under way, so it will never be completed in its status. */
  lemma StuckIsReachable(c: Config, t: int)
    requires FreeStart(c, t)
    ensures exists w :: Reachable(c, w) && Stuck(w.Stored()) && !CanComplete(c, w)
  {
    var w0 := Start(t);
    var w1 := PassCreates(c, w0, []);
    var w2 := Apply(c, w1, Write(t));
    ReachesStep(c, w1, Write(t));
    ReachesTransitive(c, w0, w1, w2);
    var complete := SetState(Completed);
    var w := Apply(c, w2, complete);
    ReachesStep(c, w2, complete);
    ReachesTransitive(c, w0, w2, w);
    assert Reachable(c, w);
    UserCompletedExact(c, w);
  }

  // ---------------------------------------------------------------- single runs

  /** An engine of a single run can have been created by a given time exactly if it is a now
      schedule, or that time is after the execution time. */
  lemma SingleByTime(c: Config, t: int)
    requires c.Valid() && c.Single()
    ensures (exists w :: Reachable(c, w) && w.log != [] && w.clock == t) <==> c.now || c.once.value < t
  {
    if w :| Reachable(c, w) && w.log != [] && w.clock == t {
      SingleRun(c, w);
      assert w.log[0] in w.log;
    }
    if c.now || c.once.value < t {
      var w := SinglePassCreates(c, t);
    }
  }

  lemma SinglePassCreates(c: Config, t: int) returns (w: World)
    requires c.Valid() && c.Single() && (c.now || c.once.value < t)
    ensures Reachable(c, w) && |w.log| == 1 && w.clock == t
  {
    var w0 := Start(t);
    PrunesNothing(w0.Stored(), [], t);
    var w1 := PassGates(c, w0, [], w0.Stored());
    var w2 := Apply(c, w1, Note(t));
    ReachesStep(c, w1, Note(t));
    ReachesTransitive(c, w0, w1, w2);
    var w3 := Apply(c, w2, LookUp(Missing));
    ReachesStep(c, w2, LookUp(Missing));
    ReachesTransitive(c, w0, w2, w3);
    w := Apply(c, w3, Create);
    ReachesStep(c, w3, Create);
    ReachesTransitive(c, w0, w3, w);
  }

  // ---------------------------------------------------------------- undisturbed passes

  /** One undisturbed pass settles a stored halt. */
  lemma HaltSettles(c: Config, w: World)
    requires |w.versions| > 0 && w.controller.Idle? && w.Stored().state.Halted? && !w.Stored().status.StatusHalted?
    requires Persist(w.Stored()) == w.Stored()
    ensures Reaches(c, w, w.(versions := w.versions + [w.Stored().(status := StatusHalted)]))
  {
    var read, enter, write := Read(w.Last()), Enter(w.clock, Route.Halt), Write(w.clock);
    var w1 := Apply(c, w, read);
    ReachesStep(c, w, read);
    var w2 := Apply(c, w1, enter);
    ReachesStep(c, w1, enter);
    ReachesTransitive(c, w, w1, w2);
    var w3 := Apply(c, w2, write);
    ReachesStep(c, w2, write);
    ReachesTransitive(c, w, w2, w3);
    assert w3 == w.(versions := w.versions + [w.Stored().(status := StatusHalted)]);
  }

  /** One undisturbed pass settles a completion with no engine active. */
  lemma CompletionSettles(c: Config, w: World)
    requires |w.versions| > 0 && w.controller.Idle?
    requires w.Stored().state.Completed? && !w.Stored().status.StatusCompleted?
    requires w.Stored().active == [] && Persist(w.Stored()) == w.Stored()
    ensures Reaches(c, w, w.(versions := w.versions
                               + [w.Stored().(status := StatusCompleted, endTime := Some(Floor(w.clock)))]))
  {
    var read, enter, write := Read(w.Last()), Enter(w.clock, Route.Close), Write(w.clock);
    var w1 := Apply(c, w, read);
    ReachesStep(c, w, read);
    var w2 := Apply(c, w1, enter);
    ReachesStep(c, w1, enter);
    ReachesTransitive(c, w, w1, w2);
    var w3 := Apply(c, w2, write);
    ReachesStep(c, w2, write);
    ReachesTransitive(c, w, w2, w3);
    assert w3 == w.(versions := w.versions
                      + [w.Stored().(status := StatusCompleted, endTime := Some(Floor(w.clock)))]);
  }
}
