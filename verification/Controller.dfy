/** The controller's own code, call by call, against the cluster. Every method takes the
    machine of Protocol from the state it starts in to the state it ends in by steps of
    that machine, so what holds of all runs of the machine holds of this code; and every
    method says which calls it makes and what it answers for their answers. */
module Controllers {
  import opened Text
  import opened Instants
  import opened Objects
  import opened ActiveList
  import opened Decision
  import opened Protocol
  import opened Clusters
  import opened Calls
  import opened Plans
  import opened RepeatTimes

  // ---------------------------------------------------------------- updateStatus

  /** updateActiveStatus. On success the listing was honest in the state `listed`, only the
      clock has moved since, and the copy is pruned by it. */
  method UpdateActiveStatus(cl: Cluster, cs: SchedulerInfo)
    returns (ok: bool, ghost listing: Option<seq<Seen>>, ghost listed: World)
    requires cl.Valid()
    modifies cl, cl.clock, cs`instance
    ensures cl.Valid() && cl.controller == old(cl.controller) && cl.log == old(cl.log)
    ensures cl.trace == old(cl.trace) + [ListCall(listing)] && ok == listing.Some?
    ensures Reaches(cl.c, old(cl.State()), listed) && listed.clock <= cl.clock.now
    ensures cl.State() == listed.(clock := cl.clock.now)
    ensures ok ==>
              && Honest(listed.engines, listing.value)
              && PrunedBy(old(cs.instance), listing.value, cl.clock.now, cs.instance)
              && cs.instance == Pruned(old(cs.instance), listing.value, cl.clock.now)
    ensures !ok ==> cl.State() == listed && cs.instance == old(cs.instance)
  {
    var items := cl.ListEngines();
    listed := cl.State();
    listing := items;
    if items.None? {
      return false, listing, listed;
    }
    ghost var before := cs.instance;
    Prune(cs, items.value, cl.clock);
    KeptIsPruned(before, items.value, cl.clock.now);
    ok := true;
  }

  /** UpdateSchedulerStatus: complete the schedule, retrying on a conflict over a fresh
      copy. If it returns without error then, unless its first write failed for another
      reason, the last version is the one before it, completed. */
  method UpdateSchedulerStatus(cl: Cluster, cs: SchedulerInfo, attempts: nat)
    returns (ok: bool, ghost calls: seq<Call>)
    requires cl.Valid() && cl.controller.Completing? && cs.version == cl.controller.version
    requires cs.version < |cl.versions| && cl.versions[cs.version] == cl.controller.local
    requires CompletedObject(cs.instance, 0) == CompletedObject(cl.controller.local, 0)
    modifies cl, cl.clock, cs
    ensures cl.Valid() && cl.controller == Idle && cl.log == old(cl.log)
    ensures Reaches(cl.c, old(cl.State()), cl.State())
    ensures cl.trace == old(cl.trace) + calls && Finishes(old(cl.controller.local), calls, attempts, ok)
    ensures old(cl.clock.now) <= calls[0].sent.endTime.value <= cl.clock.now
    ensures ok && calls[0].answer != OtherError ==> StoresCompletion(cl.versions)
  {
    var err;
    ghost var sent;
    err, sent := CompleteOnce(cl, cs);
    calls := [UpdateCall(sent, err)];
    if err == Conflict {
      ghost var more;
      ok, more := Retried(cl, attempts, old(cl.State()));
      calls := calls + more;
      assert calls[1..] == more;
      return ok, calls;
    }
    return true, calls;
  }

  /** The first write of the completion. */
  method CompleteOnce(cl: Cluster, cs: SchedulerInfo) returns (err: WriteError, ghost sent: Object)
    requires cl.Valid() && cl.controller.Completing? && cs.version == cl.controller.version
    requires cs.version < |cl.versions| && cl.versions[cs.version] == cl.controller.local
    requires CompletedObject(cs.instance, 0) == CompletedObject(cl.controller.local, 0)
    modifies cl, cl.clock, cs
    ensures cl.Valid() && cl.log == old(cl.log) && Reaches(cl.c, old(cl.State()), cl.State())
    ensures cl.controller == if err == Conflict then Retrying else Idle
    ensures cl.trace == old(cl.trace) + [UpdateCall(sent, err)] && CompletedFrom(old(cl.controller.local), sent)
    ensures old(cl.clock.now) <= sent.endTime.value <= cl.clock.now
    ensures err == Nil ==> StoresCompletion(cl.versions)
  {
    ghost var from := cl.State();
    ReachesSelf(cl.c, from);
    var now := cl.Now();
    cs.instance := cs.instance.(status := StatusCompleted, endTime := Some(now), state := Completed, active := []);
    ghost var mid := cl.State();
    sent := cs.instance;
    err := cl.Update(cs, now);
    ReachesTransitive(cl.c, from, mid, cl.State());
  }

  method Retried(cl: Cluster, attempts: nat, ghost from: World) returns (ok: bool, ghost calls: seq<Call>)
    requires cl.Valid() && cl.controller == Retrying && Reaches(cl.c, from, cl.State())
    modifies cl, cl.clock
    ensures cl.Valid() && cl.controller == Idle && cl.log == old(cl.log)
    ensures Reaches(cl.c, from, cl.State()) && old(cl.clock.now) <= cl.clock.now
    ensures cl.trace == old(cl.trace) + calls && Retries(calls, attempts, ok)
    ensures ok ==> StoresCompletion(cl.versions)
  {
    calls := [];
    for attempt := 0 to attempts
      invariant cl.Valid() && cl.controller == Retrying && cl.log == old(cl.log)
      invariant Reaches(cl.c, from, cl.State()) && old(cl.clock.now) <= cl.clock.now
      invariant cl.trace == old(cl.trace) + calls && FailedTries(calls, attempt)
    {
      ghost var before, earlier := cl.State(), calls;
      ghost var last;
      ok, last := Attempt(cl);
      calls := earlier + last;
      assert cl.trace == old(cl.trace) + calls;
      ReachesTransitive(cl.c, from, before, cl.State());
      OneMoreTry(earlier, attempt, last, ok, attempts);
      if ok {
        return true, calls;
      }
    }
    cl.GiveUp();
    return false, calls;
  }

  /** One retry: read the object anew, complete it, write it. */
  method Attempt(cl: Cluster) returns (ok: bool, ghost calls: seq<Call>)
    requires cl.Valid() && cl.controller == Retrying
    modifies cl, cl.clock
    ensures cl.Valid() && cl.log == old(cl.log) && Reaches(cl.c, old(cl.State()), cl.State())
    ensures cl.controller == (if ok then Idle else Retrying) && old(cl.clock.now) <= cl.clock.now
    ensures cl.trace == old(cl.trace) + calls && Try(calls, ok)
    ensures ok ==> StoresCompletion(cl.versions)
  {
    var scheduler := cl.GetSchedule();
    if scheduler == null {
      return false, [GetCall(None)];
    }
    ghost var read := scheduler.instance;
    var now := cl.Now();
    scheduler.instance := scheduler.instance.(status := StatusCompleted, state := Completed);
    scheduler.instance := scheduler.instance.(endTime := Some(now), active := []);
    ghost var mid, sent := cl.State(), scheduler.instance;
    assert Reaches(cl.c, old(cl.State()), mid);
    var err := cl.Update(scheduler, now);
    ReachesTransitive(cl.c, old(cl.State()), mid, cl.State());
    return err == Nil, [GetCall(Some(read)), UpdateCall(sent, err)];
  }

  // ---------------------------------------------------------------- pruning and gating

  /** The opening of a working pass: list, prune, write back. */
  method Gate(cl: Cluster, cs: SchedulerInfo) returns (ok: bool, ghost calls: seq<Call>)
    requires cl.Valid() && cl.controller == Listing(cs.instance, cs.version)
    modifies cl, cl.clock, cs
    ensures cl.Valid() && cl.log == old(cl.log) && Reaches(cl.c, old(cl.State()), cl.State())
    ensures cl.trace == old(cl.trace) + calls && Opens(old(cs.instance), calls, ok)
    ensures ok ==>
              && cl.controller == Gated(cs.instance, cs.version) && cs.instance == Persist(calls[1].sent)
              && cs.version < |cl.versions| && cl.versions[cs.version] == cs.instance
    ensures !ok ==> cl.controller == Idle
  {
    ghost var from, read := cl.State(), cs.instance;
    ghost var listing, stamp;
    ok, listing, stamp := ListAndPrune(cl, cs);
    calls := [ListCall(listing)];
    if ok {
      ghost var mid, sent := cl.State(), cs.instance;
      var err := cl.Update(cs, cl.clock.now);
      ReachesTransitive(cl.c, from, mid, cl.State());
      ok := err == Nil;
      calls := [ListCall(listing), UpdateCall(sent, err)];
      OpensWith(read, listing.value, stamp, sent, err);
    }
  }

  /** Up to the gating write. */
  method ListAndPrune(cl: Cluster, cs: SchedulerInfo)
    returns (ok: bool, ghost listing: Option<seq<Seen>>, ghost stamp: int)
    requires cl.Valid() && cl.controller == Listing(cs.instance, cs.version)
    modifies cl, cl.clock, cs`instance
    ensures cl.Valid() && cl.log == old(cl.log) && Reaches(cl.c, old(cl.State()), cl.State())
    ensures cl.trace == old(cl.trace) + [ListCall(listing)] && ok == listing.Some?
    ensures ok ==>
              && cl.controller == Gating(cs.instance, cs.version)
              && PrunedBy(old(cs.instance), listing.value, stamp, cs.instance)
    ensures !ok ==> cl.controller == Idle
  {
    ghost var from := cl.State();
    ghost var at;
    ok, listing, at := UpdateActiveStatus(cl, cs);
    stamp := cl.clock.now;
    if ok {
      cl.controller := AfterList(cl.controller, listing.value, cl.clock.now);
      ghost var a := List(listing.value, cl.clock.now);
      assert cl.State() == Apply(cl.c, at, a);
      Extend(cl.c, at, a);
    } else {
      cl.GiveUp();
    }
  }

  // ---------------------------------------------------------------- createEngineForRepeat

  /** createNewEngine: create under the name of the scheduled second, then record. At most
      one engine is created, and success means it was created and recorded. */
  method CreateNewEngine(cl: Cluster, cs: SchedulerInfo, scheduledTime: int) returns (ok: bool, ghost calls: seq<Call>)
    requires cl.Valid() && cl.c.Repeating() && cl.controller == Creating(cs.instance, cs.version, scheduledTime)
    modifies cl, cl.clock, cs
    ensures cl.Valid() && cl.controller == Idle && Reaches(cl.c, old(cl.State()), cl.State())
    ensures cl.log == old(cl.log) || (|cl.log| == |old(cl.log)| + 1 && cl.log[|old(cl.log)|].at == scheduledTime)
    ensures cl.trace == old(cl.trace) + calls && Creates(cl.c, old(cs.instance), scheduledTime, calls, ok)
    ensures ok ==> CreationKept(scheduledTime, calls, cl.versions, old(cl.log), cl.log)
  {
    var name := Timed(cl.c.name, Unix(scheduledTime));
    var uid := cl.CreateEngine(name);
    calls := [CreateCall(name, uid)];
    if uid.None? {
      return false, calls;
    }
    ghost var mid := cl.State();
    var err;
    ghost var sent;
    err, sent := RecordRun(cl, cs, name, scheduledTime, uid.value);
    calls := calls + [UpdateCall(sent, err)];
    ReachesTransitive(cl.c, old(cl.State()), mid, cl.State());
    ok := err == Nil;
  }

  /** The recording write of createNewEngine. */
  method RecordRun(cl: Cluster, cs: SchedulerInfo, name: EngineName, scheduledTime: int, uid: nat)
    returns (err: WriteError, ghost sent: Object)
    requires cl.Valid() && cl.c.Repeating() && name == EngineNamed(cl.c, scheduledTime)
    requires cl.controller == Recording(cs.instance, cs.version, scheduledTime, uid)
    modifies cl, cl.clock, cs
    ensures cl.Valid() && cl.controller == Idle && cl.log == old(cl.log)
    ensures Reaches(cl.c, old(cl.State()), cl.State())
    ensures cl.trace == old(cl.trace) + [UpdateCall(sent, err)]
    ensures RecordedFrom(cl.c, old(cs.instance), scheduledTime, uid, sent)
    ensures err == Nil ==> Stores(cl.versions, sent)
  {
    cs.instance := cs.instance.(state := Active, status := StatusRunning);
    cs.instance := cs.instance.(active := cs.instance.active + [Ref(name, uid)]);
    cs.instance := cs.instance.(lastSchedule := Some(scheduledTime), runs := cs.instance.runs + 1);
    var startTime := cl.c.repeat.value.startTime;
    if startTime.None? {
      startTime := Some(cl.c.created);
    }
    cs.instance := cs.instance.(startTime := startTime);
    sent := cs.instance;
    assert sent == Recorded(cl.c, old(cs.instance), scheduledTime, uid);
    err := cl.Update(cs, cl.clock.now);
  }

  /** createEngineRepeat. Its steps are the machine's, and its calls and result are those of
      a repeat pass. */
  method CreateEngineRepeat(cl: Cluster, cs: SchedulerInfo, spec: RepeatSpec, attempts: nat, limit: nat)
    returns (res: Outcome, ghost work: Work)
    requires cl.Valid() && cl.c.Repeating() && cl.controller == Listing(cs.instance, cs.version)
    requires cl.c.repeat == Some(PlanOf(spec)) && SpaceFree(spec)
    modifies cl, cl.clock, cs
    ensures cl.Valid() && cl.controller == Idle && Reaches(cl.c, old(cl.State()), cl.State())
    ensures |cl.log| <= |old(cl.log)| + 1
    ensures cl.trace == old(cl.trace) + work.Calls()
    ensures RepeatPass(cl.c, old(cl.State()), old(cs.instance), work, res, attempts, limit,
                       cl.versions, old(cl.log), cl.log)
  {
    ghost var from, read := cl.State(), cs.instance;
    var ok;
    ghost var gating;
    ok, gating := Gate(cl, cs);
    if !ok {
      return Failure, RepeatWork(gating, None, AllAt(0), []);
    }
    ghost var w := cl.State();
    ghost var r, acting;
    res, r, acting := DecideAndAct(cl, cs, spec, attempts, limit);
    work := RepeatWork(gating, Some(w), r, acting);
    ReachesTransitive(cl.c, from, w, cl.State());
    RepeatPassOf(cl.c, from, read, work, res, attempts, limit, cl.versions, old(cl.log), cl.log);
  }

  /** createEngineRepeat after its gating write. */
  method DecideAndAct(cl: Cluster, cs: SchedulerInfo, spec: RepeatSpec, attempts: nat, limit: nat)
    returns (res: Outcome, ghost r: Readings, ghost calls: seq<Call>)
    requires cl.Valid() && cl.c.Repeating() && cl.controller == Gated(cs.instance, cs.version)
    requires cs.version < |cl.versions| && cl.versions[cs.version] == cs.instance
    requires cl.c.repeat == Some(PlanOf(spec)) && SpaceFree(spec)
    modifies cl, cl.clock, cs
    ensures cl.Valid() && cl.controller == Idle && Reaches(cl.c, old(cl.State()), cl.State())
    ensures |cl.log| <= |old(cl.log)| + 1
    ensures cl.trace == old(cl.trace) + calls && r.Ordered(old(cl.clock.now))
    ensures RepeatActs(cl.c, old(cs.instance), r, calls, res, attempts, limit, cl.versions, old(cl.log), cl.log)
  {
    ghost var w := cl.State();
    ReachesSelf(cl.c, w);
    var done, v;
    done, v, r := NextMove(cl.clock, cl.c, spec, cs.instance, limit);
    if !done {
      assert cl.State() == Apply(cl.c, w, Advance(cl.clock.now - w.clock));
      Extend(cl.c, w, Advance(cl.clock.now - w.clock));
      cl.GiveUp();
      return Hung, r, [];
    }
    cl.controller := AfterChoice(cl.controller, v);
    ghost var a := Choose(r, v);
    assert cl.State() == Apply(cl.c, w, a);
    Extend(cl.c, w, a);
    res, calls := Perform(cl, cs, v, attempts, w);
  }

  /** Act on a verdict. */
  method Perform(cl: Cluster, cs: SchedulerInfo, v: Verdict, attempts: nat, ghost from: World)
    returns (res: Outcome, ghost calls: seq<Call>)
    requires cl.Valid() && cl.c.Repeating() && Reaches(cl.c, from, cl.State())
    requires cl.controller == AfterChoice(Gated(cs.instance, cs.version), v) && !v.Spin?
    requires cs.version < |cl.versions| && cl.versions[cs.version] == cs.instance
    modifies cl, cl.clock, cs
    ensures cl.Valid() && cl.controller == Idle && Reaches(cl.c, from, cl.State())
    ensures |cl.log| <= |old(cl.log)| + 1 && !res.Hung?
    ensures cl.trace == old(cl.trace) + calls
    ensures Acts(cl.c, old(cs.instance), v, calls, res, attempts, cl.versions, old(cl.log), cl.log)
  {
    ghost var mid := cl.State();
    calls := [];
    match v {
      case Failed => res := Failure;
      case Quit => res := Done;
      case Requeue(delay) => res := After(delay);
      case Finish =>
        var ok;
        ok, calls := UpdateSchedulerStatus(cl, cs, attempts);
        ReachesTransitive(cl.c, from, mid, cl.State());
        res := if ok then Done else Failure;
      case Launch(at) =>
        var ok;
        ok, calls := CreateNewEngine(cl, cs, at);
        ReachesTransitive(cl.c, from, mid, cl.State());
        res := if ok then After(cl.c.repeat.value.period) else Failure;
    }
  }

  // ---------------------------------------------------------------- createEngineForNowAndOnce

  /** createForNowAndOnce: create the engine if there is none, complete the schedule if it
      has finished. */
  method CreateForNowAndOnce(cl: Cluster, cs: SchedulerInfo, attempts: nat)
    returns (res: Outcome, ghost work: Work)
    requires cl.Valid() && cl.c.Single() && cl.controller == Listing(cs.instance, cs.version)
    modifies cl, cl.clock, cs
    ensures cl.Valid() && cl.controller == Idle && Reaches(cl.c, old(cl.State()), cl.State())
    ensures |cl.log| <= |old(cl.log)| + 1
    ensures cl.trace == old(cl.trace) + work.Calls()
    ensures SinglePass(cl.c, old(cs.instance), work, res, attempts, cl.versions, old(cl.log), cl.log)
  {
    ghost var from := cl.State();
    var ok;
    ghost var gating;
    ok, gating := Gate(cl, cs);
    if !ok {
      SinglePassStops(cl.c, old(cs.instance), gating, attempts, cl.versions, cl.log);
      return Failure, SingleWork(gating, 0, []);
    }
    ghost var mid, read := cl.State(), old(cs.instance);
    ghost var at, acting;
    res, at, acting := NoteAndLook(cl, cs, attempts);
    ReachesTransitive(cl.c, from, mid, cl.State());
    work := SingleWork(gating, at, acting);
    SinglePassOf(cl.c, read, work, res, attempts, cl.versions, old(cl.log), cl.log);
  }

  /** createForNowAndOnce after its gating write. */
  method NoteAndLook(cl: Cluster, cs: SchedulerInfo, attempts: nat)
    returns (res: Outcome, ghost at: int, ghost calls: seq<Call>)
    requires cl.Valid() && cl.c.Single() && cl.controller == Gated(cs.instance, cs.version)
    requires cs.version < |cl.versions| && cl.versions[cs.version] == cs.instance
    modifies cl, cl.clock, cs
    ensures cl.Valid() && cl.controller == Idle && Reaches(cl.c, old(cl.State()), cl.State())
    ensures |cl.log| <= |old(cl.log)| + 1
    ensures cl.trace == old(cl.trace) + calls && old(cl.clock.now) <= at
    ensures LooksUp(cl.c, old(cs.instance), at, calls, res, attempts, cl.versions, old(cl.log), cl.log)
  {
    ghost var w := cl.State();
    ReachesSelf(cl.c, w);
    var currentTime := cl.clock.Now();
    at := currentTime;
    cl.controller := Looking(cs.instance, cs.version, currentTime);
    assert cl.State() == Apply(cl.c, w, Note(currentTime));
    Extend(cl.c, w, Note(currentTime));
    ghost var mid := cl.State();
    res, calls := LookUp(cl, cs, currentTime, attempts);
    ReachesTransitive(cl.c, w, mid, cl.State());
  }

  /** Get the engine and act on what is there. */
  method LookUp(cl: Cluster, cs: SchedulerInfo, currentTime: int, attempts: nat)
    returns (res: Outcome, ghost calls: seq<Call>)
    requires cl.Valid() && cl.c.Single() && cl.controller == Looking(cs.instance, cs.version, currentTime)
    requires cs.version < |cl.versions| && cl.versions[cs.version] == cs.instance
    modifies cl, cl.clock, cs
    ensures cl.Valid() && cl.controller == Idle && Reaches(cl.c, old(cl.State()), cl.State())
    ensures |cl.log| <= |old(cl.log)| + 1
    ensures cl.trace == old(cl.trace) + calls
    ensures LooksUp(cl.c, old(cs.instance), currentTime, calls, res, attempts, cl.versions, old(cl.log), cl.log)
  {
    ghost var from, gated := cl.State(), cs.instance;
    var engine := cl.GetEngine();
    calls := [EngineCall(engine)];
    if engine.None? {
      return Failure, calls;
    }
    ghost var mid, more := cl.State(), [];
    res, more := Handle(cl, cs, currentTime, engine.value, attempts);
    ReachesTransitive(cl.c, from, mid, cl.State());
    calls := calls + more;
    assert calls[1..] == more;
  }

  /** Act on the engine found. */
  method Handle(cl: Cluster, cs: SchedulerInfo, currentTime: int, found: Found, attempts: nat)
    returns (res: Outcome, ghost calls: seq<Call>)
    requires cl.Valid() && cl.c.Single()
    requires cl.controller == AfterLookUp(Looking(cs.instance, cs.version, currentTime), found)
    requires cs.version < |cl.versions| && cl.versions[cs.version] == cs.instance
    modifies cl, cl.clock, cs
    ensures cl.Valid() && cl.controller == Idle && Reaches(cl.c, old(cl.State()), cl.State())
    ensures |cl.log| <= |old(cl.log)| + 1
    ensures cl.trace == old(cl.trace) + calls
    ensures Handles(cl.c, old(cs.instance), currentTime, Some(found), calls, res, attempts,
                    cl.versions, old(cl.log), cl.log)
  {
    ReachesSelf(cl.c, cl.State());
    var ok := true;
    calls := [];
    match found {
      case Running =>
      case Missing => ok, calls := CreateSingle(cl, cs, currentTime);
      case Ended =>
        cs.instance := cs.instance.(state := Completed, endTime := Some(currentTime));
        ok, calls := UpdateSchedulerStatus(cl, cs, attempts);
    }
    res := if ok then Done else Failure;
  }

  /** The creating branch of createForNowAndOnce. */
  method CreateSingle(cl: Cluster, cs: SchedulerInfo, currentTime: int) returns (ok: bool, ghost calls: seq<Call>)
    requires cl.Valid() && cl.c.Single() && cl.controller == Creating(cs.instance, cs.version, currentTime)
    modifies cl, cl.clock, cs
    ensures cl.Valid() && cl.controller == Idle && Reaches(cl.c, old(cl.State()), cl.State())
    ensures |cl.log| <= |old(cl.log)| + 1
    ensures cl.trace == old(cl.trace) + calls && Creates(cl.c, old(cs.instance), currentTime, calls, ok)
    ensures ok ==> CreationKept(currentTime, calls, cl.versions, old(cl.log), cl.log)
  {
    var name := Plain(cl.c.name);
    var uid := cl.CreateEngine(name);
    calls := [CreateCall(name, uid)];
    if uid.None? {
      return false, calls;
    }
    cs.instance := cs.instance.(state := Active, status := StatusRunning);
    cs.instance := cs.instance.(startTime := Some(currentTime), lastSchedule := Some(currentTime));
    cs.instance := cs.instance.(active := cs.instance.active + [Ref(name, uid.value)]);
    ghost var mid, sent := cl.State(), cs.instance;
    assert sent == Recorded(cl.c, old(cs.instance), currentTime, uid.value);
    var err := cl.Update(cs, cl.clock.now);
    calls := calls + [UpdateCall(sent, err)];
    ReachesTransitive(cl.c, old(cl.State()), mid, cl.State());
    ok := err == Nil;
  }

  // ---------------------------------------------------------------- Reconcile

  /** reconcileForHalt. */
  method ReconcileForHalt(cl: Cluster, cs: SchedulerInfo) returns (res: Outcome, ghost calls: seq<Call>)
    requires cl.Valid() && cl.controller == Halting(cs.instance, cs.version)
    modifies cl, cl.clock, cs
    ensures cl.Valid() && cl.controller == Idle && cl.log == old(cl.log)
    ensures Reaches(cl.c, old(cl.State()), cl.State())
    ensures cl.trace == old(cl.trace) + calls
    ensures |calls| == 1 && calls[0].UpdateCall? && HaltedFrom(old(cs.instance), calls[0].sent)
    ensures res == if calls[0].answer.Nil? then Done else Failure
    ensures res == Done ==> Stores(cl.versions, calls[0].sent)
  {
    cs.instance := cs.instance.(status := StatusHalted);
    ghost var sent := cs.instance;
    var err := cl.Update(cs, cl.clock.now);
    res, calls := if err == Nil then Done else Failure, [UpdateCall(sent, err)];
  }

  /** reconcileForComplete: with engines still active it prunes its own copy and leaves the
      stored object as it is; otherwise it writes the status completed. */
  method ReconcileForComplete(cl: Cluster, cs: SchedulerInfo) returns (res: Outcome, ghost calls: seq<Call>)
    requires cl.Valid()
    requires cl.controller == if cs.instance.active != [] then Idle else Closing(cs.instance, cs.version)
    modifies cl, cl.clock, cs
    ensures cl.Valid() && cl.controller == Idle && cl.log == old(cl.log)
    ensures Reaches(cl.c, old(cl.State()), cl.State())
    ensures cl.trace == old(cl.trace) + calls && |calls| == 1
    ensures old(cs.instance.active) != [] ==>
              calls[0].ListCall? && res == if calls[0].listing.Some? then Done else Failure
    ensures old(cs.instance.active) == [] ==>
              && calls[0].UpdateCall? && ClosedFrom(old(cs.instance), calls[0].sent)
              && old(cl.clock.now) <= calls[0].sent.endTime.value <= cl.clock.now
              && res == (if calls[0].answer.Nil? then Done else Failure)
              && (res == Done ==> Stores(cl.versions, calls[0].sent))
  {
    if |cs.instance.active| != 0 {
      var ok;
      ghost var listing, listed;
      ok, listing, listed := UpdateActiveStatus(cl, cs);
      ghost var a := Advance(cl.clock.now - listed.clock);
      assert cl.State() == Apply(cl.c, listed, a);
      Extend(cl.c, listed, a);
      return if ok then Done else Failure, [ListCall(listing)];
    }
    ghost var from := cl.State();
    ReachesSelf(cl.c, from);
    var now := cl.Now();
    ghost var mid := cl.State();
    cs.instance := cs.instance.(status := StatusCompleted, endTime := Some(now));
    ghost var sent := cs.instance;
    assert Reaches(cl.c, from, mid);
    var err := cl.Update(cs, now);
    ReachesTransitive(cl.c, from, mid, cl.State());
    res, calls := if err == Nil then Done else Failure, [UpdateCall(sent, err)];
  }

  /** Reconcile: one pass, from an idle worker to an idle worker, by steps of the machine; its
      calls, its result and what it leaves behind are those of a pass. */
  method Reconcile(cl: Cluster, spec: RepeatSpec, attempts: nat, limit: nat)
    returns (res: Outcome, ghost calls: seq<Call>, ghost now: int, ghost work: Work)
    requires cl.Valid() && cl.controller == Idle
    requires cl.c.repeat.Some? ==> cl.c.repeat == Some(PlanOf(spec)) && SpaceFree(spec)
    modifies cl, cl.clock
    ensures cl.Valid() && cl.controller == Idle && Reaches(cl.c, old(cl.State()), cl.State())
    ensures Reachable(cl.c, old(cl.State())) ==> Reachable(cl.c, cl.State())
    ensures |cl.log| <= |old(cl.log)| + 1
    ensures cl.trace == old(cl.trace) + calls && old(cl.clock.now) <= now
    ensures Pass(cl.c, old(cl.State()), calls, now, work, res, attempts, limit, cl.versions, old(cl.log), cl.log)
  {
    ghost var from := cl.State();
    now, work := cl.clock.now, NoWork;
    var cs := cl.GetSchedule();
    if cs == null {
      StillReachable(cl.c, from, cl.State());
      return Failure, [GetCall(None)], now, work;
    }
    ghost var w, read := cl.State(), cs.instance;
    ghost var rest;
    res, rest, now, work := RouteAndFollow(cl, cs, spec, attempts, limit);
    calls := [GetCall(Some(read))] + rest;
    ReachesTransitive(cl.c, from, w, cl.State());
    StillReachable(cl.c, from, cl.State());
    FollowsFrom(cl.c, from, w, read, Dispatch(cl.c, read, now), rest, work, res, attempts, limit,
                cl.versions, old(cl.log), cl.log);
    PassOf(cl.c, from, read, rest, now, work, res, attempts, limit, cl.versions, old(cl.log), cl.log);
  }

  /** Reconcile once it has read the object. */
  method RouteAndFollow(cl: Cluster, cs: SchedulerInfo, spec: RepeatSpec, attempts: nat, limit: nat)
    returns (res: Outcome, ghost calls: seq<Call>, ghost now: int, ghost work: Work)
    requires cl.Valid() && cl.controller == Loaded(cs.instance, cs.version)
    requires cl.c.repeat.Some? ==> cl.c.repeat == Some(PlanOf(spec)) && SpaceFree(spec)
    modifies cl, cl.clock, cs
    ensures cl.Valid() && cl.controller == Idle && Reaches(cl.c, old(cl.State()), cl.State())
    ensures |cl.log| <= |old(cl.log)| + 1
    ensures cl.trace == old(cl.trace) + calls && old(cl.clock.now) <= now
    ensures Follows(cl.c, old(cl.State()), old(cs.instance), Dispatch(cl.c, old(cs.instance), now), calls, work, res,
                    attempts, limit, cl.versions, old(cl.log), cl.log)
  {
    ghost var w, read := cl.State(), cs.instance;
    ReachesSelf(cl.c, w);
    var t := cl.clock.Now();
    now := t;
    var route := Dispatch(cl.c, cs.instance, t);
    cl.controller := AfterRoute(cl.controller, route);
    assert cl.State() == Apply(cl.c, w, Enter(t, route));
    Extend(cl.c, w, Enter(t, route));
    ghost var mid := cl.State();
    res, calls, work := Follow(cl, cs, route, spec, attempts, limit);
    ReachesTransitive(cl.c, w, mid, cl.State());
    FollowsFrom(cl.c, w, mid, read, route, calls, work, res, attempts, limit, cl.versions, old(cl.log), cl.log);
  }

  /** The branches of Reconcile. */
  method Follow(cl: Cluster, cs: SchedulerInfo, route: Route, spec: RepeatSpec, attempts: nat, limit: nat)
    returns (res: Outcome, ghost calls: seq<Call>, ghost work: Work)
    requires cl.Valid() && cl.controller == AfterRoute(Loaded(cs.instance, cs.version), route)
    requires route.Proceed? ==> cl.c.Single() || cl.c.Repeating()
    requires route.Close? ==> cs.instance.active == []
    requires route.Review? ==> cs.instance.active != []
    requires cl.c.repeat.Some? ==> cl.c.repeat == Some(PlanOf(spec)) && SpaceFree(spec)
    modifies cl, cl.clock, cs
    ensures cl.Valid() && cl.controller == Idle && Reaches(cl.c, old(cl.State()), cl.State())
    ensures |cl.log| <= |old(cl.log)| + 1
    ensures cl.trace == old(cl.trace) + calls
    ensures Follows(cl.c, old(cl.State()), old(cs.instance), route, calls, work, res, attempts, limit,
                    cl.versions, old(cl.log), cl.log)
  {
    calls, work := [], NoWork;
    match route {
      case Leave(outcome) =>
        ReachesSelf(cl.c, cl.State());
        res := outcome;
      case Halt => res, calls := ReconcileForHalt(cl, cs);
      case Close => res, calls := ReconcileForComplete(cl, cs);
      case Review => res, calls := ReconcileForComplete(cl, cs);
      case Proceed =>
        if cl.c.Single() {
          res, work := CreateForNowAndOnce(cl, cs, attempts);
        } else {
          res, work := CreateEngineRepeat(cl, cs, spec, attempts, limit);
        }
        calls := work.Calls();
    }
  }
}
