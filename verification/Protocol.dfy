/** The controller, the API server and everyone else, as one machine that moves by single
    API calls. The stored object is the last of its versions; a resource version is an
    index into them, so a stale read is a read of any index and a write succeeds only
    from the last one. Between any two steps of the controller the clock may advance,
    engines may finish or be deleted, the user may set scheduleState or delete the
    schedule, and the pass may stop: a crash or a failed call. */
module Protocol {
  import opened Text
  import opened Objects
  import opened ActiveList
  import opened Decision

  datatype Engine = Engine(uid: nat, finished: bool)

  /** Where the one worker of this schedule is, and its local copy of the object with
      the version it was read or written as. */
  datatype Controller =
    | Idle
    | Loaded(local: Object, version: nat)
    | Listing(local: Object, version: nat)               // about to list the engines
    | Gating(local: Object, version: nat)                // pruned, about to write
    | Gated(local: Object, version: nat)                 // that write succeeded
    | Looking(local: Object, version: nat, at: int)      // single run: about to get the engine
    | Creating(local: Object, version: nat, at: int)     // about to create an engine
    | Recording(local: Object, version: nat, at: int, uid: nat) // created, about to record it
    | Halting(local: Object, version: nat)
    | Closing(local: Object, version: nat)
    | Completing(local: Object, version: nat)            // UpdateSchedulerStatus, first write
    | Retrying                                           // after its conflict
    | Rewriting(local: Object, version: nat)

  /** An engine once created: its scheduled time and the version of the gating write. Its
      UID is its place in the log. */
  datatype Creation = Creation(at: int, gate: nat)

  datatype World = World(
    versions: seq<Object>,
    engines: map<EngineName, Engine>,
    clock: int,
    controller: Controller,
    // bookkeeping no step looks at
    log: seq<Creation>,        // every engine ever created
    lost: set<nat>,            // those whose recording write never took effect
    finished: set<nat>,        // those seen to completion, deleted since or not
    deletions: nat)            // engines deleted
  {
    function Stored(): Object
      requires |versions| > 0
    {
      versions[|versions| - 1]
    }

    function Last(): nat
      requires |versions| > 0
    {
      |versions| - 1
    }
  }

  datatype Found = Missing | Running | Ended

  datatype Action =
    // everyone else
    | Advance(elapsed: nat)
    | FinishEngine(name: EngineName)
    | DeleteEngine(name: EngineName)
    | SetState(state: ScheduleState)
    | DeleteSchedule
    // the controller
    | Read(version: nat)
    | Enter(now: int, route: Route)
    | List(items: seq<Seen>, now: int)
    | Write(now: int)
    | Choose(readings: Readings, verdict: Verdict)
    | Note(now: int)
    | LookUp(found: Found)
    | Create
    | Retry
    | Reread(version: nat)
    | Stop
  {
    predicate Environment() {
      Advance? || FinishEngine? || DeleteEngine? || SetState? || DeleteSchedule?
    }
  }

  // ---------------------------------------------------------------- objects written

  /** The recorded object after a creation. */
  function Recorded(c: Config, o: Object, at: int, uid: nat): Object {
    var active := o.active + [Ref(NameAt(c, at), uid)];
    if c.Single() then
      o.(state := Active, status := StatusRunning, startTime := Some(at), lastSchedule := Some(at), active := active)
    else
      o.(state := Active, status := StatusRunning, active := active, lastSchedule := Some(at), runs := o.runs + 1,
         startTime := Some(if c.repeat.Some? then c.Start() else c.created))
  }

  /** What UpdateSchedulerStatus makes of an object, on either of its paths. */
  function CompletedObject(o: Object, now: int): Object {
    o.(status := StatusCompleted, endTime := Some(now), state := Completed, active := [])
  }

  /** The object after updateActiveStatus. */
  function Pruned(o: Object, items: seq<Seen>, now: int): Object {
    o.(active := Kept(o.active, items),
       lastCompletion := if SomeMissing(o.active, items) then Some(now) else o.lastCompletion)
  }

  predicate Writing(k: Controller) {
    k.Gating? || k.Recording? || k.Halting? || k.Closing? || k.Completing? || k.Rewriting?
  }

  function ToWrite(c: Config, k: Controller, now: int): Object
    requires Writing(k)
  {
    match k
    case Gating(o, _) => o
    case Recording(o, _, at, uid) => Recorded(c, o, at, uid)
    case Halting(o, _) => o.(status := StatusHalted)
    case Closing(o, _) => o.(status := StatusCompleted, endTime := Some(now))
    case Completing(o, _) => CompletedObject(o, now)
    case Rewriting(o, _) => CompletedObject(o, now)
  }

  // ---------------------------------------------------------------- steps

  /** A listing that omits no running engine and reports none of them finished. It may be
      out of date about every other engine. */
  predicate Honest(engines: map<EngineName, Engine>, items: seq<Seen>) {
    forall name :: name in engines && !engines[name].finished ==>
      Seen(engines[name].uid, false) in items && Seen(engines[name].uid, true) !in items
  }

  ghost predicate Enabled(c: Config, w: World, a: Action)
    requires |w.versions| > 0
  {
    var k := w.controller;
    match a
    case Advance(_) => true
    case FinishEngine(name) => name in w.engines
    case DeleteEngine(name) => name in w.engines
    case SetState(_) => true
    case DeleteSchedule => true
    case Read(version) => k.Idle? && version < |w.versions|
    case Enter(now, route) => k.Loaded? && now >= w.clock && route == Dispatch(c, k.local, now)
    case List(items, now) => k.Listing? && now >= w.clock && Honest(w.engines, items)
    case Write(now) => Writing(k) && k.version == w.Last() && now <= w.clock
    case Choose(r, verdict) =>
      k.Gated? && c.Valid() && c.Repeating() && r.Ordered(w.clock)
      && verdict == Decide(c, k.local, r) && !verdict.Spin?
    case Note(now) => k.Gated? && c.Single() && now >= w.clock
    case LookUp(found) => k.Looking? && c.Single() && (found.Ended? ==> w.finished != {})
    case Create => k.Creating? && NameAt(c, k.at) !in w.engines
    case Retry => k.Rewriting? || (k.Completing? && k.version != w.Last())
    case Reread(version) => k.Retrying? && version < |w.versions|
    case Stop => true
  }

  /** The step belongs to where the controller is, and names things that exist. */
  predicate Fits(w: World, a: Action) {
    var k := w.controller;
    match a
    case FinishEngine(name) => name in w.engines
    case DeleteEngine(name) => name in w.engines
    case Read(version) => version < |w.versions|
    case Enter(_, _) => k.Loaded?
    case List(_, _) => k.Listing?
    case Write(_) => Writing(k)
    case Choose(_, _) => k.Gated?
    case Note(_) => k.Gated?
    case LookUp(_) => k.Looking?
    case Create => k.Creating?
    case Reread(version) => version < |w.versions|
    case _ => true
  }

  /** A retried completion may not hear of its success, and then tries again; if it does,
      the pass stops. */
  function AfterWrite(k: Controller, written: Object, version: nat): Controller {
    if k.Gating? then Gated(written, version) else if k.Rewriting? then Retrying else Idle
  }

  function AfterChoice(k: Controller, v: Verdict): Controller
    requires k.Gated?
  {
    match v
    case Launch(at) => Creating(k.local, k.version, at)
    case Finish => Completing(k.local, k.version)
    case _ => Idle
  }

  function AfterRoute(k: Controller, r: Route): Controller
    requires k.Loaded?
  {
    match r
    case Proceed => Listing(k.local, k.version)
    case Halt => Halting(k.local, k.version)
    case Close => Closing(k.local, k.version)
    case _ => Idle
  }

  function AfterList(k: Controller, items: seq<Seen>, now: int): Controller
    requires k.Listing?
  {
    Gating(Pruned(k.local, items, now), k.version)
  }

  /** The engine of a single run is created if missing, and ends the schedule if finished. */
  function AfterLookUp(k: Controller, found: Found): Controller
    requires k.Looking?
  {
    match found
    case Missing => Creating(k.local, k.version, k.at)
    case Ended => Completing(k.local, k.version)
    case Running => Idle
  }

  ghost function Apply(c: Config, w: World, a: Action): World
    requires |w.versions| > 0 && Fits(w, a)
  {
    var k := w.controller;
    match a
    case Advance(elapsed) => w.(clock := w.clock + elapsed)
    case FinishEngine(name) =>
      var e := w.engines[name];
      w.(engines := w.engines[name := e.(finished := true)], finished := w.finished + {e.uid})
    case DeleteEngine(name) => w.(engines := w.engines - {name}, deletions := w.deletions + 1)
    case SetState(state) => w.(versions := w.versions + [w.Stored().(state := state)])
    case DeleteSchedule => w.(versions := w.versions + [w.Stored().(deleting := true)])
    case Read(version) => w.(controller := Loaded(w.versions[version], version))
    case Enter(now, route) => w.(clock := now, controller := AfterRoute(k, route))
    case List(items, now) => w.(clock := now, controller := AfterList(k, items, now))
    case Write(now) =>
      var o := Persist(ToWrite(c, k, now));
      w.(versions := w.versions + [o], controller := AfterWrite(k, o, |w.versions|))
    case Choose(r, verdict) => w.(clock := r.requeue, controller := AfterChoice(k, verdict))
    case Note(now) => w.(clock := now, controller := Looking(k.local, k.version, now))
    case LookUp(found) => w.(controller := AfterLookUp(k, found))
    case Create =>
      var uid := |w.log|;
      w.(engines := w.engines[NameAt(c, k.at) := Engine(uid, false)],
         log := w.log + [Creation(k.at, k.version)],
         controller := Recording(k.local, k.version, k.at, uid))
    case Retry => w.(controller := Retrying)
    case Reread(version) => w.(controller := Rewriting(w.versions[version], version))
    case Stop =>
      w.(controller := Idle, lost := w.lost + if k.Recording? then {k.uid} else {})
  }

  // ---------------------------------------------------------------- runs

  ghost predicate Init(c: Config, w: World) {
    && |w.versions| == 1
    && w.Stored().status == Unknown && w.Stored().active == [] && w.Stored().runs == 0
    && w.Stored().lastSchedule.None? && w.Stored().lastCompletion.None? && Persist(w.Stored()) == w.Stored()
    && w.engines == map[] && w.controller == Idle
    && w.log == [] && w.lost == {} && w.finished == {} && w.deletions == 0
  }

  /** Every step of the sequence can be taken, one after the other. */
  ghost predicate Allowed(c: Config, w: World, acts: seq<Action>)
    decreases |acts|
  {
    |w.versions| > 0
    && (acts != [] ==> Enabled(c, w, acts[0]) && Allowed(c, Apply(c, w, acts[0]), acts[1..]))
  }

  ghost function Run(c: Config, w: World, acts: seq<Action>): World
    requires Allowed(c, w, acts)
    decreases |acts|
  {
    if acts == [] then w else Run(c, Apply(c, w, acts[0]), acts[1..])
  }

  ghost predicate Leads(c: Config, w: World, acts: seq<Action>, w': World) {
    Allowed(c, w, acts) && Run(c, w, acts) == w'
  }

  ghost predicate Reaches(c: Config, w: World, w': World) { exists acts :: Leads(c, w, acts, w') }

  ghost predicate Reachable(c: Config, w: World) {
    |w.versions| > 0 && exists w0 :: Init(c, w0) && Reaches(c, w0, w)
  }

  lemma {:induction false} RunConcat(c: Config, w: World, a: seq<Action>, b: seq<Action>)
    requires Allowed(c, w, a) && Allowed(c, Run(c, w, a), b)
    ensures Allowed(c, w, a + b) && Run(c, w, a + b) == Run(c, Run(c, w, a), b)
    decreases |a|
  {
    if a == [] {
      assert a + b == b;
    } else {
      assert (a + b)[1..] == a[1..] + b;
      RunConcat(c, Apply(c, w, a[0]), a[1..], b);
    }
  }

  lemma ReachesTransitive(c: Config, u: World, v: World, w: World)
    requires Reaches(c, u, v) && Reaches(c, v, w)
    ensures Reaches(c, u, w)
  {
    var a :| Leads(c, u, a, v);
    var b :| Leads(c, v, b, w);
    RunConcat(c, u, a, b);
    assert Leads(c, u, a + b, w);
  }

  lemma ReachesStep(c: Config, w: World, a: Action)
    requires |w.versions| > 0 && Enabled(c, w, a)
    ensures Reaches(c, w, Apply(c, w, a))
  {
    var acts, w' := [a], Apply(c, w, a);
    assert acts[1..] == [] && |w'.versions| > 0;
    assert Allowed(c, w', []) && Run(c, w', []) == w';
    assert Leads(c, w, acts, w');
  }

  lemma ReachesSelf(c: Config, w: World)
    requires |w.versions| > 0
    ensures Reaches(c, w, w)
  {
    assert Leads(c, w, [], w);
  }

  lemma StillReachable(c: Config, w: World, w': World)
    requires Reaches(c, w, w') && |w'.versions| > 0
    ensures Reachable(c, w) ==> Reachable(c, w')
  {
    if Reachable(c, w) {
      var w0 :| Init(c, w0) && Reaches(c, w0, w);
      ReachesTransitive(c, w0, w, w');
    }
  }
}
