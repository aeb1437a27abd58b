/** The calls a reconcile pass makes, in order and with their answers, and what it returns
    and leaves behind for them; stated call by call, without the machine's step functions. */
module Calls {
  import opened Text
  import opened Instants
  import opened Objects
  import opened ActiveList
  import opened Decision
  import opened Protocol
  import opened Clusters
  import opened RepeatTimes

  // ---------------------------------------------------------------- objects sent

  predicate HaltedFrom(o: Object, p: Object) { p == o.(status := StatusHalted) }

  predicate ClosedFrom(o: Object, p: Object) {
    p.endTime.Some? && p == o.(status := StatusCompleted, endTime := p.endTime)
  }

  predicate CompletedFrom(o: Object, p: Object) {
    p.endTime.Some? && p == o.(state := Completed, status := StatusCompleted, active := [], endTime := p.endTime)
  }

  function EngineNamed(c: Config, at: int): EngineName {
    if c.Single() then Plain(c.name) else Timed(c.name, Unix(at))
  }

  predicate RecordedFrom(c: Config, o: Object, at: int, uid: nat, p: Object) {
    var recorded := o.(state := Active, status := StatusRunning, lastSchedule := Some(at),
                       active := o.active + [Ref(EngineNamed(c, at), uid)]);
    if c.Single() then p == recorded.(startTime := Some(at))
    else
      && c.repeat.Some?
      && var start := c.repeat.value.startTime;
         p == recorded.(runs := o.runs + 1, startTime := if start.Some? then start else Some(c.created))
  }

  /** The object as last stored. */
  predicate Stores(versions: seq<Object>, p: Object) {
    |versions| > 0 && versions[|versions| - 1] == Persist(p)
  }

  /** The last version is the one before it, completed. */
  predicate StoresCompletion(versions: seq<Object>) {
    |versions| > 1 && CompletedFrom(Persist(versions[|versions| - 2]), versions[|versions| - 1])
  }

  // ---------------------------------------------------------------- completing

  /** One try of the retry: a Get and, if it is answered, an Update of what it read. */
  ghost predicate Try(calls: seq<Call>, ok: bool) {
    || (calls == [GetCall(None)] && !ok)
    || (|calls| == 2 && calls[0].GetCall? && calls[0].read.Some? && calls[1].UpdateCall?
        && CompletedFrom(calls[0].read.value, calls[1].sent) && ok == calls[1].answer.Nil?)
  }

  ghost predicate FailedTries(calls: seq<Call>, n: nat)
    decreases n
  {
    if n == 0 then calls == []
    else exists k :: 0 <= k <= |calls| && FailedTries(calls[..k], n - 1) && Try(calls[k..], false)
  }

  /** So many tries at most: it ends with the first that succeeds, or fails with the last. */
  ghost predicate Retries(calls: seq<Call>, attempts: nat, ok: bool) {
    if ok then
      exists n: nat, k :: n < attempts && 0 <= k <= |calls| && FailedTries(calls[..k], n) && Try(calls[k..], true)
    else FailedTries(calls, attempts)
  }

  lemma OneMoreTry(calls: seq<Call>, n: nat, last: seq<Call>, ok: bool, attempts: nat)
    requires FailedTries(calls, n) && Try(last, ok)
    ensures !ok ==> FailedTries(calls + last, n + 1)
    ensures ok && n < attempts ==> Retries(calls + last, attempts, true)
  {
    var all := calls + last;
    assert all[..|calls|] == calls && all[|calls|..] == last;
  }

  /** UpdateSchedulerStatus: one Update of the completed copy; after a conflict, and only
      then, the retry. */
  ghost predicate Finishes(o: Object, calls: seq<Call>, attempts: nat, ok: bool) {
    && |calls| > 0 && calls[0].UpdateCall? && CompletedFrom(o, calls[0].sent)
    && if calls[0].answer.Conflict? then Retries(calls[1..], attempts, ok) else |calls| == 1 && ok
  }

  // ---------------------------------------------------------------- gating and creating

  /** List, and if it is answered Update with the pruned copy. */
  ghost predicate Opens(o: Object, calls: seq<Call>, ok: bool) {
    || (calls == [ListCall(None)] && !ok)
    || (|calls| == 2 && calls[0].ListCall? && calls[0].listing.Some? && calls[1].UpdateCall?
        && (exists stamp :: PrunedBy(o, calls[0].listing.value, stamp, calls[1].sent))
        && ok == calls[1].answer.Nil?)
  }

  lemma OpensWith(o: Object, listing: seq<Seen>, stamp: int, sent: Object, answer: WriteError)
    requires PrunedBy(o, listing, stamp, sent)
    ensures Opens(o, [ListCall(Some(listing)), UpdateCall(sent, answer)], answer.Nil?)
  {
  }

  /** Create the engine, and if it is answered Update with the creation recorded. */
  ghost predicate Creates(c: Config, o: Object, at: int, calls: seq<Call>, ok: bool) {
    && |calls| > 0 && calls[0].CreateCall? && calls[0].name == EngineNamed(c, at)
    && if calls[0].uid.None? then |calls| == 1 && !ok
       else
         && |calls| == 2 && calls[1].UpdateCall? && RecordedFrom(c, o, at, calls[0].uid.value, calls[1].sent)
         && ok == calls[1].answer.Nil?
  }

  /** A creation that was answered and recorded is in the log and in the stored object. */
  predicate CreationKept(at: int, calls: seq<Call>, versions: seq<Object>, before: seq<Creation>, log: seq<Creation>) {
    && |log| == |before| + 1 && log[|before|].at == at
    && |calls| == 2 && calls[1].UpdateCall? && Stores(versions, calls[1].sent)
  }

  // ---------------------------------------------------------------- a repeat pass

  /** What a repeat pass does for its verdict. */
  ghost predicate Acts(c: Config, o: Object, v: Verdict, calls: seq<Call>, res: Outcome, attempts: nat,
                       versions: seq<Object>, before: seq<Creation>, log: seq<Creation>)
    requires c.repeat.Some?
  {
    match v
    case Spin => false
    case Failed => calls == [] && res == Failure && log == before
    case Quit => calls == [] && res == Done && log == before
    case Requeue(delay) => calls == [] && res == After(delay) && log == before
    case Finish =>
      && Finishes(o, calls, attempts, res == Done) && (res == Done || res == Failure) && log == before
      && (res == Done && calls[0].answer != OtherError ==> StoresCompletion(versions))
    case Launch(at) =>
      && Creates(c, o, at, calls, res != Failure) && (res == Failure || res == After(c.repeat.value.period))
      && (res != Failure ==> CreationKept(at, calls, versions, before, log))
  }

  /** What a working pass came to: the calls of its opening; for a repeat pass the state
      after its gating write and the readings taken then, for a single pass the reading
      taken then; and the calls made after that. */
  datatype Work =
    | NoWork
    | RepeatWork(gating: seq<Call>, gated: Option<World>, r: Readings, acting: seq<Call>)
    | SingleWork(gating: seq<Call>, at: int, acting: seq<Call>)
  {
    function Calls(): seq<Call> { if NoWork? then [] else gating + acting }
  }

  /** A repeat pass stops if its opening fails, and else acts on what is decided on the
      object as gated. It hangs exactly if its catch-up loop is reached and outlasts the
      process. */
  ghost predicate RepeatPass(c: Config, from: World, o: Object, work: Work, res: Outcome, attempts: nat, limit: nat,
                             versions: seq<Object>, before: seq<Creation>, log: seq<Creation>)
    requires c.Valid() && c.Repeating()
  {
    && work.RepeatWork? && Opens(o, work.gating, work.gated.Some?)
    && (work.gated.None? ==> work.acting == [] && res == Failure && log == before)
    && (work.gated.Some? ==>
          var (w, r) := (work.gated.value, work.r);
          && Reaches(c, from, w) && w.controller.Gated? && r.Ordered(w.clock)
          && w.controller.local == Persist(work.gating[1].sent)
          && RepeatActs(c, w.controller.local, r, work.acting, res, attempts, limit, versions, before, log))
  }

  ghost predicate RepeatActs(c: Config, o: Object, r: Readings, acting: seq<Call>, res: Outcome, attempts: nat,
                             limit: nat, versions: seq<Object>, before: seq<Creation>, log: seq<Creation>)
    requires c.Valid() && c.Repeating()
  {
    && (res.Hung? <==> !c.Ended(r.end) && !o.deleting && LoopOutlasts(c, o, r.now, limit))
    && (res.Hung? ==> acting == [] && log == before)
    && (!res.Hung? ==> Acts(c, o, Decide(c, o, r), acting, res, attempts, versions, before, log))
  }

  lemma RepeatPassOf(c: Config, from: World, o: Object, work: Work, res: Outcome, attempts: nat, limit: nat,
                     versions: seq<Object>, before: seq<Creation>, log: seq<Creation>)
    requires c.Valid() && c.Repeating() && work.RepeatWork? && work.gated.Some? && Opens(o, work.gating, true)
    requires var w := work.gated.value;
             && Reaches(c, from, w) && w.controller.Gated? && work.r.Ordered(w.clock)
             && w.controller.local == Persist(work.gating[1].sent)
             && RepeatActs(c, w.controller.local, work.r, work.acting, res, attempts, limit, versions, before, log)
    ensures RepeatPass(c, from, o, work, res, attempts, limit, versions, before, log)
  {
  }

  // ---------------------------------------------------------------- a single pass

  /** What a single pass does for what its lookup found: nothing there and it creates the
      engine, an engine at work and it does nothing, an engine at its end and it completes
      the schedule. */
  ghost predicate Handles(c: Config, o: Object, at: int, found: Option<Found>, calls: seq<Call>, res: Outcome,
                          attempts: nat, versions: seq<Object>, before: seq<Creation>, log: seq<Creation>) {
    match found
    case None => calls == [] && res == Failure && log == before
    case Some(Running) => calls == [] && res == Done && log == before
    case Some(Missing) =>
      && Creates(c, o, at, calls, res == Done) && (res == Done || res == Failure)
      && (res == Done ==> CreationKept(at, calls, versions, before, log))
    case Some(Ended) =>
      && Finishes(o, calls, attempts, res == Done) && (res == Done || res == Failure) && log == before
      && (res == Done && calls[0].answer != OtherError ==> StoresCompletion(versions))
  }

  ghost predicate LooksUp(c: Config, o: Object, at: int, calls: seq<Call>, res: Outcome, attempts: nat,
                          versions: seq<Object>, before: seq<Creation>, log: seq<Creation>) {
    && |calls| > 0 && calls[0].EngineCall?
    && Handles(c, o, at, calls[0].found, calls[1..], res, attempts, versions, before, log)
  }

  ghost predicate SinglePass(c: Config, o: Object, work: Work, res: Outcome, attempts: nat,
                             versions: seq<Object>, before: seq<Creation>, log: seq<Creation>) {
    && work.SingleWork?
    && (|| (Opens(o, work.gating, false) && work.acting == [] && res == Failure && log == before)
        || (Opens(o, work.gating, true) && work.gating[1].UpdateCall?
            && LooksUp(c, Persist(work.gating[1].sent), work.at, work.acting, res, attempts, versions, before, log)))
  }

  lemma SinglePassStops(c: Config, o: Object, gating: seq<Call>, attempts: nat,
                        versions: seq<Object>, log: seq<Creation>)
    requires Opens(o, gating, false)
    ensures SinglePass(c, o, SingleWork(gating, 0, []), Failure, attempts, versions, log, log)
  {
  }

  lemma SinglePassOf(c: Config, o: Object, work: Work, res: Outcome, attempts: nat,
                     versions: seq<Object>, before: seq<Creation>, log: seq<Creation>)
    requires work.SingleWork? && Opens(o, work.gating, true)
    requires LooksUp(c, Persist(work.gating[1].sent), work.at, work.acting, res, attempts, versions, before, log)
    ensures SinglePass(c, o, work, res, attempts, versions, before, log)
  {
  }

  // ---------------------------------------------------------------- a pass

  /** What a pass does for the route the object read sends it on. */
  ghost predicate Follows(c: Config, from: World, o: Object, route: Route, calls: seq<Call>, work: Work, res: Outcome,
                          attempts: nat, limit: nat, versions: seq<Object>, before: seq<Creation>, log: seq<Creation>)
    requires c.Valid()
  {
    && (!route.Proceed? ==> log == before)
    && match route
       case Leave(outcome) => calls == [] && res == outcome
       case Halt =>
         && |calls| == 1 && calls[0].UpdateCall? && HaltedFrom(o, calls[0].sent)
         && res == (if calls[0].answer.Nil? then Done else Failure)
         && (res == Done ==> Stores(versions, calls[0].sent))
       case Close =>
         && |calls| == 1 && calls[0].UpdateCall? && ClosedFrom(o, calls[0].sent)
         && res == (if calls[0].answer.Nil? then Done else Failure)
         && (res == Done ==> Stores(versions, calls[0].sent))
       case Review =>
         |calls| == 1 && calls[0].ListCall? && res == if calls[0].listing.Some? then Done else Failure
       case Proceed =>
         && calls == work.Calls()
         && if c.Single() then SinglePass(c, o, work, res, attempts, versions, before, log)
            else c.Repeating() && RepeatPass(c, from, o, work, res, attempts, limit, versions, before, log)
  }

  lemma FollowsFrom(c: Config, u: World, from: World, o: Object, route: Route, calls: seq<Call>, work: Work,
                    res: Outcome, attempts: nat, limit: nat,
                    versions: seq<Object>, before: seq<Creation>, log: seq<Creation>)
    requires c.Valid() && Reaches(c, u, from)
    requires Follows(c, from, o, route, calls, work, res, attempts, limit, versions, before, log)
    ensures Follows(c, u, o, route, calls, work, res, attempts, limit, versions, before, log)
  {
    if route.Proceed? && work.RepeatWork? && work.gated.Some? {
      ReachesTransitive(c, u, from, work.gated.value);
    }
  }

  /** Reconcile: a Get and, if it is answered, what the route of the object read asks for. */
  ghost predicate Pass(c: Config, from: World, calls: seq<Call>, now: int, work: Work, res: Outcome,
                       attempts: nat, limit: nat, versions: seq<Object>, before: seq<Creation>, log: seq<Creation>)
    requires c.Valid()
  {
    && |calls| > 0 && calls[0].GetCall?
    && match calls[0].read
       case None => |calls| == 1 && res == Failure && log == before
       case Some(o) =>
         Follows(c, from, o, Dispatch(c, o, now), calls[1..], work, res, attempts, limit, versions, before, log)
  }

  lemma PassOf(c: Config, from: World, o: Object, rest: seq<Call>, now: int, work: Work, res: Outcome,
               attempts: nat, limit: nat, versions: seq<Object>, before: seq<Creation>, log: seq<Creation>)
    requires c.Valid()
    requires Follows(c, from, o, Dispatch(c, o, now), rest, work, res, attempts, limit, versions, before, log)
    ensures Pass(c, from, [GetCall(Some(o))] + rest, now, work, res, attempts, limit, versions, before, log)
  {
    assert ([GetCall(Some(o))] + rest)[1..] == rest;
  }

  // ---------------------------------------------------------------- every call answered

  ghost predicate AllAnswered(calls: seq<Call>) { forall i :: 0 <= i < |calls| ==> calls[i].Answered() }

  lemma GatingAnswered(o: Object, calls: seq<Call>, ok: bool)
    requires Opens(o, calls, ok) && AllAnswered(calls)
    ensures ok && |calls| == 2
  {
    assert calls[0].Answered() && (|calls| > 1 ==> calls[1].Answered());
  }

  lemma CreationAnswered(c: Config, o: Object, at: int, calls: seq<Call>, ok: bool)
    requires Creates(c, o, at, calls, ok) && AllAnswered(calls)
    ensures ok
  {
  }

  lemma CompletionAnswered(o: Object, calls: seq<Call>, attempts: nat, ok: bool)
    requires Finishes(o, calls, attempts, ok) && AllAnswered(calls)
    ensures ok && calls[0].answer.Nil?
  {
    assert calls[0].Answered();
  }

  lemma PartsAnswered(work: Work)
    requires !work.NoWork? && AllAnswered(work.Calls())
    ensures AllAnswered(work.gating) && AllAnswered(work.acting)
  {
    var all := work.gating + work.acting;
    assert forall i :: 0 <= i < |work.gating| ==> all[i] == work.gating[i];
    assert forall i :: 0 <= i < |work.acting| ==> all[|work.gating| + i] == work.acting[i];
  }

  /** A repeat pass all of whose calls are answered fails only if its verdict is to fail. A
      launch ends in the requeue period with the engine created and recorded, and a finish
      with the completion stored. */
  lemma RepeatAnswered(c: Config, from: World, o: Object, work: Work, res: Outcome, attempts: nat, limit: nat,
                       versions: seq<Object>, before: seq<Creation>, log: seq<Creation>)
    requires c.Valid() && c.Repeating() && AllAnswered(work.Calls())
    requires RepeatPass(c, from, o, work, res, attempts, limit, versions, before, log)
    ensures work.gated.Some? && work.gated.value.controller.Gated?
    ensures var v := Decide(c, work.gated.value.controller.local, work.r);
            && (res == Failure <==> v.Failed?)
            && (v.Launch? && !res.Hung? ==>
                  res == After(c.repeat.value.period) && CreationKept(v.at, work.acting, versions, before, log))
            && (v.Finish? ==> res == Done && StoresCompletion(versions))
  {
    PartsAnswered(work);
    GatingAnswered(o, work.gating, work.gated.Some?);
    var g := work.gated.value.controller.local;
    var v := Decide(c, g, work.r);
    if !res.Hung? {
      match v
      case Launch(at) => CreationAnswered(c, g, at, work.acting, res != Failure);
      case Finish => CompletionAnswered(g, work.acting, attempts, res == Done);
      case _ =>
    }
  }

  /** A single pass all of whose calls are answered does not fail: it has created and
      recorded the engine, or found it at work, or stored the completion. */
  lemma SingleAnswered(c: Config, o: Object, work: Work, res: Outcome, attempts: nat,
                       versions: seq<Object>, before: seq<Creation>, log: seq<Creation>)
    requires AllAnswered(work.Calls()) && SinglePass(c, o, work, res, attempts, versions, before, log)
    ensures res == Done && |work.acting| > 0 && work.acting[0].EngineCall?
    ensures match work.acting[0].found
            case None => false
            case Some(Running) => log == before
            case Some(Missing) => CreationKept(work.at, work.acting[1..], versions, before, log)
            case Some(Ended) => log == before && StoresCompletion(versions)
  {
    PartsAnswered(work);
    if Opens(o, work.gating, false) && work.acting == [] {
      GatingAnswered(o, work.gating, false);
    }
    var g, rest := Persist(work.gating[1].sent), work.acting[1..];
    assert work.acting[0].Answered();
    assert AllAnswered(rest);
    match work.acting[0].found.value
    case Running =>
    case Missing => CreationAnswered(c, g, work.at, rest, res == Done);
    case Ended => CompletionAnswered(g, rest, attempts, res == Done);
  }

  /** A pass fails only if a call was not answered, or by its route, or by its verdict; and
      with all calls answered a halt or a close is stored. */
  lemma FailureHasCause(c: Config, from: World, calls: seq<Call>, now: int, work: Work, res: Outcome,
                        attempts: nat, limit: nat, versions: seq<Object>, before: seq<Creation>, log: seq<Creation>)
    requires c.Valid() && AllAnswered(calls)
    requires Pass(c, from, calls, now, work, res, attempts, limit, versions, before, log)
    ensures calls[0].read.Some?
    ensures var o := calls[0].read.value;
            var route := Dispatch(c, o, now);
            && (res == Failure ==>
                  || route == Leave(Failure)
                  || (route.Proceed? && c.Repeating() && work.RepeatWork? && work.gated.Some?
                      && work.gated.value.controller.Gated?
                      && Decide(c, work.gated.value.controller.local, work.r).Failed?))
            && (route.Halt? || route.Close? ==> res == Done && |calls| == 2 && Stores(versions, calls[1].sent))
            && (route.Review? ==> res == Done)
            && (route.Proceed? && c.Single() ==> res == Done)
  {
    assert calls[0].Answered();
    var route, rest := Dispatch(c, calls[0].read.value, now), calls[1..];
    assert forall i :: 0 <= i < |rest| ==> rest[i] == calls[i + 1];
    assert AllAnswered(rest);
    if route.Proceed? {
      if c.Single() {
        SingleAnswered(c, calls[0].read.value, work, res, attempts, versions, before, log);
      } else {
        RepeatAnswered(c, from, calls[0].read.value, work, res, attempts, limit, versions, before, log);
      }
    } else if rest != [] {
      assert rest[0].Answered();
    }
  }
}
