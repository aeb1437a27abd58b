/** What every step of the machine keeps. */
module Invariants {
  import opened Text
  import opened Instants
  import opened Cron
  import opened Objects
  import opened ActiveList
  import opened Decision
  import opened Protocol

  predicate HasCopy(k: Controller) { !k.Idle? && !k.Retrying? }

  /** The pass has made its gating write and no other since. */
  predicate PastGate(k: Controller) { k.Gated? || k.Looking? || k.Creating? || k.Recording? || k.Completing? }

  predicate Working(k: Controller) { k.Listing? || k.Gating? || PastGate(k) }

  predicate MayRun(state: ScheduleState) { state.Unset? || state.Active? }

  /** Equal but for the two fields a user can change. */
  predicate SameStatus(a: Object, b: Object) { a == b.(state := a.state, deleting := a.deleting) }

  // ---------------------------------------------------------------- steps, by their facts

  /** What the proofs use of a dispatch. */
  ghost predicate RouteFacts(c: Config, o: Object, now: int, route: Route) {
    match route
    case Proceed =>
      && MayRun(o.state) && (c.Single() || c.Repeating())
      && (c.Repeating() ==> c.Start() < now)
      && (!c.now && c.once.Some? ==> c.once.value < now)
    case Halt => o.state.Halted? && !o.status.StatusHalted?
    case Close => o.state.Completed? && !o.status.StatusCompleted? && o.active == []
    case _ => true
  }

  /** What the proofs use of a choice made from the instant `from` on. */
  ghost predicate ChoiceFacts(c: Config, o: Object, from: int, to: int, v: Verdict) {
    && c.Repeating() && from <= to
    && match v
       case Finish => c.Ended(to)
       case Launch(at) =>
         && c.repeat.value.cron.Some? && at <= to && o.active == [] && !o.deleting
         && !c.Ended(from) && !c.Ended(at)
         && (o.lastSchedule.None? ==> from <= at)
         && (o.lastSchedule.Some? ==>
               && c.Tick(at) && at > o.lastSchedule.value
               && (forall x :: o.lastSchedule.value < x <= from && c.Tick(x) ==> x <= at)
               && (o.lastCompletion.Some? && o.lastCompletion.value <= from ==> at > o.lastCompletion.value))
       case _ => true
  }

  /** A step the machine can take, with the two decisions known by their facts alone. */
  ghost predicate Possible(c: Config, w: World, a: Action)
    requires |w.versions| > 0
  {
    var k := w.controller;
    Fits(w, a) &&
    match a
    case Read(_) => k.Idle?
    case Enter(now, route) => now >= w.clock && RouteFacts(c, k.local, now, route)
    case List(items, now) => now >= w.clock && Honest(w.engines, items)
    case Write(now) => k.version == w.Last() && now <= w.clock
    case Choose(r, v) => ChoiceFacts(c, k.local, w.clock, r.requeue, v)
    case Note(now) => c.Single() && now >= w.clock
    case LookUp(found) => c.Single() && (found.Ended? ==> w.finished != {})
    case Create => NameAt(c, k.at) !in w.engines
    case Retry => k.Rewriting? || (k.Completing? && k.version != w.Last())
    case Reread(version) => k.Retrying?
    case _ => true
  }

  lemma EnabledIsPossible(c: Config, w: World, a: Action)
    requires |w.versions| > 0 && Enabled(c, w, a)
    ensures Possible(c, w, a)
  {
    if a.Choose? && a.verdict.Launch? {
      LaunchFacts(c, w.controller.local, a.readings, w.clock);
    }
  }

  // ---------------------------------------------------------------- shape

  /** The local copy is the version it claims to be; past the gate it still carries the
      stored status, since no one else writes that. */
  ghost predicate CopyOk(c: Config, versions: seq<Object>, k: Controller) {
    && |versions| > 0
    && (HasCopy(k) ==>
          && k.version < |versions|
          && (if k.Gating? then
                k.local == versions[k.version].(active := k.local.active, lastCompletion := k.local.lastCompletion)
              else k.local == versions[k.version]))
    && (PastGate(k) ==> SameStatus(k.local, versions[|versions| - 1]))
    && (Working(k) ==> MayRun(k.local.state) && (c.Single() || c.Repeating()))
    && (k.Halting? ==> k.local.state.Halted?)
    && (k.Closing? ==> k.local.state.Completed? && k.local.active == [])
    && (c.Repeating() && (k.Creating? || k.Recording?) ==> k.local.active == [])
  }

  /** Engines, log and the sets of UIDs fit together. */
  ghost predicate LogOk(c: Config, w: World) {
    var k := w.controller;
    && (k.Recording? ==>
          k.uid + 1 == |w.log| && w.log[k.uid] == Creation(k.at, k.version) && k.uid !in w.lost)
    && (forall name :: name in w.engines ==>
          && w.engines[name].uid < |w.log|
          && name == NameAt(c, w.log[w.engines[name].uid].at)
          && (w.engines[name].finished ==> w.engines[name].uid in w.finished))
    && (forall i :: i in w.lost ==> i < |w.log|)
    && (forall i :: i in w.finished ==> i < |w.log|)
  }

  ghost predicate AllPersisted(versions: seq<Object>) {
    forall o :: o in versions ==> Persist(o) == o
  }

  ghost predicate Shape(c: Config, w: World) {
    && CopyOk(c, w.versions, w.controller)
    && AllPersisted(w.versions)
    && LogOk(c, w)
  }

  lemma PersistTwice(o: Object)
    ensures Persist(Persist(o)) == Persist(o)
  {
  }

  lemma CopySurvivesWrite(c: Config, versions: seq<Object>, k: Controller, o: Object)
    requires CopyOk(c, versions, k) && SameStatus(versions[|versions| - 1], o)
    ensures CopyOk(c, versions + [o], k)
  {
  }

  lemma CopyAfterWrite(c: Config, versions: seq<Object>, k: Controller, o: Object)
    requires CopyOk(c, versions, k) && Writing(k) && (k.Gating? ==> o.state == k.local.state)
    ensures CopyOk(c, versions + [o], AfterWrite(k, o, |versions|))
  {
  }

  /** Of the steps that write nothing, those that read and decide. */
  lemma CopyOfDecided(c: Config, w: World, a: Action)
    requires CopyOk(c, w.versions, w.controller) && Possible(c, w, a)
    requires a.Enter? || a.List? || a.Choose?
    ensures CopyOk(c, Apply(c, w, a).versions, Apply(c, w, a).controller)
  {
  }

  lemma CopyOfMoved(c: Config, w: World, a: Action)
    requires CopyOk(c, w.versions, w.controller) && Possible(c, w, a)
    requires !a.Write? && !a.SetState? && !a.DeleteSchedule? && !a.Enter? && !a.List? && !a.Choose?
    ensures CopyOk(c, Apply(c, w, a).versions, Apply(c, w, a).controller)
  {
  }

  lemma CopyOkStep(c: Config, w: World, a: Action)
    requires CopyOk(c, w.versions, w.controller) && Possible(c, w, a)
    ensures CopyOk(c, Apply(c, w, a).versions, Apply(c, w, a).controller)
  {
    match a
    case SetState(_) => CopySurvivesWrite(c, w.versions, w.controller, Apply(c, w, a).Stored());
    case DeleteSchedule => CopySurvivesWrite(c, w.versions, w.controller, Apply(c, w, a).Stored());
    case Write(now) => CopyAfterWrite(c, w.versions, w.controller, Persist(ToWrite(c, w.controller, now)));
    case _ =>
      if a.Enter? || a.List? || a.Choose? {
        CopyOfDecided(c, w, a);
      } else {
        CopyOfMoved(c, w, a);
      }
  }

  lemma LogOkStep(c: Config, w: World, a: Action)
    requires |w.versions| > 0 && LogOk(c, w) && Possible(c, w, a)
    ensures LogOk(c, Apply(c, w, a))
  {
  }

  lemma ShapeStep(c: Config, w: World, a: Action)
    requires Shape(c, w) && Possible(c, w, a)
    ensures Shape(c, Apply(c, w, a))
  {
    CopyOkStep(c, w, a);
    LogOkStep(c, w, a);
    if a.Write? {
      PersistTwice(ToWrite(c, w.controller, a.now));
    } else if a.SetState? || a.DeleteSchedule? {
      assert w.Stored() in w.versions;
    }
  }

  /** What a step can change of the stored object, the clock and the controller. */
  lemma StepFrame(c: Config, w: World, a: Action)
    requires Shape(c, w) && Possible(c, w, a)
    ensures var w' := Apply(c, w, a);
            && |w'.versions| > 0 && w.clock <= w'.clock
            && (w'.versions == w.versions || w'.versions == w.versions + [w'.Stored()])
    ensures var (o, o') := (w.Stored(), Apply(c, w, a).Stored());
            if a.Write? && w.controller.Recording? then
              && o'.lastSchedule == Some(Floor(w.controller.at))
              && (c.Repeating() ==> o'.runs == o.runs + 1)
            else o'.lastSchedule == o.lastSchedule && o'.runs == o.runs
  {
    if a.Write? {
      assert w.Stored() in w.versions;
    }
  }

  // ---------------------------------------------------------------- conservation

  function InFlight(w: World): nat { if w.controller.Recording? then 1 else 0 }

  /** Engines created are those recorded, those lost and the one in flight. */
  ghost predicate Accounting(c: Config, w: World)
    requires |w.versions| > 0
  {
    c.Repeating() ==> |w.log| == w.Stored().runs + |w.lost| + InFlight(w)
  }

  lemma AccountingStep(c: Config, w: World, a: Action)
    requires Shape(c, w) && Accounting(c, w) && Possible(c, w, a)
    ensures |Apply(c, w, a).versions| > 0 && Accounting(c, Apply(c, w, a))
  {
    StepFrame(c, w, a);
  }

  // ---------------------------------------------------------------- completion

  /** No stored version is completed with engines still on its active list. */
  ghost predicate CompletedEmpty(w: World)
    requires |w.versions| > 0
  {
    var k := w.controller;
    && (forall o :: o in w.versions && o.status == StatusCompleted ==> o.active == [])
    && (k.Gating? && k.local.status == StatusCompleted ==> k.local.active == [])
  }

  lemma CompletedEmptyStep(c: Config, w: World, a: Action)
    requires Shape(c, w) && CompletedEmpty(w) && Possible(c, w, a)
    ensures CompletedEmpty(Apply(c, w, a))
  {
    if a.List? && w.controller.local.active == [] {
      assert Kept(w.controller.local.active, a.items) == [];
    }
  }

  // ---------------------------------------------------------------- completion times

  predicate NotAhead(completion: Option<int>, clock: int) { completion.Some? ==> completion.value <= clock }

  /** With a run on record, a time is after the completion on record. */
  predicate PastCompletion(o: Object, at: int) {
    o.lastSchedule.Some? && o.lastCompletion.Some? ==> at > o.lastCompletion.value
  }

  /** No recorded completion is in the future, and engines are for times after the one on
      record when their pass gated. */
  ghost predicate CompletionOk(c: Config, w: World) {
    var k := w.controller;
    && (forall o :: o in w.versions ==> NotAhead(o.lastCompletion, w.clock))
    && (HasCopy(k) ==> NotAhead(k.local.lastCompletion, w.clock))
    && (c.Repeating() ==>
          && (k.Creating? ==> PastCompletion(k.local, k.at))
          && (forall e :: e in w.log ==> e.gate < |w.versions| && PastCompletion(w.versions[e.gate], e.at)))
  }

  lemma CompletionStep(c: Config, w: World, a: Action)
    requires Shape(c, w) && CompletionOk(c, w) && Possible(c, w, a)
    ensures CompletionOk(c, Apply(c, w, a))
  {
    StepFrame(c, w, a);
    var w' := Apply(c, w, a);
    assert w.Stored() in w.versions;
    CompletionVersions(c, w, a);
    CompletionLog(c, w, a);
  }

  lemma CompletionVersions(c: Config, w: World, a: Action)
    requires Shape(c, w) && CompletionOk(c, w) && Possible(c, w, a)
    ensures var w' := Apply(c, w, a); forall o :: o in w'.versions ==> NotAhead(o.lastCompletion, w'.clock)
  {
    StepFrame(c, w, a);
    var w' := Apply(c, w, a);
    assert w.Stored() in w.versions;
    assert forall o :: o in w'.versions ==> o in w.versions || o == w'.Stored();
  }

  lemma CompletionLog(c: Config, w: World, a: Action)
    requires Shape(c, w) && CompletionOk(c, w) && Possible(c, w, a)
    ensures var w' := Apply(c, w, a);
            c.Repeating() ==>
              forall e :: e in w'.log ==> e.gate < |w'.versions| && PastCompletion(w'.versions[e.gate], e.at)
  {
    StepFrame(c, w, a);
    var w' := Apply(c, w, a);
    forall e | c.Repeating() && e in w'.log
      ensures e.gate < |w'.versions| && PastCompletion(w'.versions[e.gate], e.at)
    {
      if e in w.log {
        assert w'.versions[e.gate] == w.versions[e.gate];
      }
    }
  }

  // ---------------------------------------------------------------- the time range

  predicate InRange(c: Config, t: int)
    requires c.repeat.Some?
  {
    c.Start() <= t && !c.Ended(t)
  }

  /** After the start, not after the end, and not in the future. */
  predicate Within(c: Config, at: int, clock: int)
    requires c.repeat.Some?
  {
    c.Start() < at <= clock && !c.Ended(at)
  }

  ghost predicate InTime(c: Config, w: World)
    requires |w.versions| > 0
  {
    var k := w.controller;
    c.Repeating() ==>
      && (Working(k) ==> c.Start() < w.clock)
      && (k.Creating? ==> Within(c, k.at, w.clock))
      && (forall i :: 0 <= i < |w.log| ==> Within(c, w.log[i].at, w.clock))
      && (forall o :: o in w.versions && o.lastSchedule.Some? ==> InRange(c, o.lastSchedule.value))
  }

  lemma InTimeStep(c: Config, w: World, a: Action)
    requires c.Valid() && Shape(c, w) && InTime(c, w) && Possible(c, w, a)
    ensures |Apply(c, w, a).versions| > 0 && InTime(c, Apply(c, w, a))
  {
    StepFrame(c, w, a);
    var k := w.controller;
    if c.Repeating() {
      assert w.Stored() in w.versions;
      if a.Write? && k.Recording? {
        assert w.log[k.uid].at == k.at;
        FloorOrder(c.Start(), k.at);
      }
    }
  }

  // ---------------------------------------------------------------- order of seconds

  predicate Live(c: Config, engines: map<EngineName, Engine>, log: seq<Creation>, i: nat)
    requires i < |log|
  {
    var name := NameAt(c, log[i].at);
    name in engines && engines[name].uid == i
  }

  predicate IsRecorded(log: seq<Creation>, lost: set<nat>, k: Controller, i: nat) {
    i < |log| && i !in lost && !(k.Recording? && k.uid == i)
  }

  /** An unrecorded time is a tick still ahead of the record. */
  ghost predicate Ahead(c: Config, last: Option<int>, at: int)
    requires c.repeat.Some?
  {
    last.None? || (c.Tick(at) && at > last.value)
  }

  predicate Behind(last: Option<int>, at: int) { last.Some? && Floor(at) <= last.value }

  /** Scheduled seconds never go back, and repeat only after a lost creation whose engine
      is gone. */
  ghost predicate SecondsOrdered(c: Config, engines: map<EngineName, Engine>, log: seq<Creation>, lost: set<nat>) {
    forall i, j :: 0 <= i < j < |log| ==>
      && Unix(log[i].at) <= Unix(log[j].at)
      && (Unix(log[i].at) == Unix(log[j].at) ==> i in lost && !Live(c, engines, log, i))
  }

  ghost predicate RecordOrdered(c: Config, last: Option<int>, clock: int, log: seq<Creation>, lost: set<nat>,
                                k: Controller)
    requires c.Repeating()
  {
    && (forall i: nat :: IsRecorded(log, lost, k, i) ==> Behind(last, log[i].at))
    && (log != [] ==>
          var at := log[|log| - 1].at;
          at <= clock && (Behind(last, at) || Ahead(c, last, at)))
    && (k.Creating? ==>
          && Ahead(c, last, k.at) && k.at <= clock
          && (log != [] ==> Unix(log[|log| - 1].at) <= Unix(k.at)))
    && (k.Recording? ==> Ahead(c, last, k.at))
  }

  ghost predicate RecordOk(c: Config, w: World)
    requires |w.versions| > 0 && c.Repeating()
  {
    RecordOrdered(c, w.Stored().lastSchedule, w.clock, w.log, w.lost, w.controller)
  }

  ghost predicate Order(c: Config, w: World)
    requires |w.versions| > 0
  {
    c.Repeating() ==> SecondsOrdered(c, w.engines, w.log, w.lost) && RecordOk(c, w)
  }

  /** A time past the record is past everything at or before the record, in seconds too. */
  lemma AheadOfBehind(c: Config, last: int, e: int, at: int)
    requires c.repeat.Some? && Ahead(c, Some(last), at) && Behind(Some(last), e)
    ensures Unix(e) < Unix(at)
  {
    TickCalendar(c.repeat.value.cron.value, at);
    FloorOrder(e, at);
  }

  /** A chosen time is not before any engine already created. */
  lemma ChosenIsLatest(c: Config, w: World, r: Readings, at: int)
    requires c.Valid() && Shape(c, w) && Order(c, w) && Possible(c, w, Choose(r, Launch(at)))
    ensures Ahead(c, w.Stored().lastSchedule, at)
    ensures w.log != [] ==> Unix(w.log[|w.log| - 1].at) <= Unix(at)
  {
    var last := w.Stored().lastSchedule;
    assert last == w.controller.local.lastSchedule;
    if w.log != [] {
      var e := w.log[|w.log| - 1].at;
      if Behind(last, e) {
        AheadOfBehind(c, last.value, e, at);
      } else {
        assert e <= at;
        FloorOrder(e, at);
      }
    }
  }

  lemma RecordOrderedStep(c: Config, w: World, a: Action)
    requires c.Valid() && c.Repeating() && Shape(c, w) && Order(c, w) && Possible(c, w, a)
    ensures |Apply(c, w, a).versions| > 0 && RecordOk(c, Apply(c, w, a))
  {
    StepFrame(c, w, a);
    var k, w' := w.controller, Apply(c, w, a);
    var last := w.Stored().lastSchedule;
    if a.Choose? && a.verdict.Launch? {
      ChosenIsLatest(c, w, a.readings, a.verdict.at);
      LaunchKeepsRecord(c, last, w.clock, w'.clock, w.log, w.lost, k, w'.controller);
    } else if a.Create? {
      CreateKeepsRecord(c, last, w.clock, w.log, w.lost, k, w'.controller);
    } else if a.Write? && k.Recording? {
      RecordingKeepsRecord(c, last, w.clock, w.log, w.lost, k);
    } else if a.Stop? {
      StopKeepsRecord(c, last, w.clock, w.log, w.lost, k);
    } else {
      QuietKeepsRecord(c, last, w.clock, w'.clock, w.log, w.lost, k, w'.controller);
    }
  }

  lemma QuietKeepsRecord(c: Config, last: Option<int>, clock: int, clock': int,
                         log: seq<Creation>, lost: set<nat>, k: Controller, k': Controller)
    requires c.Repeating() && RecordOrdered(c, last, clock, log, lost, k) && clock <= clock'
    requires k' == k || !(k.Recording? || k'.Creating? || k'.Recording?)
    ensures RecordOrdered(c, last, clock', log, lost, k')
  {
  }

  lemma LaunchKeepsRecord(c: Config, last: Option<int>, clock: int, clock': int,
                          log: seq<Creation>, lost: set<nat>, k: Controller, k': Controller)
    requires c.Repeating() && RecordOrdered(c, last, clock, log, lost, k) && clock <= clock'
    requires k.Gated? && k'.Creating? && Ahead(c, last, k'.at) && k'.at <= clock'
    requires log != [] ==> Unix(log[|log| - 1].at) <= Unix(k'.at)
    ensures RecordOrdered(c, last, clock', log, lost, k')
  {
  }

  lemma CreateKeepsRecord(c: Config, last: Option<int>, clock: int, log: seq<Creation>, lost: set<nat>,
                          k: Controller, k': Controller)
    requires c.Repeating() && RecordOrdered(c, last, clock, log, lost, k)
    requires k.Creating? && k'.Recording? && k'.at == k.at && k'.uid == |log|
    ensures RecordOrdered(c, last, clock, log + [Creation(k.at, k.version)], lost, k')
  {
    var log' := log + [Creation(k.at, k.version)];
    forall i: nat | IsRecorded(log', lost, k', i)
      ensures Behind(last, log'[i].at)
    {
      assert IsRecorded(log, lost, k, i);
    }
  }

  lemma StopKeepsRecord(c: Config, last: Option<int>, clock: int, log: seq<Creation>, lost: set<nat>, k: Controller)
    requires c.Repeating() && RecordOrdered(c, last, clock, log, lost, k)
    ensures RecordOrdered(c, last, clock, log, lost + if k.Recording? then {k.uid} else {}, Idle)
  {
    var lost' := lost + if k.Recording? then {k.uid} else {};
    forall i: nat | IsRecorded(log, lost', Idle, i)
      ensures Behind(last, log[i].at)
    {
      assert IsRecorded(log, lost, k, i);
    }
  }

  lemma RecordingKeepsRecord(c: Config, last: Option<int>, clock: int, log: seq<Creation>, lost: set<nat>,
                             k: Controller)
    requires c.Repeating() && RecordOrdered(c, last, clock, log, lost, k)
    requires k.Recording? && k.uid + 1 == |log| && log[k.uid].at == k.at
    ensures RecordOrdered(c, Some(Floor(k.at)), clock, log, lost, Idle)
  {
    forall i: nat | IsRecorded(log, lost, Idle, i)
      ensures Behind(Some(Floor(k.at)), log[i].at)
    {
      if i < k.uid {
        assert IsRecorded(log, lost, k, i);
        if last.Some? {
          AheadOfBehind(c, last.value, log[i].at, k.at);
          FloorOrder(log[i].at, k.at);
        }
      }
    }
  }

  lemma SecondsOrderedStep(c: Config, w: World, a: Action)
    requires c.Valid() && c.Repeating() && Shape(c, w) && Order(c, w) && Possible(c, w, a)
    ensures var w' := Apply(c, w, a); SecondsOrdered(c, w'.engines, w'.log, w'.lost)
  {
    if a.Create? {
      CreateKeepsOrder(c, w);
    }
  }

  lemma CreateKeepsOrder(c: Config, w: World)
    requires c.Valid() && c.Repeating() && Shape(c, w) && Order(c, w) && Possible(c, w, Create)
    ensures var w' := Apply(c, w, Create); SecondsOrdered(c, w'.engines, w'.log, w'.lost)
  {
    var at := w.controller.at;
    forall i | 0 <= i < |w.log|
      ensures Unix(w.log[i].at) <= Unix(at)
      ensures Unix(w.log[i].at) == Unix(at) ==> i in w.lost
    {
      if IsRecorded(w.log, w.lost, w.controller, i) {
        AheadOfBehind(c, w.Stored().lastSchedule.value, w.log[i].at, at);
      }
    }
    AppendKeepsOrder(c, w.engines, w.log, w.lost, Creation(at, w.controller.version));
  }

  lemma AppendKeepsOrder(c: Config, engines: map<EngineName, Engine>, log: seq<Creation>, lost: set<nat>, e: Creation)
    requires SecondsOrdered(c, engines, log, lost) && NameAt(c, e.at) !in engines
    requires forall i :: 0 <= i < |log| ==> Unix(log[i].at) <= Unix(e.at)
    requires forall i :: 0 <= i < |log| && Unix(log[i].at) == Unix(e.at) ==> i in lost
    ensures SecondsOrdered(c, engines[NameAt(c, e.at) := Engine(|log|, false)], log + [e], lost)
  {
    var engines', log' := engines[NameAt(c, e.at) := Engine(|log|, false)], log + [e];
    forall i, j | 0 <= i < j < |log'|
      ensures Unix(log'[i].at) <= Unix(log'[j].at)
      ensures Unix(log'[i].at) == Unix(log'[j].at) ==> i in lost && !Live(c, engines', log', i)
    {
      assert log'[i] == log[i];
      if j == |log| {
        assert !Live(c, engines', log', i) || NameAt(c, log[i].at) in engines;
      } else {
        assert log'[j] == log[j];
        assert Live(c, engines', log', i) ==> Live(c, engines, log, i);
      }
    }
  }

  lemma OrderStep(c: Config, w: World, a: Action)
    requires c.Valid() && Shape(c, w) && Order(c, w) && Possible(c, w, a)
    ensures Order(c, Apply(c, w, a))
  {
    if c.Repeating() {
      RecordOrderedStep(c, w, a);
      SecondsOrderedStep(c, w, a);
    }
  }
}
