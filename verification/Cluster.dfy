/** The API server and the rest of the world, as the controller's code meets them: an
    object whose calls may fail, may be preceded by anything others do, and each take
    the machine of Protocol along. */
module Clusters {
  import opened Text
  import opened Objects
  import opened ActiveList
  import opened Protocol

  datatype WriteError = Nil | Conflict | OtherError

  /** A call to the API server and how it was answered; None is an error. */
  datatype Call =
    | GetCall(read: Option<Object>)
    | ListCall(listing: Option<seq<Seen>>)
    | EngineCall(found: Option<Found>)
    | CreateCall(name: EngineName, uid: Option<nat>)
    | UpdateCall(sent: Object, answer: WriteError)
  {
    predicate Answered() {
      match this
      case GetCall(read) => read.Some?
      case ListCall(listing) => listing.Some?
      case EngineCall(found) => found.Some?
      case CreateCall(_, uid) => uid.Some?
      case UpdateCall(_, answer) => answer.Nil?
    }
  }

  class Cluster {
    const c: Config
    const clock: Clock
    var versions: seq<Object>
    var engines: map<EngineName, Engine>
    var nextUid: nat
    var finished: set<nat>             // a stale Get may show an engine deleted since
    // the bookkeeping of the machine
    ghost var controller: Controller
    ghost var log: seq<Creation>
    ghost var lost: set<nat>
    ghost var deletions: nat
    // every call made, with its answer
    ghost var trace: seq<Call>

    ghost function State(): World
      reads this, clock
    {
      World(versions, engines, clock.now, controller, log, lost, finished, deletions)
    }

    ghost predicate Valid()
      reads this, clock
    {
      c.Valid() && |versions| > 0 && nextUid == |log|
    }

    constructor (c: Config, clock: Clock, o: Object)
      requires c.Valid()
      ensures Valid() && this.c == c && this.clock == clock
      ensures State() == World([o], map[], clock.now, Idle, [], {}, {}, 0) && trace == []
    {
      this.c, this.clock, this.versions, this.engines, this.nextUid := c, clock, [o], map[], 0;
      this.controller, this.log, this.lost, this.finished, this.deletions := Idle, [], {}, {}, 0;
      this.trace := [];
    }

    // -------------------------------------------------------------- other parties

    /** Any number of steps of the environment. */
    method Interfere()
      requires Valid()
      modifies this, clock
      ensures Valid() && controller == old(controller) && log == old(log) && lost == old(lost)
      ensures old(clock.now) <= clock.now && old(versions) <= versions && trace == old(trace)
      ensures Reaches(c, old(State()), State())
    {
      ReachesSelf(c, State());
      var steps: int := *;
      while steps > 0
        invariant Valid() && controller == old(controller) && log == old(log) && lost == old(lost)
        invariant old(clock.now) <= clock.now && old(versions) <= versions && trace == old(trace)
        invariant Reaches(c, old(State()), State())
      {
        OneStep();
        steps := steps - 1;
      }
    }

    method OneStep()
      requires Valid()
      modifies this, clock
      ensures Valid() && controller == old(controller) && log == old(log) && lost == old(lost)
      ensures old(clock.now) <= clock.now && old(versions) <= versions && trace == old(trace)
      ensures forall w :: Reaches(c, w, old(State())) ==> Reaches(c, w, State())
    {
      ghost var w := State();
      ghost var a := Advance(0);
      var kind: int := *;
      if kind == 0 {
        var name: EngineName := *;
        if name in engines {
          a := FinishEngine(name);
          finished := finished + {engines[name].uid};
          engines := engines[name := engines[name].(finished := true)];
        }
      } else if kind == 1 {
        var name: EngineName := *;
        if name in engines {
          a := DeleteEngine(name);
          engines := engines - {name};
          deletions := deletions + 1;
        }
      } else if kind == 2 {
        var state: ScheduleState := *;
        a := SetState(state);
        versions := versions + [versions[|versions| - 1].(state := state)];
      } else if kind == 3 {
        a := DeleteSchedule;
        versions := versions + [versions[|versions| - 1].(deleting := true)];
      } else {
        var t := clock.Now();
        a := Advance(t - w.clock);
      }
      assert State() == Apply(c, w, a);
      Extend(c, w, a);
    }

    /** time.Now. */
    method Now() returns (t: int)
      requires Valid()
      modifies clock
      ensures Valid() && old(clock.now) <= t
      ensures State() == old(State()).(clock := t)
      ensures forall w :: Reaches(c, w, old(State())) ==> Reaches(c, w, State())
    {
      ghost var w := State();
      t := clock.Now();
      assert State() == Apply(c, w, Advance(t - w.clock));
      Extend(c, w, Advance(t - w.clock));
    }

    // -------------------------------------------------------------- API calls

    /** Get of the schedule: any version there has been, or an error. */
    method GetSchedule() returns (cs: SchedulerInfo?)
      requires Valid() && (controller.Idle? || controller.Retrying?)
      modifies this, clock
      ensures Valid() && Reaches(c, old(State()), State()) && log == old(log)
      ensures old(clock.now) <= clock.now && old(versions) <= versions
      ensures trace == old(trace) + [GetCall(if cs == null then None else Some(cs.instance))]
      ensures cs == null ==> controller == old(controller)
      ensures cs != null ==>
                && fresh(cs) && cs.version < |versions| && cs.instance == versions[cs.version]
                && controller == if old(controller).Idle? then Loaded(cs.instance, cs.version)
                                 else Rewriting(cs.instance, cs.version)
    {
      Interfere();
      ghost var w := State();
      var version: int := *;
      if 0 <= version < |versions| {
        cs := new SchedulerInfo(versions[version], version);
        ghost var a := if controller.Idle? then Read(version) else Reread(version);
        controller := if controller.Idle? then Loaded(cs.instance, version) else Rewriting(cs.instance, version);
        assert State() == Apply(c, w, a);
        Extend(c, w, a);
      } else {
        cs := null;
      }
      trace := trace + [GetCall(if cs == null then None else Some(cs.instance))];
    }

    /** List of the schedule's engines: honest about the running ones, or an error. */
    method ListEngines() returns (items: Option<seq<Seen>>)
      requires Valid()
      modifies this, clock
      ensures Valid() && Reaches(c, old(State()), State())
      ensures controller == old(controller) && log == old(log) && lost == old(lost)
      ensures old(clock.now) <= clock.now && old(versions) <= versions
      ensures trace == old(trace) + [ListCall(items)]
      ensures items.Some? ==> Honest(engines, items.value)
    {
      Interfere();
      var listing: seq<Seen> := *;
      items := if Honest(engines, listing) then Some(listing) else None;
      trace := trace + [ListCall(items)];
    }

    /** Get of the single-run engine: possibly out of date, or an error. */
    method GetEngine() returns (found: Option<Found>)
      requires Valid() && controller.Looking? && c.Single()
      modifies this, clock
      ensures Valid() && Reaches(c, old(State()), State()) && log == old(log)
      ensures old(clock.now) <= clock.now && old(versions) <= versions
      ensures trace == old(trace) + [EngineCall(found)]
      ensures controller == if found.Some? then AfterLookUp(old(controller), found.value) else Idle
    {
      Interfere();
      ghost var w := State();
      var kind: int := *;
      found := if kind == 0 then Some(Missing)
               else if kind == 1 then Some(Running)
               else if kind == 2 && finished != {} then Some(Ended)
               else None;
      ghost var a := if found.Some? then LookUp(found.value) else Stop;
      controller := if found.Some? then AfterLookUp(controller, found.value) else Idle;
      trace := trace + [EngineCall(found)];
      assert State() == Apply(c, w, a);
      Extend(c, w, a);
    }

    /** Create of an engine: refused if the name is taken. The call may fail with nothing
        done, or fail to answer after the engine has been created. */
    method CreateEngine(name: EngineName) returns (uid: Option<nat>)
      requires Valid() && controller.Creating? && name == NameAt(c, controller.at)
      modifies this, clock
      ensures Valid() && Reaches(c, old(State()), State())
      ensures old(clock.now) <= clock.now && old(versions) <= versions
      ensures trace == old(trace) + [CreateCall(name, uid)]
      ensures uid.Some? ==>
                var k := old(controller);
                && uid.value == |old(log)| && log == old(log) + [Creation(k.at, k.version)]
                && controller == Recording(k.local, k.version, k.at, uid.value)
      ensures uid.None? ==>
                var k := old(controller);
                controller == Idle && (log == old(log) || log == old(log) + [Creation(k.at, k.version)])
    {
      Interfere();
      var refused: bool := *;
      var answered: bool := *;
      uid := None;
      if refused || name in engines {
        GiveUp();
      } else {
        var created := PutEngine(name);
        if answered {
          uid := Some(created);
        } else {
          GiveUp();
        }
      }
      trace := trace + [CreateCall(name, uid)];
    }

    /** The creation takes effect. */
    method PutEngine(name: EngineName) returns (uid: nat)
      requires Valid() && controller.Creating? && name == NameAt(c, controller.at) && name !in engines
      modifies this
      ensures Valid() && uid == |old(log)| && trace == old(trace) && versions == old(versions)
      ensures var k := old(controller);
              && log == old(log) + [Creation(k.at, k.version)]
              && controller == Recording(k.local, k.version, k.at, uid)
      ensures forall w :: Reaches(c, w, old(State())) ==> Reaches(c, w, State())
    {
      ghost var w := State();
      uid := nextUid;
      engines := engines[name := Engine(uid, false)];
      log := log + [Creation(controller.at, controller.version)];
      controller := Recording(controller.local, controller.version, controller.at, uid);
      nextUid := nextUid + 1;
      assert State() == Apply(c, w, Create);
      Extend(c, w, Create);
    }

    /** Update of the schedule: takes effect only over the version it was read as. Success
        and a conflict say whether it did; another error does not, since the answer to a
        write that took effect may be lost. */
    method Update(cs: SchedulerInfo, ghost now: int) returns (err: WriteError)
      requires Valid() && Writing(controller) && cs.version == controller.version
      requires cs.instance == ToWrite(c, controller, now) && now <= clock.now
      modifies this, clock, cs
      ensures Valid() && Reaches(c, old(State()), State()) && log == old(log)
      ensures old(clock.now) <= clock.now && old(versions) <= versions
      ensures trace == old(trace) + [UpdateCall(old(cs.instance), err)]
      ensures err == Nil ==>
                && cs.instance == Persist(old(cs.instance)) && cs.version + 1 == |versions|
                && cs.version > 0 && versions[cs.version] == cs.instance
                && old(cs.version) + 1 == cs.version
                && controller == if old(controller).Gating? then Gated(cs.instance, cs.version) else Idle
      ensures err == Conflict ==> cs.version + 1 != |versions|
      ensures err != Nil ==>
                && cs.instance == old(cs.instance) && cs.version == old(cs.version)
                && controller == if old(controller).Rewriting? || (old(controller).Completing? && err == Conflict)
                                 then Retrying else Idle
    {
      Interfere();
      ghost var sent := cs.instance;
      var failing: bool := *;
      if failing {
        err := OtherError;
        Refuse(err);
      } else if cs.version + 1 != |versions| {
        err := Conflict;
        Refuse(err);
      } else {
        err := Deliver(cs.instance, now);
        if err == Nil {
          cs.instance := Persist(cs.instance);
          cs.version := cs.version + 1;
        }
      }
      ghost var reached := State();
      trace := trace + [UpdateCall(sent, err)];
      assert State() == reached;
    }

    /** The write takes effect, and is answered or not. */
    method Deliver(o: Object, ghost now: int) returns (err: WriteError)
      requires Valid() && Writing(controller) && controller.version + 1 == |versions|
      requires o == ToWrite(c, controller, now) && now <= clock.now
      modifies this
      ensures Valid() && log == old(log) && trace == old(trace) && err != Conflict
      ensures versions == old(versions) + [Persist(o)]
      ensures err == Nil ==>
                controller == if old(controller).Gating? then Gated(Persist(o), |old(versions)|) else Idle
      ensures err == OtherError ==> controller == if old(controller).Rewriting? then Retrying else Idle
      ensures forall w :: Reaches(c, w, old(State())) ==> Reaches(c, w, State())
    {
      Commit(o, now);
      var answered: bool := *;
      err := if answered then Nil else OtherError;
      if (answered && controller.Retrying?) || (!answered && controller.Gated?) {
        GiveUp();
      }
    }

    /** The write takes effect. */
    method Commit(o: Object, ghost now: int)
      requires Valid() && Writing(controller) && controller.version + 1 == |versions|
      requires o == ToWrite(c, controller, now) && now <= clock.now
      modifies this
      ensures Valid() && log == old(log) && engines == old(engines) && trace == old(trace)
      ensures versions == old(versions) + [Persist(o)]
      ensures controller == AfterWrite(old(controller), Persist(o), |old(versions)|)
      ensures forall w :: Reaches(c, w, old(State())) ==> Reaches(c, w, State())
    {
      ghost var w := State();
      controller := AfterWrite(controller, Persist(o), |versions|);
      versions := versions + [Persist(o)];
      assert State() == Apply(c, w, Write(now));
      Extend(c, w, Write(now));
    }

    /** The write is refused: a completing pass may try again. */
    ghost method Refuse(err: WriteError)
      requires Valid() && Writing(controller) && err != Nil
      requires err == Conflict ==> controller.version + 1 != |versions|
      modifies this
      ensures Valid() && log == old(log) && versions == old(versions) && trace == old(trace)
      ensures controller == if old(controller).Rewriting? || (old(controller).Completing? && err == Conflict)
                            then Retrying else Idle
      ensures forall w :: Reaches(c, w, old(State())) ==> Reaches(c, w, State())
    {
      var w := State();
      if controller.Rewriting? || (controller.Completing? && err == Conflict) {
        controller := Retrying;
        assert State() == Apply(c, w, Retry);
        Extend(c, w, Retry);
      } else {
        GiveUp();
      }
    }

    /** The pass ends without the write it had in hand. */
    ghost method GiveUp()
      requires Valid()
      modifies this
      ensures Valid() && controller == Idle && log == old(log) && versions == old(versions) && trace == old(trace)
      ensures forall w :: Reaches(c, w, old(State())) ==> Reaches(c, w, State())
    {
      var w := State();
      lost := lost + if controller.Recording? then {controller.uid} else {};
      controller := Idle;
      assert State() == Apply(c, w, Stop);
      Extend(c, w, Stop);
    }
  }

  /** What reaches a state reaches the next. */
  lemma Extend(c: Config, w: World, a: Action)
    requires |w.versions| > 0 && Enabled(c, w, a)
    ensures forall u :: Reaches(c, u, w) ==> Reaches(c, u, Apply(c, w, a))
  {
    ReachesStep(c, w, a);
    forall u | Reaches(c, u, w)
      ensures Reaches(c, u, Apply(c, w, a))
    {
      ReachesTransitive(c, u, w, Apply(c, w, a));
    }
  }
}
