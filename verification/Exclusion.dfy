/** Invariants about running engines, gating writes and single runs. */
module Exclusion {
  import opened Objects
  import opened ActiveList
  import opened Decision
  import opened Protocol
  import opened Invariants

  // ---------------------------------------------------------------- one at a time

  /** The UIDs of the engines that exist and have not finished. */
  function RunningUids(engines: map<EngineName, Engine>): set<nat> {
    set name | name in engines && !engines[name].finished :: engines[name].uid
  }

  predicate Ending(k: Controller) { k.Completing? || k.Retrying? || k.Rewriting? }

  /** All running engines but the newest are lost; a recorded one is on the stored active
      list unless the end time has passed; pruning drops none; and none but lost ones run
      when a new one is about to be created. */
  ghost predicate Exclusive(c: Config, running: set<nat>, versions: seq<Object>, clock: int,
                            log: seq<Creation>, lost: set<nat>, k: Controller)
    requires |versions| > 0 && c.Repeating()
  {
    var stored := versions[|versions| - 1];
    && (forall i :: i in running ==> i in lost || i + 1 == |log|)
    && (forall i :: i in running && IsRecorded(log, lost, k, i) ==> i in Uids(stored.active) || c.Ended(clock))
    && (k.Gating? && k.version < |versions| ==> running * Uids(versions[k.version].active) <= Uids(k.local.active))
    && (k.Creating? ==> running <= lost)
    && (Ending(k) ==> c.Ended(clock))
  }

  ghost predicate ExclusiveOk(c: Config, w: World)
    requires |w.versions| > 0
  {
    c.Repeating() ==>
      Exclusive(c, RunningUids(w.engines), w.versions, w.clock, w.log, w.lost, w.controller)
  }

  lemma RunningFrame(c: Config, w: World, a: Action)
    requires Shape(c, w) && Possible(c, w, a)
    ensures var (r, r') := (RunningUids(w.engines), RunningUids(Apply(c, w, a).engines));
            if a.Create? then r' <= r + {|w.log|} else r' <= r
  {
    var e, e' := w.engines, Apply(c, w, a).engines;
    forall i | i in RunningUids(e')
      ensures i in RunningUids(e) || (a.Create? && i == |w.log|)
    {
      var name :| name in e' && !e'[name].finished && e'[name].uid == i;
      if name in e && e[name] == e'[name] {
        assert i in RunningUids(e);
      }
    }
  }

  lemma HonestKeepsRunning(engines: map<EngineName, Engine>, active: seq<Ref>, items: seq<Seen>)
    requires Honest(engines, items)
    ensures RunningUids(engines) * Uids(active) <= Uids(Kept(active, items))
  {
    forall i | i in RunningUids(engines) && i in Uids(active)
      ensures i in Uids(Kept(active, items))
    {
      var r :| r in active && r.uid == i;
      assert Seen(i, false) in items && Seen(i, true) !in items;
      KeptMeaning(active, items, r);
    }
  }

  lemma ExclusiveStep(c: Config, w: World, a: Action)
    requires Shape(c, w) && ExclusiveOk(c, w) && Possible(c, w, a)
    ensures |Apply(c, w, a).versions| > 0 && ExclusiveOk(c, Apply(c, w, a))
  {
    StepFrame(c, w, a);
    if c.Repeating() {
      RunningFrame(c, w, a);
      RunningInLog(c, w);
      var running := RunningUids(Apply(c, w, a).engines);
      if a.Create? {
        CreateExclusive(c, w, running);
      } else if a.Write? {
        WriteExclusive(c, w, a.now, running);
      } else if a.List? {
        HonestKeepsRunning(w.engines, w.controller.local.active, a.items);
      } else if a.Choose? {
        ChooseExclusive(c, w, a.readings, a.verdict, running);
      } else {
        OtherExclusive(c, w, a, running);
      }
    }
  }

  lemma OtherExclusive(c: Config, w: World, a: Action, running: set<nat>)
    requires Shape(c, w) && c.Repeating() && ExclusiveOk(c, w) && Possible(c, w, a)
    requires !(a.Create? || a.Write? || a.List? || a.Choose?)
    requires running <= RunningUids(w.engines)
    ensures var w' := Apply(c, w, a);
            |w'.versions| > 0 && Exclusive(c, running, w'.versions, w'.clock, w'.log, w'.lost, w'.controller)
  {
    var w' := Apply(c, w, a);
    assert w'.Stored().active == w.Stored().active;
    forall i | i in running && IsRecorded(w'.log, w'.lost, w'.controller, i)
      ensures IsRecorded(w.log, w.lost, w.controller, i)
    {
    }
  }

  lemma RunningInLog(c: Config, w: World)
    requires Shape(c, w)
    ensures forall i :: i in RunningUids(w.engines) ==> i < |w.log|
  {
  }

  lemma CreateExclusive(c: Config, w: World, running: set<nat>)
    requires Shape(c, w) && c.Repeating() && ExclusiveOk(c, w) && Possible(c, w, Create)
    requires running <= RunningUids(w.engines) + {|w.log|}
    ensures var w' := Apply(c, w, Create);
            Exclusive(c, running, w'.versions, w'.clock, w'.log, w'.lost, w'.controller)
  {
  }

  lemma WriteExclusive(c: Config, w: World, now: int, running: set<nat>)
    requires Shape(c, w) && c.Repeating() && ExclusiveOk(c, w) && Possible(c, w, Write(now))
    requires running <= RunningUids(w.engines)
    ensures var w' := Apply(c, w, Write(now));
            Exclusive(c, running, w'.versions, w'.clock, w'.log, w'.lost, w'.controller)
  {
    var k := w.controller;
    var stored := Apply(c, w, Write(now)).Stored();
    if k.Gating? {
      assert stored.active == k.local.active;
    } else if k.Recording? {
      var ref := Ref(NameAt(c, k.at), k.uid);
      assert ref in stored.active && k.uid in Uids(stored.active);
    } else if k.Halting? || k.Closing? {
      assert stored.active == w.Stored().active;
    }
  }

  lemma ChooseExclusive(c: Config, w: World, r: Readings, v: Verdict, running: set<nat>)
    requires Shape(c, w) && c.Repeating() && ExclusiveOk(c, w) && Possible(c, w, Choose(r, v))
    requires running <= RunningUids(w.engines)
    requires forall i :: i in running ==> i < |w.log|
    ensures var w' := Apply(c, w, Choose(r, v));
            Exclusive(c, running, w'.versions, w'.clock, w'.log, w'.lost, w'.controller)
  {
    if v.Launch? {
      assert Uids(w.Stored().active) == {};
      forall i | i in running
        ensures i in w.lost
      {
        assert IsRecorded(w.log, w.lost, w.controller, i) || i in w.lost;
      }
    }
  }

  // ---------------------------------------------------------------- gating writes

  /** Version g was written over version g - 1, changing no more than a pruning does. */
  ghost predicate GatingWrite(versions: seq<Object>, g: nat) {
    && 0 < g < |versions| && MayRun(versions[g].state)
    && versions[g] == versions[g - 1].(active := versions[g].active, lastCompletion := versions[g].lastCompletion)
  }

  ghost predicate GateOf(c: Config, versions: seq<Object>, e: Creation) {
    && GatingWrite(versions, e.gate)
    && (c.Repeating() ==>
          var o := versions[e.gate];
          o.active == [] && !o.deleting && Ahead(c, o.lastSchedule, e.at))
  }

  ghost predicate GatesOk(c: Config, versions: seq<Object>, log: seq<Creation>, k: Controller) {
    && (forall i :: 0 <= i < |log| ==> GateOf(c, versions, log[i]))
    && (forall i, j :: 0 <= i < j < |log| ==> log[i].gate < log[j].gate)
    && (k.Gated? || k.Looking? ==> GatingWrite(versions, k.version))
    && (k.Creating? ==> GateOf(c, versions, Creation(k.at, k.version)))
    && (k.Gated? || k.Looking? || k.Creating? ==> forall i :: 0 <= i < |log| ==> log[i].gate < k.version)
  }

  lemma GatesSurviveWrite(c: Config, versions: seq<Object>, log: seq<Creation>, k: Controller, o: Object)
    requires GatesOk(c, versions, log, k)
    ensures GatesOk(c, versions + [o], log, k)
  {
    var longer := versions + [o];
    forall e: Creation | GateOf(c, versions, e)
      ensures GateOf(c, longer, e)
    {
      assert longer[e.gate] == versions[e.gate] && longer[e.gate - 1] == versions[e.gate - 1];
    }
    if k.Gated? || k.Looking? {
      assert longer[k.version] == versions[k.version] && longer[k.version - 1] == versions[k.version - 1];
    }
  }

  lemma GatesStep(c: Config, w: World, a: Action)
    requires Shape(c, w) && GatesOk(c, w.versions, w.log, w.controller) && Possible(c, w, a)
    ensures var w' := Apply(c, w, a); GatesOk(c, w'.versions, w'.log, w'.controller)
  {
    if a.Write? || a.SetState? || a.DeleteSchedule? {
      StepFrame(c, w, a);
      GatesSurviveWrite(c, w.versions, w.log, w.controller, Apply(c, w, a).Stored());
      if a.Write? && w.controller.Gating? {
        GateOpens(c, w, a.now);
      }
    } else if a.Choose? {
      GatesOfChosen(c, w, a.readings, a.verdict);
    } else if a.Create? {
      GatesOfCreated(c, w);
    } else {
      GatesOfMoved(c, w, a);
    }
  }

  lemma GatesOfChosen(c: Config, w: World, r: Readings, v: Verdict)
    requires Shape(c, w) && GatesOk(c, w.versions, w.log, w.controller) && Possible(c, w, Choose(r, v))
    ensures var w' := Apply(c, w, Choose(r, v)); GatesOk(c, w'.versions, w'.log, w'.controller)
  {
  }

  lemma GatesOfCreated(c: Config, w: World)
    requires Shape(c, w) && GatesOk(c, w.versions, w.log, w.controller) && Possible(c, w, Create)
    ensures var w' := Apply(c, w, Create); GatesOk(c, w'.versions, w'.log, w'.controller)
  {
  }

  lemma GateOpens(c: Config, w: World, now: int)
    requires Shape(c, w) && GatesOk(c, w.versions, w.log, w.controller) && Possible(c, w, Write(now))
    requires w.controller.Gating?
    ensures var w' := Apply(c, w, Write(now)); GatesOk(c, w'.versions, w'.log, w'.controller)
  {
    var k, w' := w.controller, Apply(c, w, Write(now));
    GatesSurviveWrite(c, w.versions, w.log, k, w'.Stored());
    assert w.versions[k.version] in w.versions;
    assert w'.versions[k.version] == w.versions[k.version];
    assert GatingWrite(w'.versions, k.version + 1);
  }

  lemma GatesOfMoved(c: Config, w: World, a: Action)
    requires Shape(c, w) && GatesOk(c, w.versions, w.log, w.controller) && Possible(c, w, a)
    requires !a.Write? && !a.SetState? && !a.DeleteSchedule? && !a.Choose? && !a.Create?
    ensures var w' := Apply(c, w, a); GatesOk(c, w'.versions, w'.log, w'.controller)
  {
  }

  /** A recorded engine was on record at the gating write of every later one. */
  ghost predicate RecordSeen(versions: seq<Object>, log: seq<Creation>, lost: set<nat>) {
    forall i, j :: 0 <= i < j < |log| && i !in lost ==>
      log[j].gate < |versions| && Behind(versions[log[j].gate].lastSchedule, log[i].at)
  }

  lemma RecordSeenStep(c: Config, w: World, a: Action)
    requires c.Repeating() && Shape(c, w) && Order(c, w) && Possible(c, w, a)
    requires RecordSeen(w.versions, w.log, w.lost)
    ensures var w' := Apply(c, w, a); RecordSeen(w'.versions, w'.log, w'.lost)
  {
    StepFrame(c, w, a);
    var k, w' := w.controller, Apply(c, w, a);
    forall i, j | 0 <= i < j < |w'.log| && i !in w'.lost
      ensures w'.log[j].gate < |w'.versions| && Behind(w'.versions[w'.log[j].gate].lastSchedule, w'.log[i].at)
    {
      assert w'.log[i] == w.log[i] && i !in w.lost;
      if j < |w.log| {
        assert w'.log[j] == w.log[j];
      } else {
        assert IsRecorded(w.log, w.lost, k, i);
      }
    }
  }

  // ---------------------------------------------------------------- counting engines

  /** Every engine created exists or was deleted. */
  ghost predicate CountOk(engines: map<EngineName, Engine>, log: seq<Creation>, deletions: nat) {
    |log| == deletions + |engines|
  }

  /** With none deleted, all exist. */
  ghost predicate AllLive(c: Config, engines: map<EngineName, Engine>, log: seq<Creation>, deletions: nat) {
    deletions == 0 ==> forall i :: 0 <= i < |log| ==> Live(c, engines, log, i)
  }

  lemma CountStep(c: Config, w: World, a: Action)
    requires |w.versions| > 0 && CountOk(w.engines, w.log, w.deletions) && Possible(c, w, a)
    ensures var w' := Apply(c, w, a); CountOk(w'.engines, w'.log, w'.deletions)
  {
    if a.DeleteEngine? || a.FinishEngine? {
      MapSizes(w.engines, a.name, w.engines[a.name].(finished := true));
    } else if a.Create? {
      MapSizes(w.engines, NameAt(c, w.controller.at), Engine(|w.log|, false));
    }
  }

  lemma MapSizes(m: map<EngineName, Engine>, name: EngineName, e: Engine)
    ensures |m[name := e]| == if name in m then |m| else |m| + 1
    ensures |m - {name}| == if name in m then |m| - 1 else |m|
  {
    var more, less := m[name := e], m - {name};
    assert |m| == |m.Keys| && |more| == |more.Keys| && |less| == |less.Keys|;
    assert more.Keys == m.Keys + {name};
    assert less.Keys == m.Keys - {name};
  }

  lemma LiveStep(c: Config, w: World, a: Action)
    requires |w.versions| > 0 && AllLive(c, w.engines, w.log, w.deletions) && Possible(c, w, a)
    ensures var w' := Apply(c, w, a); AllLive(c, w'.engines, w'.log, w'.deletions)
  {
    var w' := Apply(c, w, a);
    if w'.deletions == 0 {
      forall i | 0 <= i < |w'.log|
        ensures Live(c, w'.engines, w'.log, i)
      {
        if i < |w.log| {
          assert Live(c, w.engines, w.log, i) && w'.log[i] == w.log[i];
        }
      }
    }
  }

  // ---------------------------------------------------------------- single runs

  /** A single run is created after its execution time, at a time not in the future, and is
      completed only once some engine of it has finished. */
  ghost predicate SingleOk(c: Config, w: World) {
    var k := w.controller;
    && (c.Single() && Ending(k) ==> w.finished != {})
    && (c.Single() ==>
          && (k.Looking? || k.Creating? ==> k.at <= w.clock)
          && (forall e :: e in w.log ==> e.at <= w.clock))
    && (!c.now && c.once.Some? ==>
          && (Working(k) ==> c.once.value < w.clock)
          && (k.Looking? || k.Creating? ==> c.once.value < k.at)
          && (forall e :: e in w.log ==> c.once.value < e.at))
  }

  lemma SingleStep(c: Config, w: World, a: Action)
    requires |w.versions| > 0 && SingleOk(c, w) && Possible(c, w, a)
    ensures SingleOk(c, Apply(c, w, a))
  {
  }
}
