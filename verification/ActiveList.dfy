/** The list of running engines in the status, and how a listing of engines prunes it. */
module ActiveList {
  import opened Text
  import opened Objects

  /** One engine of a listing: its UID and whether its status reads completed. */
  datatype Seen = Seen(uid: nat, finished: bool)

  /** time.Now: readings never go back. */
  class Clock {
    var now: int

    constructor (now: int)
      ensures this.now == now
    {
      this.now := now;
    }

    method Now() returns (t: int)
      modifies this
      ensures old(now) <= now == t
    {
      var elapsed: int := *;
      if elapsed > 0 {
        now := now + elapsed;
      }
      t := now;
    }
  }

  /** The controller's local copy of the object, with the resource version it carries. */
  class SchedulerInfo {
    var instance: Object
    var version: nat

    constructor (instance: Object, version: nat)
      ensures this.instance == instance && this.version == version
    {
      this.instance := instance;
      this.version := version;
    }
  }

  // ---------------------------------------------------------------- filters

  /** The references whose UID is not dropped, in order. */
  function Outside(active: seq<Ref>, drop: set<nat>): seq<Ref> {
    if active == [] then []
    else if active[0].uid in drop then Outside(active[1..], drop)
    else [active[0]] + Outside(active[1..], drop)
  }

  function Listed(items: seq<Seen>): set<nat> { set e | e in items :: e.uid }

  function Finished(items: seq<Seen>): set<nat> { set e | e in items && e.finished :: e.uid }

  function Uids(active: seq<Ref>): set<nat> { set r | r in active :: r.uid }

  /** What pruning leaves: the references listed and not finished. */
  function Kept(active: seq<Ref>, items: seq<Seen>): seq<Ref> {
    Outside(active, Finished(items) + Unlisted(active, items))
  }

  /** Is some reference to an engine the listing does not show? */
  predicate SomeMissing(active: seq<Ref>, items: seq<Seen>) { !(Uids(active) <= Listed(items)) }

  lemma {:induction false} OutsideConcat(a: seq<Ref>, b: seq<Ref>, drop: set<nat>)
    ensures Outside(a + b, drop) == Outside(a, drop) + Outside(b, drop)
  {
    if a == [] {
      assert a + b == b;
    } else {
      OutsideConcat(a[1..], b, drop);
      assert (a + b)[1..] == a[1..] + b && (a + b)[0] == a[0];
    }
  }

  lemma OutsideOne(r: Ref, drop: set<nat>)
    ensures Outside([r], drop) == if r.uid in drop then [] else [r]
  {
  }

  lemma {:induction false} OutsideCount(a: seq<Ref>, drop: set<nat>, r: Ref)
    ensures multiset(Outside(a, drop))[r] == if r.uid in drop then 0 else multiset(a)[r]
    ensures r in Outside(a, drop) <==> r in a && r.uid !in drop
  {
    if a != [] {
      OutsideCount(a[1..], drop, r);
      assert a == [a[0]] + a[1..];
    }
  }

  lemma {:induction false} OutsideTwice(a: seq<Ref>, d: set<nat>, e: set<nat>)
    ensures Outside(Outside(a, d), e) == Outside(a, d + e)
  {
    if a != [] {
      OutsideTwice(a[1..], d, e);
      if a[0].uid !in d {
        assert Outside(a, d)[1..] == Outside(a[1..], d);
      }
    }
  }

  lemma {:induction false} OutsideSame(a: seq<Ref>, d: set<nat>, e: set<nat>)
    requires forall r :: r in a ==> (r.uid in d <==> r.uid in e)
    ensures Outside(a, d) == Outside(a, e)
  {
    if a != [] {
      OutsideSame(a[1..], d, e);
    }
  }

  lemma {:induction false} OutsideNothing(a: seq<Ref>, d: set<nat>)
    requires Uids(a) !! d
    ensures Outside(a, d) == a
  {
    if a != [] {
      assert a[0].uid in Uids(a);
      assert forall r :: r in a[1..] ==> r in a;
      OutsideNothing(a[1..], d);
    }
  }

  /** Pruning keeps each reference, with its multiplicity, exactly when its engine is
      listed and no listed engine of that UID is finished. */
  lemma KeptMeaning(a: seq<Ref>, items: seq<Seen>, r: Ref)
    ensures multiset(Kept(a, items))[r]
            == if r.uid in Listed(items) && Seen(r.uid, true) !in items then multiset(a)[r] else 0
    ensures r in Kept(a, items) <==> r in a && r.uid in Listed(items) && Seen(r.uid, true) !in items
  {
    OutsideCount(a, Finished(items) + (Uids(a) - Listed(items)), r);
    assert r.uid in Finished(items) <==> Seen(r.uid, true) in items;
    assert r in a ==> r.uid in Uids(a);
    assert r !in a ==> multiset(a)[r] == 0;
  }

  /** In order, some of the elements. */
  ghost predicate Subsequence(a: seq<Ref>, b: seq<Ref>) {
    if a == [] then true
    else b != [] && (if a[0] == b[0] then Subsequence(a[1..], b[1..]) else Subsequence(a, b[1..]))
  }

  predicate InListing(uid: nat, items: seq<Seen>) { exists e :: e in items && e.uid == uid }

  /** What the source promises of a pruning: the references whose engine is listed and not
      seen finished, in order and with their multiplicity; and the completion time is set to
      the stamp exactly if some reference is to an engine not listed. */
  ghost predicate PrunedBy(o: Object, items: seq<Seen>, stamp: int, p: Object) {
    && p == o.(active := p.active, lastCompletion := p.lastCompletion)
    && Subsequence(p.active, o.active)
    && (forall r :: multiset(p.active)[r]
                    == if InListing(r.uid, items) && Seen(r.uid, true) !in items then multiset(o.active)[r] else 0)
    && p.lastCompletion
       == if exists r :: r in o.active && !InListing(r.uid, items) then Some(stamp) else o.lastCompletion
  }

  lemma {:induction false} OutsideSubsequence(a: seq<Ref>, drop: set<nat>)
    ensures Subsequence(Outside(a, drop), a)
  {
    if a != [] {
      OutsideSubsequence(a[1..], drop);
      if a[0].uid in drop && Outside(a, drop) != [] {
        SkipFirst(Outside(a, drop), a);
      }
    }
  }

  lemma {:induction false} SkipFirst(a: seq<Ref>, b: seq<Ref>)
    requires b != [] && Subsequence(a, b[1..])
    ensures Subsequence(a, b)
  {
    if a != [] && a[0] == b[0] {
      TailFits(a, b[1..]);
    }
  }

  lemma {:induction false} TailFits(a: seq<Ref>, b: seq<Ref>)
    requires a != [] && Subsequence(a, b)
    ensures Subsequence(a[1..], b)
  {
    if a[0] == b[0] {
      SkipFirst(a[1..], b);
    } else {
      TailFits(a, b[1..]);
      SkipFirst(a[1..], b);
    }
  }

  /** The model's pruning is one. */
  lemma KeptIsPruned(o: Object, items: seq<Seen>, stamp: int)
    ensures PrunedBy(o, items, stamp,
                     o.(active := Kept(o.active, items),
                        lastCompletion := if SomeMissing(o.active, items) then Some(stamp) else o.lastCompletion))
  {
    OutsideSubsequence(o.active, Finished(items) + Unlisted(o.active, items));
    forall r: Ref
      ensures multiset(Kept(o.active, items))[r]
              == if InListing(r.uid, items) && Seen(r.uid, true) !in items then multiset(o.active)[r] else 0
    {
      KeptMeaning(o.active, items, r);
      assert r.uid in Listed(items) <==> InListing(r.uid, items);
    }
    assert SomeMissing(o.active, items) <==> exists r :: r in o.active && !InListing(r.uid, items) by {
      forall r | r in o.active
        ensures r.uid in Uids(o.active) && (r.uid in Listed(items) <==> InListing(r.uid, items))
      {
      }
    }
  }

  /** The kept references stay in their order: what is kept of a list in two parts is
      what is kept of each. */
  lemma KeptOrder(a: seq<Ref>, b: seq<Ref>, items: seq<Seen>)
    ensures Kept(a + b, items) == Kept(a, items) + Kept(b, items)
  {
    var drop := Finished(items) + (Uids(a + b) - Listed(items));
    OutsideConcat(a, b, drop);
    forall r | r in a || r in b
      ensures r.uid in Uids(a + b)
    {
      assert r in a + b;
    }
    OutsideSame(a, drop, Finished(items) + (Uids(a) - Listed(items)));
    OutsideSame(b, drop, Finished(items) + (Uids(b) - Listed(items)));
  }

  /** A second pruning with the same listing changes nothing and finds nothing missing. */
  lemma KeptTwice(a: seq<Ref>, items: seq<Seen>)
    ensures Kept(Kept(a, items), items) == Kept(a, items)
    ensures !SomeMissing(Kept(a, items), items)
  {
    var kept := Kept(a, items);
    forall r | r in kept
      ensures r.uid in Listed(items) && r.uid !in Finished(items)
    {
      KeptMeaning(a, items, r);
    }
    OutsideNothing(kept, Finished(items) + (Uids(kept) - Listed(items)));
  }

  // ---------------------------------------------------------------- the loops

  method InActiveList(cs: SchedulerInfo, uid: nat) returns (found: bool)
    ensures found <==> uid in Uids(cs.instance.active)
  {
    for k := 0 to |cs.instance.active|
      invariant forall i :: 0 <= i < k ==> cs.instance.active[i].uid != uid
    {
      if cs.instance.active[k].uid == uid {
        return true;
      }
    }
    return false;
  }

  method DeleteFromActiveList(cs: SchedulerInfo, uid: nat)
    modifies cs`instance
    ensures cs.instance == old(cs.instance).(active := Outside(old(cs.instance.active), {uid}))
  {
    var active := cs.instance.active;
    var newActive := [];
    for k := 0 to |active|
      invariant newActive == Outside(active[..k], {uid})
      invariant cs.instance == old(cs.instance)
    {
      assert active[..k + 1] == active[..k] + [active[k]];
      OutsideConcat(active[..k], [active[k]], {uid});
      OutsideOne(active[k], {uid});
      if active[k].uid != uid {
        newActive := newActive + [active[k]];
      }
    }
    assert active[..|active|] == active;
    cs.instance := cs.instance.(active := newActive);
  }

  /** updateActiveStatus, once the engines are listed. */
  method Prune(cs: SchedulerInfo, items: seq<Seen>, clock: Clock)
    modifies cs`instance, clock
    ensures cs.instance == old(cs.instance).(
                active := Kept(old(cs.instance.active), items),
                lastCompletion := if SomeMissing(old(cs.instance.active), items) then Some(clock.now)
                                  else old(cs.instance.lastCompletion))
    ensures old(clock.now) <= clock.now
    ensures !SomeMissing(old(cs.instance.active), items) ==> clock.now == old(clock.now)
  {
    ghost var before := cs.instance;
    var children := DropFinished(cs, items);
    var active := cs.instance.active;
    OutsideNothing(active, Unlisted(active[..0], items));
    for k := 0 to |active|
      invariant cs.instance == before.(active := Outside(active, Unlisted(active[..k], items)),
                                       lastCompletion := cs.instance.lastCompletion)
      invariant cs.instance.lastCompletion
                == if SomeMissing(active[..k], items) then Some(clock.now) else before.lastCompletion
      invariant old(clock.now) <= clock.now
      invariant !SomeMissing(active[..k], items) ==> clock.now == old(clock.now)
    {
      var j := active[k];
      UnlistedStep(active, k, items);
      if j.uid !in children {
        DeleteFromActiveList(cs, j.uid);
        var t := clock.Now();
        cs.instance := cs.instance.(lastCompletion := Some(t));
      }
    }
    PruneResult(before.active, items);
    assert active[..|active|] == active;
  }

  function Unlisted(active: seq<Ref>, items: seq<Seen>): set<nat> { Uids(active) - Listed(items) }

  lemma UnlistedStep(active: seq<Ref>, k: nat, items: seq<Seen>)
    requires k < |active|
    ensures var (uid, done, next) := (active[k].uid, Unlisted(active[..k], items), Unlisted(active[..k + 1], items));
            && (uid in Listed(items) ==>
                  next == done && SomeMissing(active[..k + 1], items) == SomeMissing(active[..k], items))
            && (uid !in Listed(items) ==>
                  && Outside(Outside(active, done), {uid}) == Outside(active, next)
                  && SomeMissing(active[..k + 1], items))
  {
    var uid, done := active[k].uid, Unlisted(active[..k], items);
    UidsOneMore(active, k);
    OutsideTwice(active, done, {uid});
    if uid in Listed(items) {
      assert Unlisted(active[..k + 1], items) == done;
    } else {
      assert Unlisted(active[..k + 1], items) == done + {uid};
    }
  }

  lemma UidsOneMore(active: seq<Ref>, k: nat)
    requires k < |active|
    ensures Uids(active[..k + 1]) == Uids(active[..k]) + {active[k].uid}
  {
    assert active[..k + 1] == active[..k] + [active[k]];
  }

  /** The first loop: note every listed UID and drop the finished ones. */
  method DropFinished(cs: SchedulerInfo, items: seq<Seen>) returns (children: set<nat>)
    modifies cs`instance
    ensures children == Listed(items)
    ensures cs.instance == old(cs.instance).(active := Outside(old(cs.instance.active), Finished(items)))
  {
    ghost var before := cs.instance.active;
    children := {};
    OutsideNothing(before, Finished(items[..0]));
    for k := 0 to |items|
      invariant children == Listed(items[..k])
      invariant cs.instance == old(cs.instance).(active := Outside(before, Finished(items[..k])))
    {
      var j := items[k];
      assert items[..k + 1] == items[..k] + [j];
      children := children + {j.uid};
      var found := InActiveList(cs, j.uid);
      OutsideTwice(before, Finished(items[..k]), {j.uid});
      if found && j.finished {
        DeleteFromActiveList(cs, j.uid);
        assert Finished(items[..k + 1]) == Finished(items[..k]) + {j.uid};
      } else if j.finished {
        OutsideNothing(cs.instance.active, {j.uid});
        assert Finished(items[..k + 1]) == Finished(items[..k]) + {j.uid};
      } else {
        assert Finished(items[..k + 1]) == Finished(items[..k]);
      }
    }
    assert items[..|items|] == items;
  }

  lemma PruneResult(active: seq<Ref>, items: seq<Seen>)
    ensures var rest := Outside(active, Finished(items));
            && Outside(rest, Unlisted(rest, items)) == Kept(active, items)
            && SomeMissing(rest, items) == SomeMissing(active, items)
  {
    var rest := Outside(active, Finished(items));
    forall r: Ref
      ensures r in rest <==> r in active && r.uid !in Finished(items)
    {
      OutsideCount(active, Finished(items), r);
    }
    OutsideTwice(active, Finished(items), Uids(rest) - Listed(items));
    OutsideSame(active, Finished(items) + (Uids(rest) - Listed(items)),
                Finished(items) + (Uids(active) - Listed(items)));
    if SomeMissing(active, items) {
      var uid :| uid in Uids(active) && uid !in Listed(items);
      var r :| r in active && r.uid == uid;
      assert r in rest && uid in Uids(rest);
    }
  }
}
