/** The registry in place: each handler reads, changes and writes it under one lock. */
module DesktopRegistry {
  import opened Options
  import opened Desktop

  lemma RunMore(events: seq<Event>, e: Event)
    ensures Run(events + [e]) == Step(Run(events), e)
  {
    assert (events + [e])[..|events|] == events;
  }

  lemma CappedMore(events: seq<Event>, e: Event)
    requires Capped(events)
    requires e.Save? ==> CapKeeps(Run(events).insts[e.inst := Ent(e.open, e.now)], e.keep)
    requires e.Load? ==> CapKeeps(Run(events).insts[e.inst := Rejoined(Run(events), e.inst, e.now)], e.keep)
    ensures Capped(events + [e])
  {
    assert (events + [e])[..|events|] == events;
  }

  ghost predicate PartlyPruned(targets: map<App, set<Inst>>, insts: map<Inst, Ent>, now: real,
                               todo: set<App>, out: map<App, set<Inst>>)
  {
    && todo <= targets.Keys
    && (forall app :: app in out <==> app in targets && app !in todo && targets[app] * Holders(insts, app, now) != {})
    && (forall app | app in out :: out[app] == targets[app] * Holders(insts, app, now))
  }

  /** Everyone kept was seen no earlier than everyone left. */
  ghost predicate Newer(instances: map<Inst, Ent>, keep: set<Inst>, rest: set<Inst>)
    requires keep <= instances.Keys && rest <= instances.Keys
  {
    forall i, j | i in keep && j in rest :: instances[j].ts <= instances[i].ts
  }

  method PickNewest(instances: map<Inst, Ent>, count: nat) returns (keep: set<Inst>)
    requires count < |instances|
    ensures keep <= instances.Keys && |keep| == count && Newer(instances, keep, instances.Keys - keep)
  {
    keep := {};
    var rest := instances.Keys;
    for n := 0 to count
      invariant keep <= instances.Keys && |keep| == n && rest == instances.Keys - keep
      invariant Newer(instances, keep, rest)
    {
      assert |instances.Keys| == |keep| + |rest| by { Parts(instances.Keys, keep); }
      var newest := Newest(instances, rest);
      keep, rest := keep + {newest}, rest - {newest};
    }
  }

  lemma Parts(whole: set<Inst>, part: set<Inst>)
    requires part <= whole
    ensures |whole| == |part| + |whole - part|
  {
    assert whole == part + (whole - part);
  }

  class Registry {
    var instances: map<Inst, Ent>
    var closeTargets: map<App, set<Inst>>
    var resetEpoch: nat
    ghost var events: seq<Event>

    ghost predicate Valid() reads this {
      Desk(instances, closeTargets, resetEpoch) == Run(events) && Capped(events)
    }

    constructor ()
      ensures Valid() && events == []
    {
      instances, closeTargets, resetEpoch, events := map[], map[], 0, [];
    }

    /** Keep a target only while its instance is live and still reports the app open. */
    method Prune(now: real)
      modifies this`closeTargets
      ensures Desk(instances, closeTargets, resetEpoch)
              == PruneTargets(old(Desk(instances, closeTargets, resetEpoch)), now)
    {
      var out: map<App, set<Inst>> := map[];
      var todo := closeTargets.Keys;
      while todo != {}
        invariant PartlyPruned(closeTargets, instances, now, todo, out)
        decreases |todo|
      {
        var app :| app in todo;
        var kept := set i | i in closeTargets[app] && Holding(instances, i, app, now);
        assert kept == closeTargets[app] * Holders(instances, app, now);
        todo := todo - {app};
        if kept != {} { out := out[app := kept]; }
      }
      closeTargets := out;
    }

    /** `_desktop_cap`: the most recently seen instances. */
    method CapInstances() returns (keep: set<Inst>)
      modifies this`instances
      ensures CapKeeps(old(instances), keep) && instances == Cap(old(instances), keep)
    {
      keep := {};
      if |instances| <= MAX_INSTANCES { return; }
      keep := PickNewest(instances, MAX_INSTANCES);
      instances := map i | i in instances && i in keep :: instances[i];
    }

    method Heard(i: Inst, ent: Ent, now: real) returns (keep: set<Inst>)
      modifies this`instances, this`closeTargets
      ensures CapKeeps(old(instances)[i := ent], keep)
      ensures Desk(instances, closeTargets, resetEpoch)
              == Heartbeat(old(Desk(instances, closeTargets, resetEpoch)), i, ent, now, keep)
    {
      hide Cap, CapKeeps;
      instances := instances[i := ent];
      keep := CapInstances();
      Prune(now);
    }

    method Save(i: Inst, open: seq<App>, now: real) returns (ghost keep: set<Inst>)
      requires Valid()
      modifies this
      ensures Valid() && events == old(events) + [Event.Save(i, open, now, keep)]
    {
      hide Run, Capped, CapKeeps, Heartbeat;
      keep := Heard(i, Ent(open, now), now);
      RunMore(events, Event.Save(i, open, now, keep));
      CappedMore(events, Event.Save(i, open, now, keep));
      events := events + [Event.Save(i, open, now, keep)];
    }

    method Load(instance: Option<Inst>, now: real) returns (open: seq<App>)
      requires Valid()
      modifies this
      ensures Valid() && |events| == |old(events)| + 1 && events[..|old(events)|] == old(events)
      ensures var e := events[|old(events)|];
              if instance.None? then e == Peek && open == []
              else e.Load? && e.inst == instance.value && e.now == now
                   && open == (if e.inst in old(instances) then old(instances)[e.inst].open else [])
    {
      hide Run, Capped, CapKeeps, Heartbeat;
      if instance.None? {
        RunMore(events, Peek);
        CappedMore(events, Peek);
        events := events + [Peek];
        return [];
      }
      var i := instance.value;
      var ent := if i in instances then instances[i].(ts := now) else Ent([], now);
      ghost var keep := Heard(i, ent, now);
      RunMore(events, Event.Load(i, now, keep));
      CappedMore(events, Event.Load(i, now, keep));
      events := events + [Event.Load(i, now, keep)];
      open := ent.open;
    }

    method Close(app: App, now: real) returns (holders: set<Inst>)
      requires Valid()
      modifies this
      ensures Valid() && events == old(events) + [Event.Close(app, now)]
      ensures holders == Holders(old(instances), app, now)
    {
      hide Run, Capped, PruneTargets;
      holders := set i | i in instances && Holding(instances, i, app, now);
      assert holders == Holders(instances, app, now);
      RunMore(events, Event.Close(app, now));
      CappedMore(events, Event.Close(app, now));
      events := events + [Event.Close(app, now)];
      if holders != {} {
        closeTargets := closeTargets[app := (if app in closeTargets then closeTargets[app] else {}) + holders];
      }
      Prune(now);
    }

    method Reset()
      requires Valid()
      modifies this
      ensures Valid() && events == old(events) + [Event.Reset]
      ensures resetEpoch == old(resetEpoch) + 1
    {
      hide Run, Capped;
      RunMore(events, Event.Reset);
      CappedMore(events, Event.Reset);
      events := events + [Event.Reset];
      instances, closeTargets, resetEpoch := map[], map[], resetEpoch + 1;
    }
  }

  method Newest(instances: map<Inst, Ent>, among: set<Inst>) returns (newest: Inst)
    requires among != {} && among <= instances.Keys
    ensures newest in among && forall i | i in among :: instances[i].ts <= instances[newest].ts
  {
    newest :| newest in among;
    var rest := among - {newest};
    while rest != {}
      invariant rest <= among && newest in among
      invariant forall i | i in among :: i in rest || instances[i].ts <= instances[newest].ts
      decreases |rest|
    {
      var i :| i in rest;
      if instances[i].ts > instances[newest].ts { newest := i; }
      rest := rest - {i};
    }
  }
}
