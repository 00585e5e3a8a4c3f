/** The sweeper and the two handlers in place, over the registry file; one pass at a time. */
module Sweeper {
  import opened Options
  import opened Schedules
  import opened ScheduleRuns
  import opened ScheduleRequests

  lemma RunMore(events: seq<Event>, e: Event)
    ensures Run(events + [e]) == Step(Run(events), e)
    ensures Serial(events + [e]) <==> Serial(events) && (e.Begin? ==> Run(events).flights == map[]) && SafeEnd(Run(events), e)
    ensures !e.Begin? && !e.End? ==> Serial(events + [e]) == Serial(events)
  {
    assert (events + [e])[..|events|] == events;
  }

  /** The checks of a request's times, in order. */
  method FirstSlot(at: real, every: Option<int>, until: Option<real>, now: real) returns (start: Option<real>)
    ensures start == Accept(at, every, until, now)
    ensures start.Some? <==> Acceptable(at, every, until, now)
    ensures start.Some? ==> StartsAt(at, every, now, start.value)
  {
    AcceptExact(at, every, until, now);
    hide Acceptable, StartsAt;
    if at < now - PAST_TOLERANCE && every.None? { return None; }
    if at > now + MAX_HORIZON { return None; }
    start := Some(at);
    if every.Some? {
      if every.value < MIN_INTERVAL || until.None? || until.value < at || until.value > now + MAX_HORIZON {
        return None;
      }
      if at < now - PAST_TOLERANCE {
        start := NextSlot(at, every.value, now);
        if start.value > until.value { return None; }
      }
      if Intervals(start.value, until.value, every.value) + 1 > MAX_RUNS { return None; }
    }
  }

  class Scheduler {
    var registry: Registry
    ghost var events: seq<Event>

    /** Between passes: the file is what the run so far has made it. */
    ghost predicate Valid() reads this {
      Run(events).reg == registry && Run(events).flights == map[]
    }

    constructor ()
      ensures Valid() && events == []
    {
      registry, events := map[], [];
    }

    method Create(id: Id, user: string, at: real, every: Option<int>, until: Option<real>, now: real,
                  saved: bool, dropped: set<Id>)
      returns (accepted: bool)
      requires Valid() && id !in Run(events).created
      modifies this
      ensures Valid() && events == old(events) + [Event.Create(id, user, at, every, until, now, saved, dropped)]
      ensures Serial(events) == Serial(old(events))
      ensures accepted <==> saved && Acceptable(at, every, until, now) && |PendingOf(old(registry), user)| < MAX_PER_USER
      ensures accepted ==> Requested(registry, id, user, at, every, until, now)
      ensures !accepted ==> registry == old(registry)
      ensures forall k | k in old(registry) && k != id && old(registry)[k].status == Pending ::
                k in registry && registry[k] == old(registry)[k]
    {
      hide Run, Serial, Acceptable, Requested, Accept, SafeEnd;
      var request := Event.Create(id, user, at, every, until, now, saved, dropped);
      RunKnown(events);
      CreateExact(Run(events), request);
      RunMore(events, request);
      events := events + [request];
      var start := FirstSlot(at, every, until, now);
      if start.None? || |PendingOf(registry, user)| >= MAX_PER_USER || !saved { return false; }
      var e := Entry(user, Pending, start.value, if every.Some? then every.value else 0,
                     if every.Some? then until else None, 0, None);
      registry := Prune(registry[id := e], dropped);
      accepted := true;
    }

    method Cancel(id: Id, now: real, saved: bool) returns (found: bool, kept: bool)
      requires Valid()
      modifies this
      ensures Valid() && events == old(events) + [Event.Cancel(id, now, saved)]
      ensures Serial(events) == Serial(old(events))
      ensures found <==> id in old(registry)
      ensures found ==> (kept <==> old(registry)[id].status == Pending && old(registry)[id].runs > 0)
      ensures found && saved ==> (kept <==> id in registry)
      ensures found && saved && kept ==> Stops(old(registry)[id], registry[id], now)
      ensures forall k | k != id :: (k in registry <==> k in old(registry)) && (k in registry ==> registry[k] == old(registry)[k])
      ensures !saved ==> registry == old(registry)
    {
      RunMore(events, Event.Cancel(id, now, saved));
      events := events + [Event.Cancel(id, now, saved)];
      if id !in registry { return false, false; }
      var ent := registry[id];
      kept := ent.status == Pending && ent.runs > 0;
      if saved {
        if kept {
          var fired := if ent.fired.Some? then ent.fired else Some(now);
          registry := registry[id := ent.(status := Stopped, fired := fired)];
        } else {
          registry := registry - {id};
        }
      }
      found := true;
    }

    /** `_run_due_schedules`: read what is due, deliver without the lock, apply the outcomes. */
    method RunDue(now: real, delivers: Id -> bool, saved: bool, dropped: set<Id>) returns (fired: set<Id>)
      requires Valid()
      modifies this
      ensures Valid() && (saved && Serial(old(events)) ==> Serial(events))
      ensures fired == Due(old(registry), now).Keys
      ensures registry == if saved then Prune(ApplyAll(old(registry), Outcomes(old(registry), delivers, now)), dropped)
                          else old(registry)
      ensures DeliversDue(old(events), events, old(registry), now)
    {
      hide Run, Step, Serial, Outcome, Late, CountOf, Due, Prune, ApplyAll;
      var todo := Due(registry, now);
      fired := todo.Keys;
      BeginPass(events, registry, now);
      events := events + [Begin(0, now)];
      var results: map<Id, Update> := map[];
      while todo != map[]
        invariant registry == old(registry)
        invariant InPass(old(events), events, registry, now, delivers, fired, todo, results)
        decreases |todo|
      {
        var id :| id in todo;
        FireNext(old(events), events, registry, now, delivers, fired, todo, results, id);
        events := events + [Fire(0, id, delivers(id))];
        results := results[id := Outcome(todo[id], delivers(id), now)];
        todo := todo - {id};
      }
      EndPass(old(events), events, registry, now, delivers, fired, results, saved, dropped);
      AllDelivered(old(events), events + [End(0, saved, dropped)], registry, now, fired);
      events := events + [End(0, saved, dropped)];
      if saved {
        registry := Prune(ApplyAll(registry, results), dropped);
      }
    }
  }

  /** A pass delivers once whatever waits for a time that has come, no more than two hours ago, and nothing else. */
  ghost predicate DeliversDue(before: seq<Event>, after: seq<Event>, reg: Registry, now: real) {
    forall id ::
      CountOf(Run(after).shots, id)
      == CountOf(Run(before).shots, id)
         + (if id in reg && reg[id].status == Pending && reg[id].at <= now <= reg[id].at + LATE_GRACE then 1 else 0)
  }

  lemma AllDelivered(before: seq<Event>, after: seq<Event>, reg: Registry, now: real, fired: set<Id>)
    requires Delivered(before, after, reg, now, fired) && fired == Due(reg, now).Keys
    ensures DeliversDue(before, after, reg, now)
  {
    hide Run, CountOf;
  }

  /** The loop is kept as stopped, with what it says of its past. */
  predicate Stops(e: Entry, stopped: Entry, now: real) {
    stopped == e.(status := Stopped, fired := stopped.fired)
    && stopped.fired == (if e.fired.Some? then e.fired else Some(now))
  }

  function Outcomes(reg: Registry, delivers: Id -> bool, now: real): map<Id, Update> {
    map id | id in Due(reg, now) :: Outcome(reg[id], delivers(id), now)
  }

  /** A pass leaves no loop armed for a time that has passed, however many slots it slept through. */
  lemma NoBacklog(reg: Registry, delivers: Id -> bool, now: real, dropped: set<Id>, id: Id)
    requires var after := Prune(ApplyAll(reg, Outcomes(reg, delivers, now)), dropped);
             id in after && after[id].status == Pending
    ensures Prune(ApplyAll(reg, Outcomes(reg, delivers, now)), dropped)[id].at > now
  {
    if id in Due(reg, now) && Every(reg[id]).Some? {
      NextSlotIsLeast(reg[id].at, Every(reg[id]).value, now);
    }
  }

  /** What was delivered between two points of a run: one shot for each fired entry that was not late. */
  ghost predicate Delivered(before: seq<Event>, after: seq<Event>, reg: Registry, now: real, fired: set<Id>) {
    forall id :: CountOf(Run(after).shots, id)
                 == CountOf(Run(before).shots, id) + (if id in fired && id in reg && !Late(reg[id], now) then 1 else 0)
  }

  ghost predicate InPass(before: seq<Event>, events: seq<Event>, reg: Registry, now: real, delivers: Id -> bool,
                         fired: set<Id>, todo: Registry, results: map<Id, Update>)
  {
    && Run(events).reg == reg && Run(events).flights == map[0 := Flight(now, todo, results)]
    && (Serial(before) ==> Serial(events))
    && todo.Keys <= fired == Due(reg, now).Keys
    && (forall id | id in todo :: todo[id] == reg[id])
    && results.Keys == fired - todo.Keys
    && (forall id | id in results :: results[id] == Outcome(reg[id], delivers(id), now))
    && Delivered(before, events, reg, now, fired - todo.Keys)
  }

  lemma BeginPass(events: seq<Event>, reg: Registry, now: real)
    requires Run(events).reg == reg && Run(events).flights == map[]
    ensures forall delivers ::
              InPass(events, events + [Begin(0, now)], reg, now, delivers, Due(reg, now).Keys, Due(reg, now), map[])
  {
    hide Serial, Run, CountOf, Late;
    RunMore(events, Begin(0, now));
    var due := Due(reg, now);
    assert Run(events).flights[0 := Flight(now, due, map[])] == map[0 := Flight(now, due, map[])];
  }

  lemma CountMore(shots: seq<Shot>, shot: Shot, id: Id)
    ensures CountOf(shots + [shot], id) == CountOf(shots, id) + if shot.id == id then 1 else 0
  {
    assert (shots + [shot])[..|shots|] == shots;
  }

  lemma FireNext(before: seq<Event>, events: seq<Event>, reg: Registry, now: real, delivers: Id -> bool,
                 fired: set<Id>, todo: Registry, results: map<Id, Update>, id: Id)
    requires InPass(before, events, reg, now, delivers, fired, todo, results) && id in todo
    ensures InPass(before, events + [Fire(0, id, delivers(id))], reg, now, delivers, fired,
                   todo - {id}, results[id := Outcome(todo[id], delivers(id), now)])
  {
    hide Serial, Run, CountOf, Late, Due, Outcome;
    InRegistry(reg, now, id);
    var e := Fire(0, id, delivers(id));
    RunMore(events, e);
    var s, s' := Run(events), Run(events + [e]);
    var left := todo - {id};
    var outcome := results[id := Outcome(todo[id], delivers(id), now)];
    assert s'.flights == map[0 := Flight(now, left, outcome)];
    assert fired - left.Keys == fired - todo.Keys + {id};
    assert s'.shots == if Late(reg[id], now) then s.shots else s.shots + [Shot(id, todo[id].at, delivers(id))];
    hide Delivered;
    DeliveredNext(before, events, events + [e], reg, now, fired - todo.Keys, id, todo[id].at, delivers(id));
  }

  lemma InRegistry(reg: Registry, now: real, id: Id)
    requires id in Due(reg, now)
    ensures id in reg
  {
  }

  lemma DeliveredNext(before: seq<Event>, events: seq<Event>, events': seq<Event>, reg: Registry, now: real,
                      done: set<Id>, id: Id, slot: real, ok: bool)
    requires Delivered(before, events, reg, now, done) && id in reg && id !in done
    requires Run(events').shots
             == if Late(reg[id], now) then Run(events).shots else Run(events).shots + [Shot(id, slot, ok)]
    ensures Delivered(before, events', reg, now, done + {id})
  {
    hide Run, Late, CountOf;
    forall k ensures CountOf(Run(events').shots, k)
        == CountOf(Run(before).shots, k) + (if k in done + {id} && k in reg && !Late(reg[k], now) then 1 else 0)
    {
      CountMore(Run(events).shots, Shot(id, slot, ok), k);
    }
  }

  lemma EndPass(before: seq<Event>, events: seq<Event>, reg: Registry, now: real, delivers: Id -> bool,
                fired: set<Id>, results: map<Id, Update>, saved: bool, dropped: set<Id>)
    requires InPass(before, events, reg, now, delivers, fired, map[], results)
    ensures var after := Run(events + [End(0, saved, dropped)]);
            && results == Outcomes(reg, delivers, now)
            && after.flights == map[]
            && after.reg == (if saved then Prune(ApplyAll(reg, results), dropped) else reg)
    ensures saved && Serial(before) ==> Serial(events + [End(0, saved, dropped)])
    ensures Delivered(before, events + [End(0, saved, dropped)], reg, now, fired)
  {
    hide Serial, Run, CountOf, Late, Due, Outcome, Prune, ApplyAll;
    RunMore(events, End(0, saved, dropped));
    var none: Registry := map[];
    assert fired - none.Keys == fired;
    assert results == Outcomes(reg, delivers, now);
  }
}
