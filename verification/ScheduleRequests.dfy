/** From what was asked for to what is delivered. */
module ScheduleRequests {
  import opened Options
  import opened Schedules
  import opened ScheduleRuns
  import opened ScheduleHistory

  /** The entry waits for the time that was asked for, as it was asked for. */
  ghost predicate Requested(reg: Registry, id: Id, user: string, at: real, every: Option<int>, until: Option<real>, now: real) {
    && id in reg && reg[id].user == user && reg[id].status == Pending && StartsAt(at, every, now, reg[id].at)
    && reg[id].every == (if every.Some? then every.value else 0) && (every.Some? ==> reg[id].until == until)
    && reg[id].runs == 0 && reg[id].fired.None?
  }

  /** A request enters the registry exactly if it is acceptable, its user has fewer than 20 waiting, and it is saved. */
  lemma CreateExact(s: State, e: Event)
    requires e.Create? && e.id !in s.created && e.id !in s.reg
    ensures var s' := Step(s, e);
            && (e.id in s'.reg <==> e.saved && Acceptable(e.at, e.every, e.until, e.now) && |PendingOf(s.reg, e.user)| < MAX_PER_USER)
            && (e.id in s'.reg ==> Requested(s'.reg, e.id, e.user, e.at, e.every, e.until, e.now))
            && (e.id !in s'.reg ==> s' == s)
            && s'.shots == s.shots && s'.flights == s.flights
            && (forall id | id in s.reg && s.reg[id].status == Pending :: id in s'.reg && s'.reg[id] == s.reg[id])
            && (forall id | id in s'.reg && id != e.id :: id in s.reg && s'.reg[id] == s.reg[id])
  {
    AcceptExact(e.at, e.every, e.until, e.now);
  }

  /** The event asked for this grid. */
  ghost predicate AsksFor(e: Event, id: Id, g: Grid) {
    && e.Create? && e.id == id && Acceptable(e.at, e.every, e.until, e.now)
    && StartsAt(e.at, e.every, e.now, g.start) && g.every == e.every && g.until == e.until
  }

  /** Whatever was accepted, was asked for. */
  lemma {:induction false} CreatedBy(events: seq<Event>, id: Id) returns (i: nat)
    requires id in Run(events).created
    ensures i < |events| && AsksFor(events[i], id, Run(events).created[id])
    decreases |events|
  {
    var n := |events| - 1;
    var before, e := Run(events[..n]), events[n];
    if id in before.created {
      i := CreatedBy(events[..n], id);
      CreatedStays(before, e, id);
    } else {
      i := n;
      NewlyCreated(before, e, id);
      AcceptExact(e.at, e.every, e.until, e.now);
    }
  }

  lemma CreatedStays(s: State, e: Event, id: Id)
    requires id in s.created
    ensures id in Step(s, e).created && Step(s, e).created[id] == s.created[id]
  {
  }

  lemma NewlyCreated(s: State, e: Event, id: Id)
    requires id !in s.created && id in Step(s, e).created
    ensures e.Create? && e.id == id && Accept(e.at, e.every, e.until, e.now).Some?
    ensures Step(s, e).created[id] == Grid(Accept(e.at, e.every, e.until, e.now).value, e.every, e.until)
  {
  }

  /** The slot is one that the request asked for: its time, or a point of its grid up to its end. */
  ghost predicate AskedFor(e: Event, x: real) {
    e.Create? &&
    if e.every.None? then x == e.at
    else e.until.Some? && x <= e.until.value && exists k: nat :: x == Slot(e.at, e.every.value, k)
  }

  lemma OnAskedGrid(e: Event, id: Id, g: Grid, x: real)
    requires AsksFor(e, id, g) && OnGrid(g, x)
    ensures AskedFor(e, x)
  {
    var k: nat :| IsSlot(g, k, x);
    if e.every.Some? {
      var every := e.every.value;
      assert Slot(e.at, every, 0) == e.at;
      var j: nat :| g.start == Slot(e.at, every, j);
      SlotOfSlot(e.at, every, j, k);
      assert x == Slot(e.at, every, j + k);
    }
  }

  /**
   Over any run of passes that do not overlap and each end safely, every delivery is for a slot that the
   message's own create request asked for, made when that time has come and no more than two hours later.
   */
  lemma DeliveredAsAsked(events: seq<Event>, i: nat)
    requires i < |events| && Serial(events[..i])
    ensures var s, s' := Run(events[..i]), Run(events[..i + 1]);
            s'.shots != s.shots ==>
              && events[i].Fire? && events[i].pass in s.flights && |s'.shots| == |s.shots| + 1
              && var shot, now := s'.shots[|s.shots|], s.flights[events[i].pass].now;
                 && s'.shots == s.shots + [shot] && shot.id == events[i].id && shot.ok == events[i].ok
                 && shot.slot <= now <= shot.slot + LATE_GRACE
                 && exists j: nat :: j < i && events[j].Create? && events[j].id == shot.id && AskedFor(events[j], shot.slot)
  {
    var e, s := events[i], Run(events[..i]);
    assert events[..i + 1][..i] == events[..i] && events[..i + 1][i] == e;
    var s' := Step(s, e);
    if s'.shots != s.shots {
      OnlyFireDelivers(s, e);
      var id, slot := e.id, s.flights[e.pass].todo[e.id].at;
      RunKeeps(events[..i], id);
      FiredOnTime(s, e);
      var j := CreatedBy(events[..i], id);
      OnAskedGrid(events[j], id, s.created[id], slot);
      hide Step, Run;
      assert j < i && events[..i][j] == events[j];
    }
  }

  lemma OnlyFireDelivers(s: State, e: Event)
    requires Step(s, e).shots != s.shots
    ensures e.Fire? && e.pass in s.flights && e.id in s.flights[e.pass].todo
    ensures var ent := s.flights[e.pass].todo[e.id];
            Step(s, e).shots == s.shots + [Shot(e.id, ent.at, e.ok)] && s.flights[e.pass].now <= ent.at + LATE_GRACE
  {
  }

  lemma FiredOnTime(s: State, e: Event)
    requires e.Fire? && e.pass in s.flights && e.id in s.flights[e.pass].todo && IdInv(s, e.id)
    ensures e.id in s.created && OnGrid(s.created[e.id], s.flights[e.pass].todo[e.id].at)
    ensures s.flights[e.pass].todo[e.id].at <= s.flights[e.pass].now
  {
    TodoCreated(s, e.pass, e.id);
    assert FlightInv(s.flights[e.pass], s.shots, e.id, s.created[e.id]);
  }
}
