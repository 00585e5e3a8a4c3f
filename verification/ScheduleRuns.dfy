/** Runs of creates, cancels and sweeper passes over one registry; deliveries happen between the locks. */
module ScheduleRuns {
  import opened Options
  import opened Schedules

  /** A delivery: the entry's text was to be typed for this slot; `ok` tells whether it was. */
  datatype Shot = Shot(id: Id, slot: real, ok: bool)

  /** A pass between its two locked regions. */
  datatype Flight = Flight(now: real, todo: Registry, results: map<Id, Update>)

  /** What an entry was accepted as. */
  datatype Grid = Grid(start: real, every: Option<int>, until: Option<real>)

  datatype State = State(reg: Registry, flights: map<nat, Flight>, shots: seq<Shot>, created: map<Id, Grid>)

  const START := State(map[], map[], [], map[])

  datatype Event =
    | Create(id: Id, user: string, at: real, every: Option<int>, until: Option<real>, now: real, saved: bool, dropped: set<Id>)
    | Cancel(id: Id, now: real, saved: bool)
    | Begin(pass: nat, now: real)
    | Fire(pass: nat, id: Id, ok: bool)
    | End(pass: nat, saved: bool, dropped: set<Id>)

  function StepCreate(s: State, id: Id, user: string, at: real, every: Option<int>, until: Option<real>,
                      now: real, saved: bool, dropped: set<Id>): State
  {
    var start := Accept(at, every, until, now);
    if id in s.created || start.None? || |PendingOf(s.reg, user)| >= MAX_PER_USER || !saved then s
    else
      var e := Entry(user, Pending, start.value, if every.Some? then every.value else 0, if every.Some? then until else None, 0, None);
      s.(reg := Prune(s.reg[id := e], dropped), created := s.created[id := Grid(start.value, every, until)])
  }

  function StepFire(s: State, pass: nat, id: Id, ok: bool): State {
    if pass !in s.flights || id !in s.flights[pass].todo then s
    else
      var f := s.flights[pass];
      var e := f.todo[id];
      s.(flights := s.flights[pass := f.(todo := f.todo - {id}, results := f.results[id := Outcome(e, ok, f.now)])],
         shots := if Late(e, f.now) then s.shots else s.shots + [Shot(id, e.at, ok)])
  }

  /** A pass applies its outcomes once all are in, or ends unsaved: its write fails, or the manager dies at any point. */
  function StepEnd(s: State, pass: nat, saved: bool, dropped: set<Id>): State {
    if pass !in s.flights || (saved && s.flights[pass].todo != map[]) then s
    else
      s.(flights := s.flights - {pass},
         reg := if saved then Prune(ApplyAll(s.reg, s.flights[pass].results), dropped) else s.reg)
  }

  function Step(s: State, e: Event): State {
    match e
    case Create(id, user, at, every, until, now, saved, dropped) =>
      StepCreate(s, id, user, at, every, until, now, saved, dropped)
    case Cancel(id, now, saved) =>
      if id !in s.reg || !saved then s else s.(reg := Cancelled(s.reg, id, now))
    case Begin(pass, now) =>
      if pass in s.flights then s else s.(flights := s.flights[pass := Flight(now, Due(s.reg, now), map[])])
    case Fire(pass, id, ok) => StepFire(s, pass, id, ok)
    case End(pass, saved, dropped) => StepEnd(s, pass, saved, dropped)
  }

  function Run(events: seq<Event>): State
    decreases |events|
  {
    if events == [] then START else Step(Run(events[..|events| - 1]), events[|events| - 1])
  }

  // ---- At most once per slot -----------------------------------------------------

  /** Every entry the pass has dealt with that still waits was too late to be delivered. */
  predicate OnlySkipped(f: Flight, reg: Registry) {
    forall id | id in f.results && id in reg && reg[id].status == Pending :: Late(reg[id], f.now)
  }

  /** The end of this pass leaves nothing to be delivered again: it is saved, or had delivered to nobody who waits. */
  predicate SafeEnd(s: State, e: Event) {
    e.End? && !e.saved && e.pass in s.flights ==> OnlySkipped(s.flights[e.pass], s.reg)
  }

  /** Passes do not overlap, and each ends safely. */
  ghost predicate Serial(events: seq<Event>)
    decreases |events|
  {
    events == [] || (
      var before, e := events[..|events| - 1], events[|events| - 1];
      && Serial(before)
      && (e.Begin? ==> Run(before).flights == map[])
      && SafeEnd(Run(before), e))
  }

  /** The slots an accepted entry may be delivered for. */
  ghost predicate OnGrid(g: Grid, x: real) {
    exists k: nat :: IsSlot(g, k, x)
  }

  ghost predicate IsSlot(g: Grid, k: nat, x: real) {
    if g.every.None? then x == g.start
    else x == Slot(g.start, g.every.value, k) && g.until.Some? && x <= g.until.value
  }

  /** At most 500 slots, the last one no later than `until`. */
  ghost predicate Bounded(g: Grid) {
    g.every.Some? ==>
      && g.every.value >= MIN_INTERVAL && g.until.Some?
      && g.start <= g.until.value && Intervals(g.start, g.until.value, g.every.value) < MAX_RUNS
  }

  ghost predicate Fits(e: Entry, g: Grid) {
    && e.every == (if g.every.Some? then g.every.value else 0)
    && (g.every.Some? ==> e.until == g.until)
    && Bounded(g) && OnGrid(g, e.at)
  }

  /** Every delivery so far was for an earlier slot. */
  ghost predicate Above(shots: seq<Shot>, id: Id, x: real) {
    forall i | 0 <= i < |shots| && shots[i].id == id :: shots[i].slot < x
  }

  ghost predicate ShotsOf(shots: seq<Shot>, id: Id, g: Grid) {
    && (forall i | 0 <= i < |shots| && shots[i].id == id :: OnGrid(g, shots[i].slot))
    && (forall i, j | 0 <= i < j < |shots| && shots[i].id == id && shots[j].id == id :: shots[i].slot < shots[j].slot)
  }

  /** What a pass in flight holds for one entry. */
  ghost predicate FlightInv(f: Flight, shots: seq<Shot>, id: Id, g: Grid) {
    && (id in f.todo ==> Fits(f.todo[id], g) && Above(shots, id, f.todo[id].at) && f.todo[id].at <= f.now)
    && (id in f.results && f.results[id].status == Pending ==>
          f.results[id].at.Some? && OnGrid(g, f.results[id].at.value) && Above(shots, id, f.results[id].at.value))
  }

  ghost predicate Busy(s: State, id: Id) {
    exists p :: p in s.flights && (id in s.flights[p].todo || id in s.flights[p].results)
  }

  ghost predicate IdInv(s: State, id: Id) {
    if id !in s.created then
      id !in s.reg && !Busy(s, id) && forall i | 0 <= i < |s.shots| :: s.shots[i].id != id
    else
      var g := s.created[id];
      && Bounded(g) && ShotsOf(s.shots, id, g)
      && (forall p | p in s.flights :: FlightInv(s.flights[p], s.shots, id, g))
      && (id in s.reg && s.reg[id].status == Pending ==>
            Fits(s.reg[id], g) && (!Busy(s, id) ==> Above(s.shots, id, s.reg[id].at)))
  }

  ghost predicate OnePass(s: State) { forall p, q | p in s.flights && q in s.flights :: p == q }

  /** A loop's next slot stays on its grid. */
  lemma OutcomeOnGrid(e: Entry, ok: bool, now: real, g: Grid)
    requires Fits(e, g) && e.at <= now && Outcome(e, ok, now).status == Pending
    ensures var next := Outcome(e, ok, now).at;
            next.Some? && OnGrid(g, next.value) && next.value > now
  {
    var every := g.every.value;
    NextSlotIsLeast(e.at, every, now);
    var next := NextSlot(e.at, every, now).value;
    var j: nat :| NextSlot(e.at, every, now) == Some(Slot(e.at, every, j));
    var k: nat :| IsSlot(g, k, e.at);
    SlotOfSlot(g.start, every, k, j);
    assert IsSlot(g, k + j, next);
  }

  lemma AcceptFits(at: real, every: Option<int>, until: Option<real>, now: real)
    requires Accept(at, every, until, now).Some?
    ensures var g := Grid(Accept(at, every, until, now).value, every, until);
            Bounded(g) && OnGrid(g, g.start)
  {
    var g := Grid(Accept(at, every, until, now).value, every, until);
    assert IsSlot(g, 0, g.start);
  }

  lemma CreateKeeps(s: State, e: Event, id: Id)
    requires e.Create? && IdInv(s, id)
    ensures IdInv(Step(s, e), id)
  {
    var s' := Step(s, e);
    if s' != s && id == e.id {
      AcceptFits(e.at, e.every, e.until, e.now);
      assert !Busy(s, id) ==> forall p | p in s.flights :: id !in s.flights[p].todo && id !in s.flights[p].results;
    }
    assert s'.flights == s.flights;
    assert Busy(s', id) == Busy(s, id);
  }

  lemma CancelKeeps(s: State, e: Event, id: Id)
    requires e.Cancel? && IdInv(s, id)
    ensures IdInv(Step(s, e), id)
  {
    assert Busy(Step(s, e), id) == Busy(s, id);
  }

  lemma BeginKeeps(s: State, e: Event, id: Id)
    requires e.Begin? && s.flights == map[] && IdInv(s, id)
    ensures IdInv(Step(s, e), id)
  {
    hide Fits, Above, Bounded, OnGrid;
    var s' := Step(s, e);
    assert s'.flights.Keys == {e.pass};
    assert !Busy(s, id);
    if Busy(s', id) { assert id in s'.flights[e.pass].todo; }
  }

  lemma {:induction false} ShotKeeps(shots: seq<Shot>, id: Id, x: real, ok: bool, g: Grid)
    requires ShotsOf(shots, id, g) && Above(shots, id, x) && OnGrid(g, x)
    ensures ShotsOf(shots + [Shot(id, x, ok)], id, g)
    ensures forall y | y > x :: Above(shots + [Shot(id, x, ok)], id, y)
  {
  }

  lemma FireKeeps(s: State, e: Event, id: Id)
    requires e.Fire? && IdInv(s, id) && OnePass(s)
    ensures IdInv(Step(s, e), id)
  {
    var s' := Step(s, e);
    if s' != s {
      var f, f' := s.flights[e.pass], s'.flights[e.pass];
      assert s'.flights.Keys == s.flights.Keys == {e.pass};
      if id == e.id {
        assert Busy(s, id) && Busy(s', id);
        var g, ent := s.created[id], f.todo[id];
        if f'.results[id].status == Pending { OutcomeOnGrid(ent, e.ok, f.now, g); }
        ShotKeeps(s.shots, id, ent.at, e.ok, g);
        AboveMore(s.shots, id, ent.at, f.now);
      } else {
        assert Busy(s', id) == Busy(s, id) by { OtherBusy(s, e, id); }
        OtherShot(s.shots, e.id, f.todo[e.id].at, e.ok, id);
      }
    }
  }

  lemma AboveMore(shots: seq<Shot>, id: Id, x: real, now: real)
    requires Above(shots, id, x) && x <= now
    ensures forall y | y > now :: Above(shots, id, y)
  {
  }

  lemma OtherBusy(s: State, e: Event, id: Id)
    requires e.Fire? && id != e.id
    ensures Busy(Step(s, e), id) == Busy(s, id)
  {
    var s' := Step(s, e);
    forall p | p in s.flights
      ensures p in s'.flights
      ensures id in s'.flights[p].todo <==> id in s.flights[p].todo
      ensures id in s'.flights[p].results <==> id in s.flights[p].results
    {
    }
    if Busy(s, id) {
      var p :| p in s.flights && (id in s.flights[p].todo || id in s.flights[p].results);
      assert p in s'.flights;
    }
  }

  lemma OtherShot(shots: seq<Shot>, other: Id, x: real, ok: bool, id: Id)
    requires id != other
    ensures forall y :: Above(shots + [Shot(other, x, ok)], id, y) == Above(shots, id, y)
    ensures forall g :: ShotsOf(shots + [Shot(other, x, ok)], id, g) == ShotsOf(shots, id, g)
    ensures (forall i | 0 <= i < |shots| :: shots[i].id != id) ==>
            forall i | 0 <= i < |shots + [Shot(other, x, ok)]| :: (shots + [Shot(other, x, ok)])[i].id != id
  {
    var more := shots + [Shot(other, x, ok)];
    assert forall i | 0 <= i < |shots| :: more[i] == shots[i];
  }

  lemma EndKeeps(s: State, e: Event, id: Id)
    requires e.End? && e.saved && IdInv(s, id) && OnePass(s)
    ensures IdInv(Step(s, e), id)
  {
    hide Above, Bounded, OnGrid, ShotsOf;
    var s' := Step(s, e);
    if s' != s {
      assert s'.flights == map[];
      assert !Busy(s', id);
      var f := s.flights[e.pass];
      if Busy(s, id) { assert id in f.results; }
    }
  }

  lemma StartKeeps(id: Id)
    ensures OnePass(START) && IdInv(START, id)
  {
  }

  lemma OnePassKept(s: State, e: Event)
    requires OnePass(s) && (e.Begin? ==> s.flights == map[])
    ensures OnePass(Step(s, e))
  {
  }

  function CountOf(shots: seq<Shot>, id: Id): nat
    decreases |shots|
  {
    if shots == [] then 0
    else CountOf(shots[..|shots| - 1], id) + (if shots[|shots| - 1].id == id then 1 else 0)
  }

  /** Distinct slots of one grid, in order: the last of n shots is for a slot numbered at least n - 1. */
  lemma {:induction false} CountBelowSlot(shots: seq<Shot>, id: Id, g: Grid, k: nat)
    requires ShotsOf(shots, id, g) && Bounded(g)
    requires Above(shots, id, if g.every.Some? then Slot(g.start, g.every.value, k) else g.start)
    ensures g.every.Some? ==> CountOf(shots, id) <= k
    ensures g.every.None? ==> CountOf(shots, id) == 0
    decreases |shots|
  {
    if shots != [] {
      var n := |shots| - 1;
      var last := shots[n];
      if last.id == id {
        assert OnGrid(g, last.slot) && last.slot < (if g.every.Some? then Slot(g.start, g.every.value, k) else g.start);
        var j: nat :| IsSlot(g, j, last.slot);
        SlotsIncrease(g.start, g.every.value, j, k);
        CountBelowSlot(shots[..n], id, g, j);
      } else {
        CountBelowSlot(shots[..n], id, g, k);
      }
    }
  }

  lemma CountBounded(shots: seq<Shot>, id: Id, g: Grid)
    requires ShotsOf(shots, id, g) && Bounded(g)
    ensures CountOf(shots, id) <= if g.every.Some? then MAX_RUNS else 1
    decreases |shots|
  {
    if shots != [] {
      var n := |shots| - 1;
      var last := shots[n];
      if last.id != id {
        CountBounded(shots[..n], id, g);
      } else {
        assert OnGrid(g, last.slot);
        var k: nat :| IsSlot(g, k, last.slot);
        CountBelowSlot(shots[..n], id, g, k);
        if g.every.Some? {
          IntervalsBound(g.start, g.until.value, g.every.value);
          SlotsIncrease(g.start, g.every.value, k, Intervals(g.start, g.until.value, g.every.value) + 1);
        }
      }
    }
  }

  // ---- A registry write that fails ----------------------------------------------------

  /** No pending entry has been delivered for the slot it now waits for, or for a later one. */
  ghost predicate NothingRepeats(s: State) {
    forall id | id in s.reg && s.reg[id].status == Pending :: Above(s.shots, id, s.reg[id].at)
  }

  /** When the results of a delivery are not saved, the next pass delivers the same slot again. */
  lemma {:induction false} FailedWriteRepeats(s: State, id: Id, pass: nat, now: real, ok: bool, next: nat, later: real)
    requires s.flights == map[] && Due(s.reg, now).Keys == {id}
    requires now <= later && !Late(s.reg[id], later)
    ensures var failed := Step(Step(Step(s, Begin(pass, now)), Fire(pass, id, ok)), End(pass, false, {}));
            var again := Step(Step(failed, Begin(next, later)), Fire(next, id, ok));
            again.shots == s.shots + [Shot(id, s.reg[id].at, ok), Shot(id, s.reg[id].at, ok)]
  {
    assert id in Due(s.reg, now) && !Late(s.reg[id], now);
    var fired := Step(Step(s, Begin(pass, now)), Fire(pass, id, ok));
    assert fired.flights[pass].todo == map[];
    var failed := Step(fired, End(pass, false, {}));
    assert failed.flights == map[] && failed.reg == s.reg;
    assert id in Due(s.reg, later);
  }

  // ---- What holds whatever overlaps -------------------------------------------------

  ghost predicate Known(s: State) {
    forall id | id in s.reg :: id in s.created
  }

  lemma {:induction false} RunKnown(events: seq<Event>)
    ensures Known(Run(events))
    decreases |events|
  {
    if events != [] {
      RunKnown(events[..|events| - 1]);
    }
  }

  ghost predicate Withdrawn(s: State, id: Id) {
    id in s.created && (id in s.reg ==> s.reg[id].status != Pending)
  }

  /** Passes that will still deliver the entry were all in flight before. */
  ghost predicate OnlyOldPasses(s: State, was: State, id: Id) {
    forall p | p in s.flights && id in s.flights[p].todo :: p in was.flights && id in was.flights[p].todo
  }

  lemma WithdrawnStep(s: State, e: Event, was: State, id: Id)
    requires Withdrawn(s, id) && OnlyOldPasses(s, was, id)
    ensures Withdrawn(Step(s, e), id) && OnlyOldPasses(Step(s, e), was, id)
  {
  }

  /**
   Once a saved cancel is through, the entry is never pending again, however many passes were in
   flight or overlap later, and only a pass that had read it before can still deliver it.
   */
  lemma {:induction false} CancelledIsNeverRearmed(before: seq<Event>, id: Id, now: real, after: seq<Event>)
    requires id in Run(before).reg
    ensures var s := Run(before + [Cancel(id, now, true)] + after);
            Withdrawn(s, id) && OnlyOldPasses(s, Run(before), id)
    decreases |after|
  {
    hide Step;
    var events := before + [Cancel(id, now, true)] + after;
    if after == [] {
      assert events[..|events| - 1] == before;
      RunKnown(before);
      CancelWithdraws(Run(before), id, now);
    } else {
      var n := |after| - 1;
      assert events[..|events| - 1] == before + [Cancel(id, now, true)] + after[..n];
      CancelledIsNeverRearmed(before, id, now, after[..n]);
      WithdrawnStep(Run(events[..|events| - 1]), after[n], Run(before), id);
    }
  }

  lemma CancelWithdraws(s: State, id: Id, now: real)
    requires Known(s) && id in s.reg
    ensures Withdrawn(Step(s, Cancel(id, now, true)), id) && OnlyOldPasses(Step(s, Cancel(id, now, true)), s, id)
  {
  }

  lemma Fewer(a: set<Id>, b: set<Id>)
    requires a <= b
    ensures |a| <= |b|
  {
    if a != b {
      var x :| x in b && x !in a;
      assert a <= b - {x};
      Fewer(a, b - {x});
    }
  }

  /** No user ever has more than 20 pending entries; passes and cancels never add one. */
  lemma {:induction false} PendingCapped(events: seq<Event>, user: string)
    ensures |PendingOf(Run(events).reg, user)| <= MAX_PER_USER
    decreases |events|
  {
    if events == [] {
      assert PendingOf(START.reg, user) == {};
    } else {
      var before, e := events[..|events| - 1], events[|events| - 1];
      PendingCapped(before, user);
      StepCapped(Run(before), e, user);
    }
  }

  lemma StepCapped(s: State, e: Event, user: string)
    requires |PendingOf(s.reg, user)| <= MAX_PER_USER
    ensures |PendingOf(Step(s, e).reg, user)| <= MAX_PER_USER
  {
    var was, now := PendingOf(s.reg, user), PendingOf(Step(s, e).reg, user);
    if e.Create? && Step(s, e) != s && e.user == user {
      assert now <= was + {e.id};
      Fewer(now, was + {e.id});
    } else {
      assert now <= was;
      Fewer(now, was);
    }
  }
}
