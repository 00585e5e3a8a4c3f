/** What the registry says of the past, against what was delivered. */
module ScheduleHistory {
  import opened Options
  import opened Schedules
  import opened ScheduleRuns

  /** The last delivery for an entry succeeded. */
  predicate LastSucceeded(shots: seq<Shot>, id: Id)
    decreases |shots|
  {
    shots != [] && (
      var n := |shots| - 1;
      if shots[n].id == id then shots[n].ok else LastSucceeded(shots[..n], id))
  }

  /** What a status claims about the deliveries. */
  predicate Truthful(status: Status, shots: seq<Shot>, id: Id) {
    && (status == Missed ==> CountOf(shots, id) == 0)
    && (status == Sent ==> LastSucceeded(shots, id))
    && (status == Failed ==> CountOf(shots, id) > 0)
  }

  /** Deliveries that the registry has already counted: a loop's runs, none for a pending one-shot. */
  function Counted(e: Entry): nat { if Every(e).Some? then e.runs else 0 }

  /** Deliveries that a pass in flight has made and not yet applied. */
  function Ahead(f: Flight, e: Entry, id: Id): nat {
    if id !in f.results then 0
    else if (if Every(e).Some? then f.results[id].ran else f.results[id].status != Missed) then 1 else 0
  }

  /** What a pass has done for an entry that still waits: delivered its slot, or skipped it as too late. */
  ghost predicate Acted(now: real, e: Entry, shots: seq<Shot>, id: Id) {
    if Late(e, now) then Above(shots, id, e.at)
    else exists i :: 0 <= i < |shots| && shots[i].id == id && shots[i].slot == e.at
  }

  ghost predicate FlightTrue(f: Flight, reg: Registry, shots: seq<Shot>, id: Id)
    requires id in reg
  {
    && (id in f.todo ==> reg[id].status == Pending || reg[id].status == Stopped)
    && (reg[id].status == Pending ==>
      && (id in f.todo ==> f.todo[id] == reg[id] && id !in f.results)
      && (id in f.results ==> Truthful(f.results[id].status, shots, id)
                              && (f.results[id].status == Pending ==> Every(reg[id]).Some?)
                              && Acted(f.now, reg[id], shots, id)
                              && (Late(reg[id], f.now) ==> Ahead(f, reg[id], id) == 0))
      && CountOf(shots, id) == Counted(reg[id]) + Ahead(f, reg[id], id))
  }

  ghost predicate Recorded(s: State, id: Id) {
    && (id !in s.created ==> CountOf(s.shots, id) == 0 && id !in s.reg)
    && (id in s.reg ==>
          && Truthful(s.reg[id].status, s.shots, id)
          && (forall p | p in s.flights :: FlightTrue(s.flights[p], s.reg, s.shots, id))
          && (s.reg[id].status == Pending && s.flights == map[] ==> CountOf(s.shots, id) == Counted(s.reg[id])))
  }

  lemma CountShot(shots: seq<Shot>, shot: Shot, id: Id)
    ensures CountOf(shots + [shot], id) == CountOf(shots, id) + if shot.id == id then 1 else 0
    ensures LastSucceeded(shots + [shot], id) == if shot.id == id then shot.ok else LastSucceeded(shots, id)
  {
    assert (shots + [shot])[..|shots|] == shots;
  }

  /** The outcome of a delivery, or of its omission, says what happened. */
  lemma OutcomeTruthful(e: Entry, ok: bool, now: real, shots: seq<Shot>, shots': seq<Shot>, id: Id)
    requires CountOf(shots, id) == Counted(e)
    requires shots' == if Late(e, now) then shots else shots + [Shot(id, e.at, ok)]
    ensures var u := Outcome(e, ok, now);
            && Truthful(u.status, shots', id) && (u.status == Pending ==> Every(e).Some?)
            && CountOf(shots', id)
               == Counted(e) + (if (if Every(e).Some? then u.ran else u.status != Missed) then 1 else 0)
            && (Late(e, now) ==> CountOf(shots', id) == Counted(e))
  {
    CountShot(shots, Shot(id, e.at, ok), id);
  }

  lemma FireRecords(s: State, e: Event, id: Id)
    requires e.Fire? && OnePass(s) && Recorded(s, id) && IdInv(s, id)
    ensures Recorded(Step(s, e), id)
  {
    hide IdInv, CountOf, LastSucceeded, Outcome, Late, Acted;
    var s' := Step(s, e);
    if s' != s {
      var f, f' := s.flights[e.pass], s'.flights[e.pass];
      var shot := Shot(e.id, f.todo[e.id].at, e.ok);
      assert s'.flights.Keys == {e.pass};
      CountShot(s.shots, shot, id);
      if id == e.id { TodoCreated(s, e.pass, id); }
      if id == e.id && id in s.reg && s.reg[id].status == Pending {
        OutcomeTruthful(f.todo[id], e.ok, f.now, s.shots, s'.shots, id);
        ActedNow(s, e.pass, id, e.ok);
      } else if id != e.id && id in s.reg && s.reg[id].status == Pending && id in f.results {
        ActedBefore(f.now, s.reg[id], s.shots, shot, id);
      }
      hide Truthful;
    }
  }

  lemma ActedNow(s: State, pass: nat, id: Id, ok: bool)
    requires pass in s.flights && id in s.flights[pass].todo && IdInv(s, id)
    ensures var f := s.flights[pass];
            Acted(f.now, f.todo[id], if Late(f.todo[id], f.now) then s.shots else s.shots + [Shot(id, f.todo[id].at, ok)], id)
  {
    TodoCreated(s, pass, id);
    var shots, e := s.shots, s.flights[pass].todo[id];
    assert (shots + [Shot(id, e.at, ok)])[|shots|] == Shot(id, e.at, ok);
  }

  lemma ActedBefore(now: real, e: Entry, shots: seq<Shot>, shot: Shot, id: Id)
    requires Acted(now, e, shots, id) && shot.id != id
    ensures Acted(now, e, shots + [shot], id)
  {
    if !Late(e, now) {
      var i :| 0 <= i < |shots| && shots[i].id == id && shots[i].slot == e.at;
      assert (shots + [shot])[i] == shots[i];
    }
  }

  lemma TodoCreated(s: State, pass: nat, id: Id)
    requires pass in s.flights && id in s.flights[pass].todo && IdInv(s, id)
    ensures id in s.created
  {
  }

  lemma CreateRecords(s: State, e: Event, id: Id)
    requires e.Create? && Recorded(s, id) && IdInv(s, id)
    ensures Recorded(Step(s, e), id)
  {
    hide CountOf, LastSucceeded;
    var s' := Step(s, e);
    if s' != s && id == e.id {
      assert !Busy(s, id);
      assert forall p | p in s.flights :: id !in s.flights[p].todo && id !in s.flights[p].results;
    }
  }

  lemma CancelRecords(s: State, e: Event, id: Id)
    requires e.Cancel? && Recorded(s, id) && IdInv(s, id)
    ensures Recorded(Step(s, e), id)
  {
    hide CountOf, LastSucceeded;
  }

  lemma BeginRecords(s: State, e: Event, id: Id)
    requires e.Begin? && s.flights == map[] && Recorded(s, id)
    ensures Recorded(Step(s, e), id)
  {
    hide CountOf, LastSucceeded;
    assert Step(s, e).flights.Keys == {e.pass};
  }

  lemma EndRecords(s: State, e: Event, id: Id)
    requires e.End? && e.saved && OnePass(s) && Recorded(s, id)
    ensures Recorded(Step(s, e), id)
  {
    hide CountOf, LastSucceeded;
    if Step(s, e) != s {
      assert Step(s, e).flights == map[];
    }
  }

  /** A pass whose results are lost, but which had only skipped those who still wait. */
  lemma LostEndKeeps(s: State, e: Event, id: Id)
    requires e.End? && !e.saved && SafeEnd(s, e) && OnePass(s) && Recorded(s, id) && IdInv(s, id)
    ensures Recorded(Step(s, e), id) && IdInv(Step(s, e), id)
  {
    hide CountOf, LastSucceeded, Truthful, Late, ShotsOf, Fits, Bounded;
    var s' := Step(s, e);
    if s' != s {
      assert s'.flights == map[] && s'.reg == s.reg && s'.shots == s.shots;
      assert !Busy(s', id);
      var f := s.flights[e.pass];
      if id in s.reg && s.reg[id].status == Pending {
        assert FlightTrue(f, s.reg, s.shots, id);
        if id in f.results {
          assert Acted(f.now, s.reg[id], s.shots, id);
        } else if id !in f.todo {
          assert !Busy(s, id);
        }
      }
    }
  }

  lemma {:induction false} RunKeeps(events: seq<Event>, id: Id)
    requires Serial(events)
    ensures OnePass(Run(events)) && IdInv(Run(events), id) && Recorded(Run(events), id)
    decreases |events|
  {
    hide Recorded, IdInv, OnePass, Step;
    if events == [] {
      StartKeeps(id);
      StartRecords(id);
    } else {
      var before, e := events[..|events| - 1], events[|events| - 1];
      RunKeeps(before, id);
      OnePassKept(Run(before), e);
      EventKeeps(Run(before), e, id);
    }
  }

  lemma EventKeeps(s: State, e: Event, id: Id)
    requires OnePass(s) && IdInv(s, id) && Recorded(s, id) && (e.Begin? ==> s.flights == map[]) && SafeEnd(s, e)
    ensures IdInv(Step(s, e), id) && Recorded(Step(s, e), id)
  {
    hide Recorded, IdInv, OnePass, Step;
    if e.Create? {
      CreateKeeps(s, e, id);
      CreateRecords(s, e, id);
    } else if e.Cancel? {
      CancelKeeps(s, e, id);
      CancelRecords(s, e, id);
    } else if e.Begin? {
      BeginKeeps(s, e, id);
      BeginRecords(s, e, id);
    } else if e.Fire? {
      FireKeeps(s, e, id);
      FireRecords(s, e, id);
    } else if e.saved {
      EndKeeps(s, e, id);
      EndRecords(s, e, id);
    } else {
      LostEndKeeps(s, e, id);
    }
  }

  lemma StartRecords(id: Id)
    ensures Recorded(START, id)
  {
  }

  /**
   With passes that do not overlap, at any times, and of which each is saved or had delivered to nobody
   who still waits, an accepted message is delivered at most once for each point of its grid up to
   `until`, in order, so a loop at most 500 times and a one-shot at most once; and nothing was
   delivered that was not accepted.
   */
  lemma AtMostOncePerSlot(events: seq<Event>, id: Id)
    requires Serial(events)
    ensures var s := Run(events);
            && (forall i | 0 <= i < |s.shots| && s.shots[i].id == id ::
                  id in s.created && OnGrid(s.created[id], s.shots[i].slot))
            && (forall i, j | 0 <= i < j < |s.shots| && s.shots[i].id == id && s.shots[j].id == id ::
                  s.shots[i].slot < s.shots[j].slot)
            && (id in s.created ==> CountOf(s.shots, id) <= if s.created[id].every.Some? then MAX_RUNS else 1)
  {
    RunKeeps(events, id);
    var s := Run(events);
    if id in s.created { CountBounded(s.shots, id, s.created[id]); }
  }

  /**
   The history a user is shown is true: with passes that do not overlap and each end safely, a missed
   entry was never delivered, the last delivery of a sent one succeeded, a failed one was tried, and
   between passes a pending loop's run count is the number of its deliveries.
   */
  lemma HistoryIsTrue(events: seq<Event>, id: Id)
    requires Serial(events) && id in Run(events).reg
    ensures var s := Run(events);
            var e := s.reg[id];
            && (e.status == Missed ==> CountOf(s.shots, id) == 0)
            && (e.status == Sent ==> LastSucceeded(s.shots, id))
            && (e.status == Failed ==> CountOf(s.shots, id) > 0)
            && (e.status == Pending && s.flights == map[] ==>
                  CountOf(s.shots, id) == if Every(e).Some? then e.runs else 0)
  {
    RunKeeps(events, id);
  }

  /**
   However a pass ends, with its results written, with a write that fails, or with the manager dying at any
   point, it leaves no entry waiting for a slot that was already delivered, if and only if its results are
   saved or every entry it has dealt with that still waits was too late to be delivered.
   */
  lemma RepeatsExact(events: seq<Event>, pass: nat, saved: bool, dropped: set<Id>)
    requires Serial(events) && pass in Run(events).flights && (saved ==> Run(events).flights[pass].todo == map[])
    ensures NothingRepeats(Step(Run(events), End(pass, saved, dropped)))
            <==> saved || OnlySkipped(Run(events).flights[pass], Run(events).reg)
  {
    hide Run, Serial, Outcome, CountOf, LastSucceeded;
    var s := Run(events);
    var s' := Step(s, End(pass, saved, dropped));
    RunKeeps(events, 0);
    forall id ensures IdInv(s, id) && Recorded(s, id) {
      RunKeeps(events, id);
    }
    if saved {
      SavedRepeatsNothing(s, pass, dropped);
    } else {
      UnsavedRepeats(s, pass);
    }
  }

  lemma SavedRepeatsNothing(s: State, pass: nat, dropped: set<Id>)
    requires OnePass(s) && (forall id :: IdInv(s, id)) && pass in s.flights && s.flights[pass].todo == map[]
    ensures NothingRepeats(Step(s, End(pass, true, dropped)))
  {
    var s' := Step(s, End(pass, true, dropped));
    assert s'.flights == map[];
    forall id | id in s'.reg && s'.reg[id].status == Pending ensures Above(s'.shots, id, s'.reg[id].at) {
      EndKeeps(s, End(pass, true, dropped), id);
      assert !Busy(s', id);
    }
  }

  lemma UnsavedRepeats(s: State, pass: nat)
    requires OnePass(s) && (forall id :: IdInv(s, id) && Recorded(s, id)) && pass in s.flights
    ensures NothingRepeats(s) <==> OnlySkipped(s.flights[pass], s.reg)
  {
    hide CountOf, LastSucceeded, Truthful, Late;
    var f := s.flights[pass];
    forall id | id in s.reg && s.reg[id].status == Pending
      ensures Above(s.shots, id, s.reg[id].at) <==> id in f.results ==> Late(s.reg[id], f.now)
    {
      assert IdInv(s, id) && Recorded(s, id);
      if id in f.results {
        assert Acted(f.now, s.reg[id], s.shots, id);
      } else if id !in f.todo {
        assert !Busy(s, id);
      }
    }
  }
}
