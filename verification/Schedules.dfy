/**
 Scheduled messages: the registry, the slots of a recurring message, and what a sweeper pass does
 to the entries it found due.
 */
module Schedules {
  import opened Options

  type Id = nat

  datatype Status = Pending | Sent | Failed | Missed | Stopped

  /** `every` is 0 for a one-shot; `runs` counts the deliveries tried. */
  datatype Entry = Entry(
    user: string, status: Status, at: real, every: int, until: Option<real>, runs: nat, fired: Option<real>)

  type Registry = map<Id, Entry>

  const MAX_PER_USER := 20
  const MAX_HORIZON := 2592000.0
  const PAST_TOLERANCE := 90.0
  const LATE_GRACE := 7200.0
  const MIN_INTERVAL := 60
  const MAX_RUNS := 500

  function Every(e: Entry): (every: Option<int>)
    ensures every.Some? ==> every.value >= MIN_INTERVAL
  {
    if e.every >= MIN_INTERVAL then Some(e.every) else None
  }

  /** How many whole intervals lie between two times. */
  function Intervals(from: real, to: real, every: int): int
    requires every > 0
  {
    ((to - from) / every as real).Floor
  }

  function NextSlot(at: real, every: int, now: real): Option<real> {
    if every <= 0 then None
    else if at > now then Some(at)
    else Some(Slot(at, every, Intervals(at, now, every) + 1))
  }

  /** The k-th point of a grid. */
  function Slot(at: real, every: int, k: int): real { at + (k * every) as real }

  lemma IntervalsBound(from: real, to: real, every: int)
    requires every > 0
    ensures var n := Intervals(from, to, every);
            Slot(from, every, n) <= to < Slot(from, every, n + 1)
  {
    var n, q, e := Intervals(from, to, every), (to - from) / every as real, every as real;
    assert q * e == to - from;
    assert n as real <= q < (n + 1) as real;
    Times(n as real, q, e);
    Times(q, (n + 1) as real, e);
    assert n as real * e == (n * every) as real && (n + 1) as real * e == ((n + 1) * every) as real;
  }

  lemma Times(a: real, b: real, e: real)
    requires e > 0.0
    ensures a <= b ==> a * e <= b * e
    ensures a < b ==> a * e < b * e
  {
  }

  lemma SlotsIncrease(at: real, every: int, j: int, k: int)
    requires every > 0
    ensures j < k <==> Slot(at, every, j) < Slot(at, every, k)
  {
    assert j < k ==> (k - j) * every > 0;
    assert j > k ==> (j - k) * every > 0;
    assert (k - j) * every == k * every - j * every;
  }

  lemma SlotOfSlot(at: real, every: int, j: int, k: int)
    ensures Slot(Slot(at, every, j), every, k) == Slot(at, every, j + k)
  {
    assert (j + k) * every == j * every + k * every;
  }

  /** The next slot is a point of the grid from `at` on, after now, and the first such. */
  lemma NextSlotIsLeast(at: real, every: int, now: real)
    requires every > 0
    ensures exists k: nat :: NextSlot(at, every, now) == Some(Slot(at, every, k))
    ensures NextSlot(at, every, now).value > now
    ensures forall j: nat :: Slot(at, every, j) > now ==> NextSlot(at, every, now).value <= Slot(at, every, j)
  {
    assert Slot(at, every, 0) == at;
    if at > now {
      forall j: nat ensures at <= Slot(at, every, j) {
        SlotsIncrease(at, every, 0, j);
      }
    } else {
      var n := Intervals(at, now, every);
      IntervalsBound(at, now, every);
      SlotsIncrease(at, every, 0, n + 1);
      forall j: nat | Slot(at, every, j) > now ensures Slot(at, every, n + 1) <= Slot(at, every, j) {
        SlotsIncrease(at, every, n, j);
        SlotsIncrease(at, every, j, n + 1);
      }
    }
  }

  // ---- Accepting an entry ---------------------------------------------------------

  /** The first slot of an accepted request, or None when it is refused. */
  function Accept(at: real, every: Option<int>, until: Option<real>, now: real): Option<real> {
    if at < now - PAST_TOLERANCE && every.None? then None
    else if at > now + MAX_HORIZON then None
    else if every.None? then Some(at)
    else if every.value < MIN_INTERVAL || until.None? || until.value < at || until.value > now + MAX_HORIZON then None
    else
      var start := if at < now - PAST_TOLERANCE then NextSlot(at, every.value, now).value else at;
      if start > until.value || Intervals(start, until.value, every.value) + 1 > MAX_RUNS then None
      else Some(start)
  }

  /** Where a request starts: when it asks to, or for a loop that has begun long ago at the first slot after now. */
  ghost predicate StartsAt(at: real, every: Option<int>, now: real, start: real) {
    if every.None? || at >= now - PAST_TOLERANCE then start == at
    else IsNext(at, every.value, now, start)
  }

  /** The least point of the grid `at + k * every` after now. */
  ghost predicate IsNext(at: real, every: int, now: real, next: real) {
    && (exists k: nat :: next == Slot(at, every, k)) && next > now
    && (forall k: nat :: Slot(at, every, k) > now ==> next <= Slot(at, every, k))
  }

  /** Not in the past, not too far ahead; a loop not too often, with an end, and with 1 to 500 slots up to it. */
  ghost predicate Acceptable(at: real, every: Option<int>, until: Option<real>, now: real) {
    && at <= now + MAX_HORIZON
    && (every.None? ==> at >= now - PAST_TOLERANCE)
    && (every.Some? ==>
          && every.value >= MIN_INTERVAL && until.Some? && at <= until.value <= now + MAX_HORIZON
          && exists start :: StartsAt(at, every, now, start) && start <= until.value < Slot(start, every.value, MAX_RUNS))
  }

  lemma NextUnique(at: real, every: int, now: real, a: real, b: real)
    requires IsNext(at, every, now, a) && IsNext(at, every, now, b)
    ensures a == b
  {
  }

  lemma NextIsNext(at: real, every: int, now: real)
    requires every > 0
    ensures NextSlot(at, every, now).Some? && IsNext(at, every, now, NextSlot(at, every, now).value)
  {
    NextSlotIsLeast(at, every, now);
    var k: nat :| NextSlot(at, every, now) == Some(Slot(at, every, k));
    assert NextSlot(at, every, now).value == Slot(at, every, k);
  }

  /** Fewer than n intervals fit exactly if the n-th point of the grid lies beyond. */
  lemma IntervalsBelow(from: real, to: real, every: int, n: nat)
    requires every > 0
    ensures Intervals(from, to, every) < n <==> to < Slot(from, every, n)
  {
    var m := Intervals(from, to, every);
    IntervalsBound(from, to, every);
    SlotsIncrease(from, every, m + 1, n);
    SlotsIncrease(from, every, n, m);
  }

  /** A request is accepted exactly if it is acceptable, and then starts where it asks to. */
  lemma AcceptExact(at: real, every: Option<int>, until: Option<real>, now: real)
    ensures Accept(at, every, until, now).Some? <==> Acceptable(at, every, until, now)
    ensures Accept(at, every, until, now).Some? ==> StartsAt(at, every, now, Accept(at, every, until, now).value)
  {
    if every.Some? && every.value >= MIN_INTERVAL && until.Some? {
      NextIsNext(at, every.value, now);
      var start := if at < now - PAST_TOLERANCE then NextSlot(at, every.value, now).value else at;
      assert StartsAt(at, every, now, start);
      IntervalsBelow(start, until.value, every.value, MAX_RUNS);
      hide NextSlot, Intervals, Slot;
      forall x | StartsAt(at, every, now, x) ensures x == start {
        if at < now - PAST_TOLERANCE { NextUnique(at, every.value, now, x, start); }
      }
    }
  }

  function PendingOf(reg: Registry, user: string): (s: set<Id>)
    ensures forall id :: id in s <==> id in reg && reg[id].user == user && reg[id].status == Pending
  {
    set id | id in reg && reg[id].user == user && reg[id].status == Pending
  }

  /** Pruning drops finished entries only. */
  function Prune(reg: Registry, dropped: set<Id>): Registry {
    map id | id in reg && (reg[id].status == Pending || id !in dropped) :: reg[id]
  }

  /** So what waits, stays, and so does what is finished and not dropped; nothing changes. */
  lemma PruneExact(reg: Registry, dropped: set<Id>, id: Id)
    ensures var after := Prune(reg, dropped);
            && (id in after <==> id in reg && (reg[id].status == Pending || id !in dropped))
            && (id in after ==> after[id] == reg[id])
  {
  }

  function Cancelled(reg: Registry, id: Id, now: real): Registry
    requires id in reg
  {
    var e := reg[id];
    if e.status == Pending && e.runs > 0
    then reg[id := e.(status := Stopped, fired := if e.fired.Some? then e.fired else Some(now))]
    else reg - {id}
  }

  // ---- One pass ---------------------------------------------------------------------

  function Due(reg: Registry, now: real): Registry {
    map id | id in reg && reg[id].status == Pending && reg[id].at <= now :: reg[id]
  }

  predicate Late(e: Entry, now: real) { now - e.at > LATE_GRACE }

  /** The fields a pass changes; `ran` is a delta, applied under the lock. */
  datatype Update = Update(status: Status, at: Option<real>, fired: Option<real>, ran: bool)

  function Outcome(e: Entry, ok: bool, now: real): Update {
    var late := Late(e, now);
    var done := if ok && !late then Sent else Failed;
    match Every(e)
    case None => Update(if late then Missed else done, None, Some(now), false)
    case Some(every) =>
      var next := NextSlot(e.at, every, now).value;
      if e.until.None? || next <= e.until.value
      then Update(Pending, Some(next), if late then None else Some(now), !late)
      else Update(if e.runs > 0 || !late then done else Missed, None, Some(now), !late)
  }

  function Apply(e: Entry, u: Update): Entry {
    e.(status := u.status,
       at := if u.at.Some? then u.at.value else e.at,
       fired := if u.fired.Some? then u.fired else e.fired,
       runs := if u.ran then e.runs + 1 else e.runs)
  }

  /** The locked read-modify-write at the end of a pass: only entries still pending are touched. */
  function ApplyAll(reg: Registry, results: map<Id, Update>): Registry {
    map id | id in reg ::
      if id in results && reg[id].status == Pending then Apply(reg[id], results[id]) else reg[id]
  }

  /**
   What a pass makes of an entry: a loop waits on exactly while a slot after now is left up to its end, for
   the first such; otherwise the outcome of the delivery decides, and a slot skipped as too late is no success.
   */
  lemma OutcomeExact(e: Entry, ok: bool, now: real)
    ensures var u, loop := Outcome(e, ok, now), e.every >= MIN_INTERVAL;
            && (u.status == Pending <==>
                  loop && (e.until.None? || exists next :: IsNext(e.at, e.every, now, next) && next <= e.until.value))
            && (u.status == Pending ==> u.at.Some? && IsNext(e.at, e.every, now, u.at.value))
            && (u.status != Pending ==>
                  && u.at.None?
                  && (u.status == Sent <==> ok && now <= e.at + LATE_GRACE)
                  && (u.status == Missed <==> now > e.at + LATE_GRACE && (!loop || e.runs == 0))
                  && u.status in {Sent, Missed, Failed})
            && (u.fired == if u.status != Pending || now <= e.at + LATE_GRACE then Some(now) else None)
            && (u.ran <==> loop && now <= e.at + LATE_GRACE)
  {
    if e.every >= MIN_INTERVAL {
      NextIsNext(e.at, e.every, now);
      var next := NextSlot(e.at, e.every, now).value;
      hide NextSlot;
      forall x | IsNext(e.at, e.every, now, x) ensures x == next { NextUnique(e.at, e.every, now, x, next); }
    }
  }
}
