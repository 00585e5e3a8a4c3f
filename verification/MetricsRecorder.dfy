/** The recorder in place: two dictionaries of open buckets in front of two rings. */
module MetricsRecorder {
  import opened MetricsRing
  import opened MetricsHistory
  import opened Options

  ghost predicate Increasing(s: seq<nat>) { forall i, j | 0 <= i < j < |s| :: s[i] < s[j] }

  /** The buckets below a bound, in order. */
  method SortedDue(m: map<nat, Gathered>, below: nat) returns (s: seq<nat>)
    ensures Increasing(s) && forall b :: b in s <==> b in Due(m, below)
  {
    var rest := Due(m, below);
    s := [];
    while rest != {}
      invariant Increasing(s) && forall b, c | b in s && c in rest :: b < c
      invariant forall b :: b in Due(m, below) <==> b in s || b in rest
      decreases |rest|
    {
      var b := MinOf(rest);
      assert forall i | 0 <= i < |s| :: s[i] in s;
      s := s + [b];
      rest := rest - {b};
    }
  }

  method MinOf(s: set<nat>) returns (b: nat)
    requires s != {}
    ensures b in s && forall k | k in s :: b <= k
  {
    b :| b in s;
    var rest := s - {b};
    while rest != {}
      invariant rest <= s && b in s
      invariant forall k | k in s :: k in rest || b <= k
      decreases |rest|
    {
      var k :| k in rest;
      if k < b { b := k; }
      rest := rest - {k};
    }
  }

  /** What is left of a sorted due list, with the least bucket in front. */
  ghost predicate Remaining(due: set<nat>, s: seq<nat>, i: nat)
    requires i <= |s|
  {
    forall b :: b in due <==> b in s[i..]
  }

  lemma NextIsLeast(due: set<nat>, s: seq<nat>, i: nat)
    requires i < |s| && Increasing(s) && Remaining(due, s, i)
    ensures due != {} && Least(due) == s[i] && Remaining(due - {s[i]}, s, i + 1)
  {
    assert s[i..] == [s[i]] + s[i + 1..];
    assert s[i] in due;
    var tail := s[i + 1..];
    assert forall j | 0 <= j < |tail| :: s[i] < tail[j];
  }

  lemma NothingRemains(due: set<nat>, s: seq<nat>)
    requires Remaining(due, s, |s|)
    ensures due == {}
  {
    assert s[|s|..] == [];
    assert forall b :: b !in due;
  }

  class Recorder {
    var fine: map<nat, Gathered>
    var coarse: map<nat, Gathered>
    const fineRing: Ring
    const coarseRing: Ring
    ghost var events: seq<Event>

    ghost predicate Separate() reads this, fineRing, coarseRing {
      && fineRing != coarseRing && fineRing.cells != coarseRing.cells
      && fineRing.tier == FINE && coarseRing.tier == COARSE
    }

    ghost predicate Rings() reads this, fineRing, coarseRing, fineRing.cells, coarseRing.cells {
      Separate() && fineRing.Valid() && coarseRing.Valid()
    }

    ghost function State(): History reads this, fineRing, coarseRing {
      History(fine, coarse, fineRing.log, coarseRing.log)
    }

    /** The state is that of the run so far. */
    ghost predicate Valid() reads this, fineRing, coarseRing, fineRing.cells, coarseRing.cells {
      Rings() && State() == Run(events)
    }

    constructor ()
      ensures Valid() && events == []
      ensures fresh(fineRing) && fresh(coarseRing) && fresh(fineRing.cells) && fresh(coarseRing.cells)
    {
      fine, coarse, events := map[], map[], [];
      fineRing := new Ring(FINE);
      coarseRing := new Ring(COARSE);
    }

    method Note(now: nat, vals: Row)
      requires Valid()
      modifies this
      ensures Valid() && events == old(events) + [Event.Note(now, vals)]
    {
      assert (events + [Event.Note(now, vals)])[..|events|] == events;
      events := events + [Event.Note(now, vals)];
      if vals == map[] { return; }
      var bucket := now / FINE.step * FINE.step;
      var acc := if bucket in fine then fine[bucket] else map[];
      fine := fine[bucket := Gather(acc, vals)];
    }

    method Tick(now: nat) returns (done: seq<nat>)
      requires Valid()
      modifies this, fineRing, coarseRing, fineRing.cells, coarseRing.cells
      ensures Valid() && events == old(events) + [Event.Tick(now)]
      ensures Increasing(done) && forall b :: b in done <==> b in Due(old(fine), FineBucket(now))
    {
      hide Run, FlushFine, FlushCoarse, Means, Gather;
      assert Run(events + [Event.Tick(now)]) == Step(State(), Event.Tick(now)) by { RunTick(events, now); }
      done := FlushFineBuckets(now / FINE.step * FINE.step);
      FlushCoarseBuckets(now / COARSE.step * COARSE.step);
      events := events + [Event.Tick(now)];
    }

    method FlushFineBuckets(cur: nat) returns (done: seq<nat>)
      requires Rings()
      modifies this, fineRing, coarseRing, fineRing.cells, coarseRing.cells
      ensures Rings() && State() == FlushFines(old(State()), cur) && events == old(events)
      ensures Increasing(done) && forall b :: b in done <==> b in Due(old(fine), cur)
    {
      hide Least, Due, Means, Increasing, Remaining, GatherAt, CoarseBucket;
      done := SortedDue(fine, cur);
      assert Remaining(Due(fine, cur), done, 0) by { AllRemain(Due(fine, cur), done); }
      for i := 0 to |done|
        invariant Rings() && events == old(events)
        invariant Remaining(Due(fine, cur), done, i)
        invariant FlushFines(State(), cur) == FlushFines(old(State()), cur)
      {
        NextIsLeast(Due(fine, cur), done, i);
        DueLess(fine, cur, done[i]);
        FlushFineBucket(done[i]);
      }
      NothingRemains(Due(fine, cur), done);
    }

    method FlushFineBucket(b: nat)
      requires Rings() && b in fine
      modifies this, fineRing, coarseRing, fineRing.cells, coarseRing.cells
      ensures Rings() && State() == FlushFine(old(State()), b) && events == old(events)
      ensures fine == old(fine) - {b}
    {
      var means := Means(fine[b]);
      fine := fine - {b};
      if means == map[] { return; }
      fineRing.Put(b, means);
      coarse := GatherAt(coarse, b / COARSE.step * COARSE.step, means);
    }

    method FlushCoarseBuckets(cur: nat)
      requires Rings()
      modifies this, fineRing, coarseRing, fineRing.cells, coarseRing.cells
      ensures Rings() && State() == FlushCoarses(old(State()), cur) && events == old(events)
    {
      hide Least, Due, Means, Increasing, Remaining;
      var done := SortedDue(coarse, cur);
      assert Remaining(Due(coarse, cur), done, 0) by { AllRemain(Due(coarse, cur), done); }
      for i := 0 to |done|
        invariant Rings() && events == old(events)
        invariant Remaining(Due(coarse, cur), done, i)
        invariant FlushCoarses(State(), cur) == FlushCoarses(old(State()), cur)
      {
        NextIsLeast(Due(coarse, cur), done, i);
        DueLess(coarse, cur, done[i]);
        FlushCoarseBucket(done[i]);
      }
      NothingRemains(Due(coarse, cur), done);
    }

    method FlushCoarseBucket(b: nat)
      requires Rings() && b in coarse
      modifies this, fineRing, coarseRing, fineRing.cells, coarseRing.cells
      ensures Rings() && State() == FlushCoarse(old(State()), b) && events == old(events)
      ensures coarse == old(coarse) - {b}
    {
      var means := Means(coarse[b]);
      coarse := coarse - {b};
      if means != map[] {
        coarseRing.Put(b, means);
      }
    }
  }

  lemma RunTick(events: seq<Event>, now: nat)
    ensures Run(events + [Event.Tick(now)]) == Step(Run(events), Event.Tick(now))
  {
    assert (events + [Event.Tick(now)])[..|events|] == events;
  }

  lemma AllRemain(due: set<nat>, s: seq<nat>)
    requires forall b :: b in s <==> b in due
    ensures Remaining(due, s, 0)
  {
    assert s[0..] == s;
  }

  lemma DueLess(m: map<nat, Gathered>, below: nat, b: nat)
    ensures Due(m - {b}, below) == Due(m, below) - {b}
  {
  }

  /** One level, seen through its ring. */
  lemma LevelReadsBack(t: Tier, m: map<nat, Gathered>, log: seq<Cell>, all: All, open: nat, b: nat)
    requires ValidTier(t) && Level(m, log, all, open) && forall k: nat | all[k] != map[] :: k % t.step == 0
    requires 0 < b < open && all[b] != map[] && log != [] ==> log[|log| - 1].bucket < b + t.slots * t.step
    ensures 0 < b < open && all[b] != map[] ==> Stored(t, log, b) == Some(Means(all[b]))
  {
    if 0 < b < open && all[b] != map[] {
      assert InLog(log, b);
      var i :| 0 <= i < |log| && log[i].bucket == b;
      CoveredPeriod(t, log, i);
    }
  }

  /** The ring still covers the bucket. */
  predicate Covered(t: Tier, log: seq<Cell>, b: nat) {
    log == [] || log[|log| - 1].bucket < b + t.slots * t.step
  }

  /**
   End to end, after any timely run: a closed bucket that got samples and that its ring still covers
   reads back as the means of all its samples, and on the coarse level of all its fine means: each value times
   the number of those is what they add up to.
   */
  lemma ClosedBucketsReadBack(events: seq<Event>, b: nat)
    requires Timely(events) && b > 0
    ensures var h := Run(events);
            && (b < Opened(events) && Samples(events, b) != map[] && Covered(FINE, h.fineLog, b)
                ==> Stored(FINE, h.fineLog, b) == Some(Means(Samples(events, b)))
                    && FineRow(Means(Samples(events, b)), events, b))
            && (b < CoarseBucket(Opened(events)) && FineMeans(h.fineLog, b) != map[] && Covered(COARSE, h.coarseLog, b)
                ==> Stored(COARSE, h.coarseLog, b) == Some(Means(FineMeans(h.fineLog, b)))
                    && CoarseRow(Means(FineMeans(h.fineLog, b)), h.fineLog, b))
  {
    hide FineRow, CoarseRow, Level, Stored, Means, Samples, FineMeans, Run, CoarseBucket, Opened;
    SamplesConserved(events);
    var h := Run(events);
    forall k: nat | Samples(events, k) != map[] ensures k % FINE.step == 0 { SamplesAligned(events, k); }
    forall k: nat | FineMeans(h.fineLog, k) != map[] ensures k % COARSE.step == 0 { FineMeansAligned(h.fineLog, k); }
    if Covered(FINE, h.fineLog, b) {
      if Samples(events, b) != map[] { FineValues(events, b); }
      LevelReadsBack(FINE, h.fine, h.fineLog, AllSamples(events), Opened(events), b);
    }
    if Covered(COARSE, h.coarseLog, b) {
      if FineMeans(h.fineLog, b) != map[] { CoarseValues(h.fineLog, b); }
      LevelReadsBack(COARSE, h.coarse, h.coarseLog, AllFineMeans(h.fineLog), CoarseBucket(Opened(events)), b);
    }
  }
}
