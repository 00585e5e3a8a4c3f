/**
 The two levels of averaging in front of the rings: samples are gathered by fine bucket, a
 closed fine bucket is written as the mean of its samples and gathered by coarse bucket, and a
 closed coarse bucket is written as the mean of its fine means.
 */
module MetricsHistory {
  import opened MetricsRing
  import opened Options

  /** The values gathered for a bucket, by field, in the order they came. */
  type Gathered = map<nat, seq<real>>

  datatype History = History(
    fine: map<nat, Gathered>, coarse: map<nat, Gathered>, fineLog: seq<Cell>, coarseLog: seq<Cell>)

  const EMPTY := History(map[], map[], [], [])

  /** A payload's numbers, or the passing of time; times are whole seconds. */
  datatype Event = Note(now: nat, vals: Row) | Tick(now: nat)

  function FineBucket(t: nat): (b: nat)
    ensures b <= t < b + FINE.step && b % FINE.step == 0
  {
    t / FINE.step * FINE.step
  }

  function CoarseBucket(t: nat): (b: nat)
    ensures b <= t < b + COARSE.step && b % COARSE.step == 0
  {
    t / COARSE.step * COARSE.step
  }

  /** `setdefault(k, []).append(v)` for every value. */
  function Gather(g: Gathered, vals: Row): Gathered {
    map k | k in g.Keys + vals.Keys ::
      (if k in g then g[k] else []) + (if k in vals then [vals[k]] else [])
  }

  function GatherAt(m: map<nat, Gathered>, b: nat, vals: Row): map<nat, Gathered> {
    m[b := Gather(if b in m then m[b] else map[], vals)]
  }

  function Means(g: Gathered): Row {
    map k | k in g && Mean(g[k]).Some? :: Mean(g[k]).value
  }

  ghost function Least(s: set<nat>): (m: nat)
    requires s != {}
    ensures m in s && forall k | k in s :: m <= k
    decreases |s|
  {
    var k :| k in s;
    if s == {k} then k
    else
      var m := Least(s - {k});
      assert forall x | x in s :: x == k || x in s - {k};
      if k < m then k else m
  }

  // ---- Steps ------------------------------------------------------------------

  /** One closed fine bucket goes to the ring and to its coarse bucket. */
  function FlushFine(h: History, b: nat): History
    requires b in h.fine
  {
    var means := Means(h.fine[b]);
    var rest := h.(fine := h.fine - {b});
    if means == map[] then rest
    else rest.(fineLog := h.fineLog + [Cell(b, means)],
               coarse := GatherAt(h.coarse, CoarseBucket(b), means))
  }

  function FlushCoarse(h: History, b: nat): History
    requires b in h.coarse
  {
    var means := Means(h.coarse[b]);
    var rest := h.(coarse := h.coarse - {b});
    if means == map[] then rest else rest.(coarseLog := h.coarseLog + [Cell(b, means)])
  }

  function Due(m: map<nat, Gathered>, below: nat): (s: set<nat>)
    ensures forall b :: b in s <==> b in m && b < below
  {
    set b | b in m && b < below
  }

  ghost function FlushFines(h: History, below: nat): History
    decreases |h.fine|
  {
    var due := Due(h.fine, below);
    if due == {} then h else FlushFines(FlushFine(h, Least(due)), below)
  }

  ghost function FlushCoarses(h: History, below: nat): History
    decreases |h.coarse|
  {
    var due := Due(h.coarse, below);
    if due == {} then h else FlushCoarses(FlushCoarse(h, Least(due)), below)
  }

  ghost function Step(h: History, e: Event): History {
    match e
    case Note(now, vals) =>
      if vals == map[] then h else h.(fine := GatherAt(h.fine, FineBucket(now), vals))
    case Tick(now) =>
      FlushCoarses(FlushFines(h, FineBucket(now)), CoarseBucket(now))
  }

  ghost function Run(events: seq<Event>): History
    decreases |events|
  {
    if events == [] then EMPTY else Step(Run(events[..|events| - 1]), events[|events| - 1])
  }

  // ---- What was fed in ------------------------------------------------------------

  /** All samples noted in one fine bucket. */
  function Samples(events: seq<Event>, b: nat): Gathered
    decreases |events|
  {
    if events == [] then map[]
    else
      var before, e := Samples(events[..|events| - 1], b), events[|events| - 1];
      if e.Note? && FineBucket(e.now) == b then Gather(before, e.vals) else before
  }

  /** All fine means written for one coarse bucket. */
  function FineMeans(log: seq<Cell>, b: nat): Gathered
    decreases |log|
  {
    if log == [] then map[]
    else
      var before, c := FineMeans(log[..|log| - 1], b), log[|log| - 1];
      if CoarseBucket(c.bucket) == b then Gather(before, c.row) else before
  }

  /** The open fine bucket at the last tick. */
  function Opened(events: seq<Event>): nat
    decreases |events|
  {
    if events == [] then 0
    else if events[|events| - 1].Tick? then FineBucket(events[|events| - 1].now)
    else Opened(events[..|events| - 1])
  }

  /** Ticks do not go back, and no sample is older than the last tick's open bucket. */
  predicate Timely(events: seq<Event>)
    decreases |events|
  {
    events == [] ||
    (Timely(events[..|events| - 1])
     && events[|events| - 1].now >= Opened(events[..|events| - 1]))
  }

  // ---- One level -------------------------------------------------------------------

  /** What has been gathered for every bucket so far. */
  type All = imap<nat, Gathered>

  ghost function AllSamples(events: seq<Event>): All { imap b: nat :: Samples(events, b) }

  ghost function AllFineMeans(log: seq<Cell>): All { imap b: nat :: FineMeans(log, b) }

  predicate NonEmpty(g: Gathered) { forall k | k in g :: g[k] != [] }

  ghost predicate Total(all: All) {
    forall b: nat :: b in all && NonEmpty(all[b])
  }

  lemma GatherNonEmpty(g: Gathered, vals: Row)
    requires NonEmpty(g)
    ensures NonEmpty(Gather(g, vals))
  {
  }

  ghost predicate InLog(log: seq<Cell>, b: nat) { exists i :: 0 <= i < |log| && log[i].bucket == b }

  /** Every closed bucket with something gathered was written once, in order, with its means. */
  ghost predicate Written(log: seq<Cell>, all: All, open: nat)
    requires Total(all)
  {
    && (forall i, j | 0 <= i < j < |log| :: log[i].bucket < log[j].bucket)
    && (forall i | 0 <= i < |log| ::
          log[i].bucket < open && all[log[i].bucket] != map[] && log[i].row == Means(all[log[i].bucket]))
    && (forall b: nat | b < open && all[b] != map[] :: InLog(log, b))
  }

  /** Every open bucket with something gathered is held in memory, and nothing else. */
  ghost predicate Held(m: map<nat, Gathered>, all: All, open: nat)
    requires Total(all)
  {
    forall b: nat :: (b in m <==> b >= open && all[b] != map[]) && (b in m ==> m[b] == all[b])
  }

  ghost predicate Level(m: map<nat, Gathered>, log: seq<Cell>, all: All, open: nat) {
    Total(all) && Held(m, all, open) && Written(log, all, open)
  }

  lemma MeansOfSome(g: Gathered)
    requires g != map[] && NonEmpty(g)
    ensures Means(g) != map[] && Means(g).Keys == g.Keys
  {
    var k :| k in g;
    assert k in Means(g);
  }

  lemma LevelFlush(m: map<nat, Gathered>, log: seq<Cell>, all: All, open: nat, b: nat)
    requires Level(m, log, all, open) && b in m && forall k | k in m :: b <= k
    ensures Means(m[b]) != map[]
    ensures Level(m - {b}, log + [Cell(b, Means(m[b]))], all, b + 1)
  {
    MeansOfSome(all[b]);
    var log' := log + [Cell(b, Means(m[b]))];
    forall k: nat | k < b + 1 && all[k] != map[] ensures InLog(log', k) {
      if k < open {
        assert InLog(log, k);
        var i :| 0 <= i < |log| && log[i].bucket == k;
        assert log'[i].bucket == k;
      } else {
        assert k in m && log'[|log|].bucket == b;
      }
    }
  }

  lemma LevelAdvance(m: map<nat, Gathered>, log: seq<Cell>, all: All, open: nat, later: nat)
    requires Level(m, log, all, open) && open <= later && forall k | k in m :: later <= k
    ensures Level(m, log, all, later)
  {
    forall k: nat | k < later && all[k] != map[] ensures InLog(log, k) {
      assert k < open || k in m;
    }
  }

  lemma LevelGather(m: map<nat, Gathered>, log: seq<Cell>, all: All, open: nat, b: nat, vals: Row, all': All)
    requires Level(m, log, all, open) && b >= open && vals != map[]
    requires Total(all') && all' == all[b := Gather(all[b], vals)]
    ensures Level(GatherAt(m, b, vals), log, all', open)
  {
    assert Gather(all[b], vals) != map[] by {
      var k :| k in vals;
      assert k in Gather(all[b], vals);
    }
    assert b !in m ==> all[b] == map[];
  }

  lemma {:induction false} SamplesTotal(events: seq<Event>)
    ensures Total(AllSamples(events))
    decreases |events|
  {
    if events != [] {
      var before, e := events[..|events| - 1], events[|events| - 1];
      SamplesTotal(before);
      forall b: nat ensures NonEmpty(AllSamples(events)[b]) {
        assert NonEmpty(AllSamples(before)[b]);
        if e.Note? { GatherNonEmpty(Samples(before, b), e.vals); }
      }
    }
  }

  lemma {:induction false} FineMeansTotal(log: seq<Cell>)
    ensures Total(AllFineMeans(log))
    decreases |log|
  {
    if log != [] {
      var before, c := log[..|log| - 1], log[|log| - 1];
      FineMeansTotal(before);
      forall b: nat ensures NonEmpty(AllFineMeans(log)[b]) {
        assert NonEmpty(AllFineMeans(before)[b]);
        GatherNonEmpty(FineMeans(before, b), c.row);
      }
    }
  }

  // ---- Both levels ------------------------------------------------------------------

  ghost predicate Inv(h: History, events: seq<Event>, open: nat, openCoarse: nat) {
    && Level(h.fine, h.fineLog, AllSamples(events), open)
    && Level(h.coarse, h.coarseLog, AllFineMeans(h.fineLog), openCoarse)
    && openCoarse <= CoarseBucket(open)
  }

  lemma CoarseMonotone(a: nat, b: nat)
    requires a <= b
    ensures CoarseBucket(a) <= CoarseBucket(b)
  {
  }

  lemma SameCoarse(t: nat, c: nat)
    requires c % COARSE.step == 0 && c <= t < c + COARSE.step
    ensures CoarseBucket(t) == c
  {
  }

  lemma CoarseOfFine(t: nat)
    ensures CoarseBucket(FineBucket(t)) == CoarseBucket(t)
  {
    var c, f := CoarseBucket(t), FineBucket(t);
    assert c % 2 == 0;
    assert c <= f <= t < c + 60;
    SameCoarse(f, c);
    SameCoarse(t, c);
  }

  lemma FineMeansGrow(log: seq<Cell>, b: nat, means: Row)
    ensures Total(AllFineMeans(log)) && Total(AllFineMeans(log + [Cell(b, means)]))
    ensures var before, c := AllFineMeans(log), CoarseBucket(b);
            AllFineMeans(log + [Cell(b, means)]) == before[c := Gather(before[c], means)]
  {
    var log' := log + [Cell(b, means)];
    assert log'[..|log'| - 1] == log;
    FineMeansTotal(log);
    FineMeansTotal(log');
  }

  lemma FlushFineKeeps(h: History, events: seq<Event>, open: nat, openCoarse: nat, b: nat)
    requires Inv(h, events, open, openCoarse) && b in h.fine && b >= open && forall k | k in h.fine :: b <= k
    ensures Inv(FlushFine(h, b), events, b + 1, openCoarse) && FlushFine(h, b).fine == h.fine - {b}
  {
    hide Level, Means, Gather, GatherAt, CoarseBucket, AllSamples, AllFineMeans, Total;
    var means := Means(h.fine[b]);
    LevelFlush(h.fine, h.fineLog, AllSamples(events), open, b);
    FineMeansGrow(h.fineLog, b, means);
    CoarseMonotone(open, b);
    CoarseMonotone(open, b + 1);
    var before, after := AllFineMeans(h.fineLog), AllFineMeans(h.fineLog + [Cell(b, means)]);
    LevelGather(h.coarse, h.coarseLog, before, openCoarse, CoarseBucket(b), means, after);
  }

  lemma HeldIsOpen(m: map<nat, Gathered>, log: seq<Cell>, all: All, open: nat, b: nat)
    requires Level(m, log, all, open) && b in m
    ensures b >= open
  {
  }

  lemma {:induction false} FlushFinesKeep(h: History, events: seq<Event>, open: nat, openCoarse: nat, below: nat)
    requires Inv(h, events, open, openCoarse) && open <= below
    ensures Inv(FlushFines(h, below), events, below, openCoarse)
    decreases |h.fine|
  {
    hide Level, FlushFine, AllSamples, AllFineMeans, CoarseBucket, Total, Due, Least;
    var due := Due(h.fine, below);
    if due == {} {
      assert forall k | k in h.fine :: k !in due;
      LevelAdvance(h.fine, h.fineLog, AllSamples(events), open, below);
      CoarseMonotone(open, below);
    } else {
      var b := Least(due);
      assert forall k | k in h.fine :: k in due || b <= k;
      HeldIsOpen(h.fine, h.fineLog, AllSamples(events), open, b);
      hide Inv;
      FlushFineKeeps(h, events, open, openCoarse, b);
      FlushFinesKeep(FlushFine(h, b), events, b + 1, openCoarse, below);
    }
  }

  lemma {:induction false} FlushCoarsesKeep(h: History, events: seq<Event>, open: nat, openCoarse: nat, below: nat)
    requires Inv(h, events, open, openCoarse) && openCoarse <= below <= CoarseBucket(open)
    ensures Inv(FlushCoarses(h, below), events, open, below)
    decreases |h.coarse|
  {
    hide Level, Means, AllSamples, AllFineMeans, CoarseBucket, Total, Due, Least;
    var all := AllFineMeans(h.fineLog);
    var due := Due(h.coarse, below);
    if due == {} {
      assert forall k | k in h.coarse :: k !in due;
      LevelAdvance(h.coarse, h.coarseLog, all, openCoarse, below);
    } else {
      var b := Least(due);
      assert forall k | k in h.coarse :: k in due || b <= k;
      HeldIsOpen(h.coarse, h.coarseLog, all, openCoarse, b);
      LevelFlush(h.coarse, h.coarseLog, all, openCoarse, b);
      FlushCoarsesKeep(FlushCoarse(h, b), events, open, b + 1, below);
    }
  }

  lemma GatherNothing(g: Gathered)
    ensures Gather(g, map[]) == g
  {
    forall k | k in g ensures Gather(g, map[])[k] == g[k] {
      assert g[k] + [] == g[k];
    }
  }

  lemma SamplesGrow(events: seq<Event>, now: nat, vals: Row)
    ensures Total(AllSamples(events + [Note(now, vals)]))
    ensures var before, b := AllSamples(events), FineBucket(now);
            AllSamples(events + [Note(now, vals)]) == before[b := Gather(before[b], vals)]
  {
    hide Gather;
    var events' := events + [Note(now, vals)];
    assert events'[..|events|] == events;
    SamplesTotal(events');
  }

  lemma NoteKeeps(h: History, events: seq<Event>, open: nat, openCoarse: nat, now: nat, vals: Row)
    requires Inv(h, events, open, openCoarse) && FineBucket(now) >= open
    ensures Inv(Step(h, Note(now, vals)), events + [Note(now, vals)], open, openCoarse)
  {
    hide Level, Total, Gather, GatherAt, CoarseBucket, FineBucket, AllFineMeans;
    var events' := events + [Note(now, vals)];
    var before, after, b := AllSamples(events), AllSamples(events'), FineBucket(now);
    SamplesGrow(events, now, vals);
    assert b in before;
    hide AllSamples;
    if vals == map[] {
      GatherNothing(before[b]);
      assert after == before;
    } else {
      LevelGather(h.fine, h.fineLog, before, open, b, vals, after);
    }
  }

  lemma TickKeeps(h: History, events: seq<Event>, open: nat, now: nat)
    requires Inv(h, events, open, CoarseBucket(open)) && FineBucket(now) >= open
    ensures var cur := FineBucket(now);
            Inv(Step(h, Tick(now)), events + [Tick(now)], cur, CoarseBucket(cur))
  {
    var events', cur := events + [Tick(now)], FineBucket(now);
    assert events'[..|events|] == events;
    assert AllSamples(events') == AllSamples(events);
    CoarseMonotone(open, cur);
    CoarseOfFine(now);
    FlushFinesKeep(h, events', open, CoarseBucket(open), cur);
    FlushCoarsesKeep(FlushFines(h, cur), events', cur, CoarseBucket(open), CoarseBucket(now));
  }

  lemma {:induction false} OpenedAligned(events: seq<Event>)
    ensures FineBucket(Opened(events)) == Opened(events)
    decreases |events|
  {
    if events != [] && events[|events| - 1].Note? {
      OpenedAligned(events[..|events| - 1]);
    }
  }

  /**
   Conservation: in any timely run, every fine bucket that got a sample is written once, after it
   closed, with the means of all its samples, and every coarse bucket once with the means of all
   its fine means; everything later is still held, and nothing is held or written twice.
   */
  lemma {:induction false} SamplesConserved(events: seq<Event>)
    requires Timely(events)
    ensures Inv(Run(events), events, Opened(events), CoarseBucket(Opened(events)))
    decreases |events|
  {
    if events == [] {
      SamplesTotal(events);
      FineMeansTotal([]);
    } else {
      var before, e := events[..|events| - 1], events[|events| - 1];
      assert events == before + [e];
      SamplesConserved(before);
      OpenedAligned(before);
      FineMonotone(Opened(before), e.now);
      match e
      case Note(now, vals) => NoteKeeps(Run(before), before, Opened(before), CoarseBucket(Opened(before)), now, vals);
      case Tick(now) => TickKeeps(Run(before), before, Opened(before), now);
    }
  }

  lemma FineMonotone(a: nat, b: nat)
    requires a <= b
    ensures FineBucket(a) <= FineBucket(b)
  {
  }

  // ---- What the means mean -----------------------------------------------------------

  /** A sample of the field within the two seconds from `b`. */
  predicate Counts(e: Event, b: nat, field: nat) {
    e.Note? && b <= e.now < b + FINE.step && field in e.vals
  }

  function SampleCount(events: seq<Event>, b: nat, field: nat): nat
    decreases |events|
  {
    if events == [] then 0
    else SampleCount(events[..|events| - 1], b, field) + (if Counts(events[|events| - 1], b, field) then 1 else 0)
  }

  function SampleSum(events: seq<Event>, b: nat, field: nat): real
    decreases |events|
  {
    if events == [] then 0.0
    else
      var e := events[|events| - 1];
      SampleSum(events[..|events| - 1], b, field) + (if Counts(e, b, field) then e.vals[field] else 0.0)
  }

  /** How many fine rows written for the minute from `b` know the field, and what they add up to. */
  function MinuteCount(log: seq<Cell>, b: nat, field: nat): nat { CellCount(log, b, b + COARSE.step, field) }

  function MinuteSum(log: seq<Cell>, b: nat, field: nat): real { CellSum(log, b, b + COARSE.step, field) }

  /** The row has the fields sampled in this bucket, and each value times the number of samples is their sum. */
  ghost predicate FineRow(row: Row, events: seq<Event>, b: nat) {
    forall k: nat ::
      && (k in row <==> SampleCount(events, b, k) > 0)
      && (k in row ==> row[k] * SampleCount(events, b, k) as real == SampleSum(events, b, k))
  }

  /** Likewise of the fine rows of this minute. */
  ghost predicate CoarseRow(row: Row, log: seq<Cell>, b: nat) {
    forall k: nat ::
      && (k in row <==> MinuteCount(log, b, k) > 0)
      && (k in row ==> row[k] * MinuteCount(log, b, k) as real == MinuteSum(log, b, k))
  }

  lemma InFineBucket(t: nat, b: nat)
    requires b % FINE.step == 0
    ensures FineBucket(t) == b <==> b <= t < b + FINE.step
  {
  }

  lemma InCoarseBucket(t: nat, b: nat)
    requires b % COARSE.step == 0
    ensures CoarseBucket(t) == b <==> b <= t < b + COARSE.step
  {
    if b <= t < b + COARSE.step { SameCoarse(t, b); }
  }

  lemma {:induction false} SamplesAligned(events: seq<Event>, b: nat)
    requires Samples(events, b) != map[]
    ensures b % FINE.step == 0
    decreases |events|
  {
    var n := |events| - 1;
    if Samples(events[..n], b) != map[] {
      SamplesAligned(events[..n], b);
    }
  }

  lemma {:induction false} FineMeansAligned(log: seq<Cell>, b: nat)
    requires FineMeans(log, b) != map[]
    ensures b % COARSE.step == 0
    decreases |log|
  {
    var n := |log| - 1;
    if FineMeans(log[..n], b) != map[] {
      FineMeansAligned(log[..n], b);
    }
  }

  /** What is gathered of one field has this many values, and they add up to this. */
  predicate Adds(g: Gathered, k: nat, count: nat, sum: real) {
    (k in g <==> count > 0) && (k in g ==> |g[k]| == count && Sum(g[k]) == sum) && (count == 0 ==> sum == 0.0)
  }

  lemma GatherAdds(g: Gathered, vals: Row, k: nat, count: nat, sum: real)
    requires Adds(g, k, count, sum)
    ensures if k in vals then Adds(Gather(g, vals), k, count + 1, sum + vals[k]) else Adds(Gather(g, vals), k, count, sum)
  {
    if k in vals {
      SumAppend(if k in g then g[k] else [], [vals[k]]);
      assert [vals[k]][..0] == [] && Sum([vals[k]]) == Sum([]) + vals[k];
    } else if k in g {
      assert g[k] + [] == g[k];
    }
  }

  lemma {:induction false} SamplesAdd(events: seq<Event>, b: nat, k: nat)
    requires b % FINE.step == 0
    ensures Adds(Samples(events, b), k, SampleCount(events, b, k), SampleSum(events, b, k))
    decreases |events|
  {
    if events != [] {
      var before, e := events[..|events| - 1], events[|events| - 1];
      SamplesAdd(before, b, k);
      InFineBucket(e.now, b);
      hide Adds, Gather, FineBucket;
      if e.Note? {
        GatherAdds(Samples(before, b), e.vals, k, SampleCount(before, b, k), SampleSum(before, b, k));
      }
    }
  }

  lemma {:induction false} FineMeansAdd(log: seq<Cell>, b: nat, k: nat)
    requires b % COARSE.step == 0
    ensures Adds(FineMeans(log, b), k, MinuteCount(log, b, k), MinuteSum(log, b, k))
    decreases |log|
  {
    if log != [] {
      var before, c := log[..|log| - 1], log[|log| - 1];
      FineMeansAdd(before, b, k);
      InCoarseBucket(c.bucket, b);
      hide Adds, Gather, CoarseBucket;
      GatherAdds(FineMeans(before, b), c.row, k, MinuteCount(before, b, k), MinuteSum(before, b, k));
    }
  }

  lemma MeansAdd(g: Gathered, k: nat, count: nat, sum: real)
    requires Adds(g, k, count, sum)
    ensures k in Means(g) <==> count > 0
    ensures k in Means(g) ==> Means(g)[k] * count as real == sum
  {
    if k in g { MeanTimes(g[k]); }
  }

  lemma FineValues(events: seq<Event>, b: nat)
    requires b % FINE.step == 0
    ensures FineRow(Means(Samples(events, b)), events, b)
  {
    hide Adds, Means, Samples, SampleCount, SampleSum;
    forall k: nat
      ensures var row := Means(Samples(events, b));
              && (k in row <==> SampleCount(events, b, k) > 0)
              && (k in row ==> row[k] * SampleCount(events, b, k) as real == SampleSum(events, b, k))
    {
      SamplesAdd(events, b, k);
      MeansAdd(Samples(events, b), k, SampleCount(events, b, k), SampleSum(events, b, k));
    }
  }

  lemma CoarseValues(log: seq<Cell>, b: nat)
    requires b % COARSE.step == 0
    ensures CoarseRow(Means(FineMeans(log, b)), log, b)
  {
    hide Adds, Means, FineMeans, MinuteCount, MinuteSum;
    forall k: nat
      ensures var row := Means(FineMeans(log, b));
              && (k in row <==> MinuteCount(log, b, k) > 0)
              && (k in row ==> row[k] * MinuteCount(log, b, k) as real == MinuteSum(log, b, k))
    {
      FineMeansAdd(log, b, k);
      MeansAdd(FineMeans(log, b), k, MinuteCount(log, b, k), MinuteSum(log, b, k));
    }
  }

  /**
   Conservation in numbers: after any timely run, each row written for a fine bucket holds, of every field
   sampled in it, the value that times the number of those samples is their sum, and so does each row written
   for a coarse bucket of the fine rows in its minute. A closed bucket in which there is something to
   average has a row.
   */
  lemma ValuesConserved(events: seq<Event>)
    requires Timely(events)
    ensures var h := Run(events);
            && (forall c | c in h.fineLog ::
                  c.bucket % FINE.step == 0 && c.bucket < Opened(events) && FineRow(c.row, events, c.bucket))
            && (forall c | c in h.coarseLog ::
                  c.bucket % COARSE.step == 0 && c.bucket < CoarseBucket(Opened(events)) && CoarseRow(c.row, h.fineLog, c.bucket))
            && (forall b: nat, k | b % FINE.step == 0 && b < Opened(events) && SampleCount(events, b, k) > 0 ::
                  InLog(h.fineLog, b))
            && (forall b: nat, k | b % COARSE.step == 0 && b < CoarseBucket(Opened(events)) && MinuteCount(h.fineLog, b, k) > 0 ::
                  InLog(h.coarseLog, b))
  {
    hide Samples, FineMeans, Means, FineRow, CoarseRow, Run, Opened, CoarseBucket, SampleCount, MinuteCount, MinuteSum,
         SampleSum, InLog, Held;
    SamplesConserved(events);
    var h := Run(events);
    forall c | c in h.fineLog ensures c.bucket % FINE.step == 0 && FineRow(c.row, events, c.bucket) {
      SamplesAligned(events, c.bucket);
      FineValues(events, c.bucket);
    }
    forall c | c in h.coarseLog ensures c.bucket % COARSE.step == 0 && CoarseRow(c.row, h.fineLog, c.bucket) {
      FineMeansAligned(h.fineLog, c.bucket);
      CoarseValues(h.fineLog, c.bucket);
    }
    forall b: nat, k | b % FINE.step == 0 && b < Opened(events) && SampleCount(events, b, k) > 0
      ensures InLog(h.fineLog, b)
    {
      SamplesAdd(events, b, k);
    }
    forall b: nat, k | b % COARSE.step == 0 && b < CoarseBucket(Opened(events)) && MinuteCount(h.fineLog, b, k) > 0
      ensures InLog(h.coarseLog, b)
    {
      FineMeansAdd(h.fineLog, b, k);
    }
  }
}
