/** A ring whose slots carry the time they were written for, and the window read from it. */
module MetricsRing {
  import opened Options

  type Row = map<nat, real>        // what is known, by field number

  /** One slot: the start of its bucket, 0 for a slot never written. */
  datatype Cell = Cell(bucket: nat, row: Row)

  datatype Tier = Tier(step: nat, slots: nat)

  const FINE := Tier(2, 3600)
  const COARSE := Tier(60, 10080)

  predicate ValidTier(t: Tier) { t.step > 0 && t.slots > 0 }

  function Slot(t: Tier, bucket: nat): (i: nat)
    requires ValidTier(t)
    ensures i < t.slots
  {
    (bucket / t.step) % t.slots
  }

  /** What a slot holds after these writes: the last one that fell into it. */
  function Last(t: Tier, log: seq<Cell>, slot: nat): Cell
    requires ValidTier(t)
    decreases |log|
  {
    if log == [] then Cell(0, map[])
    else if Slot(t, log[|log| - 1].bucket) == slot then log[|log| - 1]
    else Last(t, log[..|log| - 1], slot)
  }

  /** `_get`: the row of this bucket, if its slot still is this bucket's. */
  function Stored(t: Tier, log: seq<Cell>, bucket: nat): Option<Row>
    requires ValidTier(t)
  {
    var c := Last(t, log, Slot(t, bucket));
    if c.bucket != bucket then None else Some(c.row)
  }

  /** The last write to this bucket's slot was for this bucket. */
  predicate Survives(t: Tier, log: seq<Cell>, i: nat)
    requires ValidTier(t) && i < |log|
  {
    forall j | i < j < |log| :: Slot(t, log[j].bucket) != Slot(t, log[i].bucket)
  }

  /** `_get(b)` gives a row exactly when that row was written for b and its slot not used since. */
  lemma {:induction false} StoredExact(t: Tier, log: seq<Cell>, bucket: nat, row: Row)
    requires ValidTier(t) && bucket > 0
    ensures Stored(t, log, bucket) == Some(row)
            <==> exists i: nat :: i < |log| && log[i] == Cell(bucket, row) && Survives(t, log, i)
    decreases |log|
  {
    if log != [] {
      var n := |log| - 1;
      var before := log[..n];
      StoredExact(t, before, bucket, row);
      if Slot(t, log[n].bucket) == Slot(t, bucket) {
        assert Survives(t, log, n);
      } else {
        forall i: nat | i < n && log[i].bucket == bucket
          ensures Survives(t, log, i) <==> Survives(t, before, i)
        {
          assert forall j | i < j < n :: before[j] == log[j];
        }
      }
    }
  }

  /** Aligned buckets less than a lap apart never share a slot. */
  lemma DistinctSlots(t: Tier, a: nat, b: nat)
    requires ValidTier(t) && a % t.step == 0 && b % t.step == 0
    requires a < b < a + t.slots * t.step
    ensures Slot(t, a) != Slot(t, b)
  {
    var x, y := a / t.step, b / t.step;
    Quotient(a, t.step);
    Quotient(b, t.step);
    if x >= y { Product(y, x, t.step); }
    assert (y - x) * t.step == y * t.step - x * t.step;
    if y - x >= t.slots { Product(t.slots, y - x, t.step); }
    if x % t.slots == y % t.slots {
      SameRemainder(x, y, t.slots);
    }
  }

  lemma Quotient(a: int, m: nat)
    requires m > 0
    ensures a == (a / m) * m + a % m
  {
  }

  lemma SameRemainder(x: int, y: int, m: nat)
    requires m > 0 && x < y && x % m == y % m
    ensures y - x >= m
  {
    var p, q := x / m, y / m;
    Quotient(x, m);
    Quotient(y, m);
    if q <= p { Product(q, p, m); }
    Product(p + 1, q, m);
    assert (p + 1) * m == p * m + m;
  }

  lemma Product(a: int, b: int, c: nat)
    requires a <= b
    ensures a * c <= b * c
  {
  }

  /** Writes in the order of their buckets, each aligned. */
  predicate InOrder(t: Tier, log: seq<Cell>) {
    && ValidTier(t)
    && (forall i | 0 <= i < |log| :: log[i].bucket % t.step == 0)
    && (forall i, j | 0 <= i < j < |log| :: log[i].bucket < log[j].bucket)
  }

  /** Everything written within the period the ring covers can be read back. */
  lemma CoveredPeriod(t: Tier, log: seq<Cell>, i: nat)
    requires InOrder(t, log) && i < |log| && log[i].bucket > 0
    requires log[|log| - 1].bucket < log[i].bucket + t.slots * t.step
    ensures Stored(t, log, log[i].bucket) == Some(log[i].row)
  {
    forall j | i < j < |log| ensures Slot(t, log[j].bucket) != Slot(t, log[i].bucket) {
      DistinctSlots(t, log[i].bucket, log[j].bucket);
    }
    assert Survives(t, log, i) && log[i] == Cell(log[i].bucket, log[i].row);
    StoredExact(t, log, log[i].bucket, log[i].row);
  }

  // ---- The ring in place --------------------------------------------------------

  class Ring {
    const tier: Tier
    const cells: array<Cell>
    ghost var log: seq<Cell>

    ghost predicate Valid() reads this, cells {
      && ValidTier(tier) && cells.Length == tier.slots
      && forall i: nat | i < tier.slots :: cells[i] == Last(tier, log, i)
    }

    constructor (tier: Tier)
      requires ValidTier(tier)
      ensures Valid() && fresh(cells) && log == [] && this.tier == tier
    {
      this.tier := tier;
      cells := new Cell[tier.slots](_ => Cell(0, map[]));
      log := [];
    }

    method Put(bucket: nat, row: Row)
      requires Valid()
      modifies this, cells
      ensures Valid() && log == old(log) + [Cell(bucket, row)]
    {
      cells[(bucket / tier.step) % tier.slots] := Cell(bucket, row);
      log := log + [Cell(bucket, row)];
      assert log[..|log| - 1] == old(log);
    }

    method Get(bucket: nat) returns (r: Option<Row>)
      requires Valid()
      ensures r == Stored(tier, log, bucket)
    {
      var c := cells[(bucket / tier.step) % tier.slots];
      return if c.bucket != bucket then None else Some(c.row);
    }
  }

  // ---- Windows --------------------------------------------------------------------

  function Max(a: int, b: int): int { if a < b then b else a }

  /** The window's point step: a multiple of the fine step, at least one. */
  function PointStep(span: nat, slots: nat): (step: nat)
    ensures step >= 2 && step % 2 == 0
  {
    Max(FINE.step, span / Max(1, slots)) / FINE.step * FINE.step
  }

  /** The finest tier that resolves the step and reaches back over the span. */
  function PickTier(span: nat, step: nat): Tier {
    if FINE.step <= step && FINE.slots * FINE.step >= span then FINE else COARSE
  }

  /** The buckets read for the point that starts at `lo`, as Python's range steps through it. */
  function Buckets(t: Tier, lo: int, step: nat, at: nat := 0): (bs: seq<int>)
    requires ValidTier(t)
    decreases step - at
  {
    if at >= step then [] else [(lo + at) / t.step * t.step] + Buckets(t, lo, step, at + t.step)
  }

  /** How often a bucket is read for the point that starts at `lo`. */
  function Count(t: Tier, lo: int, step: nat, bucket: int): nat
    requires ValidTier(t)
  {
    multiset(Buckets(t, lo, step))[bucket]
  }

  /** When the tier's step divides the point's, a point reads exactly its own buckets, once each. */
  lemma {:induction false} PointReads(t: Tier, lo: int, step: nat, at: nat, bucket: int)
    requires ValidTier(t) && lo % t.step == 0 && step % t.step == 0 && at % t.step == 0 && at <= step
    requires bucket % t.step == 0
    ensures multiset(Buckets(t, lo, step, at))[bucket] == if lo + at <= bucket < lo + step then 1 else 0
    decreases step - at
  {
    if at < step {
      assert (lo + at) % t.step == 0 by { Multiples(lo, at, t.step); }
      assert (lo + at) / t.step * t.step == lo + at;
      assert (at + t.step) % t.step == 0 by { Multiples(at, t.step, t.step); }
      Gap(at, step, t.step);
      PointReads(t, lo, step, at + t.step, bucket);
      if lo + at < bucket < lo + at + t.step {
        Gap(lo + at, bucket, t.step);
      }
    }
  }

  lemma Multiples(a: int, b: int, m: nat)
    requires m > 0 && a % m == 0 && b % m == 0
    ensures (a + b) % m == 0 && (a - b) % m == 0
  {
    var x, y := a / m, b / m;
    assert a == x * m && b == y * m;
    assert a + b == (x + y) * m && a - b == (x - y) * m;
    ProductMod(x + y, m);
    ProductMod(x - y, m);
  }

  lemma ProductMod(x: int, m: nat)
    requires m > 0
    ensures (x * m) % m == 0
  {
    var n := x * m;
    var q, r := n / m, n % m;
    Quotient(n, m);
    assert (q + 1) * m == q * m + m && (x + 1) * m == x * m + m;
    if q + 1 <= x { Product(q + 1, x, m); }
    if x + 1 <= q { Product(x + 1, q, m); }
  }

  /** Two different multiples of m are at least m apart. */
  lemma Gap(a: int, b: int, m: nat)
    requires m > 0 && a % m == 0 && b % m == 0 && a < b
    ensures a + m <= b
  {
    var x, y := a / m, b / m;
    assert a == x * m && b == y * m;
    if x + 1 > y { Product(y, x, m); }
    Product(x + 1, y, m);
    assert (x + 1) * m == x * m + m;
  }

  /** The start of the k-th point of a window that starts at a multiple of the step. */
  function PointStart(first: int, k: nat, step: nat): int { (first + k) * step }

  /** In any window, a tier bucket is read once for the point it lies in and for no other. */
  ghost predicate CountsOnce(t: Tier, step: nat)
    requires ValidTier(t) && step > 0
  {
    forall first: int, k: nat, j: int ::
      Count(t, PointStart(first, k, step), step, j * t.step)
      == if PointStart(first, k, step) <= j * t.step < PointStart(first, k, step) + step then 1 else 0
  }

  /** Each bucket counts in exactly one point if and only if the tier's step divides the point's. */
  lemma EachBucketOnceExact(t: Tier, step: nat)
    requires ValidTier(t) && step > 0
    ensures CountsOnce(t, step) <==> step % t.step == 0
  {
    if step % t.step == 0 {
      forall first: int, k: nat, j: int
        ensures Count(t, PointStart(first, k, step), step, j * t.step)
                == if PointStart(first, k, step) <= j * t.step < PointStart(first, k, step) + step then 1 else 0
      {
        var lo := PointStart(first, k, step);
        MultipleOfMultiple(first + k, step, t.step);
        ProductMod(j, t.step);
        PointReads(t, lo, step, 0, j * t.step);
      }
    } else {
      var j := step / t.step;
      Quotient(step, t.step);
      assert PointStart(0, 1, step) == step;
      assert Buckets(t, step, step)[0] == j * t.step;
      assert Buckets(t, step, step) == [j * t.step] + Buckets(t, step, step)[1..];
      assert Count(t, PointStart(0, 1, step), step, j * t.step) >= 1;
      assert j * t.step < step;
    }
  }

  /** Six hours in 600 points, which a client may ask for, are such a window: points of 36 seconds from the minute ring. */
  lemma SixHoursMiscount()
    ensures PickTier(21600, PointStep(21600, 600)) == COARSE && !CountsOnce(COARSE, PointStep(21600, 600))
  {
    assert PointStep(21600, 600) == 36;
    EachBucketOnceExact(COARSE, 36);
  }

  lemma MultipleOfMultiple(x: int, step: nat, m: nat)
    requires m > 0 && step % m == 0
    ensures (x * step) % m == 0
  {
    var y := step / m;
    Quotient(step, m);
    assert x * step == (x * y) * m;
    ProductMod(x * y, m);
  }

  // ---- Reading a window -------------------------------------------------------------

  /** `_mean`: None for no values. */
  function Mean(xs: seq<real>): Option<real> {
    if xs == [] then None else Some(Sum(xs) / |xs| as real)
  }

  function Sum(xs: seq<real>): real {
    if xs == [] then 0.0 else Sum(xs[..|xs| - 1]) + xs[|xs| - 1]
  }

  lemma {:induction false} SumAppend(xs: seq<real>, ys: seq<real>)
    ensures Sum(xs + ys) == Sum(xs) + Sum(ys)
    decreases |ys|
  {
    if ys == [] {
      assert xs + ys == xs;
    } else {
      var n := |ys| - 1;
      assert (xs + ys)[..|xs + ys| - 1] == xs + ys[..n];
      SumAppend(xs, ys[..n]);
    }
  }

  /** A mean times the number of its values is their sum. */
  lemma MeanTimes(xs: seq<real>)
    ensures Mean(xs).Some? <==> xs != []
    ensures xs != [] ==> Mean(xs).value * |xs| as real == Sum(xs)
  {
  }

  lemma MeanOne(x: real)
    ensures Mean([x]) == Some(x)
  {
    assert [x][..0] == [];
    assert Sum([x]) == Sum([]) + x;
  }

  /** Joined values weigh as many as they are. */
  lemma MeanWeighted(xs: seq<real>, ys: seq<real>)
    requires xs != [] && ys != []
    ensures Mean(xs + ys).Some? && Mean(xs).Some? && Mean(ys).Some?
    ensures Mean(xs + ys).value * |xs + ys| as real
            == Mean(xs).value * |xs| as real + Mean(ys).value * |ys| as real
  {
    SumAppend(xs, ys);
    MeanTimes(xs);
    MeanTimes(ys);
    MeanTimes(xs + ys);
    hide Mean, Sum;
  }

  /** It does not matter in what order values come, or who of several came last. */
  lemma {:induction false} SumOfMultiset(xs: seq<real>, ys: seq<real>)
    requires multiset(xs) == multiset(ys)
    ensures Sum(xs) == Sum(ys) && |xs| == |ys|
    decreases |xs|
  {
    if xs == [] {
      assert |ys| == |multiset(ys)|;
    } else {
      var n, x := |xs| - 1, xs[|xs| - 1];
      assert xs == xs[..n] + [x];
      assert multiset(xs)[x] > 0;
      var i :| 0 <= i < |ys| && ys[i] == x;
      var before, after := ys[..i], ys[i + 1..];
      assert ys == before + ([x] + after);
      SameRest(xs[..n], x, before, after);
      SumOfMultiset(xs[..n], before + after);
      hide Sum;
      SumWithout(before, x, after);
      SumWithout(xs[..n], x, []);
      assert [x] + [] == [x] && xs[..n] + [] == xs[..n];
    }
  }

  lemma SameRest(xs: seq<real>, x: real, before: seq<real>, after: seq<real>)
    requires multiset(xs + [x]) == multiset(before + ([x] + after))
    ensures multiset(xs) == multiset(before + after) && |xs| == |before + after|
  {
    ValuesWithout(before, x, after);
    var a, b := multiset(xs), multiset(before + after);
    assert multiset(xs + [x]) == a + multiset{x};
    forall y ensures a[y] == b[y] {
      assert (a + multiset{x})[y] == (b + multiset{x})[y];
    }
    assert a == b;
    assert |xs| == |a| && |before + after| == |b|;
  }

  lemma ValuesWithout(before: seq<real>, x: real, after: seq<real>)
    ensures multiset(before + ([x] + after)) == multiset(before + after) + multiset{x}
    ensures |before + ([x] + after)| == |before + after| + 1
  {
  }

  lemma SumWithout(before: seq<real>, x: real, after: seq<real>)
    ensures Sum(before + ([x] + after)) == Sum(before + after) + x
  {
    SumAppend(before, after);
    SumAppend(before, [x] + after);
    SumAppend([x], after);
    assert [x][..0] == [] && Sum([x]) == Sum([]) + x;
  }

  lemma MeanOfMultiset(xs: seq<real>, ys: seq<real>)
    requires multiset(xs) == multiset(ys)
    ensures Mean(xs) == Mean(ys)
  {
    SumOfMultiset(xs, ys);
  }

  lemma {:induction false} SumBetween(xs: seq<real>, lo: real, hi: real)
    requires forall i | 0 <= i < |xs| :: lo <= xs[i] <= hi
    ensures lo * |xs| as real <= Sum(xs) <= hi * |xs| as real
    decreases |xs|
  {
    if xs != [] {
      var n := |xs| - 1;
      SumBetween(xs[..n], lo, hi);
      assert lo * |xs| as real == lo * n as real + lo && hi * |xs| as real == hi * n as real + hi;
    }
  }

  /** A mean lies between the least and the greatest of its values. */
  lemma MeanBetween(xs: seq<real>, lo: real, hi: real)
    requires xs != [] && forall i | 0 <= i < |xs| :: lo <= xs[i] <= hi
    ensures Mean(xs).Some? && lo <= Mean(xs).value <= hi
  {
    SumBetween(xs, lo, hi);
    var n, sum := |xs| as real, Sum(xs);
    AtLeast(sum, n, lo);
    AtLeast(-sum, n, -hi);
    assert -sum / n == -(sum / n);
  }

  lemma AtLeast(sum: real, n: real, lo: real)
    requires n > 0.0 && lo * n <= sum
    ensures lo <= sum / n
  {
    var m := sum / n;
    assert m * n == sum;
    if m < lo {
      assert (lo - m) * n > 0.0;
    }
  }

  /** The values of one field in the rows that are still stored for these buckets. */
  function Known(t: Tier, log: seq<Cell>, buckets: seq<int>, field: nat): seq<real>
    requires ValidTier(t)
    decreases |buckets|
  {
    if buckets == [] then []
    else
      var n := |buckets| - 1;
      var b := buckets[n];
      var row := if b < 0 then None else Stored(t, log, b);
      Known(t, log, buckets[..n], field)
      + (if row.Some? && field in row.value then [row.value[field]] else [])
  }

  function PointValue(t: Tier, log: seq<Cell>, lo: int, step: nat, field: nat): Option<real>
    requires ValidTier(t)
  {
    Mean(Known(t, log, Buckets(t, lo, step), field))
  }

  /** The start of the window's first point. */
  function WindowStart(now: nat, span: nat, slots: nat): int {
    var step := PointStep(span, slots);
    (now / step - (slots - 1)) * step
  }

  /** The window spans at most the span asked for, or two seconds a point, and reaches past now. */
  lemma WindowExtent(now: nat, span: nat, slots: nat)
    requires slots >= 1
    ensures var step := PointStep(span, slots);
            slots * step <= Max(span, 2 * slots) && now < WindowStart(now, span, slots) + slots * step
  {
    var step, each := PointStep(span, slots), span / slots;
    StepAtMost(span, slots);
    Product(step, Max(each, 2), slots);
    EachFits(span, slots);
    hide PointStep;
    ReachesPast(now, step, slots);
  }

  /** The step is as wide as the span asks for: two seconds more a point would span more than that. */
  lemma WindowSpans(span: nat, slots: nat)
    requires slots >= 1
    ensures span < (PointStep(span, slots) + 2) * slots
  {
    var step, each := PointStep(span, slots), span / slots;
    assert each < step + 2;
    Quotient(span, slots);
    assert (each + 1) * slots == each * slots + slots;
    Product(each + 1, step + 2, slots);
  }

  lemma StepAtMost(span: nat, slots: nat)
    requires slots >= 1
    ensures PointStep(span, slots) <= Max(span / slots, 2)
  {
  }

  lemma EachFits(span: nat, slots: nat)
    requires slots >= 1
    ensures Max(span / slots, 2) * slots <= Max(span, 2 * slots)
  {
    var each := span / slots;
    Quotient(span, slots);
    assert each * slots <= span;
  }

  lemma ReachesPast(now: nat, step: nat, slots: nat)
    requires step > 0
    ensures now < (now / step - (slots - 1)) * step + slots * step
  {
    var q := now / step;
    Quotient(now, step);
    assert (q - (slots - 1)) * step == q * step - slots * step + step;
  }

  /** When the picked tier's ring holds as long as the window spans, every row since its start is still stored. */
  lemma WindowRetains(log: seq<Cell>, now: nat, span: nat, slots: nat, i: nat)
    requires slots >= 1
    requires var t, step := PickTier(span, PointStep(span, slots)), PointStep(span, slots);
             slots * step <= t.slots * t.step && InOrder(t, log)
    requires i < |log| && log[i].bucket > 0
    requires log[|log| - 1].bucket <= now && WindowStart(now, span, slots) <= log[i].bucket
    ensures Stored(PickTier(span, PointStep(span, slots)), log, log[i].bucket) == Some(log[i].row)
  {
    hide PointStep, PickTier, Stored, WindowStart;
    WindowExtent(now, span, slots);
    CoveredPeriod(PickTier(span, PointStep(span, slots)), log, i);
  }

  /** So it is for up to an hour's points of two seconds and any span of up to a week. */
  lemma RingHoldsWindow(span: nat, slots: nat)
    requires 1 <= slots <= 3600 && span <= COARSE.slots * COARSE.step
    ensures var t, step := PickTier(span, PointStep(span, slots)), PointStep(span, slots);
            slots * step <= t.slots * t.step
  {
    WindowExtent(0, span, slots);
    TierReaches(span, PointStep(span, slots));
    hide PointStep;
  }

  /** When its step divides the points', an aligned bucket counts in one point: the one it lies in. */
  lemma WindowCountsOnce(now: nat, span: nat, slots: nat, bucket: nat, p: nat)
    requires slots >= 1
    requires var t := PickTier(span, PointStep(span, slots));
             PointStep(span, slots) % t.step == 0 && bucket % t.step == 0
    requires WindowStart(now, span, slots) <= bucket <= now
    ensures var step, t0 := PointStep(span, slots), WindowStart(now, span, slots);
            && (bucket - t0) / step < slots
            && Count(PickTier(span, step), t0 + p * step, step, bucket) == if p == (bucket - t0) / step then 1 else 0
  {
    var step, t0 := PointStep(span, slots), WindowStart(now, span, slots);
    WindowExtent(now, span, slots);
    Quotient(bucket - t0, step);
    CountInPoint(PickTier(span, step), now / step - (slots - 1), step, bucket, p);
    OnePoint(bucket - t0, step, p);
    hide PointStep, PickTier, Count, WindowStart;
    InsideWindow(bucket - t0, step, slots);
  }

  lemma InsideWindow(offset: nat, step: nat, slots: nat)
    requires step > 0 && offset < slots * step
    ensures offset / step < slots
  {
    var k := offset / step;
    Quotient(offset, step);
    if k >= slots { Product(slots, k, step); }
  }

  lemma TierReaches(span: nat, step: nat)
    requires span <= COARSE.slots * COARSE.step
    ensures PickTier(span, step).slots * PickTier(span, step).step >= span
  {
  }

  /** The two-second ring answers exactly the spans that it reaches back over. */
  lemma FineWhenItReaches(span: nat, slots: nat)
    ensures PickTier(span, PointStep(span, slots)) == FINE <==> span <= 7200
  {
    assert FINE.slots * FINE.step == 7200;
  }

  lemma CountInPoint(t: Tier, first: int, step: nat, bucket: int, p: nat)
    requires ValidTier(t) && step > 0 && step % t.step == 0 && bucket % t.step == 0
    ensures var lo := first * step + p * step;
            Count(t, lo, step, bucket) == if lo <= bucket < lo + step then 1 else 0
  {
    var lo := first * step + p * step;
    assert lo == (first + p) * step;
    MultipleOfMultiple(first + p, step, t.step);
    PointReads(t, lo, step, 0, bucket);
  }

  /** An offset lies in the p-th step exactly when p is its quotient. */
  lemma OnePoint(offset: nat, step: nat, p: nat)
    requires step > 0
    ensures p * step <= offset < p * step + step <==> p == offset / step
  {
    var k := offset / step;
    Quotient(offset, step);
    assert (p + 1) * step == p * step + step && (k + 1) * step == k * step + step;
    if p < k { Product(p + 1, k, step); }
    if p > k { Product(k + 1, p, step); }
  }

  // ---- What a point shows ------------------------------------------------------------

  predicate In(c: Cell, lo: int, hi: int, field: nat) { lo <= c.bucket < hi && field in c.row }

  /** How many rows written for this period know the field. */
  function CellCount(log: seq<Cell>, lo: int, hi: int, field: nat): nat
    decreases |log|
  {
    if log == [] then 0
    else CellCount(log[..|log| - 1], lo, hi, field) + (if In(log[|log| - 1], lo, hi, field) then 1 else 0)
  }

  /** What they add up to. */
  function CellSum(log: seq<Cell>, lo: int, hi: int, field: nat): real
    decreases |log|
  {
    if log == [] then 0.0
    else
      var c := log[|log| - 1];
      CellSum(log[..|log| - 1], lo, hi, field) + (if In(c, lo, hi, field) then c.row[field] else 0.0)
  }

  lemma {:induction false} CellsSplit(log: seq<Cell>, lo: int, mid: int, hi: int, field: nat)
    requires lo <= mid <= hi
    ensures CellCount(log, lo, hi, field) == CellCount(log, lo, mid, field) + CellCount(log, mid, hi, field)
    ensures CellSum(log, lo, hi, field) == CellSum(log, lo, mid, field) + CellSum(log, mid, hi, field)
    decreases |log|
  {
    if log != [] { CellsSplit(log[..|log| - 1], lo, mid, hi, field); }
  }

  lemma {:induction false} NoCells(log: seq<Cell>, lo: int, hi: int, field: nat)
    requires forall i | 0 <= i < |log| :: !In(log[i], lo, hi, field)
    ensures CellCount(log, lo, hi, field) == 0 && CellSum(log, lo, hi, field) == 0.0
    decreases |log|
  {
    if log != [] { NoCells(log[..|log| - 1], lo, hi, field); }
  }

  lemma {:induction false} OneCell(log: seq<Cell>, lo: int, hi: int, field: nat, i: nat)
    requires i < |log| && In(log[i], lo, hi, field) && forall j | 0 <= j < |log| && j != i :: !In(log[j], lo, hi, field)
    ensures CellCount(log, lo, hi, field) == 1 && CellSum(log, lo, hi, field) == log[i].row[field]
    decreases |log|
  {
    var n := |log| - 1;
    if i == n {
      NoCells(log[..n], lo, hi, field);
    } else {
      OneCell(log[..n], lo, hi, field, i);
    }
  }

  lemma {:induction false} LastIsWritten(t: Tier, log: seq<Cell>, slot: nat)
    requires ValidTier(t)
    ensures Last(t, log, slot) == Cell(0, map[]) || Last(t, log, slot) in log
    decreases |log|
  {
    if log != [] { LastIsWritten(t, log[..|log| - 1], slot); }
  }

  /** Written in order, for aligned times after 0, and since `from` less than a lap ago. */
  predicate Holds(t: Tier, log: seq<Cell>, from: int) {
    && InOrder(t, log) && (forall i | 0 <= i < |log| :: log[i].bucket > 0)
    && (log != [] ==> log[|log| - 1].bucket < from + t.slots * t.step)
  }

  /** One aligned bucket is known by the row written for it, if there is one. */
  lemma BucketKnown(t: Tier, log: seq<Cell>, b: int, field: nat)
    requires ValidTier(t) && Holds(t, log, b) && Aligned(b, t.step)
    ensures var xs := Known(t, log, [b], field);
            |xs| == CellCount(log, b, b + t.step, field) && Sum(xs) == CellSum(log, b, b + t.step, field)
  {
    OfBucket(t, log, b, field);
    KnownOne(t, log, b, field);
    if i: nat :| i < |log| && log[i].bucket == b {
      CoveredPeriod(t, log, i);
      hide Stored, Known;
      if field in log[i].row {
        OneCell(log, b, b + t.step, field, i);
        assert [log[i].row[field]][..0] == [];
      } else {
        NoCells(log, b, b + t.step, field);
      }
    } else {
      NoCells(log, b, b + t.step, field);
      if b > 0 {
        if row :| Stored(t, log, b) == Some(row) { StoredExact(t, log, b, row); }
      } else if b == 0 {
        LastIsWritten(t, log, Slot(t, 0));
      }
    }
  }

  /** The cells of an aligned bucket's period are those written for it. */
  lemma OfBucket(t: Tier, log: seq<Cell>, b: int, field: nat)
    requires InOrder(t, log) && Aligned(b, t.step)
    ensures forall i | 0 <= i < |log| :: In(log[i], b, b + t.step, field) <==> log[i].bucket == b && field in log[i].row
    ensures forall i, j | 0 <= i < |log| && 0 <= j < |log| && log[i].bucket == log[j].bucket :: i == j
  {
    forall i | 0 <= i < |log| && b <= log[i].bucket < b + t.step ensures log[i].bucket == b {
      if b < log[i].bucket { Gap(b, log[i].bucket, t.step); }
    }
  }

  lemma KnownOne(t: Tier, log: seq<Cell>, b: int, field: nat)
    requires ValidTier(t)
    ensures Known(t, log, [b], field)
            == if b >= 0 && Stored(t, log, b).Some? && field in Stored(t, log, b).value
               then [Stored(t, log, b).value[field]] else []
  {
    assert [b][..0] == [] && Known(t, log, [], field) == [];
    hide Stored;
  }

  lemma {:induction false} KnownAppend(t: Tier, log: seq<Cell>, a: seq<int>, b: seq<int>, field: nat)
    requires ValidTier(t)
    ensures Known(t, log, a + b, field) == Known(t, log, a, field) + Known(t, log, b, field)
    decreases |b|
  {
    if b == [] {
      assert a + b == a;
    } else {
      var n := |b| - 1;
      assert (a + b)[..|a + b| - 1] == a + b[..n];
      KnownAppend(t, log, a, b[..n], field);
    }
  }

  predicate Aligned(x: int, m: nat) { m > 0 && x % m == 0 }

  /** The first bucket of what is left of a point, and the rest. */
  lemma NextBucket(t: Tier, lo: int, step: nat, at: nat)
    requires ValidTier(t) && at < step && Aligned(lo, t.step) && Aligned(step, t.step) && Aligned(at, t.step)
    ensures Buckets(t, lo, step, at) == [lo + at] + Buckets(t, lo, step, at + t.step)
    ensures Aligned(lo + at, t.step) && Aligned(at + t.step, t.step) && at + t.step <= step
  {
    Multiples(lo, at, t.step);
    Quotient(lo + at, t.step);
    Multiples(at, t.step, t.step);
    Gap(at, step, t.step);
  }

  lemma HoldsLater(t: Tier, log: seq<Cell>, from: int, later: int)
    requires Holds(t, log, from) && from <= later
    ensures Holds(t, log, later)
  {
  }

  /** A point whose step the tier's divides gathers the rows written for its period. */
  lemma {:induction false} PointKnown(t: Tier, log: seq<Cell>, lo: int, step: nat, at: nat, field: nat)
    requires ValidTier(t) && Holds(t, log, lo) && at <= step
    requires Aligned(lo, t.step) && Aligned(step, t.step) && Aligned(at, t.step)
    ensures var xs := Known(t, log, Buckets(t, lo, step, at), field);
            |xs| == CellCount(log, lo + at, lo + step, field) && Sum(xs) == CellSum(log, lo + at, lo + step, field)
    decreases step - at
  {
    hide Known, Sum, CellCount, CellSum, Holds, Buckets, Aligned;
    if at == step {
      NothingKnown(t, log, lo, step, field);
    } else {
      var b, mid, more := lo + at, lo + (at + t.step), Buckets(t, lo, step, at + t.step);
      NextBucket(t, lo, step, at);
      HoldsLater(t, log, lo, b);
      PointKnown(t, log, lo, step, at + t.step, field);
      BucketKnown(t, log, b, field);
      KnownAppend(t, log, [b], more, field);
      SumAppend(Known(t, log, [b], field), Known(t, log, more, field));
      CellsSplit(log, b, mid, lo + step, field);
    }
  }

  lemma NothingKnown(t: Tier, log: seq<Cell>, lo: int, step: nat, field: nat)
    requires ValidTier(t)
    ensures var xs := Known(t, log, Buckets(t, lo, step, step), field); xs == [] && Sum(xs) == 0.0
    ensures CellCount(log, lo + step, lo + step, field) == 0 && CellSum(log, lo + step, lo + step, field) == 0.0
  {
    NoCells(log, lo + step, lo + step, field);
  }

  /** Where the p-th point of a window starts. */
  function PointAt(now: nat, span: nat, slots: nat, p: nat): int {
    WindowStart(now, span, slots) + p * PointStep(span, slots)
  }

  /** The points' steps are whole steps of the ring, which holds as long as the points span. */
  predicate Fits(span: nat, slots: nat) {
    var step := PointStep(span, slots);
    var t := PickTier(span, step);
    Aligned(step, t.step) && slots * step <= t.slots * t.step
  }

  lemma PointFits(now: nat, span: nat, slots: nat, p: nat)
    requires slots >= 1 && Fits(span, slots)
    ensures var t := PickTier(span, PointStep(span, slots));
            Aligned(PointAt(now, span, slots, p), t.step) && now < PointAt(now, span, slots, p) + t.slots * t.step
  {
    var step := PointStep(span, slots);
    var t, first := PickTier(span, step), now / step - (slots - 1);
    WindowExtent(now, span, slots);
    hide PointStep, PickTier;
    assert WindowStart(now, span, slots) == first * step;
    assert first * step + p * step == (first + p) * step;
    MultipleOfMultiple(first + p, step, t.step);
    Product(0, p, step);
  }

  lemma HoldsWindow(t: Tier, log: seq<Cell>, now: nat, lo: int)
    requires Positive(t, log) && (log != [] ==> log[|log| - 1].bucket <= now)
    requires now < lo + t.slots * t.step
    ensures Holds(t, log, lo)
  {
  }

  /** Written in order, for aligned times after 0. */
  predicate Positive(t: Tier, log: seq<Cell>) {
    InOrder(t, log) && forall i | 0 <= i < |log| :: log[i].bucket > 0
  }

  /**
   A window's points show what was written: when the steps divide and the ring holds the window, a point is
   empty exactly if no row written for its period knows the field, and otherwise its value times the
   number of those rows is their sum.
   */
  lemma WindowShows(log: seq<Cell>, now: nat, span: nat, slots: nat, p: nat, field: nat)
    requires p < slots && Fits(span, slots) && Positive(PickTier(span, PointStep(span, slots)), log)
    requires log != [] ==> log[|log| - 1].bucket <= now
    ensures var step, lo := PointStep(span, slots), PointAt(now, span, slots, p);
            var v := PointValue(PickTier(span, step), log, lo, step, field);
            var n := CellCount(log, lo, lo + step, field);
            && (v.Some? <==> n > 0)
            && (n > 0 ==> v.value * n as real == CellSum(log, lo, lo + step, field))
  {
    hide PointAt, PointStep, PickTier, Positive, Holds, Aligned, PointValue, CellSum, CellCount;
    PointFits(now, span, slots, p);
    var step, lo := PointStep(span, slots), PointAt(now, span, slots, p);
    var t := PickTier(span, step);
    HoldsWindow(t, log, now, lo);
    PointShows(t, log, lo, step, field);
  }

  lemma PointShows(t: Tier, log: seq<Cell>, lo: int, step: nat, field: nat)
    requires ValidTier(t) && Holds(t, log, lo) && Aligned(lo, t.step) && Aligned(step, t.step)
    ensures var v, n := PointValue(t, log, lo, step, field), CellCount(log, lo, lo + step, field);
            && (v.Some? <==> n > 0)
            && (n > 0 ==> v.value * n as real == CellSum(log, lo, lo + step, field))
  {
    hide Known, Mean, Sum, Buckets, CellCount, CellSum, Aligned, Holds;
    ZeroAligned(t.step);
    PointKnown(t, log, lo, step, 0, field);
    MeanTimes(Known(t, log, Buckets(t, lo, step), field));
  }

  lemma ZeroAligned(m: nat)
    requires m > 0
    ensures Aligned(0, m)
  {
    ProductMod(0, m);
  }

  /** `window`, for one field: `slots` points, each the mean of what is stored for it. */
  method Window(fine: Ring, coarse: Ring, now: nat, span: nat, slots: nat, field: nat)
    returns (t0: int, step: nat, series: seq<Option<real>>)
    requires fine.Valid() && coarse.Valid() && fine.tier == FINE && coarse.tier == COARSE
    ensures t0 == WindowStart(now, span, slots) && step == PointStep(span, slots) && |series| == slots
    ensures var tier := PickTier(span, step);
            var log := if tier == FINE then fine.log else coarse.log;
            forall k | 0 <= k < slots :: series[k] == PointValue(tier, log, t0 + k * step, step, field)
  {
    step := Max(FINE.step, span / Max(1, slots));
    step := step / FINE.step * FINE.step;
    var end := now / step * step;
    t0 := end - (slots - 1) * step;
    assert t0 == (now / step - (slots - 1)) * step;
    var ring := coarse;
    if FINE.step <= step && FINE.slots * FINE.step >= span {
      ring := fine;
    }
    series := [];
    for k := 0 to slots
      invariant |series| == k
      invariant forall i | 0 <= i < k :: series[i] == PointValue(ring.tier, ring.log, t0 + i * step, step, field)
    {
      var rows := ReadPoint(ring, t0 + k * step, step, field);
      series := series + [Mean(rows)];
    }
  }

  method ReadPoint(ring: Ring, lo: int, step: nat, field: nat) returns (rows: seq<real>)
    requires ring.Valid()
    ensures rows == Known(ring.tier, ring.log, Buckets(ring.tier, lo, step), field)
  {
    var tstep := ring.tier.step;
    rows := [];
    var at := 0;
    ghost var seen: seq<int> := [];
    while at < step
      invariant 0 <= at
      invariant seen + Buckets(ring.tier, lo, step, at) == Buckets(ring.tier, lo, step)
      invariant rows == Known(ring.tier, ring.log, seen, field)
    {
      var b := (lo + at) / tstep * tstep;
      if b >= 0 {
        var r := ring.Get(b);
        if r.Some? && field in r.value {
          rows := rows + [r.value[field]];
        }
      }
      assert (seen + [b])[..|seen|] == seen;
      seen := seen + [b];
      at := at + tstep;
    }
    assert seen + [] == seen;
  }
}
