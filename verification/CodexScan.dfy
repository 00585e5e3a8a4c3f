/**
 The best reading of each rate-limit window, and the scan of a rollout file that folds every
 complete line into it.
 */
module CodexScan {
  import opened Bytes
  import opened Options

  const LINE_MAX: nat := 0x10_0000
  const CHUNK: nat := 0x1_0000
  const NEWLINE: byte := 10

  const SESSION_MINUTES := 300
  const WEEKLY_MINUTES := 10080

  // ---- One window ----------------------------------------------------------------

  /** A window of one record; a window without a percentage is no reading. */
  datatype Source = Source(reset: Option<int>, mins: Option<int>, pct: Option<real>)

  datatype Best = Best(reset: Option<int>, mins: Option<int>, pct: real)

  function Or(a: Option<int>, b: Option<int>): Option<int> { if a.Some? && a.value != 0 then a else b }

  /** Half a window, at least a minute: what separates two generations of a window. */
  function HalfSpan(cur: Best, src: Source): (half: int)
    ensures half >= 60
  {
    var mins := Or(src.mins, cur.mins);
    var half := (if mins.Some? then mins.value else 0) * 60 / 2;
    if half > 60 then half else 60
  }

  function Abs(a: int): int { if a < 0 then -a else a }

  function Better(cur: Option<Best>, src: Option<Source>): Option<Best> {
    if src.None? || src.value.pct.None? then cur
    else
      var s := src.value;
      var cand := Best(s.reset, s.mins, s.pct.value);
      if cur.None? then Some(cand)
      else
        var c := cur.value;
        if s.reset.None? || c.reset.None? then (if c.reset.None? then Some(cand) else cur)
        else if Abs(s.reset.value - c.reset.value) >= HalfSpan(c, s) then
          (if s.reset.value > c.reset.value then Some(cand) else cur)
        else
          Some(Best(Some(if s.reset.value > c.reset.value then s.reset.value else c.reset.value),
                    Or(s.mins, c.mins),
                    if s.pct.value > c.pct then s.pct.value else c.pct))
  }

  function BestOf(cur: Option<Best>, readings: seq<Option<Source>>): Option<Best>
    decreases |readings|
  {
    if readings == [] then cur else Better(BestOf(cur, readings[..|readings| - 1]), readings[|readings| - 1])
  }

  ghost predicate HasReset(b: Option<Best>) { b.Some? && b.value.reset.Some? }

  /** This reading is of a later generation than what is held. */
  ghost predicate RollsOver(held: Option<Best>, src: Option<Source>) {
    && HasReset(held) && src.Some? && src.value.pct.Some? && src.value.reset.Some?
    && src.value.reset.value >= held.value.reset.value + HalfSpan(held.value, src.value)
  }

  /** Some reading of the run rolled the window over. */
  ghost predicate RolledOver(cur: Option<Best>, readings: seq<Option<Source>>)
    decreases |readings|
  {
    readings != [] && (
      var n := |readings| - 1;
      RolledOver(cur, readings[..n]) || RollsOver(BestOf(cur, readings[..n]), readings[n]))
  }

  lemma OneReading(held: Option<Best>, src: Option<Source>)
    requires HasReset(held)
    ensures var b := Better(held, src);
            && HasReset(b) && b.value.reset.value >= held.value.reset.value
            && (b.value.pct < held.value.pct ==> RollsOver(held, src))
            && (RollsOver(held, src) ==> b.value.reset.value >= held.value.reset.value + 60)
  {
  }

  /**
   Once a reset is held it never moves back, and the percentage falls only when some reading's
   reset jumped by at least half a window; what the window then holds has a later reset.
   */
  lemma {:induction false} ResetNeverMovesBack(cur: Option<Best>, readings: seq<Option<Source>>)
    requires HasReset(cur)
    ensures HasReset(BestOf(cur, readings))
    ensures BestOf(cur, readings).value.reset.value >= cur.value.reset.value
    ensures BestOf(cur, readings).value.pct < cur.value.pct ==> RolledOver(cur, readings)
    ensures RolledOver(cur, readings) ==> BestOf(cur, readings).value.reset.value >= cur.value.reset.value + 60
    decreases |readings|
  {
    hide Better, RollsOver;
    if readings != [] {
      var n := |readings| - 1;
      var before := readings[..n];
      ResetNeverMovesBack(cur, before);
      OneReading(BestOf(cur, before), readings[n]);
    }
  }

  // ---- Generations ---------------------------------------------------------------

  /** How far apart two resets must be to belong to different generations, in seconds. */
  function Apart(held: Option<int>, mins: Option<int>): int {
    var m := if mins.Some? && mins.value != 0 then mins.value else if held.Some? then held.value else 0;
    if 30 * m > 60 then 30 * m else 60
  }

  /** The reading's window ends at least half a window after the one that is held. */
  ghost predicate LaterGeneration(held: Best, s: Source) {
    s.pct.Some? && s.reset.Some? && held.reset.Some? && s.reset.value >= held.reset.value + Apart(held.mins, s.mins)
  }

  ghost predicate EarlierGeneration(held: Best, s: Source) {
    s.reset.Some? && held.reset.Some? && s.reset.value <= held.reset.value - Apart(held.mins, s.mins)
  }

  lemma RollsOverExact(held: Option<Best>, src: Option<Source>)
    ensures RollsOver(held, src) <==> held.Some? && src.Some? && LaterGeneration(held.value, src.value)
  {
  }

  /** A reading that rolls the window over makes all earlier ones irrelevant, however low its number. */
  lemma {:induction false} RolloverForgets(cur: Option<Best>, before: seq<Option<Source>>, s: Source, after: seq<Option<Source>>)
    requires BestOf(cur, before).Some? && LaterGeneration(BestOf(cur, before).value, s)
    ensures BestOf(cur, before + [Some(s)] + after) == BestOf(Some(Best(s.reset, s.mins, s.pct.value)), after)
    decreases |after|
  {
    var all := before + [Some(s)] + after;
    if after == [] {
      assert all[..|all| - 1] == before;
    } else {
      assert all[..|all| - 1] == before + [Some(s)] + after[..|after| - 1];
      RolloverForgets(cur, before, s, after[..|after| - 1]);
    }
  }

  /**
   What leaves the held reading as it is: no reading, one without a reset when one with a reset is held, and one
   of an earlier generation, however high its number.
   */
  lemma StaleIsIgnored(held: Best, src: Option<Source>)
    requires src.None? || src.value.pct.None? || (held.reset.Some? && src.value.reset.None?)
             || EarlierGeneration(held, src.value)
    ensures Better(Some(held), src) == Some(held)
  {
  }

  /** As long as no reset is held, the newest reading is. */
  lemma FirstReadings(held: Option<Best>, s: Source)
    requires s.pct.Some? && (held.None? || held.value.reset.None?)
    ensures Better(held, Some(s)) == Some(Best(s.reset, s.mins, s.pct.value))
  {
  }

  /** A reset is held exactly when some reading of the run carried one. */
  lemma {:induction false} HoldsResetExactly(readings: seq<Option<Source>>)
    ensures HasReset(BestOf(None, readings))
            <==> exists s :: s in readings && s.Some? && s.value.pct.Some? && s.value.reset.Some?
    decreases |readings|
  {
    if readings != [] {
      var n := |readings| - 1;
      assert readings == readings[..n] + [readings[n]];
      HoldsResetExactly(readings[..n]);
    }
  }

  /** Readings of one window length whose resets lie within half a window of each other. */
  ghost predicate OneGeneration(readings: seq<Option<Source>>, mins: int) {
    && mins > 0
    && (forall i | 0 <= i < |readings| :: IsReading(readings[i], mins))
    && (forall i, j | 0 <= i < |readings| && 0 <= j < |readings| :: Near(readings[i], readings[j], mins))
  }

  ghost predicate IsReading(src: Option<Source>, mins: int) {
    src.Some? && src.value.pct.Some? && src.value.reset.Some? && src.value.mins == Some(mins)
  }

  ghost predicate Near(a: Option<Source>, b: Option<Source>, mins: int) {
    IsReading(a, mins) && IsReading(b, mins) ==>
      Abs(a.value.reset.value - b.value.reset.value) < (if mins * 30 > 60 then mins * 30 else 60)
  }

  /** The latest reset and the highest percentage of these readings, each of them one that was read. */
  ghost predicate Maximal(b: Option<Best>, readings: seq<Option<Source>>, mins: int) {
    && HasReset(b) && b.value.mins == Some(mins)
    && (forall i | 0 <= i < |readings| && IsReading(readings[i], mins) ::
          readings[i].value.reset.value <= b.value.reset.value && readings[i].value.pct.value <= b.value.pct)
    && (exists i :: 0 <= i < |readings| && IsReading(readings[i], mins) && readings[i].value.reset == b.value.reset)
    && (exists i :: 0 <= i < |readings| && IsReading(readings[i], mins) && readings[i].value.pct == Some(b.value.pct))
  }

  /** Within one generation the best is the maximum, however stale and however late a reading comes. */
  lemma {:induction false} GenerationMaximum(readings: seq<Option<Source>>, mins: int)
    requires OneGeneration(readings, mins) && readings != []
    ensures Maximal(BestOf(None, readings), readings, mins)
    decreases |readings|
  {
    var n := |readings| - 1;
    var before, last := readings[..n], readings[n];
    assert readings == before + [last];
    if n == 0 {
      assert BestOf(None, before) == None;
      assert readings[0] == last;
    } else {
      GenerationMaximum(before, mins);
      ReadOneMore(BestOf(None, before), before, last, mins);
    }
  }

  lemma BetterWithin(b: Best, s: Source, mins: int)
    requires mins > 0 && b.mins == Some(mins) && b.reset.Some?
    requires IsReading(Some(s), mins) && Abs(s.reset.value - b.reset.value) < HalfSpan(b, s)
    ensures Better(Some(b), Some(s)) == Some(Best(
              if s.reset.value > b.reset.value then s.reset else b.reset, Some(mins),
              if s.pct.value > b.pct then s.pct.value else b.pct))
  {
  }

  lemma ReadOneMore(b: Option<Best>, before: seq<Option<Source>>, last: Option<Source>, mins: int)
    requires Maximal(b, before, mins) && OneGeneration(before + [last], mins)
    ensures Maximal(Better(b, last), before + [last], mins)
  {
    var all, n := before + [last], |before|;
    assert all[n] == last && forall i | 0 <= i < n :: all[i] == before[i];
    var r :| 0 <= r < n && IsReading(before[r], mins) && before[r].value.reset == b.value.reset;
    var p :| 0 <= p < n && IsReading(before[p], mins) && before[p].value.pct == Some(b.value.pct);
    assert Near(all[r], all[n], mins) && IsReading(all[n], mins) && IsReading(all[p], mins);
    assert Abs(last.value.reset.value - b.value.reset.value) < HalfSpan(b.value, last.value);
    BetterWithin(b.value, last.value, mins);
    hide Better, HalfSpan, Abs, Near;
  }

  /** So two sessions' readings of one generation give the same whichever order they land in. */
  lemma OrderDoesNotMatter(a: seq<Option<Source>>, b: seq<Option<Source>>, mins: int)
    requires OneGeneration(a, mins) && multiset(a) == multiset(b)
    ensures BestOf(None, a) == BestOf(None, b)
  {
    assert |a| == |multiset(a)| == |multiset(b)| == |b|;
    assert forall s :: s in a <==> s in multiset(a);
    assert forall s :: s in b <==> s in multiset(b);
    if a != [] {
      SameGeneration(a, b, mins);
      GenerationMaximum(a, mins);
      GenerationMaximum(b, mins);
      hide *;
      SameMaximum(BestOf(None, a), BestOf(None, b), a, b, mins);
    }
  }

  lemma SameGeneration(a: seq<Option<Source>>, b: seq<Option<Source>>, mins: int)
    requires OneGeneration(a, mins) && forall s :: s in a <==> s in b
    ensures OneGeneration(b, mins)
  {
    hide IsReading, Near;
    forall i | 0 <= i < |b| ensures IsReading(b[i], mins) {
      assert b[i] in a;
    }
    forall i, j | 0 <= i < |b| && 0 <= j < |b| ensures Near(b[i], b[j], mins) {
      assert b[i] in a && b[j] in a;
    }
  }

  lemma SameMaximum(x: Option<Best>, y: Option<Best>, a: seq<Option<Source>>, b: seq<Option<Source>>, mins: int)
    requires Maximal(x, a, mins) && Maximal(y, b, mins)
    requires forall s :: s in a <==> s in b
    ensures x == y
  {
    AtMost(x, y, a, b, mins);
    AtMost(y, x, b, a, mins);
  }

  lemma AtMost(x: Option<Best>, y: Option<Best>, a: seq<Option<Source>>, b: seq<Option<Source>>, mins: int)
    requires Maximal(x, a, mins) && Maximal(y, b, mins)
    requires forall s :: s in a ==> s in b
    ensures x.value.reset.value <= y.value.reset.value && x.value.pct <= y.value.pct
  {
    var r :| 0 <= r < |a| && IsReading(a[r], mins) && a[r].value.reset == x.value.reset;
    var p :| 0 <= p < |a| && IsReading(a[p], mins) && a[p].value.pct == Some(x.value.pct);
    assert a[r] in b && a[p] in b;
    var i :| 0 <= i < |b| && b[i] == a[r];
    var j :| 0 <= j < |b| && b[j] == a[p];
  }
}
