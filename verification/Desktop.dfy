/**
 Closing an app on all devices: the server's registry of desktop instances and of who should close
 what, and the client's reading of a reply.
 */
module Desktop {
  import opened Options

  type Inst = string
  type App = string

  /** What an instance last reported, and when it was last heard of. */
  datatype Ent = Ent(open: seq<App>, ts: real)

  datatype Desk = Desk(insts: map<Inst, Ent>, targets: map<App, set<Inst>>, epoch: nat)

  const FRESH := Desk(map[], map[], 0)

  const TTL := 120.0
  const MAX_INSTANCES := 24

  datatype Event =
    | Save(inst: Inst, open: seq<App>, now: real, keep: set<Inst>)
    | Load(inst: Inst, now: real, keep: set<Inst>)
    | Peek                         // a load that names no instance
    | Close(app: App, now: real)
    | Reset

  // ---- The server half -------------------------------------------------------------

  /** Heard of within the TTL, with the app open. */
  predicate Holding(insts: map<Inst, Ent>, i: Inst, app: App, now: real) {
    i in insts && now - insts[i].ts <= TTL && app in insts[i].open
  }

  function Holders(insts: map<Inst, Ent>, app: App, now: real): (s: set<Inst>)
    ensures forall i :: i in s <==> Holding(insts, i, app, now)
  {
    set i | i in insts && Holding(insts, i, app, now)
  }

  function TargetsOf(targets: map<App, set<Inst>>, app: App): set<Inst> {
    if app in targets then targets[app] else {}
  }

  function PruneTargets(d: Desk, now: real): Desk {
    d.(targets := map app | app in d.targets && d.targets[app] * Holders(d.insts, app, now) != {} ::
                    d.targets[app] * Holders(d.insts, app, now))
  }

  /** The most recently seen instances, when there are too many. */
  predicate CapKeeps(insts: map<Inst, Ent>, keep: set<Inst>) {
    |insts| > MAX_INSTANCES ==>
      && keep <= insts.Keys && |keep| == MAX_INSTANCES
      && forall i, j | i in keep && j in insts && j !in keep :: insts[j].ts <= insts[i].ts
  }

  function Cap(insts: map<Inst, Ent>, keep: set<Inst>): map<Inst, Ent> {
    if |insts| > MAX_INSTANCES then map i | i in insts && i in keep :: insts[i] else insts
  }

  function Heartbeat(d: Desk, i: Inst, ent: Ent, now: real, keep: set<Inst>): Desk {
    PruneTargets(d.(insts := Cap(d.insts[i := ent], keep)), now)
  }

  function Rejoined(d: Desk, i: Inst, now: real): Ent {
    Ent(if i in d.insts then d.insts[i].open else [], now)
  }

  function Closing(d: Desk, app: App, now: real): Desk {
    var holders := Holders(d.insts, app, now);
    var asked := if holders == {} then d.targets else d.targets[app := TargetsOf(d.targets, app) + holders];
    PruneTargets(d.(targets := asked), now)
  }

  function Step(d: Desk, e: Event): Desk {
    match e
    case Save(i, open, now, keep) => Heartbeat(d, i, Ent(open, now), now, keep)
    case Load(i, now, keep) => Heartbeat(d, i, Rejoined(d, i, now), now, keep)
    case Peek => d
    case Close(app, now) => Closing(d, app, now)
    case Reset => Desk(map[], map[], d.epoch + 1)
  }

  function Run(events: seq<Event>): Desk
    decreases |events|
  {
    if events == [] then FRESH else Step(Run(events[..|events| - 1]), events[|events| - 1])
  }

  /** Every cap in the run kept most recently seen instances. */
  predicate Capped(events: seq<Event>)
    decreases |events|
  {
    events == [] || (
      var before, e := Run(events[..|events| - 1]), events[|events| - 1];
      && Capped(events[..|events| - 1])
      && (e.Save? ==> CapKeeps(before.insts[e.inst := Ent(e.open, e.now)], e.keep))
      && (e.Load? ==> CapKeeps(before.insts[e.inst := Rejoined(before, e.inst, e.now)], e.keep)))
  }

  // ---- Who is named ------------------------------------------------------------------

  /** After the m-th event, the instance still held the app. */
  ghost predicate HeldAfter(events: seq<Event>, m: nat, app: App, i: Inst)
    requires m < |events|
  {
    match events[m]
    case Reset => false
    case Peek => true
    case Save(_, _, now, _) => Holding(Run(events[..m + 1]).insts, i, app, now)
    case Load(_, now, _) => Holding(Run(events[..m + 1]).insts, i, app, now)
    case Close(_, now) => Holding(Run(events[..m + 1]).insts, i, app, now)
  }

  /** The k-th event asked to close the app, and the instance held it then and after every event since. */
  ghost predicate NamedSince(events: seq<Event>, k: nat, app: App, i: Inst) {
    && k < |events| && events[k].Close? && events[k].app == app
    && forall m: nat | k <= m < |events| :: HeldAfter(events, m, app, i)
  }

  lemma StepTargets(d: Desk, e: Event, app: App, i: Inst)
    requires !e.Reset? && !e.Peek?
    ensures var now := e.now;
            i in TargetsOf(Step(d, e).targets, app) <==>
              && Holding(Step(d, e).insts, i, app, now)
              && (i in TargetsOf(d.targets, app) || (e.Close? && e.app == app))
  {
    hide Cap, Rejoined;
    var before := match e
      case Save(inst, open, now, keep) => d.(insts := Cap(d.insts[inst := Ent(open, now)], keep))
      case Load(inst, now, keep) => d.(insts := Cap(d.insts[inst := Rejoined(d, inst, now)], keep))
      case Close(a, now) =>
        var holders := Holders(d.insts, a, now);
        if holders == {} then d else d.(targets := d.targets[a := TargetsOf(d.targets, a) + holders])
      case _ => d;
    assert Step(d, e) == PruneTargets(before, e.now);
    PrunedTargets(before, e.now, app, i);
  }

  lemma PrunedTargets(d: Desk, now: real, app: App, i: Inst)
    ensures i in TargetsOf(PruneTargets(d, now).targets, app)
            <==> i in TargetsOf(d.targets, app) && Holding(d.insts, i, app, now)
  {
    if i in TargetsOf(d.targets, app) && Holding(d.insts, i, app, now) {
      assert i in d.targets[app] * Holders(d.insts, app, now);
    }
  }

  lemma HeldInPrefix(events: seq<Event>, m: nat, app: App, i: Inst)
    requires m + 1 < |events|
    ensures HeldAfter(events[..|events| - 1], m, app, i) == HeldAfter(events, m, app, i)
  {
    assert events[..|events| - 1][..m + 1] == events[..m + 1];
  }

  lemma LastHeld(events: seq<Event>, app: App, i: Inst)
    requires events != [] && !events[|events| - 1].Reset? && !events[|events| - 1].Peek?
    ensures HeldAfter(events, |events| - 1, app, i)
            <==> Holding(Run(events).insts, i, app, events[|events| - 1].now)
  {
    assert events[..|events|] == events;
  }

  /**
   An instance is named for an app exactly when some close request found it holding the app and it
   held it, was live and was not evicted after every event since.
   */
  lemma {:induction false} NamedExact(events: seq<Event>, app: App, i: Inst)
    ensures i in TargetsOf(Run(events).targets, app) <==> exists k: nat :: NamedSince(events, k, app, i)
    decreases |events|
  {
    hide Step, HeldAfter;
    if events == [] {
      assert Run(events) == FRESH;
    } else {
      var n := |events| - 1;
      var before, e := events[..n], events[n];
      NamedExact(before, app, i);
      if e.Reset? {
        assert Run(events).targets == map[] by { ResetClears(Run(before)); }
        assert !HeldAfter(events, n, app, i) by { NotHeldAtReset(events, app, i); }
      } else {
        if e.Peek? {
          PeekKeeps(Run(before));
          HeldAtPeek(events, app, i);
        } else {
          StepTargets(Run(before), e, app, i);
          LastHeld(events, app, i);
        }
        if HeldAfter(events, n, app, i) {
          forall k: nat ensures k < n ==> NamedSince(events, k, app, i) == NamedSince(before, k, app, i) {
            forall m: nat | m < n ensures HeldAfter(events, m, app, i) == HeldAfter(before, m, app, i) {
              HeldInPrefix(events, m, app, i);
            }
          }
          if e.Close? && e.app == app { assert NamedSince(events, n, app, i); }
          if exists k: nat :: NamedSince(before, k, app, i) {
            var k: nat :| NamedSince(before, k, app, i);
            assert NamedSince(events, k, app, i);
          }
        }
      }
    }
  }

  lemma ResetClears(d: Desk)
    ensures Step(d, Reset).targets == map[]
  {
  }

  lemma PeekKeeps(d: Desk)
    ensures Step(d, Peek) == d
  {
  }

  lemma NotHeldAtReset(events: seq<Event>, app: App, i: Inst)
    requires events != [] && events[|events| - 1].Reset?
    ensures !HeldAfter(events, |events| - 1, app, i)
  {
  }

  lemma HeldAtPeek(events: seq<Event>, app: App, i: Inst)
    requires events != [] && events[|events| - 1].Peek?
    ensures HeldAfter(events, |events| - 1, app, i)
  {
  }

  /** A named instance was asked, and every save it has made since then still listed the app. */
  lemma NamedStillLists(events: seq<Event>, app: App, i: Inst)
    requires i in TargetsOf(Run(events).targets, app)
    ensures exists k: nat ::
              && NamedSince(events, k, app, i)
              && forall m: nat | k < m < |events| && events[m].Save? && events[m].inst == i :: app in events[m].open
  {
    NamedExact(events, app, i);
    var k: nat :| NamedSince(events, k, app, i);
    forall m: nat | k < m < |events| && events[m].Save? && events[m].inst == i ensures app in events[m].open {
      assert HeldAfter(events, m, app, i);
      assert events[..m + 1][..m] == events[..m];
      SavedOpen(Run(events[..m]), events[m]);
    }
  }

  lemma SavedOpen(d: Desk, e: Event)
    requires e.Save?
    ensures var after := Step(d, e).insts;
            e.inst in after ==> after[e.inst].open == e.open
  {
  }

  // ---- Who is known --------------------------------------------------------------------

  /** What this event makes of the instance it names: a save says what is open, a load only that it is there. */
  function Reported(d: Desk, e: Event): Ent
    requires e.Save? || e.Load?
  {
    if e.Save? then Ent(e.open, e.now) else Ent(if e.inst in d.insts then d.insts[e.inst].open else [], e.now)
  }

  /**
   A save or a load adds its instance and changes no other. Up to 24 instances all are kept; of more, 24 are,
   none of them seen earlier than one that is dropped.
   */
  lemma HeardExact(d: Desk, e: Event)
    requires (e.Save? || e.Load?) && CapKeeps(d.insts[e.inst := Reported(d, e)], e.keep)
    ensures var all, known := d.insts[e.inst := Reported(d, e)], Step(d, e).insts;
            && (forall i | i in known :: i in all && known[i] == all[i])
            && (if |all| <= 24 then known == all
                else |known| == 24 && forall i, j | i in known && j in all && j !in known :: all[j].ts <= all[i].ts)
            && Step(d, e).epoch == d.epoch
  {
    var all := d.insts[e.inst := Reported(d, e)];
    var known := Step(d, e).insts;
    assert known == Cap(all, e.keep);
    if |all| > MAX_INSTANCES { assert known.Keys == e.keep; }
  }

  /** A close or a look changes no instance; a reset forgets them all. */
  lemma OthersExact(d: Desk, e: Event)
    ensures e.Close? ==> Step(d, e).insts == d.insts && Step(d, e).epoch == d.epoch
    ensures e.Peek? ==> Step(d, e) == d
    ensures e.Reset? ==> Step(d, e) == Desk(map[], map[], d.epoch + 1)
  {
  }

  /** The m-th event was the instance's last save, and no reset came after it. */
  ghost predicate LastSave(events: seq<Event>, m: nat, i: Inst) {
    && m < |events| && events[m].Save? && events[m].inst == i
    && forall k: nat | m < k < |events| :: !events[k].Reset? && (events[k].Save? ==> events[k].inst != i)
  }

  /** The m-th event was the last that was heard of the instance, and no reset came after it. */
  ghost predicate LastHeard(events: seq<Event>, m: nat, i: Inst) {
    && m < |events| && (events[m].Save? || events[m].Load?) && events[m].inst == i
    && forall k: nat | m < k < |events| :: !events[k].Reset? && (events[k].Save? || events[k].Load? ==> events[k].inst != i)
  }

  lemma LastSaveMore(events: seq<Event>, m: nat, i: Inst)
    requires events != [] && LastSave(events[..|events| - 1], m, i)
    requires var e := events[|events| - 1]; !e.Reset? && (e.Save? ==> e.inst != i)
    ensures LastSave(events, m, i)
  {
    var n := |events| - 1;
    forall k: nat | m < k < |events| ensures !events[k].Reset? && (events[k].Save? ==> events[k].inst != i) {
      if k < n { assert events[..n][k] == events[k]; }
    }
  }

  lemma LastHeardMore(events: seq<Event>, m: nat, i: Inst)
    requires events != [] && LastHeard(events[..|events| - 1], m, i)
    requires var e := events[|events| - 1]; !e.Reset? && (e.Save? || e.Load? ==> e.inst != i)
    ensures LastHeard(events, m, i)
  {
    var n := |events| - 1;
    forall k: nat | m < k < |events|
      ensures !events[k].Reset? && (events[k].Save? || events[k].Load? ==> events[k].inst != i)
    {
      if k < n { assert events[..n][k] == events[k]; }
    }
  }

  lemma StepKnows(d: Desk, e: Event, i: Inst)
    requires i in Step(d, e).insts
    ensures !e.Reset?
    ensures var ent := Step(d, e).insts[i];
            if (e.Save? || e.Load?) && e.inst == i then ent == Reported(d, e) else i in d.insts && ent == d.insts[i]
  {
  }

  /**
   What the server believes of an instance is what it heard: it was last heard of at that time, and what it is
   said to have open, unless nothing, is what its own last save listed.
   */
  lemma {:induction false} BelievesWhatItHeard(events: seq<Event>, i: Inst)
    requires i in Run(events).insts
    ensures var ent := Run(events).insts[i];
            && (exists m: nat :: LastHeard(events, m, i) && events[m].now == ent.ts)
            && (ent.open != [] ==> exists m: nat :: LastSave(events, m, i) && events[m].open == ent.open)
    decreases |events|
  {
    hide Step;
    var n := |events| - 1;
    var before, e := events[..n], events[n];
    StepKnows(Run(before), e, i);
    if (e.Save? || e.Load?) && e.inst == i {
      assert LastHeard(events, n, i);
      if e.Save? {
        assert LastSave(events, n, i);
      } else if Reported(Run(before), e).open != [] {
        BelievesWhatItHeard(before, i);
        var m: nat :| LastSave(before, m, i) && before[m].open == Run(before).insts[i].open;
        LastSaveMore(events, m, i);
      }
    } else {
      BelievesWhatItHeard(before, i);
      var h: nat :| LastHeard(before, h, i) && before[h].now == Run(before).insts[i].ts;
      LastHeardMore(events, h, i);
      if Run(before).insts[i].open != [] {
        var m: nat :| LastSave(before, m, i) && before[m].open == Run(before).insts[i].open;
        LastSaveMore(events, m, i);
      }
    }
  }
}
