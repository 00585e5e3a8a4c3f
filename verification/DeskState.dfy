/** The client half: what a desktop does with a server's reply, and how a close reaches every device. */
module DeskState {
  import opened Options
  import opened Desktop

  /** What a reply lists for an app; anything but an array names nobody. */
  datatype Listing = NotAnArray | Ids(ids: seq<Inst>)

  /** `close_targets` as it came, in the object's own order, or None for anything but an object. */
  type Reply = Option<seq<(App, Listing)>>

  function ClosesIn(entries: seq<(App, Listing)>, i: Inst, open: seq<App>): seq<App>
    decreases |entries|
  {
    if entries == [] then []
    else
      var n := |entries| - 1;
      var (app, l) := entries[n];
      ClosesIn(entries[..n], i, open) + (if l.Ids? && i in l.ids && app in open then [app] else [])
  }

  function CloseTargetsFor(reply: Reply, i: Inst, open: seq<App>): seq<App> {
    if reply.None? then [] else ClosesIn(reply.value, i, open)
  }

  ghost predicate Names(reply: Reply, app: App, i: Inst) {
    reply.Some? && exists k :: 0 <= k < |reply.value| && NamesAt(reply.value[k], app, i)
  }

  ghost predicate NamesAt(entry: (App, Listing), app: App, i: Inst) {
    entry.0 == app && entry.1.Ids? && i in entry.1.ids
  }

  lemma NamesMeans(entry: (App, Listing), app: App, i: Inst)
    ensures NamesAt(entry, app, i) <==> entry.0 == app && entry.1.Ids? && i in entry.1.ids
  {
  }

  lemma {:induction false} ClosesInExact(entries: seq<(App, Listing)>, i: Inst, open: seq<App>, app: App)
    ensures app in ClosesIn(entries, i, open)
            <==> app in open && exists k :: 0 <= k < |entries| && NamesAt(entries[k], app, i)
    decreases |entries|
  {
    hide NamesAt;
    if entries != [] {
      var n := |entries| - 1;
      NamesMeans(entries[n], app, i);
      ClosesInExact(entries[..n], i, open, app);
      var before := ClosesIn(entries[..n], i, open);
      assert app in ClosesIn(entries, i, open) <==> app in before || (NamesAt(entries[n], app, i) && app in open);
      hide ClosesIn;
      assert forall k | 0 <= k < n :: entries[..n][k] == entries[k];
    }
  }

  /** An instance closes exactly the apps that it is named for and has open. */
  lemma ClosesExact(reply: Reply, i: Inst, open: seq<App>, app: App)
    ensures app in CloseTargetsFor(reply, i, open) <==> app in open && Names(reply, app, i)
  {
    if reply.Some? { ClosesInExact(reply.value, i, open, app); }
  }

  function Without(open: seq<App>, closed: seq<App>): (r: seq<App>)
    ensures forall app :: app in r <==> app in open && app !in closed
    decreases |open|
  {
    if open == [] then []
    else
      var n := |open| - 1;
      assert open == open[..n] + [open[n]];
      Without(open[..n], closed) + (if open[n] in closed then [] else [open[n]])
  }

  /** The open set after acting on a reply. */
  function Honour(reply: Reply, i: Inst, open: seq<App>): seq<App> {
    Without(open, CloseTargetsFor(reply, i, open))
  }

  /** The reply says what the server holds. */
  ghost predicate Tells(reply: Reply, targets: map<App, set<Inst>>) {
    forall app, i :: Names(reply, app, i) <==> i in TargetsOf(targets, app)
  }

  lemma HonourLetsGo(reply: Reply, targets: map<App, set<Inst>>, i: Inst, open: seq<App>, app: App)
    requires Tells(reply, targets) && i in TargetsOf(targets, app)
    ensures app !in Honour(reply, i, open)
  {
    ClosesExact(reply, i, open, app);
  }

  // ---- A close reaches everyone ---------------------------------------------------

  /** In these events the instance saves what it has open after honouring a reply. */
  ghost predicate Honours(after: seq<Event>, targets: map<App, set<Inst>>, i: Inst) {
    exists m: nat, reply, open :: HonoursAt(after, m, targets, i, reply, open)
  }

  ghost predicate HonoursAt(after: seq<Event>, m: nat, targets: map<App, set<Inst>>, i: Inst, reply: Reply, open: seq<App>) {
    m < |after| && Tells(reply, targets)
    && after[m].Save? && after[m].inst == i && after[m].open == Honour(reply, i, open)
  }

  ghost predicate Quiet(after: seq<Event>, i: Inst) {
    forall m: nat | m < |after| :: (after[m].Save? || after[m].Load?) ==> after[m].inst != i
  }

  /** It is not heard of, and some request comes once it has been silent past the TTL. */
  ghost predicate Silent(after: seq<Event>, d: Desk, i: Inst) {
    Quiet(after, i) && exists m: nat :: m < |after| && Outlives(after[m], d, i)
  }

  ghost predicate Outlives(e: Event, d: Desk, i: Inst) {
    !e.Peek? && (!e.Reset? ==> i in d.insts ==> e.now - d.insts[i].ts > TTL)
  }

  lemma {:induction false} QuietKeepsTime(before: seq<Event>, after: seq<Event>, i: Inst)
    requires Quiet(after, i)
    ensures var d, d' := Run(before), Run(before + after);
            i in d'.insts ==> i in d.insts && d'.insts[i].ts == d.insts[i].ts
    decreases |after|
  {
    hide Step;
    if after == [] {
      assert before + after == before;
    } else {
      var n := |after| - 1;
      assert (before + after)[..|before + after| - 1] == before + after[..n];
      assert forall m: nat | m < n :: after[..n][m] == after[m];
      QuietKeepsTime(before, after[..n], i);
      QuietStep(Run(before + after[..n]), after[n], i);
    }
  }

  lemma QuietStep(d: Desk, e: Event, i: Inst)
    requires (e.Save? || e.Load?) ==> e.inst != i
    ensures i in Step(d, e).insts ==> i in d.insts && Step(d, e).insts[i].ts == d.insts[i].ts
  {
  }

  lemma NamedEarlier(before: seq<Event>, after: seq<Event>, app: App, i: Inst, k: nat)
    requires NamedSince(before + after, k, app, i)
    requires forall m: nat | m < |after| && after[m].Close? :: after[m].app != app
    ensures i in TargetsOf(Run(before).targets, app)
  {
    hide HeldAfter;
    var events := before + after;
    forall m: nat | k <= m < |before| ensures HeldAfter(before, m, app, i) {
      assert events[..m + 1] == before[..m + 1];
      SameHeld(events, before, m, app, i);
    }
    assert NamedSince(before, k, app, i);
    NamedExact(before, app, i);
  }

  lemma SameHeld(a: seq<Event>, b: seq<Event>, m: nat, app: App, i: Inst)
    requires m < |a| && m < |b| && a[..m + 1] == b[..m + 1]
    ensures HeldAfter(a, m, app, i) == HeldAfter(b, m, app, i)
  {
    assert a[m] == a[..m + 1][m] == b[m];
  }

  lemma HonouredIsNotHeld(before: seq<Event>, after: seq<Event>, app: App, i: Inst) returns (at: nat)
    requires i in TargetsOf(Run(before).targets, app) && Honours(after, Run(before).targets, i)
    ensures |before| <= at < |before + after| && !HeldAfter(before + after, at, app, i)
  {
    hide Run, Step, Tells, Honour;
    var events := before + after;
    var m: nat, reply, open :| HonoursAt(after, m, Run(before).targets, i, reply, open);
    HonourLetsGo(reply, Run(before).targets, i, open, app);
    at := |before| + m;
    assert events[at] == after[m];
    RunStep(events, at);
    SavedOpen(Run(events[..at]), events[at]);
  }

  lemma RunStep(events: seq<Event>, at: nat)
    requires at < |events|
    ensures Run(events[..at + 1]) == Step(Run(events[..at]), events[at])
  {
    assert events[..at + 1][..at] == events[..at];
  }

  lemma SilentIsNotHeld(before: seq<Event>, after: seq<Event>, app: App, i: Inst) returns (at: nat)
    requires Silent(after, Run(before), i)
    ensures |before| <= at < |before + after| && !HeldAfter(before + after, at, app, i)
  {
    hide Run, Step;
    var events := before + after;
    var m: nat :| m < |after| && Outlives(after[m], Run(before), i);
    at := |before| + m;
    assert events[at] == after[m];
    assert events[..at + 1] == before + after[..m + 1];
    assert Quiet(after[..m + 1], i) by {
      assert forall j: nat | j < m + 1 :: after[..m + 1][j] == after[j];
    }
    QuietKeepsTime(before, after[..m + 1], i);
  }

  /** Once an instance has honoured or outstayed a close, it is no longer named. */
  lemma LetGo(before: seq<Event>, after: seq<Event>, app: App, i: Inst, k: nat)
    requires k < |before| && i in TargetsOf(Run(before).targets, app)
    requires Honours(after, Run(before).targets, i) || Silent(after, Run(before), i)
    ensures !NamedSince(before + after, k, app, i)
  {
    hide HeldAfter, Run;
    if Honours(after, Run(before).targets, i) {
      var at := HonouredIsNotHeld(before, after, app, i);
    } else {
      var at := SilentIsNotHeld(before, after, app, i);
    }
  }

  /**
   A close converges: if nobody asks again, then once every instance named for the app has saved
   after honouring a reply, or stayed silent past the TTL until some request, nobody is named.
   */
  lemma CloseConverges(before: seq<Event>, after: seq<Event>, app: App)
    requires forall m: nat | m < |after| && after[m].Close? :: after[m].app != app
    requires forall i | i in TargetsOf(Run(before).targets, app) ::
               Honours(after, Run(before).targets, i) || Silent(after, Run(before), i)
    ensures app !in Run(before + after).targets
  {
    hide Run, HeldAfter, Honours, Silent;
    var events := before + after;
    forall i ensures i !in TargetsOf(Run(events).targets, app) {
      if i in TargetsOf(Run(events).targets, app) {
        NamedExact(events, app, i);
        var k: nat :| NamedSince(events, k, app, i);
        NamedEarlier(before, after, app, i, k);
        assert k < |before|;
        LetGo(before, after, app, i, k);
      }
    }
    assert TargetsOf(Run(events).targets, app) == {};
    NobodyUnnamed(events, app);
  }

  /** The registry never lists an app for nobody. */
  lemma {:induction false} NobodyUnnamed(events: seq<Event>, app: App)
    ensures app in Run(events).targets ==> Run(events).targets[app] != {}
    decreases |events|
  {
    if events != [] { NobodyUnnamed(events[..|events| - 1], app); }
  }

  // ---- Logging out everywhere ---------------------------------------------------------

  datatype Decision = Nothing | Baseline | Clear

  /** `epoch` is None when the reply carries no number. */
  function ResetDecision(last: Option<int>, epoch: Option<int>): Decision {
    if epoch.None? then Nothing
    else if last.None? then Baseline
    else if epoch.value > last.value then Clear
    else Nothing
  }

  /** What a client remembers after these replies. */
  function LastEpoch(replies: seq<Option<int>>): Option<int>
    decreases |replies|
  {
    if replies == [] then None
    else
      var n := |replies| - 1;
      var last := LastEpoch(replies[..n]);
      if ResetDecision(last, replies[n]) == Nothing then last else replies[n]
  }

  function Clears(replies: seq<Option<int>>): nat
    decreases |replies|
  {
    if replies == [] then 0
    else
      var n := |replies| - 1;
      Clears(replies[..n]) + (if ResetDecision(LastEpoch(replies[..n]), replies[n]) == Clear then 1 else 0)
  }

  /** The remembered epoch is the newest seen, however late or out of order replies come. */
  lemma {:induction false} RemembersNewest(replies: seq<Option<int>>)
    ensures LastEpoch(replies).None? <==> forall k | 0 <= k < |replies| :: replies[k].None?
    ensures forall k | 0 <= k < |replies| && replies[k].Some? :: replies[k].value <= LastEpoch(replies).value
    ensures LastEpoch(replies).Some? ==> LastEpoch(replies) in replies
    decreases |replies|
  {
    if replies != [] {
      var n := |replies| - 1;
      RemembersNewest(replies[..n]);
      assert replies == replies[..n] + [replies[n]];
      assert forall k | 0 <= k < n :: replies[..n][k] == replies[k];
    }
  }

  /** A client clears on a reply exactly if its epoch is newer than every one it saw before, and it saw one. */
  lemma ClearExact(replies: seq<Option<int>>, n: nat)
    requires n < |replies|
    ensures ResetDecision(LastEpoch(replies[..n]), replies[n]) == Clear
            <==> && replies[n].Some? && (exists k :: 0 <= k < n && replies[k].Some?)
                 && forall k | 0 <= k < n && replies[k].Some? :: replies[n].value > replies[k].value
  {
    var before := replies[..n];
    RemembersNewest(before);
    assert forall k | 0 <= k < n :: before[k] == replies[k];
    if LastEpoch(before).Some? {
      var k :| 0 <= k < n && before[k] == LastEpoch(before);
      assert replies[k].Some?;
    }
  }

  /** A client that saw some reply clears at most once per reset made since the oldest epoch it saw. */
  lemma {:induction false} ClearsPerReset(replies: seq<Option<int>>, first: int)
    requires forall k | 0 <= k < |replies| && replies[k].Some? :: replies[k].value >= first
    ensures LastEpoch(replies).None? ==> Clears(replies) == 0
    ensures LastEpoch(replies).Some? ==> Clears(replies) <= LastEpoch(replies).value - first
    decreases |replies|
  {
    if replies != [] {
      var n := |replies| - 1;
      assert forall k | 0 <= k < n :: replies[..n][k] == replies[k];
      ClearsPerReset(replies[..n], first);
    }
  }

  function Resets(events: seq<Event>): nat
    decreases |events|
  {
    if events == [] then 0
    else Resets(events[..|events| - 1]) + (if events[|events| - 1].Reset? then 1 else 0)
  }

  lemma {:induction false} EpochCountsResets(events: seq<Event>)
    ensures Run(events).epoch == Resets(events)
    decreases |events|
  {
    if events != [] { EpochCountsResets(events[..|events| - 1]); }
  }
}
