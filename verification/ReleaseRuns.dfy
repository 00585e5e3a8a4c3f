/** The commit marker over a history of releases: each upgrade starts a new manager process. */
module ReleaseRuns {
  import opened CommitMarker
  import opened Options

  datatype Release = Release(revision: nat, code: nat)

  function Upgrade(m: Runtime, r: Release): Runtime {
    Restart(m).(revision := r.revision, code := r.code)
  }

  type Ops = seq<(Op, seq<Fate>)>

  /** After the first `n` releases, each with its own operations and failures. */
  function After(m: Runtime, releases: seq<Release>, ops: seq<Ops>, n: nat): Runtime
    requires n <= |releases| == |ops|
  {
    if n == 0 then m else RunAll(Upgrade(After(m, releases, ops, n - 1), releases[n - 1]), ops[n - 1])
  }

  ghost predicate HonestStarts(m: Runtime) { forall i | 0 <= i < |m.starts| :: m.starts[i] }

  /** Every start found one secret in both files, and so will any start by a connection. */
  ghost predicate Honest(m: Runtime) { HonestStarts(m) && (m.listener ==> OneSecret(m)) }

  /** Once another release has been installed, none comes back. */
  ghost predicate NeverReturns(releases: seq<Release>) {
    forall i, j, k | 0 <= i < j < k < |releases| && releases[i] == releases[k] :: releases[j] == releases[k]
  }

  // ---- Releases that never come back ------------------------------------------------

  function Current(m: Runtime): Release { Release(m.revision, m.code) }

  /** The marker is as it was, or one of the running release. */
  ghost predicate Stamped(m: Runtime, m': Runtime) {
    && Current(m') == Current(m)
    && (m'.rewrite == m.rewrite
        || (m'.rewrite.Some? && Release(m'.rewrite.value.revision, m'.rewrite.value.code) == Current(m)))
  }

  lemma DoStamps(m: Runtime, a: Action)
    requires a.WriteRewrite? ==> Release(a.marker.revision, a.marker.code) == Current(m)
    ensures Stamped(m, Do(m, a))
  {
  }

  lemma PrepareStamps(m: Runtime)
    ensures Stamped(m, Prepare(m))
  {
    hide Do;
    var m0 := m.(nextSecret := m.nextSecret + 1);
    var m1 := Do(m0, WriteEgress(m.nextSecret));
    DoStamps(m0, WriteEgress(m.nextSecret));
    DoStamps(m1, WriteUnit);
    var m2 := Do(m1, WriteUnit);
    DoStamps(m2, WriteUnit);
    var m3 := Do(m2, WriteUnit);
    DoStamps(m3, WriteUnit);
    var m4 := Do(m3, WriteUnit);
    DoStamps(m4, WriteUnit);
    var m5 := Do(m4, WriteUnit);
    DoStamps(m5, Reload);
    var m6 := Do(m5, Reload);
    DoStamps(m6, WriteRewrite(Marker(m6.current, m6.revision, m6.code, m.nextSecret)));
  }

  lemma StopStamps(m: Runtime)
    ensures Stamped(m, Do(Do(m, StopSockets), StopServices))
  {
    hide Do;
    DoStamps(m, StopSockets);
    DoStamps(Do(m, StopSockets), StopServices);
  }

  lemma EnsureStamps(m: Runtime, claims: Identity, live: bool)
    ensures Stamped(m, Ensure(m, claims, live))
  {
    hide Do, Prepare;
    var m0 := m.(ready := None);
    StopStamps(m0);
    var m1 := if m.rewrite.Some? then Do(Do(m0, StopSockets), StopServices) else m0;
    PrepareStamps(m1);
    DoStamps(m, StartAll);
    DoStamps(Replace(m), StartAll);
  }

  lemma StepStamps(m: Runtime, op: Op, fates: seq<Fate>)
    ensures Stamped(m, Step(m, op, fates))
  {
    hide Do, Ensure;
    var m0 := m.(raised := false, fates := fates);
    match op
    case DoEnsure(claims, live) => EnsureStamps(m0, claims, live);
    case DoRoute(_, _) =>
    case DoRevoke(_) =>
      var epoch := m0.current.epoch + 1;
      StopStamps(m0.(current := m0.current.(epoch := epoch), stored := epoch, ready := None));
    case DoStop => StopStamps(m0.(ready := None));
    case DoRestart =>
  }

  lemma {:induction false} RunStamps(m: Runtime, ops: Ops)
    ensures Stamped(m, RunAll(m, ops))
    decreases |ops|
  {
    if ops != [] {
      StepStamps(m, ops[0].0, ops[0].1);
      hide Step;
      RunStamps(Step(m, ops[0].0, ops[0].1), ops[1..]);
    }
  }

  /** The marker's release is one of the first `n`. */
  ghost predicate Seen(m: Runtime, releases: seq<Release>, n: nat) {
    m.rewrite.Some? ==>
      exists i :: 0 <= i < n && i < |releases| && releases[i] == Release(m.rewrite.value.revision, m.rewrite.value.code)
  }

  lemma UpgradeKeeps(m: Runtime, r: Release)
    requires Inv(m) && (m.rewrite.Some? && Release(m.rewrite.value.revision, m.rewrite.value.code) == r ==> Current(m) == r)
    ensures Inv(Upgrade(m, r))
  {
  }

  lemma {:induction false} NewReleasesKeep(m: Runtime, releases: seq<Release>, ops: seq<Ops>, n: nat)
    requires n <= |releases| == |ops| && NeverReturns(releases) && Inv(m) && m.rewrite.None?
    ensures var m' := After(m, releases, ops, n);
            Inv(m') && Seen(m', releases, n) && (n > 0 ==> Current(m') == releases[n - 1])
  {
    if n > 0 {
      NewReleasesKeep(m, releases, ops, n - 1);
      var before, r := After(m, releases, ops, n - 1), releases[n - 1];
      hide Inv, RunAll;
      UpgradeKeeps(before, r);
      var upgraded := Upgrade(before, r);
      RunKeeps(upgraded, ops[n - 1]);
      RunStamps(upgraded, ops[n - 1]);
    }
  }

  // ---- A release that comes back ---------------------------------------------------

  /** Releases without operations change nothing but which release is installed. */
  lemma {:induction false} IdleReleases(m: Runtime, releases: seq<Release>, ops: seq<Ops>, from: nat, end: nat)
    requires from < end <= |releases| == |ops| && forall n | from <= n < end :: ops[n] == []
    ensures After(m, releases, ops, end) == Upgrade(After(m, releases, ops, from), releases[end - 1])
    decreases end
  {
    if from + 1 < end {
      IdleReleases(m, releases, ops, from, end - 1);
    }
  }

  /** Just before the n-th release runs, when nothing has happened since the `from`-th one ended. */
  lemma Idle(m: Runtime, releases: seq<Release>, ops: seq<Ops>, from: nat, n: nat)
    requires from <= n < |releases| == |ops| && forall k | from <= k < n :: ops[k] == []
    ensures Upgrade(After(m, releases, ops, n), releases[n])
            == Upgrade(After(m, releases, ops, from), releases[n])
  {
    if from < n { IdleReleases(m, releases, ops, from, n); }
  }

  const GOOD: seq<Fate> := [Done, Done, Done, Done, Done, Done, Done, Done]
  const BAD: seq<Fate> := [Done, Done, Done, Raises(false)]

  function OneOp(id: Identity, fates: seq<Fate>): Ops { [(DoEnsure(id, true), fates)] }

  lemma RunOne(m: Runtime, id: Identity, fates: seq<Fate>)
    ensures RunAll(m, OneOp(id, fates)) == Ensure(m.(raised := false, fates := fates), id, true)
  {
    var ops := OneOp(id, fates);
    assert ops[1..] == [];
    assert RunAll(m, ops) == RunAll(Step(m, ops[0].0, ops[0].1), ops[1..]);
  }

  lemma FirstActivation(m: Runtime, id: Identity)
    requires m.rewrite.None? && m.ready.None? && !m.failed && m.current == id
    ensures var m' := RunAll(m, OneOp(id, GOOD));
            && m'.stored == m.stored && m'.egress == Some(m.nextSecret) && m'.nextSecret == m.nextSecret + 1 && m'.current == id
            && m'.rewrite == Some(Marker(id, m.revision, m.code, m.nextSecret))
  {
    hide Do, Prepare;
    RunOne(m, id, GOOD);
    var m0 := m.(raised := false, fates := GOOD);
    PrepareDone(m0);
    DoDone(Prepare(m0), StartAll, 1);
    assert m0.(ready := None) == m0;
  }

  lemma FailedUpgrade(m: Runtime, id: Identity)
    requires m.rewrite.Some? && m.ready.None? && !m.failed && m.current == id && !Marked(m, id)
    ensures var m' := RunAll(m, OneOp(id, BAD));
            m'.egress == Some(m.nextSecret) && m'.rewrite == m.rewrite && m'.current == id && m'.stored == m.stored
  {
    RunOne(m, id, BAD);
    FailsAfterEgress(m.(raised := false, fates := BAD), id);
  }

  lemma DishonestStart(m: Runtime, id: Identity)
    requires m.ready.None? && !m.failed && m.current == id && Marked(m, id) && !OneSecret(m)
    ensures !HonestStarts(RunAll(m, OneOp(id, GOOD)))
  {
    hide Do;
    RunOne(m, id, GOOD);
    var m0 := m.(raised := false, fates := GOOD);
    DoDone(m0, StartAll, 8);
    var m' := RunAll(m, OneOp(id, GOOD));
    assert m'.starts[|m'.starts| - 1] == OneSecret(m0);
  }

  lemma {:induction false} StartsStay(m: Runtime, releases: seq<Release>, ops: seq<Ops>, n: nat)
    requires n < |releases| == |ops| && forall k | n < k < |releases| :: ops[k] == []
    ensures After(m, releases, ops, |releases|).starts == After(m, releases, ops, n + 1).starts
  {
    if n + 1 < |releases| { IdleReleases(m, releases, ops, n + 1, |releases|); }
  }

  /** Activate the i-th release, fail to activate the j-th, activate the k-th; nothing else happens. */
  function ReturnOps(id: Identity, count: nat, i: nat, j: nat, k: nat): (ops: seq<Ops>)
    ensures |ops| == count
    ensures forall n | 0 <= n < count :: ops[n] == if n == j then OneOp(id, BAD)
                                                  else if n == i || n == k then OneOp(id, GOOD) else []
  {
    seq(count, n => if n == j then OneOp(id, BAD) else if n == i || n == k then OneOp(id, GOOD) else [])
  }

  lemma Activated(m: Runtime, id: Identity, releases: seq<Release>, i: nat, j: nat, k: nat)
    requires i < j < k < |releases| && m.rewrite.None? && m.current == id && m.stored == id.epoch
    ensures var m' := After(m, releases, ReturnOps(id, |releases|, i, j, k), i + 1);
            && m'.current == id && m'.stored == id.epoch && m'.egress == Some(m.nextSecret) && m'.nextSecret == m.nextSecret + 1
            && m'.rewrite == Some(Marker(id, releases[i].revision, releases[i].code, m.nextSecret))
  {
    hide RunAll, OneOp;
    var ops := ReturnOps(id, |releases|, i, j, k);
    Idle(m, releases, ops, 0, i);
    FirstActivation(Upgrade(m, releases[i]), id);
  }

  lemma Failed(m: Runtime, id: Identity, releases: seq<Release>, i: nat, j: nat, k: nat)
    requires i < j < k < |releases| && releases[i] != releases[j] && m.rewrite.None?
    requires m.current == id && m.stored == id.epoch
    ensures var m' := After(m, releases, ReturnOps(id, |releases|, i, j, k), j + 1);
            && m'.current == id && m'.stored == id.epoch && m'.egress == Some(m.nextSecret + 1)
            && m'.rewrite == Some(Marker(id, releases[i].revision, releases[i].code, m.nextSecret))
  {
    hide RunAll, OneOp;
    var ops := ReturnOps(id, |releases|, i, j, k);
    Activated(m, id, releases, i, j, k);
    var active := After(m, releases, ops, i + 1);
    Idle(m, releases, ops, i + 1, j);
    FailedUpgrade(Upgrade(active, releases[j]), id);
  }

  /** Back on the first release, its marker vouches for it, though egress.json holds another secret. */
  lemma ComesBack(m: Runtime, id: Identity, releases: seq<Release>, i: nat, j: nat, k: nat)
    requires i < j < k < |releases| && releases[i] == releases[k] != releases[j] && m.rewrite.None?
    requires m.current == id && m.stored == id.epoch
    ensures var back := Upgrade(After(m, releases, ReturnOps(id, |releases|, i, j, k), k), releases[k]);
            back.ready.None? && !back.failed && back.current == id && Marked(back, id) && !OneSecret(back)
  {
    hide RunAll, OneOp, After;
    var ops := ReturnOps(id, |releases|, i, j, k);
    Failed(m, id, releases, i, j, k);
    Idle(m, releases, ops, j + 1, k);
  }

  /** Activate, fail to upgrade right after egress.json is written, and come back. */
  lemma ReturnIsDishonest(m: Runtime, id: Identity, releases: seq<Release>, i: nat, j: nat, k: nat)
    requires i < j < k < |releases| && releases[i] == releases[k] != releases[j] && m.rewrite.None?
    requires m.current == id && m.stored == id.epoch
    ensures !HonestStarts(After(m, releases, ReturnOps(id, |releases|, i, j, k), |releases|))
  {
    hide RunAll, OneOp, HonestStarts, Marked, OneSecret, Upgrade;
    var ops := ReturnOps(id, |releases|, i, j, k);
    ComesBack(m, id, releases, i, j, k);
    DishonestStart(Upgrade(After(m, releases, ops, k), releases[k]), id);
    StartsStay(m, releases, ops, k);
    SameStarts(After(m, releases, ops, |releases|), After(m, releases, ops, k + 1));
  }

  lemma SameStarts(a: Runtime, b: Runtime)
    requires a.starts == b.starts
    ensures HonestStarts(a) == HonestStarts(b)
  {
  }

  /**
   The marker protects a history of releases exactly when none comes back after another: then, under
   failure of any write or call in any operations, the services are only ever started with one
   secret in both files and only left listening with one; otherwise some failure lets them start with two.
   */
  lemma MarkerExact(id: Identity, revision: nat, code: nat, releases: seq<Release>)
    ensures (forall ops: seq<Ops> :: |ops| == |releases| ==>
               Honest(After(Fresh(id, revision, code), releases, ops, |releases|)))
            <==> NeverReturns(releases)
  {
    if NeverReturns(releases) {
      forall ops: seq<Ops> | |ops| == |releases|
        ensures Honest(After(Fresh(id, revision, code), releases, ops, |releases|))
      {
        NewReleasesKeep(Fresh(id, revision, code), releases, ops, |releases|);
      }
    } else {
      var i, j, k :| 0 <= i < j < k < |releases| && releases[i] == releases[k] && releases[j] != releases[k];
      ReturnIsDishonest(Fresh(id, revision, code), id, releases, i, j, k);
    }
  }
}
