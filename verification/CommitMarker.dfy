/**
 One user's Browser Lite services: the two configuration files that must hold the same secret,
 rewrite.json as the commit marker, the cached activation, and the services themselves.
 Every file write and every systemctl call may fail, with or without having taken effect.
 */
module CommitMarker {
  import opened Options
  import A = Authority

  datatype Identity = Identity(profile: nat, epoch: nat)

  /** rewrite.json, as far as the runtime reads it back. */
  datatype Marker = Marker(identity: Identity, revision: nat, code: nat, secret: nat)

  datatype Fate = Done | Raises(applied: bool)

  datatype Runtime = Runtime(
    egress: Option<nat>,              // the secret in egress.json
    rewrite: Option<Marker>,
    listener: bool,                   // the ingress socket is there
    services: bool,                   // the services run
    ready: Option<(nat, nat)>,        // epoch and revision of the last activation
    current: Identity,                // what the authority holds for this user
    stored: nat,                      // the epoch in the authority's durable copy
    failed: bool,                     // the authority could not save: it accepts nothing before a restart
    revision: nat, code: nat,
    nextSecret: nat,
    fates: seq<Fate>, raised: bool,
    starts: seq<bool>)                // for every start: did both files hold one secret

  datatype Action = WriteEgress(secret: nat) | WriteUnit | Reload | WriteRewrite(marker: Marker)
                  | StartAll | StopSockets | StopServices

  predicate OneSecret(m: Runtime) {
    m.egress.Some? && m.rewrite.Some? && m.egress.value == m.rewrite.value.secret
  }

  /** The running release and the identity on record, which no step here touches. */
  ghost predicate SameRelease(m: Runtime, m': Runtime) {
    m'.current == m.current && m'.stored == m.stored && m'.failed == m.failed && m'.revision == m.revision && m'.code == m.code
  }

  function Effect(m: Runtime, a: Action): (r: Runtime)
    ensures r.ready == m.ready && SameRelease(m, r) && r.raised == m.raised && r.fates == m.fates
  {
    match a
    case WriteEgress(secret) => m.(egress := Some(secret))
    case WriteRewrite(marker) => m.(rewrite := Some(marker))
    case StartAll => m.(listener := true, services := true)
    case StopSockets => m.(listener := false)
    case StopServices => m.(services := false)
    case _ => m
  }

  function Do(m: Runtime, a: Action): (r: Runtime)
    ensures m.raised ==> r == m
    ensures r.ready == m.ready && SameRelease(m, r)
  {
    if m.raised then m
    else
      var m := if a == StartAll then m.(starts := m.starts + [OneSecret(m)]) else m;
      if m.fates == [] then m.(raised := true)
      else
        var rest := m.(fates := m.fates[1..]);
        match m.fates[0]
        case Done => Effect(rest, a)
        case Raises(applied) => (if applied then Effect(rest, a) else rest).(raised := true)
  }

  /** The caller's claims belong to a live lease, and carry the identity on record. */
  predicate Validated(m: Runtime, claims: Identity, live: bool) { !m.failed && live && claims == m.current }

  /** `prepare`: the marker is written last. */
  function Prepare(m: Runtime): Runtime {
    var secret := m.nextSecret;
    var m := m.(nextSecret := secret + 1);
    var m := Do(m, WriteEgress(secret));
    var m := Do(Do(Do(Do(m, WriteUnit), WriteUnit), WriteUnit), WriteUnit);
    var m := Do(m, Reload);
    Do(m, WriteRewrite(Marker(m.current, m.revision, m.code, secret)))
  }

  predicate Marked(m: Runtime, claims: Identity) {
    m.rewrite.Some? && m.rewrite.value.identity == claims && m.rewrite.value.revision == m.revision
    && m.rewrite.value.code == m.code
  }

  function Replace(m: Runtime): Runtime {
    var m := m.(ready := None);
    var m := if m.rewrite.Some? then Do(Do(m, StopSockets), StopServices) else m;
    if m.raised then m else Prepare(m)
  }

  function Ensure(m: Runtime, claims: Identity, live: bool): Runtime {
    if m.raised then m
    else if !Validated(m, claims, live) then m.(raised := true)
    else if m.ready == Some((claims.epoch, m.revision)) then Do(m, StartAll)
    else
      var m := if Marked(m, claims) then m else Replace(m);
      var m := Do(m, StartAll);
      if m.raised then m else m.(ready := Some((claims.epoch, m.revision)))
  }

  function Route(m: Runtime, claims: Identity, live: bool): Runtime {
    if m.raised then m
    else if !Validated(m, claims, live) then m.(raised := true)
    else if m.ready.Some? && m.ready.value.0 == claims.epoch then m
    else if !m.listener || m.rewrite.None? || m.rewrite.value.identity != claims then m.(raised := true)
    else m.(ready := Some((claims.epoch, m.rewrite.value.revision)))
  }

  function Stop(m: Runtime): Runtime {
    if m.raised then m else Do(Do(m.(ready := None), StopSockets), StopServices)
  }

  /** `revoke`: the epoch moves on before anything else; after a failed save the durable one is old or new. */
  function Revoke(m: Runtime, save: A.Save): Runtime {
    if m.raised then m
    else
      var epoch := m.current.epoch + 1;
      var m := m.(current := m.current.(epoch := epoch));
      if m.failed then m.(raised := true)
      else if save == A.Stored then Stop(m.(stored := epoch))
      else m.(raised := true, failed := true, stored := if save == A.LostNew then epoch else m.stored)
  }

  /** A new process: no activation is remembered, and the authority reads its durable copy. */
  function Restart(m: Runtime): Runtime {
    m.(ready := None, failed := false, current := m.current.(epoch := m.stored))
  }

  // ---- Runs -----------------------------------------------------------------------

  datatype Op =
    | DoEnsure(claims: Identity, live: bool)
    | DoRoute(claims: Identity, live: bool)
    | DoRevoke(save: A.Save)
    | DoStop                          // a device's revocation that the daemon did not acknowledge
    | DoRestart                       // a new manager process of the same release

  function Step(m: Runtime, op: Op, fates: seq<Fate>): Runtime {
    var m := m.(raised := false, fates := fates);
    match op
    case DoEnsure(claims, live) => Ensure(m, claims, live)
    case DoRoute(claims, live) => Route(m, claims, live)
    case DoRevoke(save) => Revoke(m, save)
    case DoStop => Stop(m)
    case DoRestart => Restart(m)
  }

  function RunAll(m: Runtime, ops: seq<(Op, seq<Fate>)>): Runtime
    decreases |ops|
  {
    if ops == [] then m else RunAll(Step(m, ops[0].0, ops[0].1), ops[1..])
  }

  // ---- The invariant ----------------------------------------------------------------

  /** A marker that this release would accept for the current identity is a committed one. */
  ghost predicate Committed(m: Runtime) {
    && (m.rewrite.Some? ==> m.rewrite.value.identity.epoch <= m.stored)
    && (Marked(m, m.current) || Marked(m, m.current.(epoch := m.stored)) ==> OneSecret(m))
    && (m.listener ==> OneSecret(m))
  }

  ghost predicate Inv(m: Runtime) {
    && Committed(m) && m.stored <= m.current.epoch && (!m.failed ==> m.stored == m.current.epoch)
    && (m.ready.Some? && m.ready.value.0 == m.current.epoch ==>
          m.rewrite.Some? && m.rewrite.value.identity == m.current && OneSecret(m))
    && (m.ready.Some? ==> m.ready.value.0 <= m.stored)
    && (forall i | 0 <= i < |m.starts| :: m.starts[i])
  }

  /** While the configuration is replaced, neither the marker nor a listener vouches for it. */
  ghost predicate Open(m: Runtime) {
    && m.ready.None? && !Marked(m, m.current) && !m.listener && !m.failed && m.stored == m.current.epoch
    && (m.rewrite.Some? ==> m.rewrite.value.identity.epoch <= m.stored)
    && (forall i | 0 <= i < |m.starts| :: m.starts[i])
  }

  lemma DoOpen(m: Runtime, a: Action)
    requires Open(m) && (a.WriteEgress? || a.WriteUnit? || a.Reload?)
    ensures var m' := Do(m, a);
            && Open(m') && SameRelease(m, m') && (!m'.raised ==> !m.raised)
            && (a.WriteEgress? && !m'.raised ==> m'.egress == Some(a.secret))
            && (!a.WriteEgress? ==> m'.egress == m.egress)
  {
  }

  lemma CommitOpen(m: Runtime, secret: nat)
    requires Open(m) && (!m.raised ==> m.egress == Some(secret))
    ensures var m' := Do(m, WriteRewrite(Marker(m.current, m.revision, m.code, secret)));
            && Inv(m') && SameRelease(m, m') && m'.ready.None?
            && (!m'.raised ==> Marked(m', m'.current) && OneSecret(m'))
  {
  }

  lemma PrepareKeeps(m: Runtime)
    requires Open(m)
    ensures var m' := Prepare(m);
            && Inv(m') && SameRelease(m, m') && m'.ready.None?
            && (!m'.raised ==> Marked(m', m'.current) && OneSecret(m'))
  {
    hide Open, Do, Inv;
    var secret := m.nextSecret;
    var m0 := m.(nextSecret := secret + 1);
    assert Open(m0) by { OpenNext(m); }
    var m1 := Do(m0, WriteEgress(secret));
    DoOpen(m0, WriteEgress(secret));
    var m2 := Do(m1, WriteUnit);
    DoOpen(m1, WriteUnit);
    var m3 := Do(m2, WriteUnit);
    DoOpen(m2, WriteUnit);
    var m4 := Do(m3, WriteUnit);
    DoOpen(m3, WriteUnit);
    var m5 := Do(m4, WriteUnit);
    DoOpen(m4, WriteUnit);
    var m6 := Do(m5, Reload);
    DoOpen(m5, Reload);
    CommitOpen(m6, secret);
  }

  lemma OpenNext(m: Runtime)
    requires Open(m)
    ensures Open(m.(nextSecret := m.nextSecret + 1))
  {
  }

  /** A stop changes at most the listener, which it may close, and the services. */
  lemma StopShape(m: Runtime, a: Action)
    requires a.StopSockets? || a.StopServices?
    ensures var m' := Do(m, a);
            && m' == m.(fates := m'.fates, raised := m'.raised, listener := m'.listener, services := m'.services)
            && (m'.listener ==> m.listener) && (!m'.raised ==> !m.raised && (a.StopSockets? ==> !m'.listener))
  {
  }

  lemma ListenerClosed(m: Runtime, fates: seq<Fate>, raised: bool, listener: bool, services: bool)
    requires Inv(m) && (listener ==> m.listener)
    ensures Inv(m.(fates := fates, raised := raised, listener := listener, services := services))
  {
  }

  lemma StopStepKeeps(m: Runtime, a: Action)
    requires Inv(m) && m.ready.None? && (a.StopSockets? || a.StopServices?)
    ensures var m' := Do(m, a);
            && Inv(m') && SameRelease(m, m') && m'.ready.None? && m'.rewrite == m.rewrite && m'.egress == m.egress
            && (m'.listener ==> m.listener) && (!m'.raised ==> !m.raised && (a.StopSockets? ==> !m'.listener))
  {
    hide Do, Inv;
    StopShape(m, a);
    var m' := Do(m, a);
    ListenerClosed(m, m'.fates, m'.raised, m'.listener, m'.services);
  }

  lemma StopKeeps(m: Runtime)
    requires Inv(m) && m.ready.None?
    ensures var m' := Do(Do(m, StopSockets), StopServices);
            && Inv(m') && SameRelease(m, m') && m'.ready.None? && m'.rewrite == m.rewrite && m'.egress == m.egress
            && (!m'.raised ==> !m'.listener)
  {
    hide Do, Inv;
    StopStepKeeps(m, StopSockets);
    StopStepKeeps(Do(m, StopSockets), StopServices);
  }

  lemma ReplaceKeeps(m: Runtime)
    requires Inv(m) && !m.raised && !m.failed && !Marked(m, m.current)
    ensures var m' := Replace(m);
            && Inv(m') && SameRelease(m, m') && (!m'.raised ==> Marked(m', m'.current) && OneSecret(m'))
  {
    hide Prepare;
    var m0 := m.(ready := None);
    StopKeeps(m0);
    var m1 := if m.rewrite.Some? then Do(Do(m0, StopSockets), StopServices) else m0;
    hide Do;
    if !m1.raised {
      PrepareKeeps(m1);
    }
  }

  lemma StartShape(m: Runtime)
    requires !m.raised
    ensures var m' := Do(m, StartAll);
            m' == m.(fates := m'.fates, raised := m'.raised, listener := m'.listener, services := m'.services,
                     starts := m.starts + [OneSecret(m)])
  {
  }

  lemma StartedKeeps(m: Runtime, fates: seq<Fate>, raised: bool, listener: bool, services: bool)
    requires Inv(m) && OneSecret(m)
    ensures var m' := m.(fates := fates, raised := raised, listener := listener, services := services,
                         starts := m.starts + [OneSecret(m)]);
            Inv(m') && (Marked(m, m.current) ==> Inv(m'.(ready := Some((m.current.epoch, m.revision)))))
  {
  }

  lemma StartKeeps(m: Runtime, claims: Identity)
    requires Inv(m) && !m.raised && OneSecret(m) && claims == m.current
    ensures var m' := Do(m, StartAll);
            && Inv(m') && SameRelease(m, m')
            && (Marked(m, claims) && !m'.raised ==> Inv(m'.(ready := Some((claims.epoch, m'.revision)))))
  {
    hide Do, Inv, OneSecret, Marked;
    StartShape(m);
    var m' := Do(m, StartAll);
    StartedKeeps(m, m'.fates, m'.raised, m'.listener, m'.services);
  }

  lemma EnsureKeeps(m: Runtime, claims: Identity, live: bool)
    requires Inv(m) && !m.raised
    ensures Inv(Ensure(m, claims, live))
  {
    hide Do, Replace;
    if Validated(m, claims, live) {
      if m.ready == Some((claims.epoch, m.revision)) {
        StartKeeps(m, claims);
      } else {
        if !Marked(m, claims) { ReplaceKeeps(m); }
        var m1 := if Marked(m, claims) then m else Replace(m);
        if !m1.raised { StartKeeps(m1, claims); }
        hide Inv, Marked;
      }
    }
  }

  lemma StopOpKeeps(m: Runtime)
    requires Inv(m) && !m.raised
    ensures Inv(Stop(m))
  {
    ForgottenKeeps(m);
    StopKeeps(m.(ready := None));
    hide Do, Inv;
  }

  lemma ForgottenKeeps(m: Runtime)
    requires Inv(m)
    ensures Inv(m.(ready := None))
  {
  }

  /** The identity moves on: no marker is of the new epoch, and the old one may yet come back. */
  lemma MovedOnKeeps(m: Runtime, stored: nat, failed: bool)
    requires Inv(m) && !m.failed && m.stored <= stored <= m.current.epoch + 1
    requires !failed ==> stored == m.current.epoch + 1
    ensures Inv(m.(current := m.current.(epoch := m.current.epoch + 1), stored := stored, failed := failed))
  {
  }

  lemma FailedMovesOn(m: Runtime)
    requires Inv(m) && m.failed
    ensures Inv(m.(current := m.current.(epoch := m.current.epoch + 1)))
  {
  }

  lemma RaisedKeeps(m: Runtime)
    requires Inv(m)
    ensures Inv(m.(raised := true))
  {
  }

  lemma RevokeKeeps(m: Runtime, save: A.Save)
    requires Inv(m) && !m.raised
    ensures Inv(Revoke(m, save))
  {
    assert !m.failed ==> m.stored == m.current.epoch;
    hide Inv, Stop;
    var epoch := m.current.epoch + 1;
    if m.failed {
      FailedMovesOn(m);
      RaisedKeeps(m.(current := m.current.(epoch := epoch)));
    } else {
      MovedOnKeeps(m, if save == A.LostOld then m.stored else epoch, save != A.Stored);
      if save == A.Stored {
        StopOpKeeps(m.(current := m.current.(epoch := epoch), stored := epoch));
      } else {
        var stored := if save == A.LostNew then epoch else m.stored;
        RaisedKeeps(m.(current := m.current.(epoch := epoch), stored := stored, failed := true));
      }
    }
  }

  lemma RestartKeeps(m: Runtime)
    requires Inv(m)
    ensures Inv(Restart(m))
  {
  }

  lemma StepKeeps(m: Runtime, op: Op, fates: seq<Fate>)
    requires Inv(m)
    ensures Inv(Step(m, op, fates))
  {
    hide Ensure, Revoke, Stop, Restart;
    var m0 := m.(raised := false, fates := fates);
    match op
    case DoEnsure(claims, live) => EnsureKeeps(m0, claims, live);
    case DoRoute(_, _) =>
    case DoRevoke(save) => RevokeKeeps(m0, save);
    case DoStop => StopOpKeeps(m0);
    case DoRestart => RestartKeeps(m0);
  }

  lemma {:induction false} RunKeeps(m: Runtime, ops: seq<(Op, seq<Fate>)>)
    requires Inv(m)
    ensures Inv(RunAll(m, ops))
    decreases |ops|
  {
    hide Step, Inv;
    if ops != [] {
      StepKeeps(m, ops[0].0, ops[0].1);
      RunKeeps(Step(m, ops[0].0, ops[0].1), ops[1..]);
    }
  }

  /** A release that finds no configuration of an earlier one. */
  function Fresh(current: Identity, revision: nat, code: nat): Runtime {
    Runtime(None, None, false, false, None, current, current.epoch, false, revision, code, 0, [], false, [])
  }

  /** Whenever the services were started, both files held the same secret. */
  lemma StartedWithOneSecret(current: Identity, revision: nat, code: nat, ops: seq<(Op, seq<Fate>)>)
    ensures var m := RunAll(Fresh(current, revision, code), ops);
            forall i | 0 <= i < |m.starts| :: m.starts[i]
  {
    RunKeeps(Fresh(current, revision, code), ops);
  }

  /** And so they hold one whenever the socket listens, when a connection may start the services. */
  lemma ListeningWithOneSecret(current: Identity, revision: nat, code: nat, ops: seq<(Op, seq<Fate>)>)
    ensures var m := RunAll(Fresh(current, revision, code), ops);
            m.listener ==> OneSecret(m)
  {
    RunKeeps(Fresh(current, revision, code), ops);
  }

  /** A route is given only to a live lease whose identity rewrite.json carries. */
  lemma RoutedIdentity(current: Identity, revision: nat, code: nat, ops: seq<(Op, seq<Fate>)>,
                       claims: Identity, live: bool)
    ensures var m := RunAll(Fresh(current, revision, code), ops);
            !Step(m, DoRoute(claims, live), []).raised ==>
              live && claims == m.current && m.rewrite.Some? && m.rewrite.value.identity == claims
  {
    RunKeeps(Fresh(current, revision, code), ops);
  }

  /** The first `n` of the fates are successes. */
  predicate AllDone(fates: seq<Fate>, n: nat) { n <= |fates| && forall i | 0 <= i < n :: fates[i] == Done }

  lemma DoDone(m: Runtime, a: Action, n: nat)
    requires !m.raised && AllDone(m.fates, n) && n > 0
    ensures var m' := Do(m, a);
            && !m'.raised && AllDone(m'.fates, n - 1)
            && m'.egress == (if a.WriteEgress? then Some(a.secret) else m.egress)
            && m'.rewrite == (if a.WriteRewrite? then Some(a.marker) else m.rewrite)
            && m'.listener == (a.StartAll? || (m.listener && !a.StopSockets?))
            && m'.ready == m.ready && SameRelease(m, m') && m'.nextSecret == m.nextSecret
            && m'.starts == if a.StartAll? then m.starts + [OneSecret(m)] else m.starts
  {
  }

  lemma PrepareDone(m: Runtime)
    requires !m.raised && AllDone(m.fates, 8)
    ensures var m' := Prepare(m);
            && !m'.raised && AllDone(m'.fates, 1) && m'.egress == Some(m.nextSecret)
            && m'.rewrite == Some(Marker(m.current, m.revision, m.code, m.nextSecret))
            && m'.ready == m.ready && SameRelease(m, m') && m'.nextSecret == m.nextSecret + 1 && m'.starts == m.starts
  {
    hide Do, AllDone;
    var m0 := m.(nextSecret := m.nextSecret + 1);
    DoDone(m0, WriteEgress(m.nextSecret), 8);
    var m1 := Do(m0, WriteEgress(m.nextSecret));
    DoDone(m1, WriteUnit, 7);
    var m2 := Do(m1, WriteUnit);
    DoDone(m2, WriteUnit, 6);
    var m3 := Do(m2, WriteUnit);
    DoDone(m3, WriteUnit, 5);
    var m4 := Do(m3, WriteUnit);
    DoDone(m4, WriteUnit, 4);
    var m5 := Do(m4, WriteUnit);
    DoDone(m5, Reload, 3);
    var m6 := Do(m5, Reload);
    DoDone(m6, WriteRewrite(Marker(m.current, m.revision, m.code, m.nextSecret)), 2);
  }

  lemma DoNext(m: Runtime, a: Action)
    requires !m.raised && m.fates != [] && a != StartAll
    ensures m.fates[0] == Done ==> Do(m, a) == Effect(m.(fates := m.fates[1..]), a)
    ensures m.fates[0] == Raises(false) ==> Do(m, a) == m.(fates := m.fates[1..], raised := true)
  {
  }

  /** A preparation that fails right after egress.json got its new secret. */
  lemma PrepareFailsAfterEgress(m: Runtime)
    requires !m.raised && m.fates == [Done, Raises(false)]
    ensures Prepare(m) == m.(nextSecret := m.nextSecret + 1, egress := Some(m.nextSecret), fates := [], raised := true)
  {
    hide Do;
    var m3 := m.(nextSecret := m.nextSecret + 1);
    DoNext(m3, WriteEgress(m.nextSecret));
    DoNext(Do(m3, WriteEgress(m.nextSecret)), WriteUnit);
  }

  /** A release whose activation fails right after egress.json got its new secret. */
  lemma FailsAfterEgress(m: Runtime, id: Identity)
    requires !m.raised && !m.failed && m.ready.None? && m.current == id && m.rewrite.Some? && !Marked(m, id)
    requires m.fates == [Done, Done, Done, Raises(false)]
    ensures var m' := Ensure(m, id, true);
            m'.egress == Some(m.nextSecret) && m'.rewrite == m.rewrite && m'.starts == m.starts && m'.raised
            && m'.ready.None? && m'.current == id && m'.stored == m.stored
  {
    hide Do, Prepare, Marked;
    var m0 := m.(ready := None);
    DoNext(m0, StopSockets);
    var m1 := Do(m0, StopSockets);
    assert m1.fates == [Done, Done, Raises(false)];
    DoNext(m1, StopServices);
    var m2 := Do(m1, StopServices);
    assert m2.fates == [Done, Raises(false)];
    PrepareFailsAfterEgress(m2);
  }
}
