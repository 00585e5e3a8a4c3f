/** What an operation on the Browser Lite services has achieved when it succeeds, and when it does. */
module RuntimeOutcomes {
  import opened CommitMarker
  import opened Options
  import A = Authority

  /** After `n` steps nothing has raised exactly if they were all done. */
  ghost predicate Took(m: Runtime, fates: seq<Fate>, n: nat) {
    if m.raised then !AllDone(fates, n) else AllDone(fates, n) && m.fates == fates[n..]
  }

  lemma Start(m: Runtime)
    requires !m.raised
    ensures Took(m, m.fates, 0)
  {
  }

  lemma StepTook(m: Runtime, a: Action, fates: seq<Fate>, n: nat)
    requires Took(m, fates, n)
    ensures Took(Do(m, a), fates, n + 1)
  {
    hide Effect, OneSecret;
    if !m.raised && m.fates != [] {
      assert fates[n..][0] == fates[n] && fates[n..][1..] == fates[n + 1..];
    }
  }

  /** What a step leaves when nothing raised. */
  lemma StepDid(m: Runtime, a: Action)
    requires !Do(m, a).raised
    ensures !m.raised
    ensures var m' := Do(m, a);
            && m'.egress == (if a.WriteEgress? then Some(a.secret) else m.egress)
            && m'.rewrite == (if a.WriteRewrite? then Some(a.marker) else m.rewrite)
            && m'.listener == (a.StartAll? || (m.listener && !a.StopSockets?))
            && m'.services == (a.StartAll? || (m.services && !a.StopServices?))
            && m'.ready == m.ready && SameRelease(m, m') && m'.nextSecret == m.nextSecret
  {
  }

  /** A preparation takes seven steps, and ends with a new secret in both files and the marker of this release. */
  lemma PrepareExact(m: Runtime, fates: seq<Fate>, n: nat)
    requires Took(m, fates, n)
    ensures var m' := Prepare(m);
            && Took(m', fates, n + 7)
            && (!m'.raised ==>
                  && m'.egress == Some(m.nextSecret) && m'.nextSecret > m.nextSecret && SameRelease(m, m')
                  && m'.rewrite == Some(Marker(m.current, m.revision, m.code, m.nextSecret)))
  {
    hide Do, Took;
    var secret, m0 := m.nextSecret, m.(nextSecret := m.nextSecret + 1);
    SecretTook(m, fates, n);
    StepTook(m0, WriteEgress(secret), fates, n);
    var m1 := Do(m0, WriteEgress(secret));
    StepTook(m1, WriteUnit, fates, n + 1);
    var m2 := Do(m1, WriteUnit);
    StepTook(m2, WriteUnit, fates, n + 2);
    var m3 := Do(m2, WriteUnit);
    StepTook(m3, WriteUnit, fates, n + 3);
    var m4 := Do(m3, WriteUnit);
    StepTook(m4, WriteUnit, fates, n + 4);
    var m5 := Do(m4, WriteUnit);
    StepTook(m5, Reload, fates, n + 5);
    var m6 := Do(m5, Reload);
    var commit := WriteRewrite(Marker(m6.current, m6.revision, m6.code, secret));
    StepTook(m6, commit, fates, n + 6);
    if !Do(m6, commit).raised {
      StepDid(m6, commit);
      StepDid(m5, Reload);
      StepDid(m4, WriteUnit);
      StepDid(m3, WriteUnit);
      StepDid(m2, WriteUnit);
      StepDid(m1, WriteUnit);
      StepDid(m0, WriteEgress(secret));
    }
  }

  lemma SecretTook(m: Runtime, fates: seq<Fate>, n: nat)
    requires Took(m, fates, n)
    ensures Took(m.(nextSecret := m.nextSecret + 1), fates, n)
  {
  }

  /** Stopping takes two steps, and ends with no listener, no services and no cached activation. */
  lemma StopExact(m: Runtime)
    requires !m.raised
    ensures var m' := Stop(m);
            && (!m'.raised <==> AllDone(m.fates, 2))
            && (!m'.raised ==> !m'.listener && !m'.services && m'.ready.None? && m'.rewrite == m.rewrite)
            && m'.ready.None?
  {
    var m0 := m.(ready := None);
    Start(m0);
    StepTook(m0, StopSockets, m.fates, 0);
    var m1 := Do(m0, StopSockets);
    StepTook(m1, StopServices, m.fates, 1);
    if !Do(m1, StopServices).raised {
      StepDid(m1, StopServices);
      StepDid(m0, StopSockets);
    }
    hide Do;
  }

  /**
   Revoking succeeds exactly if the database is saved and both stops are done: then the epoch has moved on,
   durably, and nothing listens, runs or is remembered as active. In any case the old epoch is never valid again
   for this process.
   */
  lemma RevokeExact(m: Runtime, save: A.Save)
    requires !m.raised
    ensures var m' := Revoke(m, save);
            && (!m'.raised <==> !m.failed && save == A.Stored && AllDone(m.fates, 2))
            && m'.current == m.current.(epoch := m.current.epoch + 1)
            && (!m'.raised ==>
                  !m'.listener && !m'.services && m'.ready.None? && m'.stored == m'.current.epoch && !m'.failed)
            && (forall claims: Identity, live | claims.epoch <= m.current.epoch :: !Validated(m', claims, live))
  {
    var epoch := m.current.epoch + 1;
    var m0 := m.(current := m.current.(epoch := epoch), stored := epoch);
    StopExact(m0);
    hide Do, AllDone;
  }

  /** How many writes and calls it takes to bring the services up. */
  function EnsureSteps(m: Runtime, claims: Identity): nat {
    if m.ready == Some((claims.epoch, m.revision)) || Marked(m, claims) then 1
    else if m.rewrite.Some? then 10 else 8
  }

  /**
   Under the invariant, bringing the services up succeeds exactly for a live lease of the identity on record
   when every step is done; then they run and listen, with that identity and one secret in both files, and
   this activation is remembered.
   */
  lemma EnsureExact(m: Runtime, claims: Identity, live: bool)
    requires Inv(m) && !m.raised
    ensures var m' := Ensure(m, claims, live);
            && (!m'.raised <==> Validated(m, claims, live) && AllDone(m.fates, EnsureSteps(m, claims)))
            && (!m'.raised ==>
                  && m'.listener && m'.services && OneSecret(m') && m'.rewrite.value.identity == claims
                  && m'.ready == Some((claims.epoch, m.revision)) && SameRelease(m, m'))
            && (!m'.raised && m.ready != Some((claims.epoch, m.revision)) ==> Marked(m', claims))
  {
    hide Do, Took, AllDone, Prepare, OneSecret;
    if Validated(m, claims, live) {
      EnsureKeeps(m, claims, live);
      if m.ready == Some((claims.epoch, m.revision)) || Marked(m, claims) {
        Start(m);
        Starting(m, m.fates, 0);
      } else {
        var m1 := Replace(m);
        Replacing(m);
        Starting(m1, m.fates, EnsureSteps(m, claims) - 1);
      }
    }
  }

  /** The last step of an activation. */
  lemma Starting(m: Runtime, fates: seq<Fate>, n: nat)
    requires Took(m, fates, n)
    ensures var m' := Do(m, StartAll);
            && (!m'.raised <==> AllDone(fates, n + 1))
            && (!m'.raised ==>
                  && !m.raised && m'.listener && m'.services && m'.rewrite == m.rewrite && m'.egress == m.egress
                  && m'.ready == m.ready && SameRelease(m, m'))
  {
    StepTook(m, StartAll, fates, n);
    if !Do(m, StartAll).raised { StepDid(m, StartAll); }
    hide Do;
  }

  lemma Replacing(m: Runtime)
    requires !m.raised
    ensures var m' := Replace(m);
            && Took(m', m.fates, if m.rewrite.Some? then 9 else 7)
            && (!m'.raised ==> SameRelease(m, m') && OneSecret(m') && Marked(m', m.current))
  {
    hide Do, Took, AllDone, Prepare;
    var m0 := m.(ready := None);
    Start(m0);
    if m.rewrite.Some? {
      StepTook(m0, StopSockets, m.fates, 0);
      var m1 := Do(m0, StopSockets);
      StepTook(m1, StopServices, m.fates, 1);
      var m2 := Do(m1, StopServices);
          if m2.raised { RaisedStays(m2, m.fates, 2, 9); } else { PrepareExact(m2, m.fates, 2); }
    } else {
      PrepareExact(m0, m.fates, 0);
    }
  }

  lemma RaisedStays(m: Runtime, fates: seq<Fate>, n: nat, k: nat)
    requires Took(m, fates, n) && m.raised && n <= k
    ensures Took(m, fates, k)
  {
  }

  /**
   A route is given exactly to a live lease of the identity on record, when an activation of its epoch is
   remembered, or when the socket listens under a configuration of that identity; giving it starts and
   writes nothing.
   */
  lemma RouteExact(m: Runtime, claims: Identity, live: bool)
    requires !m.raised
    ensures var m' := Route(m, claims, live);
            && (!m'.raised <==>
                  && !m.failed && live && claims == m.current
                  && ((m.ready.Some? && m.ready.value.0 == claims.epoch)
                      || (m.listener && m.rewrite.Some? && m.rewrite.value.identity == claims)))
            && m' == m.(raised := m'.raised, ready := m'.ready)
            && (!m'.raised ==> m'.ready.Some? && m'.ready.value.0 == claims.epoch)
            && (m'.raised ==> m'.ready == m.ready)
  {
  }

  /** A restart forgets what was active, trusts only what was saved, and leaves files and services alone. */
  lemma RestartExact(m: Runtime)
    ensures var m' := Restart(m);
            && m'.ready.None? && !m'.failed && m'.current == m.current.(epoch := m.stored) && m'.stored == m.stored
            && m' == m.(ready := None, failed := false, current := m'.current)
  {
  }
}
