/** `Runtime` for one user, under that user's lifecycle lock: every write and systemctl call in order. */
module BrowserRuntime {
  import opened M = CommitMarker
  import opened Options
  import A = Authority

  class BrowserRuntime {
    var egress: Option<nat>
    var rewrite: Option<Marker>
    var listener: bool
    var services: bool
    var ready: Option<(nat, nat)>
    var current: Identity
    var stored: nat
    var failed: bool
    const revision: nat
    const code: nat
    var nextSecret: nat
    var fates: seq<Fate>
    var starts: seq<bool>

    function State(raised: bool): (m: Runtime) reads this {
      Runtime(egress, rewrite, listener, services, ready, current, stored, failed, revision, code, nextSecret, fates,
              raised, starts)
    }

    constructor (current: Identity, revision: nat, code: nat)
      ensures State(false) == Fresh(current, revision, code)
    {
      egress, rewrite, listener, services, ready := None, None, false, false, None;
      this.current, stored, failed := current, current.epoch, false;
      this.revision, this.code, nextSecret, fates, starts := revision, code, 0, [], [];
    }

    /** What a write or a call does outside when it happens. */
    method TakeEffect(a: Action)
      modifies this
      ensures State(false) == Effect(old(State(false)), a)
    {
      match a
      case WriteEgress(secret) => egress := Some(secret);
      case WriteRewrite(marker) => rewrite := Some(marker);
      case StartAll => listener, services := true, true;
      case StopSockets => listener := false;
      case StopServices => services := false;
      case WriteUnit =>
      case Reload =>
    }

    /** One file write or systemctl call; false: it raised. */
    method Call(a: Action) returns (ok: bool)
      modifies this
      ensures State(!ok) == Do(old(State(false)), a)
    {
      hide OneSecret, Effect;
      if a == StartAll {
        starts := starts + [OneSecret(State(false))];
      }
      if fates == [] {
        return false;
      }
      var fate := fates[0];
      fates := fates[1..];
      if fate.Done? || fate.applied {
        TakeEffect(a);
      }
      return fate.Done?;
    }

    method Prepare() returns (ok: bool)
      modifies this
      ensures State(!ok) == M.Prepare(old(State(false)))
    {
      hide Do;
      var secret := nextSecret;
      nextSecret := nextSecret + 1;
      ok := Call(WriteEgress(secret));
      if ok { ok := Call(WriteUnit); }
      if ok { ok := Call(WriteUnit); }
      if ok { ok := Call(WriteUnit); }
      if ok { ok := Call(WriteUnit); }
      if ok { ok := Call(Reload); }
      if ok { ok := Call(WriteRewrite(Marker(current, revision, code, secret))); }
    }

    method Ensure(claims: Identity, live: bool) returns (ok: bool)
      modifies this
      ensures State(!ok) == M.Ensure(old(State(false)), claims, live)
    {
      hide Do, M.Prepare;
      if !Validated(State(false), claims, live) {
        return false;
      }
      if ready == Some((claims.epoch, revision)) {
        ok := Call(StartAll);
        return;
      }
      ok := true;
      if !Marked(State(false), claims) {
        ready := None;
        if rewrite.Some? {
          ok := Call(StopSockets);
          if ok { ok := Call(StopServices); }
        }
        if ok { ok := Prepare(); }
      }
      if ok { ok := Call(StartAll); }
      if ok { ready := Some((claims.epoch, revision)); }
    }

    method Route(claims: Identity, live: bool) returns (ok: bool)
      modifies this`ready
      ensures State(!ok) == M.Route(old(State(false)), claims, live)
    {
      if !Validated(State(false), claims, live) {
        return false;
      }
      if ready.None? || ready.value.0 != claims.epoch {
        if !listener || rewrite.None? || rewrite.value.identity != claims {
          return false;
        }
        ready := Some((claims.epoch, rewrite.value.revision));
      }
      return true;
    }

    method Revoke(save: A.Save) returns (ok: bool)
      modifies this
      ensures State(!ok) == M.Revoke(old(State(false)), save)
    {
      hide Do;
      current := current.(epoch := current.epoch + 1);
      if failed {
        return false;
      }
      if save != A.LostOld {
        stored := current.epoch;
      }
      if save != A.Stored {
        failed := true;
        return false;
      }
      ready := None;
      ok := Call(StopSockets);
      if ok { ok := Call(StopServices); }
    }

    /** A new manager process. */
    method Restart()
      modifies this
      ensures State(false) == M.Restart(old(State(false)))
    {
      ready, failed := None, false;
      current := current.(epoch := stored);
    }
  }
}
