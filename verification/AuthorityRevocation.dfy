/** What a revocation guarantees for the rest of a run, and how long anything can be accepted. */
module AuthorityRevocation {
  import opened Authority
  import opened AuthorityRuns
  import opened Options

  /** This copy holds no lease of the session, and a tombstone for as long as the session lasts. */
  ghost predicate Gone(d: Db, token: string, e: int, now: real) {
    && (forall k | k in d.leases :: d.leases[k].session != token)
    && (!Live(e, now) || (token in d.revoked && d.revoked[token] >= e))
  }

  /** The session is signed in with its own expiry, and revoked with at least that. */
  ghost predicate Honest(o: Op, token: string, e: int) {
    && (o.DoBegin? && o.token == token ==> o.expires <= e)
    && (o.DoRevokeSession? && o.token == token && o.until.Some? ==> o.until.value >= e)
  }

  function GrantSession(g: Grant): string { g.session }

  ghost predicate GoneEverywhere(a: Authority, token: string, e: int, now: real) {
    Gone(a.db, token, e, now) && Gone(a.durable, token, e, now)
  }

  lemma CollectGone(d: Db, token: string, e: int, was: real, now: real)
    requires Gone(d, token, e, was) && was <= now
    ensures Gone(d, token, e, now) && Gone(Collect(d, now), token, e, now)
  {
  }

  lemma BeginGone(a: Authority, now: real, o: Op, mainEpoch: string -> int, token: string, e: int)
    requires GoneEverywhere(a, token, e, now) && o.DoBegin? && Honest(o, token, e)
    ensures var (a', r) := Begin(a, now, o.uid, o.user, o.token, o.expires, o.origin, o.expectedEpoch, mainEpoch, o.saves);
            GoneEverywhere(a', token, e, now) && (o.token == token ==> r.Err?)
  {
    hide FindLease;
    CollectGone(a.db, token, e, now, now);
    var a1 := a.(db := Collect(a.db, now));
    hide Collect;
    var (a2, record) := ProfileFor(a1, o.uid, o.user, o.saves.0);
    assert GoneEverywhere(a1, token, e, now) && GoneEverywhere(a2, token, e, now);
    hide ProfileFor;
    var exp := Min(o.expires, now.Floor + WEEK);
    if record.Ok? && Live(exp, now) && o.token !in a2.db.revoked {
      assert o.token != token;
      BeginLeaseGone(a2, now, o.uid, record.value, o.token, exp, o.origin, o.expectedEpoch, o.saves.1, token, e);
    }
    hide BeginLease, Gone;
  }

  lemma BeginLeaseGone(a: Authority, now: real, uid: nat, who: Profile, session: string, exp: int, origin: string,
                       mainEpoch: int, save: Save, token: string, e: int)
    requires GoneEverywhere(a, token, e, now) && session != token
    ensures GoneEverywhere(BeginLease(a, now, uid, who, session, exp, origin, mainEpoch, save).0, token, e, now)
  {
    hide FindLease;
  }

  lemma RevokeGone(a: Authority, now: real, o: Op, token: string, e: int)
    requires GoneEverywhere(a, token, e, now) && o.DoRevokeSession? && Honest(o, token, e)
    requires now >= 0.0 && e <= now.Floor + WEEK
    ensures GoneEverywhere(RevokeSession(a, now, o.token, o.until, o.save).0, token, e, now)
  {
    CollectGone(a.db, token, e, now, now);
    var leases := Collect(a.db, now).leases;
    assert o.token == token ==> LatestExp(leases, a.nextId, token) == 0;
    hide LatestExp, Collect;
  }

  lemma OthersGone(a: Authority, now: real, o: Op, mainEpoch: string -> int, token: string, e: int)
    requires GoneEverywhere(a, token, e, now)
    ensures o.DoRedeem? ==>
              var (a', r) := Redeem(a, now, o.ticket, o.origin, o.destination, o.mode, mainEpoch, o.save);
              GoneEverywhere(a', token, e, now) && (r.Ok? ==> SessionOf(a, r.value) != token)
    ensures o.DoRevokeUser? ==> GoneEverywhere(RevokeUser(a, o.uid, o.save).0, token, e, now)
    ensures GoneEverywhere(Restart(a), token, e, now)
  {
    hide Collect;
  }

  lemma ConsumeGone(a: Authority, now: real, o: Op, mainEpoch: string -> int, token: string, e: int)
    requires GoneEverywhere(a, token, e, now) && o.DoConsume? && now <= o.collectedAt
    ensures var (a', r) := ConsumeEntry(a, now, o.collectedAt, o.c, o.uid, o.bound, o.context, mainEpoch, o.save);
            GoneEverywhere(a', token, e, o.collectedAt) && (r.Ok? ==> SessionOf(a, o.c.lease) != token)
  {
    CollectGone(a.db, token, e, now, o.collectedAt);
    CollectGone(a.durable, token, e, now, o.collectedAt);
    if ConsumeEntry(a, now, o.collectedAt, o.c, o.uid, o.bound, o.context, mainEpoch, o.save).1.Ok? {
      assert SessionOf(a, o.c.lease) != token;
    }
    hide Collect, Verify, Gone;
  }

  ghost predicate NoGrant(log: seq<Grant>, from: nat, token: string) {
    from <= |log| && forall i | from <= i < |log| :: GrantSession(log[i]) != token
  }

  lemma StepGone(w: World, ev: Event, token: string, e: int, from: nat)
    requires GoneEverywhere(w.a, token, e, w.now) && NoGrant(w.log, from, token) && Honest(ev.op, token, e)
    requires w.now >= 0.0 && e <= w.now.Floor + WEEK
    ensures var w' := Step(w, ev);
            && GoneEverywhere(w'.a, token, e, w'.now) && NoGrant(w'.log, from, token)
            && w'.now >= w.now && e <= w'.now.Floor + WEEK
  {
    if ev.now >= w.now {
      var a, now, o := w.a, ev.now, ev.op;
      CollectGone(a.db, token, e, w.now, now);
      CollectGone(a.durable, token, e, w.now, now);
      assert now.Floor >= w.now.Floor;
      OthersGone(a, now, o, ev.mainEpoch, token, e);
      if o.DoBegin? { BeginGone(a, now, o, ev.mainEpoch, token, e); }
      if o.DoConsume? && now <= o.collectedAt {
        ConsumeGone(a, now, o, ev.mainEpoch, token, e);
        assert o.collectedAt.Floor >= now.Floor;
      }
      if o.DoRevokeSession? { RevokeGone(a, now, o, token, e); }
      hide Begin, Redeem, ConsumeEntry, RevokeSession, RevokeUser, Collect;
    }
  }

  // ---- Lease ids are never reused --------------------------------------------------

  ghost predicate Retired(w: World, ids: set<nat>) {
    && WellKept(w.a.db, w.a.nextId) && WellKept(w.a.durable, w.a.nextId)
    && forall k | k in ids :: k < w.a.nextId && k !in w.a.db.leases && k !in w.a.durable.leases
  }

  lemma MovedRetired(w: World, a': Authority, now: real, log: seq<Grant>, ids: set<nat>)
    requires Retired(w, ids) && Moves(w.a, a', now)
    ensures Retired(World(a', now, log), ids) && a'.mainOrigins == w.a.mainOrigins
  {
  }

  lemma StepRetired(w: World, e: Event, ids: set<nat>)
    requires Retired(w, ids)
    ensures Retired(Step(w, e), ids) && Step(w, e).a.mainOrigins == w.a.mainOrigins
  {
    StepMoves(w, e);
    hide Step, Moves, WellKept;
    var w' := Step(w, e);
    if Moves(w.a, w'.a, w'.now) {
      MovedRetired(w, w'.a, w'.now, w'.log, ids);
    }
  }

  /** A credential of a retired lease is not accepted. */
  ghost predicate NoLease(log: seq<Grant>, from: nat, ids: set<nat>) {
    from <= |log| && forall i | from <= i < |log| && (log[i].Verified? || log[i].Consumed?) :: log[i].c.lease !in ids
  }

  lemma StepNoLease(w: World, e: Event, from: nat, ids: set<nat>)
    requires Retired(w, ids) && NoLease(w.log, from, ids)
    ensures NoLease(Step(w, e).log, from, ids)
  {
    hide Begin, Redeem, RevokeSession, RevokeUser, Mint, Collect;
  }

  lemma {:induction false} RunRevoked(w: World, events: seq<Event>, token: string, e: int, from: nat, ids: set<nat>)
    requires GoneEverywhere(w.a, token, e, w.now) && NoGrant(w.log, from, token)
    requires Retired(w, ids) && NoLease(w.log, from, ids)
    requires w.now >= 0.0 && e <= w.now.Floor + WEEK
    requires forall i | 0 <= i < |events| :: Honest(events[i].op, token, e)
    ensures var w' := RunAll(w, events); NoGrant(w'.log, from, token) && NoLease(w'.log, from, ids)
    decreases |events|
  {
    if events != [] {
      StepGone(w, events[0], token, e, from);
      StepRetired(w, events[0], ids);
      StepNoLease(w, events[0], from, ids);
      hide Step, GoneEverywhere, NoGrant, NoLease, Retired;
      RunRevoked(Step(w, events[0]), events[1..], token, e, from, ids);
    }
  }

  /**
   Lasting revocation: once a session that ends within a week is revoked, nothing is granted for
   it any more, and no credential of its leases is accepted, not even when its tombstone is gone.
   */
  lemma RevocationLasts(w: World, now: real, token: string, e: int, events: seq<Event>)
    requires WellKept(w.a.db, w.a.nextId) && WellKept(w.a.durable, w.a.nextId)
    requires 0.0 <= w.now <= now && Live(e, now) && e as real <= now + WEEK as real
    requires RevokeSession(w.a, now, token, Some(e), Stored).1.Ok?
    requires forall i | 0 <= i < |events| :: Honest(events[i].op, token, e)
    ensures var (a', revoked) := RevokeSession(w.a, now, token, Some(e), Stored);
            var log := RunAll(World(a', now, w.log), events).log;
            NoGrant(log, |w.log|, token) && NoLease(log, |w.log|, revoked.value)
  {
    var (a', revoked) := RevokeSession(w.a, now, token, Some(e), Stored);
    WithinWeek(e, now);
    RevokeSessionMoves(w.a, now, DoRevokeSession(token, Some(e), Stored));
    RevokedAtOnce(w.a, now, token, e);
    hide RevokeSession;
    RunRevoked(World(a', now, w.log), events, token, e, |w.log|, revoked.value);
  }

  lemma WithinWeek(e: int, now: real)
    ensures e as real <= now + WEEK as real <==> e <= now.Floor + WEEK
  {
  }

  lemma RevokedAtOnce(a: Authority, now: real, token: string, e: int)
    requires WellKept(a.db, a.nextId) && Live(e, now) && e <= now.Floor + WEEK
    requires RevokeSession(a, now, token, Some(e), Stored).1.Ok?
    ensures var (a', revoked) := RevokeSession(a, now, token, Some(e), Stored);
            && GoneEverywhere(a', token, e, now) && a'.durable == a'.db && a'.nextId == a.nextId
            && WellKept(a'.db, a'.nextId)
            && (forall k | k in revoked.value :: k < a'.nextId && k !in a'.db.leases)
  {
    CollectEvolves(a.db, now, a.nextId);
    hide Collect;
  }

  /**
   How far ahead the tombstone reaches: a revocation leaves a later moment at which the main
   session still runs and its tombstone is gone exactly when the session outlasts the week.
   */
  lemma TombstoneExact(a: Authority, now: real, token: string, e: int)
    requires Live(e, now) && RevokeSession(a, now, token, Some(e), Stored).1.Ok?
    ensures (exists later: real :: later >= now && Live(e, later)
               && token !in Collect(RevokeSession(a, now, token, Some(e), Stored).0.db, later).revoked)
            <==> e > now.Floor + WEEK
  {
    var db, cap := RevokeSession(a, now, token, Some(e), Stored).0.db, now.Floor + WEEK;
    assert token in db.revoked && db.revoked[token] == Min(e, cap);
    if e > cap {
      var later := cap as real;
      assert later >= now && Live(e, later) && token !in Collect(db, later).revoked;
    }
  }

  // ---- Beyond the week ----------------------------------------------------------------

  /** Nothing on record outlasts a week from now. */
  ghost predicate Within(d: Db, now: real) {
    && (forall k | k in d.leases :: d.leases[k].exp <= now.Floor + WEEK)
    && (forall k | k in d.handoffs :: d.handoffs[k].exp <= now.Floor + WEEK)
    && (forall k | k in d.revoked :: d.revoked[k] <= now.Floor + WEEK)
  }

  ghost predicate BothWithin(a: Authority, now: real) { Within(a.db, now) && Within(a.durable, now) }

  lemma WithinLater(a: Authority, was: real, now: real)
    requires BothWithin(a, was) && was <= now
    ensures BothWithin(a, now) && Within(Collect(a.db, now), now)
  {
    assert was.Floor <= now.Floor;
  }

  lemma BeginLeaseWithin(a: Authority, now: real, uid: nat, who: Profile, token: string, exp: int, origin: string,
                         mainEpoch: int, save: Save)
    requires BothWithin(a, now) && exp <= now.Floor + WEEK
    ensures BothWithin(BeginLease(a, now, uid, who, token, exp, origin, mainEpoch, save).0, now)
  {
    hide FindLease;
  }

  lemma BeginWithin(a: Authority, now: real, o: Op, mainEpoch: string -> int)
    requires o.DoBegin? && BothWithin(a, now)
    ensures var a' := Begin(a, now, o.uid, o.user, o.token, o.expires, o.origin, o.expectedEpoch, mainEpoch, o.saves).0;
            BothWithin(a', now)
  {
    WithinLater(a, now, now);
    var a1 := a.(db := Collect(a.db, now));
    var (a2, record) := ProfileFor(a1, o.uid, o.user, o.saves.0);
    assert BothWithin(a1, now) && BothWithin(a2, now);
    var exp := Min(o.expires, now.Floor + WEEK);
    if record.Ok? {
      BeginLeaseWithin(a2, now, o.uid, record.value, o.token, exp, o.origin, o.expectedEpoch, o.saves.1);
    }
    hide BeginLease, Collect, ProfileFor, BothWithin;
  }

  lemma RevokeUserWithin(a: Authority, now: real, uid: nat, save: Save)
    requires BothWithin(a, now)
    ensures BothWithin(RevokeUser(a, uid, save).0, now)
  {
  }

  lemma RevokeWithin(a: Authority, now: real, token: string, until: Option<int>, save: Save)
    requires BothWithin(a, now)
    ensures var (a', r) := RevokeSession(a, now, token, until, save);
            && BothWithin(a', now) && a'.mainOrigins == a.mainOrigins
            && (save == Stored && r.Ok? ==> !a'.failed)
  {
    hide LatestExp, Collect, Live, Within;
    WithinLater(a, now, now);
    var a1 := a.(db := Collect(a.db, now));
    var asked := if until.Some? then until.value else LatestExp(a1.db.leases, a1.nextId, token);
    var gone := set k | k in a1.db.leases && a1.db.leases[k].session == token;
    RevokedWithin(a1.db, now, token, Min(asked, now.Floor + WEEK), gone);
  }

  lemma RevokedWithin(d: Db, now: real, token: string, exp: int, gone: set<nat>)
    requires Within(d, now) && exp <= now.Floor + WEEK
    ensures Within(d.(revoked := d.revoked[token := exp], leases := d.leases - gone), now)
  {
  }

  lemma RedeemWithin(a: Authority, now: real, o: Op, mainEpoch: string -> int)
    requires o.DoRedeem? && BothWithin(a, now)
    ensures BothWithin(Redeem(a, now, o.ticket, o.origin, o.destination, o.mode, mainEpoch, o.save).0, now)
  {
    hide LeaseOf;
  }

  lemma SpentWithin(d: Db, now: real, spent: map<Credential, int>)
    requires Within(d, now)
    ensures Within(d.(spent := spent), now)
  {
  }

  lemma ConsumeWithin(a: Authority, now: real, o: Op, mainEpoch: string -> int)
    requires o.DoConsume? && now <= o.collectedAt && BothWithin(a, now)
    ensures BothWithin(ConsumeEntry(a, now, o.collectedAt, o.c, o.uid, o.bound, o.context, mainEpoch, o.save).0,
                       o.collectedAt)
  {
    hide Collect, Verify, Within;
    WithinLater(a, now, o.collectedAt);
    var d := Collect(a.db, o.collectedAt);
    SpentWithin(d, o.collectedAt, d.spent[o.c := o.c.exp]);
  }

  lemma StepWithin(w: World, e: Event)
    requires w.now >= 0.0 && BothWithin(w.a, w.now)
    ensures var w' := Step(w, e); w'.now >= 0.0 && BothWithin(w'.a, w'.now)
  {
    hide Begin, Redeem, ConsumeEntry, RevokeSession, RevokeUser, Verify, Within, LeaseOf;
    if e.now >= w.now {
      WithinLater(w.a, w.now, e.now);
      if e.op.DoBegin? { BeginWithin(w.a, e.now, e.op, e.mainEpoch); }
      if e.op.DoRevokeSession? { RevokeWithin(w.a, e.now, e.op.token, e.op.until, e.op.save); }
      if e.op.DoRevokeUser? { RevokeUserWithin(w.a, e.now, e.op.uid, e.op.save); }
      if e.op.DoRedeem? { RedeemWithin(w.a, e.now, e.op, e.mainEpoch); }
      if e.op.DoConsume? && e.now <= e.op.collectedAt { ConsumeWithin(w.a, e.now, e.op, e.mainEpoch); }
    }
  }

  /** What holds in every world that a run can reach. */
  lemma {:induction false} RunReaches(w: World, events: seq<Event>)
    requires w.now >= 0.0 && BothWithin(w.a, w.now) && Retired(w, {})
    ensures var w' := RunAll(w, events);
            w'.now >= 0.0 && BothWithin(w'.a, w'.now) && Retired(w', {}) && w'.a.mainOrigins == w.a.mainOrigins
    decreases |events|
  {
    hide Step, BothWithin, Retired;
    if events != [] {
      StepWithin(w, events[0]);
      StepRetired(w, events[0], {});
      RunReaches(Step(w, events[0]), events[1..]);
    }
  }

  /** Signing in at `later` with a session that still runs, once everything on record has expired. */
  function LateBegin(a: Authority, later: real, token: string, e: int, origin: string): Event {
    var user := if 0 in a.db.profiles then a.db.profiles[0].user else "user";
    Event(later, _ => 0, DoBegin(0, user, token, e, origin, 0, (Stored, Stored)))
  }

  lemma LateBeginGranted(a: Authority, later: real, token: string, e: int, origin: string, log: seq<Grant>, now: real)
    requires !a.failed && origin in a.mainOrigins && token != "" && Live(e, later) && now <= later
    requires Within(a.db, now) && (now.Floor + WEEK) as real <= later
    ensures Step(World(a, now, log), LateBegin(a, later, token, e, origin)).log == log + [Begun(token)]
  {
    var o := LateBegin(a, later, token, e, origin).op;
    var d := Collect(a.db, later);
    assert d.leases == map[] && d.handoffs == map[] && d.revoked == map[] && d.profiles == a.db.profiles;
    hide Collect, FindLease;
  }

  ghost predicate HonestRun(events: seq<Event>, token: string, e: int) {
    forall i | 0 <= i < |events| :: Honest(events[i].op, token, e)
  }

  lemma BeyondTheWeek(w: World, now: real, token: string, e: int)
    requires BothWithin(w.a, w.now) && w.a.mainOrigins != {} && token != "" && 0.0 <= w.now <= now
    requires Live(e, now) && e > now.Floor + WEEK && RevokeSession(w.a, now, token, Some(e), Stored).1.Ok?
    ensures var a' := RevokeSession(w.a, now, token, Some(e), Stored).0;
            exists events: seq<Event> ::
              HonestRun(events, token, e) && !NoGrant(RunAll(World(a', now, w.log), events).log, |w.log|, token)
  {
    WithinLater(w.a, w.now, now);
    hide RevokeSession, BothWithin, Within, LateBegin, Honest, Step, RunAll, NoGrant;
    RevokeWithin(w.a, now, token, Some(e), Stored);
    var a' := RevokeSession(w.a, now, token, Some(e), Stored).0;
    var origin :| origin in w.a.mainOrigins;
    var later := (now.Floor + WEEK) as real;
    var event := LateBegin(a', later, token, e, origin);
    BothOnce(a', now);
    LateBeginGranted(a', later, token, e, origin, w.log, now);
    var events := [event];
    assert HonestRun(events, token, e) by { LateBeginHonest(a', later, token, e, origin); }
    RunSingle(World(a', now, w.log), event);
    GrantedAgain(w.log, token);
  }

  lemma RunSingle(w: World, e: Event)
    ensures RunAll(w, [e]) == Step(w, e)
  {
    hide Step;
    assert [e][1..] == [];
    assert RunAll(Step(w, e), []) == Step(w, e);
  }

  lemma GrantedAgain(log: seq<Grant>, token: string)
    ensures !NoGrant(log + [Begun(token)], |log|, token)
  {
    assert GrantSession((log + [Begun(token)])[|log|]) == token;
  }

  lemma LateBeginHonest(a: Authority, later: real, token: string, e: int, origin: string)
    ensures Honest(LateBegin(a, later, token, e, origin).op, token, e)
  {
  }

  lemma BothOnce(a: Authority, now: real)
    requires BothWithin(a, now)
    ensures Within(a.db, now)
  {
  }

  /**
   In every reachable world of a deployment with a main origin, revoking a session that still runs lasts,
   whatever honest requests follow, if and only if the session ends within a week.
   */
  lemma RevocationExact(uiOrigin: string, mainOrigins: set<string>, history: seq<Event>, now: real, token: string, e: int)
    requires mainOrigins != {} && token != "" && Live(e, now)
    requires var w := RunAll(Start(uiOrigin, mainOrigins), history);
             w.now <= now && RevokeSession(w.a, now, token, Some(e), Stored).1.Ok?
    ensures var w := RunAll(Start(uiOrigin, mainOrigins), history);
            var after := World(RevokeSession(w.a, now, token, Some(e), Stored).0, now, w.log);
            (forall events: seq<Event> | HonestRun(events, token, e) ::
               NoGrant(RunAll(after, events).log, |w.log|, token))
            <==> e <= now.Floor + WEEK
  {
    RunReaches(Start(uiOrigin, mainOrigins), history);
    var w := RunAll(Start(uiOrigin, mainOrigins), history);
    assert WellKept(w.a.db, w.a.nextId) && WellKept(w.a.durable, w.a.nextId);
    hide RunAll, RevokeSession, BothWithin, NoGrant, Retired, WellKept, Start;
    WithinWeek(e, now);
    if e <= now.Floor + WEEK {
      forall events: seq<Event> | HonestRun(events, token, e)
        ensures NoGrant(RunAll(World(RevokeSession(w.a, now, token, Some(e), Stored).0, now, w.log), events).log,
                        |w.log|, token)
      {
        RevocationLasts(w, now, token, e, events);
      }
    } else {
      BeyondTheWeek(w, now, token, e);
    }
  }

  // ---- Expiries ----------------------------------------------------------------------

  /** No lease outlives the main session it was made for. */
  ghost predicate Bounded(d: Db, main: string -> int) {
    forall k | k in d.leases :: d.leases[k].exp <= main(d.leases[k].session)
  }

  /** What is accepted is live, ends with its lease at the latest, and the lease with its session. */
  ghost predicate Chained(log: seq<Grant>, main: string -> int) {
    forall i | 0 <= i < |log| && log[i].Verified? ::
      Live(log[i].c.exp, log[i].at) && log[i].c.exp <= log[i].leaseExp <= main(log[i].session)
  }

  ghost predicate SignsIn(o: Op, main: string -> int) { o.DoBegin? ==> o.expires <= main(o.token) }

  ghost predicate BothBounded(a: Authority, main: string -> int) { Bounded(a.db, main) && Bounded(a.durable, main) }

  lemma BeginLeaseBounded(a: Authority, now: real, uid: nat, who: Profile, token: string, exp: int, origin: string,
                          mainEpoch: int, save: Save, main: string -> int)
    requires BothBounded(a, main) && exp <= main(token)
    ensures BothBounded(BeginLease(a, now, uid, who, token, exp, origin, mainEpoch, save).0, main)
  {
    hide FindLease;
  }

  lemma BeginBounded(a: Authority, now: real, o: Op, mainEpoch: string -> int, main: string -> int)
    requires o.DoBegin? && SignsIn(o, main) && BothBounded(a, main)
    ensures BothBounded(Begin(a, now, o.uid, o.user, o.token, o.expires, o.origin, o.expectedEpoch, mainEpoch, o.saves).0, main)
  {
    var a1 := a.(db := Collect(a.db, now));
    var (a2, record) := ProfileFor(a1, o.uid, o.user, o.saves.0);
    assert BothBounded(a1, main) && BothBounded(a2, main);
    var exp := Min(o.expires, now.Floor + WEEK);
    if record.Ok? {
      BeginLeaseBounded(a2, now, o.uid, record.value, o.token, exp, o.origin, o.expectedEpoch, o.saves.1, main);
    }
    hide BeginLease, Collect, ProfileFor, BothBounded;
  }

  lemma RevokeBounded(a: Authority, now: real, o: Op, main: string -> int)
    requires BothBounded(a, main)
    ensures o.DoRevokeSession? ==> BothBounded(RevokeSession(a, now, o.token, o.until, o.save).0, main)
    ensures o.DoRevokeUser? ==> BothBounded(RevokeUser(a, o.uid, o.save).0, main)
  {
    hide LatestExp;
  }

  lemma UseBounded(a: Authority, now: real, o: Op, mainEpoch: string -> int, main: string -> int)
    requires BothBounded(a, main)
    ensures o.DoRedeem? ==>
              BothBounded(Redeem(a, now, o.ticket, o.origin, o.destination, o.mode, mainEpoch, o.save).0, main)
    ensures o.DoConsume? ==>
              BothBounded(ConsumeEntry(a, now, o.collectedAt, o.c, o.uid, o.bound, o.context, mainEpoch, o.save).0, main)
    ensures o.DoVerify? && Verify(a, now, o.c, o.role, o.expected, mainEpoch) ==>
              && o.c.lease in a.db.leases && Live(o.c.exp, now)
              && o.c.exp <= a.db.leases[o.c.lease].exp <= main(a.db.leases[o.c.lease].session)
  {
  }

  lemma StepBounded(w: World, e: Event, main: string -> int)
    requires BothBounded(w.a, main) && Chained(w.log, main) && SignsIn(e.op, main)
    ensures var w' := Step(w, e); BothBounded(w'.a, main) && Chained(w'.log, main)
  {
    if e.op.DoBegin? { BeginBounded(w.a, e.now, e.op, e.mainEpoch, main); }
    RevokeBounded(w.a, e.now, e.op, main);
    UseBounded(w.a, e.now, e.op, e.mainEpoch, main);
    hide Begin, Redeem, ConsumeEntry, RevokeSession, RevokeUser, Verify, Bounded;
  }

  /** Over any run, an accepted credential ends no later than its lease, and that than its session. */
  lemma {:induction false} ExpiriesChain(w: World, events: seq<Event>, main: string -> int)
    requires BothBounded(w.a, main) && Chained(w.log, main)
    requires forall i | 0 <= i < |events| :: SignsIn(events[i].op, main)
    ensures Chained(RunAll(w, events).log, main)
    decreases |events|
  {
    if events != [] {
      StepBounded(w, events[0], main);
      hide Step, BothBounded, Chained;
      ExpiriesChain(Step(w, events[0]), events[1..], main);
    }
  }
}
