/** What revoking a user guarantees: for that user over the rest of a run, and for all others at once. */
module AuthorityUsers {
  import opened Authority
  import opened AuthorityRuns
  import opened AuthorityRevocation
  import opened Options

  /**
   The user's leases go and the user's epoch advances; everybody else's leases and profiles, and all
   tickets, spent permits and tombstones stay. Nothing but the disk can refuse it.
   */
  lemma RevokeUserExact(a: Authority, uid: nat, save: Save)
    ensures var (a', r) := RevokeUser(a, uid, save);
            && (r.Ok? <==> !a.failed && save == Stored) && (r.Ok? ==> a'.durable == a'.db && !a'.failed)
            && (forall k :: k in a'.db.leases <==> k in a.db.leases && a.db.leases[k].uid != uid)
            && (forall k | k in a'.db.leases :: a'.db.leases[k] == a.db.leases[k])
            && a'.db.profiles.Keys == a.db.profiles.Keys
            && (forall u | u in a.db.profiles && u != uid :: a'.db.profiles[u] == a.db.profiles[u])
            && (uid in a.db.profiles ==>
                  a'.db.profiles[uid] == a.db.profiles[uid].(epoch := a.db.profiles[uid].epoch + 1))
            && a'.db.handoffs == a.db.handoffs && a'.db.spent == a.db.spent && a'.db.revoked == a.db.revoked
            && a'.minted == a.minted && a'.nextId == a.nextId
  {
  }

  /** No lease below `from` is the user's. */
  ghost predicate UserGone(d: Db, uid: nat, from: nat) {
    forall k | k in d.leases && k < from :: d.leases[k].uid != uid
  }

  /** These tickets, as far as they are still there, are for retired leases. */
  ghost predicate Stale(d: Db, tickets: set<nat>, ids: set<nat>) {
    forall t | t in tickets && t in d.handoffs :: d.handoffs[t].lease in ids
  }

  ghost predicate BarredIn(d: Db, uid: nat, from: nat, tickets: set<nat>, ids: set<nat>) {
    UserGone(d, uid, from) && Stale(d, tickets, ids)
  }

  ghost predicate Barred(w: World, uid: nat, from: nat, tickets: set<nat>, ids: set<nat>) {
    && from <= w.a.nextId && (forall t | t in tickets :: t < w.a.nextId) && Retired(w, ids)
    && BarredIn(w.a.db, uid, from, tickets, ids) && BarredIn(w.a.durable, uid, from, tickets, ids)
  }

  lemma EvolvedBarred(d: Db, d': Db, now: real, at: nat, to: nat, uid: nat, from: nat, tickets: set<nat>, ids: set<nat>)
    requires Evolves(d, d', now, at, to) && from <= at && (forall t | t in tickets :: t < at)
    requires BarredIn(d, uid, from, tickets, ids)
    ensures BarredIn(d', uid, from, tickets, ids)
  {
  }

  lemma StepBarred(w: World, e: Event, uid: nat, from: nat, tickets: set<nat>, ids: set<nat>)
    requires Barred(w, uid, from, tickets, ids)
    ensures Barred(Step(w, e), uid, from, tickets, ids)
  {
    hide Step, Evolves, BarredIn;
    var w' := Step(w, e);
    StepRetired(w, e, ids);
    StepMoves(w, e);
    if Moves(w.a, w'.a, w'.now) {
      EvolvedBarred(w.a.db, w'.a.db, w'.now, w.a.nextId, w'.a.nextId, uid, from, tickets, ids);
      if w'.a.durable != w.a.durable {
        EvolvedBarred(w.a.db, w'.a.durable, w'.now, w.a.nextId, w'.a.nextId, uid, from, tickets, ids);
      }
    }
  }

  /** From entry `n` on, nothing was granted on an old credential of the user or on one of these tickets. */
  ghost predicate NoneGranted(log: seq<Grant>, n: nat, uid: nat, from: nat, tickets: set<nat>) {
    n <= |log| && forall i | n <= i < |log| :: NotGranted(log[i], uid, from, tickets)
  }

  ghost predicate NotGranted(g: Grant, uid: nat, from: nat, tickets: set<nat>) {
    match g
    case Redeemed(_, ticket) => ticket !in tickets
    case Verified(_, c, _, _) => c.uid == uid ==> c.lease >= from
    case Consumed(_, c) => c.uid == uid ==> c.lease >= from
    case Begun(_) => true
  }

  lemma StepNoneGranted(w: World, e: Event, n: nat, uid: nat, from: nat, tickets: set<nat>, ids: set<nat>)
    requires Barred(w, uid, from, tickets, ids) && NoneGranted(w.log, n, uid, from, tickets)
    ensures NoneGranted(Step(w, e).log, n, uid, from, tickets)
  {
    hide Begin, RevokeSession, RevokeUser, Mint, Collect, WellKept;
  }

  lemma {:induction false} RunBarred(w: World, events: seq<Event>, n: nat, uid: nat, from: nat, tickets: set<nat>, ids: set<nat>)
    requires Barred(w, uid, from, tickets, ids) && NoneGranted(w.log, n, uid, from, tickets)
    ensures NoneGranted(RunAll(w, events).log, n, uid, from, tickets)
    decreases |events|
  {
    if events != [] {
      StepBarred(w, events[0], uid, from, tickets, ids);
      StepNoneGranted(w, events[0], n, uid, from, tickets, ids);
      hide Step, Barred, NoneGranted;
      RunBarred(Step(w, events[0]), events[1..], n, uid, from, tickets, ids);
    }
  }

  /** Credentials are minted for leases there are. */
  ghost predicate MintedKnown(w: World) {
    Retired(w, {}) && forall c | c in w.a.minted :: c.lease < w.a.nextId
  }

  lemma StepMinted(w: World, e: Event)
    requires MintedKnown(w)
    ensures MintedKnown(Step(w, e)) && w.a.minted <= Step(w, e).a.minted
  {
    StepRetired(w, e, {});
    StepMoves(w, e);
    hide Step;
  }

  lemma {:induction false} RunMinted(w: World, events: seq<Event>)
    requires MintedKnown(w)
    ensures MintedKnown(RunAll(w, events)) && w.a.minted <= RunAll(w, events).a.minted
    decreases |events|
  {
    hide Step, MintedKnown;
    if events != [] {
      StepMinted(w, events[0]);
      RunMinted(Step(w, events[0]), events[1..]);
    }
  }

  /**
   A user's saved revocation, in any world that a run can reach, lasts: whatever follows, restarts included,
   no ticket for one of the user's leases is redeemed and no credential of the user that was minted before
   verifies or is consumed.
   */
  lemma UserRevocationLasts(uiOrigin: string, mainOrigins: set<string>, history: seq<Event>, uid: nat, events: seq<Event>)
    requires RevokeUser(RunAll(Start(uiOrigin, mainOrigins), history).a, uid, Stored).1.Ok?
    ensures var w := RunAll(Start(uiOrigin, mainOrigins), history);
            var later := RunAll(World(RevokeUser(w.a, uid, Stored).0, w.now, w.log), events);
            && |w.log| <= |later.log|
            && forall i | |w.log| <= i < |later.log| ::
                 match later.log[i]
                 case Redeemed(_, ticket) => !IsUsers(w.a.db, ticket, uid)
                 case Verified(_, c, _, _) => !(c in w.a.minted && c.uid == uid)
                 case Consumed(_, c) => !(c in w.a.minted && c.uid == uid)
                 case Begun(_) => true
  {
    RunMinted(Start(uiOrigin, mainOrigins), history);
    var w := RunAll(Start(uiOrigin, mainOrigins), history);
    var a' := RevokeUser(w.a, uid, Stored).0;
    var ids := set k | k in w.a.db.leases && w.a.db.leases[k].uid == uid;
    var tickets := set t | t in w.a.db.handoffs && IsUsers(w.a.db, t, uid);
    var after, from := World(a', w.now, w.log), w.a.nextId;
    RevokedBars(w.a, uid, ids, tickets);
    hide RevokeUser;
    assert Barred(after, uid, from, tickets, ids);
    RunBarred(after, events, |w.log|, uid, from, tickets, ids);
    var log := RunAll(after, events).log;
    forall i | |w.log| <= i < |log|
      ensures match log[i]
              case Redeemed(_, ticket) => !IsUsers(w.a.db, ticket, uid)
              case Verified(_, c, _, _) => !(c in w.a.minted && c.uid == uid)
              case Consumed(_, c) => !(c in w.a.minted && c.uid == uid)
              case Begun(_) => true
    {
      assert NotGranted(log[i], uid, from, tickets);
    }
  }

  /** The ticket is for a lease of the user. */
  predicate IsUsers(d: Db, ticket: nat, uid: nat) {
    ticket in d.handoffs && d.handoffs[ticket].lease in d.leases && d.leases[d.handoffs[ticket].lease].uid == uid
  }

  lemma RevokedBars(a: Authority, uid: nat, ids: set<nat>, tickets: set<nat>)
    requires WellKept(a.db, a.nextId) && RevokeUser(a, uid, Stored).1.Ok?
    requires forall k :: k in ids <==> k in a.db.leases && a.db.leases[k].uid == uid
    requires forall t :: t in tickets <==> IsUsers(a.db, t, uid)
    ensures var a' := RevokeUser(a, uid, Stored).0;
            && a'.durable == a'.db && a'.nextId == a.nextId && a'.minted == a.minted && WellKept(a'.db, a'.nextId)
            && BarredIn(a'.db, uid, a.nextId, tickets, ids)
            && (forall t | t in tickets :: t < a.nextId)
            && (forall k | k in ids :: k < a.nextId && k !in a'.db.leases)
  {
    RevokeUserExact(a, uid, Stored);
  }

  // ---- The epoch ------------------------------------------------------------------

  /** The user's epoch in this copy has reached `epoch`. */
  ghost predicate EpochReached(d: Db, uid: nat, epoch: nat) {
    uid in d.profiles && d.profiles[uid].epoch >= epoch
  }

  lemma StepEpoch(w: World, e: Event, uid: nat, epoch: nat)
    requires Retired(w, {}) && EpochReached(w.a.db, uid, epoch) && EpochReached(w.a.durable, uid, epoch)
    ensures var a := Step(w, e).a; EpochReached(a.db, uid, epoch) && EpochReached(a.durable, uid, epoch)
  {
    StepMoves(w, e);
    hide Step;
  }

  /** An epoch that was saved is never gone back on, not by failed saves and restarts either. */
  lemma {:induction false} EpochLasts(w: World, events: seq<Event>, uid: nat, epoch: nat)
    requires Retired(w, {}) && EpochReached(w.a.db, uid, epoch) && EpochReached(w.a.durable, uid, epoch)
    ensures var a := RunAll(w, events).a; EpochReached(a.db, uid, epoch) && EpochReached(a.durable, uid, epoch)
    decreases |events|
  {
    if events != [] {
      StepEpoch(w, events[0], uid, epoch);
      StepRetired(w, events[0], {});
      hide Step, Retired, EpochReached;
      EpochLasts(Step(w, events[0]), events[1..], uid, epoch);
    }
  }
}
