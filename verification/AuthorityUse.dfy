/** What the database grants: when a request succeeds, and how long what it grants is good for. */
module AuthorityUse {
  import opened Authority
  import opened AuthorityRuns
  import opened Options

  // ---- Beginning ------------------------------------------------------------------

  function LiveLeases(d: Db, now: real): set<nat> { set k | k in d.leases && Live(d.leases[k].exp, now) }

  function LiveTickets(d: Db, now: real): set<nat> { set k | k in d.handoffs && Live(d.handoffs[k].exp, now) }

  /** The tombstone of a session, while it lasts. */
  predicate Tombstoned(d: Db, session: string, now: real) {
    session in d.revoked && Live(d.revoked[session], now)
  }

  function EpochOf(d: Db, uid: nat): nat { if uid in d.profiles then d.profiles[uid].epoch else 0 }

  /** There is a live lease that already stands for this session. */
  ghost predicate Standing(d: Db, uid: nat, session: string, mainEpoch: int, now: real) {
    exists k :: k in LiveLeases(d, now) && StandsFor(d.leases[k], uid, session, EpochOf(d, uid), mainEpoch)
  }

  predicate StandsFor(l: Lease, uid: nat, session: string, epoch: nat, mainEpoch: int) {
    l.uid == uid && l.session == session && l.who.epoch == epoch && l.mainEpoch == mainEpoch
  }

  /** The request comes from a main origin, for a user known by this name, with a running, unrevoked session. */
  predicate MayBegin(a: Authority, now: real, o: Op, mainEpoch: string -> int)
    requires o.DoBegin?
  {
    && o.origin in a.mainOrigins && o.token != "" && !a.failed && o.expectedEpoch == mainEpoch(o.user)
    && (o.uid in a.db.profiles ==> a.db.profiles[o.uid].user == o.user)
    && Live(o.expires, now) && !Tombstoned(a.db, o.token, now)
  }

  lemma CollectKeepsLive(d: Db, now: real)
    ensures var c := Collect(d, now);
            && c.leases.Keys == LiveLeases(d, now) && c.handoffs.Keys == LiveTickets(d, now)
            && (forall k | k in c.leases :: c.leases[k] == d.leases[k])
            && (forall k | k in c.handoffs :: c.handoffs[k] == d.handoffs[k])
            && (forall s :: s in c.revoked <==> Tombstoned(d, s, now))
            && (forall s | s in c.revoked :: c.revoked[s] == d.revoked[s])
            && (forall p :: p in c.spent <==> p in d.spent && Live(d.spent[p], now))
            && (forall p | p in c.spent :: c.spent[p] == d.spent[p])
            && c.profiles == d.profiles
  {
  }

  lemma LiveWithinWeek(expires: int, now: real)
    ensures Live(Min(expires, now.Floor + WEEK), now) <==> Live(expires, now)
  {
  }

  /** A user keeps the profile of that name, or gets one with a new id; under another name there is none. */
  lemma ProfileExact(a: Authority, uid: nat, user: string)
    requires !a.failed
    ensures var (a', r) := ProfileFor(a, uid, user, Stored);
            && (r.Ok? <==> uid in a.db.profiles ==> a.db.profiles[uid].user == user)
            && (r.Ok? ==> r.value.user == user && r.value.epoch == EpochOf(a.db, uid)
                          && uid in a'.db.profiles && a'.db.profiles[uid] == r.value
                          && (uid in a.db.profiles ==> a' == a)
                          && (uid !in a.db.profiles ==> a.nextId <= r.value.profile < a'.nextId && a'.durable == a'.db))
            && !a'.failed && a'.db == a.db.(profiles := a'.db.profiles) && ProfilesKept(a.db, a'.db)
            && a.nextId <= a'.nextId
  {
  }

  lemma BeginLeaseExact(a: Authority, now: real, uid: nat, who: Profile, token: string, exp: int, origin: string, mainEpoch: int)
    requires !a.failed
    ensures var (a', r) := BeginLease(a, now, uid, who, token, exp, origin, mainEpoch, Stored);
            var found := FindLease(a.db.leases, a.nextId, uid, who, token, mainEpoch);
            && (r.Ok? <==> (found.Some? || |a.db.leases| < 4096) && |a.db.handoffs| < 1024)
            && (r.Ok? ==>
                  var id := if found.Some? then found.value else a.nextId;
                  && r.value >= a.nextId && a'.durable == a'.db && !a'.failed
                  && a'.db == a.db.(leases := a'.db.leases, handoffs := a.db.handoffs[r.value := Handoff(id, origin, now.Floor + 60)])
                  && a'.db.leases == if found.Some? then a.db.leases
                                     else a.db.leases[id := Lease(uid, who, token, exp, mainEpoch)])
  {
    hide FindLease;
  }

  lemma FoundExact(d: Db, a: Authority, now: real, uid: nat, who: Profile, session: string, mainEpoch: int)
    requires WellKept(a.db, a.nextId) && who.epoch == EpochOf(d, uid)
    requires a.db.leases.Keys == LiveLeases(d, now) && forall k | k in a.db.leases :: a.db.leases[k] == d.leases[k]
    ensures FindLease(a.db.leases, a.nextId, uid, who, session, mainEpoch).Some?
            <==> Standing(d, uid, session, mainEpoch, now)
  {
    var found := FindLease(a.db.leases, a.nextId, uid, who, session, mainEpoch);
    if found.Some? {
      assert found.value in LiveLeases(d, now) && StandsFor(d.leases[found.value], uid, session, who.epoch, mainEpoch);
    }
    hide FindLease;
  }

  /** The database as the lease is looked for: collected, and with the user's profile. */
  lemma BeginSplits(a: Authority, now: real, o: Op, mainEpoch: string -> int)
    requires o.DoBegin? && o.saves == (Stored, Stored)
    ensures var a1 := a.(db := Collect(a.db, now));
            var (a2, record) := ProfileFor(a1, o.uid, o.user, Stored);
            var exp := Min(o.expires, now.Floor + WEEK);
            var (a', r) := Begin(a, now, o.uid, o.user, o.token, o.expires, o.origin, o.expectedEpoch, mainEpoch, o.saves);
            if MayBegin(a, now, o, mainEpoch)
            then record.Ok? && (a', r) == BeginLease(a2, now, o.uid, record.value, o.token, exp, o.origin, o.expectedEpoch, Stored)
            else r.Err?
  {
    CollectKeepsLive(a.db, now);
    LiveWithinWeek(o.expires, now);
    var a1 := a.(db := Collect(a.db, now));
    if !a.failed { ProfileExact(a1, o.uid, o.user); }
    hide Collect, BeginLease, ProfileFor, Live, Min;
  }

  /**
   With working storage, a sign-in is accepted exactly if the request is in order, a lease stands for the
   session already or fewer than 4096 are live, and fewer than 1024 tickets are pending.
   */
  lemma BeginExact(a: Authority, now: real, o: Op, mainEpoch: string -> int)
    requires o.DoBegin? && o.saves == (Stored, Stored) && WellKept(a.db, a.nextId)
    ensures Begin(a, now, o.uid, o.user, o.token, o.expires, o.origin, o.expectedEpoch, mainEpoch, o.saves).1.Ok?
            <==> && MayBegin(a, now, o, mainEpoch)
                 && (Standing(a.db, o.uid, o.token, o.expectedEpoch, now) || |LiveLeases(a.db, now)| < 4096)
                 && |LiveTickets(a.db, now)| < 1024
  {
    BeginSplits(a, now, o, mainEpoch);
    if MayBegin(a, now, o, mainEpoch) {
      var a1 := a.(db := Collect(a.db, now));
      var (a2, record) := ProfileFor(a1, o.uid, o.user, Stored);
      CollectKeepsLive(a.db, now);
      ProfileExact(a1, o.uid, o.user);
      FoundExact(a.db, a2, now, o.uid, record.value, o.token, o.expectedEpoch);
      BeginLeaseExact(a2, now, o.uid, record.value, o.token, Min(o.expires, now.Floor + WEEK), o.origin, o.expectedEpoch);
      assert |a2.db.leases| == |a2.db.leases.Keys| && |a2.db.handoffs| == |a2.db.handoffs.Keys|;
    }
    hide Begin, Collect, Standing, BeginLease, ProfileFor, FindLease, LiveLeases, LiveTickets, MayBegin;
  }

  // ---- What a sign-in leaves ------------------------------------------------------

  /** The profile a lease carries is its user's, except for the epoch. */
  ghost predicate Kin(d: Db) {
    forall k | k in d.leases ::
      d.leases[k].uid in d.profiles
      && d.leases[k].who.user == d.profiles[d.leases[k].uid].user
      && d.leases[k].who.profile == d.profiles[d.leases[k].uid].profile
  }

  /** The lease is on record with its user's current profile, and its session is not revoked. */
  ghost predicate Stands(d: Db, id: nat, l: Lease, now: real) {
    && id in d.leases && d.leases[id] == l && l.uid in d.profiles && d.profiles[l.uid] == l.who
    && !Tombstoned(d, l.session, now)
  }

  /** A lease is served exactly while it stands, runs, and the main session's epoch is its own. */
  lemma ServedExact(a: Authority, id: nat, l: Lease, now: real, mainEpoch: string -> int)
    ensures LeaseOf(a, id, now, mainEpoch) == Ok(l)
            <==> !a.failed && Stands(a.db, id, l, now) && Live(l.exp, now) && l.mainEpoch == mainEpoch(l.who.user)
  {
  }

  /** The lease that a sign-in with this request is for. */
  predicate LeaseFor(l: Lease, o: Op)
    requires o.DoBegin?
  {
    l.uid == o.uid && l.session == o.token && l.who.user == o.user && l.mainEpoch == o.expectedEpoch
  }

  /**
   An accepted sign-in leaves, in both copies, a new ticket for a minute, bound to its origin, and a live
   lease of the session that stands; a new lease ends with the session or after a week.
   */
  lemma BeginGives(a: Authority, now: real, o: Op, mainEpoch: string -> int)
    requires o.DoBegin? && o.saves == (Stored, Stored) && WellKept(a.db, a.nextId) && Kin(a.db)
    requires Begin(a, now, o.uid, o.user, o.token, o.expires, o.origin, o.expectedEpoch, mainEpoch, o.saves).1.Ok?
    ensures var (a', r) := Begin(a, now, o.uid, o.user, o.token, o.expires, o.origin, o.expectedEpoch, mainEpoch, o.saves);
            && !a'.failed && a'.durable == a'.db && r.value >= a.nextId && r.value in a'.db.handoffs
            && var h := a'.db.handoffs[r.value];
               && h.origin == o.origin && h.exp == now.Floor + 60 && h.lease in a'.db.leases
               && var l := a'.db.leases[h.lease];
                  && LeaseFor(l, o) && Live(l.exp, now) && Stands(a'.db, h.lease, l, now)
                  && (h.lease >= a.nextId ==> l.exp == Min(o.expires, now.Floor + WEEK))
  {
    BeginSplits(a, now, o, mainEpoch);
    var a1 := a.(db := Collect(a.db, now));
    var (a2, record) := ProfileFor(a1, o.uid, o.user, Stored);
    CollectKeepsLive(a.db, now);
    LiveWithinWeek(o.expires, now);
    ProfileExact(a1, o.uid, o.user);
    BeginLeaseExact(a2, now, o.uid, record.value, o.token, Min(o.expires, now.Floor + WEEK), o.origin, o.expectedEpoch);
    hide Begin, Collect, BeginLease, ProfileFor, FindLease, Min;
  }

  /** Where a ticket may be handed in: in a frame of its own origin, or by a renewal from the browser's. */
  predicate MayRedeem(a: Authority, ticket: nat, origin: string, destination: string, mode: string) {
    ticket in a.db.handoffs
    && if destination == "iframe" then origin == a.db.handoffs[ticket].origin && mode == "navigate"
       else destination == "empty" && origin == a.uiOrigin && mode in {"cors", "same-origin"}
  }

  /** With working storage, a ticket is redeemed exactly where it may be, in its minute, while its lease is served. */
  lemma RedeemExact(a: Authority, now: real, ticket: nat, origin: string, destination: string, mode: string,
                    mainEpoch: string -> int)
    ensures var (a', r) := Redeem(a, now, ticket, origin, destination, mode, mainEpoch, Stored);
            && (r.Ok? <==> && MayRedeem(a, ticket, origin, destination, mode)
                           && Live(a.db.handoffs[ticket].exp, now)
                           && LeaseOf(a, a.db.handoffs[ticket].lease, now, mainEpoch).Ok?)
            && (r.Ok? ==> && r.value == a.db.handoffs[ticket].lease && a'.durable == a'.db
                          && a'.db == a.db.(handoffs := a.db.handoffs - {ticket}))
  {
    hide LeaseOf;
    if a.failed { assert LeaseOf(a, 0, now, mainEpoch).Err? by { FailedServesNothing(a, 0, now, mainEpoch); } }
    if ticket in a.db.handoffs { FailedServesNothing(a, a.db.handoffs[ticket].lease, now, mainEpoch); }
  }

  lemma FailedServesNothing(a: Authority, id: nat, now: real, mainEpoch: string -> int)
    ensures a.failed ==> LeaseOf(a, id, now, mainEpoch).Err?
  {
  }

  /**
   A credential is minted exactly for a positive lifetime of up to a week, on a lease that is served, and
   bound only as an entry permit. It then verifies in its role and for its user, and for nothing else,
   until its lifetime or its lease is over.
   */
  lemma MintExact(a: Authority, now: real, role: Role, id: nat, seconds: int, binding: Option<Binding>,
                  mainEpoch: string -> int)
    ensures var (a', r) := Mint(a, now, role, id, seconds, binding, mainEpoch);
            && (r.Ok? <==> 0 < seconds <= WEEK && LeaseOf(a, id, now, mainEpoch).Ok? && (binding.Some? ==> role == Entry))
            && (r.Ok? ==>
                  var c, l := r.value, a.db.leases[id];
                  && c.binding == binding && c.lease == id && a'.db == a.db && a'.durable == a.durable
                  && a'.minted == a.minted + {c} && a'.failed == a.failed
                  && forall t: real, asked, uid: Option<nat> | t >= now ::
                       Verify(a', t, c, asked, uid, mainEpoch)
                       <==> asked == role && (uid.Some? ==> uid.value == l.uid)
                            && t < (now.Floor + seconds) as real && t < l.exp as real)
  {
    var (a', r) := Mint(a, now, role, id, seconds, binding, mainEpoch);
    if r.Ok? {
      var c, l := r.value, a.db.leases[id];
      ServedExact(a, id, l, now, mainEpoch);
      forall t: real, asked, uid: Option<nat> | t >= now
        ensures Verify(a', t, c, asked, uid, mainEpoch)
                <==> asked == role && (uid.Some? ==> uid.value == l.uid)
                     && t < (now.Floor + seconds) as real && t < l.exp as real
      {
        ServedExact(a', id, l, t, mainEpoch);
        StandsLater(a.db, id, l, now, t);
        hide LeaseOf, Stands;
      }
    }
    hide LeaseOf;
  }

  lemma StandsLater(d: Db, id: nat, l: Lease, now: real, later: real)
    requires Stands(d, id, l, now) && now <= later
    ensures Stands(d, id, l, later)
  {
  }

  /**
   With working storage, an entry permit is accepted exactly if it verifies as one for this user, comes with
   what it is bound to from the right place, is not on record as spent and live, and fewer than 4096 are.
   */
  lemma ConsumeExact(a: Authority, verifiedAt: real, collectedAt: real, c: Credential, uid: nat, binding: Binding,
                     context: bool, mainEpoch: string -> int)
    ensures var (a', r) := ConsumeEntry(a, verifiedAt, collectedAt, c, uid, binding, context, mainEpoch, Stored);
            && (r.Ok? <==>
                  && Verify(a, verifiedAt, c, Entry, Some(uid), mainEpoch) && context && c.binding == Some(binding)
                  && !(c in a.db.spent && Live(a.db.spent[c], collectedAt)) && |LiveSpent(a.db, collectedAt)| < 4096)
            && (r.Ok? ==>
                  && a'.durable == a'.db && c in a'.db.spent && a'.db.spent[c] == c.exp
                  && a'.db.spent.Keys == LiveSpent(a.db, collectedAt) + {c} && a'.db.profiles == a.db.profiles
                  && a'.db.leases.Keys == LiveLeases(a.db, collectedAt)
                  && a'.db.handoffs.Keys == LiveTickets(a.db, collectedAt))
  {
    var d := Collect(a.db, collectedAt);
    ConsumeShape(a, verifiedAt, collectedAt, c, uid, binding, context, mainEpoch);
    CollectKeepsLive(a.db, collectedAt);
    OthersKept(a.db, collectedAt);
    hide ConsumeEntry, Verify, LiveSpent, LiveLeases, LiveTickets, LiveTombstones, Collect;
    assert |d.spent| == |d.spent.Keys|;
  }

  lemma ConsumeShape(a: Authority, verifiedAt: real, collectedAt: real, c: Credential, uid: nat, binding: Binding,
                     context: bool, mainEpoch: string -> int)
    ensures var (a', r) := ConsumeEntry(a, verifiedAt, collectedAt, c, uid, binding, context, mainEpoch, Stored);
            var d := Collect(a.db, collectedAt);
            && (r.Ok? <==> Verify(a, verifiedAt, c, Entry, Some(uid), mainEpoch) && context && c.binding == Some(binding)
                           && c !in d.spent && |d.spent| < 4096)
            && (r.Ok? ==> a'.durable == a'.db && a'.db == d.(spent := d.spent[c := c.exp]))
  {
    if Verify(a, verifiedAt, c, Entry, Some(uid), mainEpoch) {
      FailedServesNothing(a, c.lease, verifiedAt, mainEpoch);
      assert !a.failed;
    }
    hide Verify, LeaseOf, Collect;
  }

  function LiveSpent(d: Db, now: real): set<Credential> { set c | c in d.spent && Live(d.spent[c], now) }

  function LiveTombstones(d: Db, now: real): set<string> { set s | s in d.revoked && Live(d.revoked[s], now) }

  /**
   With working storage, a session that still runs is revoked exactly if its tombstone replaces one or fewer
   than 8192 are live: its live leases go and are reported; the others, and the other tombstones, stay.
   */
  lemma RevokeSessionExact(a: Authority, now: real, token: string, e: int)
    requires Live(e, now)
    ensures var (a', r) := RevokeSession(a, now, token, Some(e), Stored);
            && (r.Ok? <==> !a.failed && (Tombstoned(a.db, token, now) || |LiveTombstones(a.db, now)| < 8192))
            && (r.Ok? ==>
                  && a'.durable == a'.db && !a'.failed && a'.db.profiles == a.db.profiles
                  && SessionTaken(a.db, a'.db.leases, r.value, token, now)
                  && a'.db.handoffs.Keys == LiveTickets(a.db, now) && a'.db.spent.Keys == LiveSpent(a.db, now)
                  && Entombed(a.db, a'.db.revoked, token, Min(e, now.Floor + WEEK), now))
  {
    var d := Collect(a.db, now);
    var gone := set k | k in d.leases && d.leases[k].session == token;
    RevokeShape(a, now, token, e, gone);
    SessionGone(a.db, token, gone, now);
    TombstoneAdded(a.db, token, Min(e, now.Floor + WEEK), now);
    OthersKept(a.db, now);
    hide RevokeSession, Collect, Min, Live, LiveLeases, LiveTombstones, LiveTickets, LiveSpent, Tombstoned, SessionTaken, Entombed;
  }

  /** Of the live leases, just those of the session are gone. */
  ghost predicate SessionTaken(d: Db, leases: map<nat, Lease>, gone: set<nat>, token: string, now: real) {
    && (forall k :: k in gone <==> k in LiveLeases(d, now) && d.leases[k].session == token)
    && (forall k :: k in leases <==> k in LiveLeases(d, now) && d.leases[k].session != token)
    && (forall k | k in leases :: leases[k] == d.leases[k])
  }

  /** The live tombstones, and one more or a new one for this session. */
  ghost predicate Entombed(d: Db, revoked: map<string, int>, token: string, exp: int, now: real) {
    && revoked.Keys == LiveTombstones(d, now) + {token} && revoked[token] == exp
    && forall s | s in revoked && s != token :: revoked[s] == d.revoked[s]
  }

  lemma RevokeShape(a: Authority, now: real, token: string, e: int, gone: set<nat>)
    requires Live(e, now)
    requires gone == set k | k in Collect(a.db, now).leases && Collect(a.db, now).leases[k].session == token
    ensures var (a', r) := RevokeSession(a, now, token, Some(e), Stored);
            var d := Collect(a.db, now);
            && (r.Ok? <==> !a.failed && (token in d.revoked || |d.revoked| < 8192))
            && (r.Ok? ==>
                  && r.value == gone && a'.durable == a'.db && !a'.failed
                  && a'.db == d.(revoked := d.revoked[token := Min(e, now.Floor + WEEK)], leases := d.leases - gone))
  {
    LiveWithinWeek(e, now);
    hide Collect, LatestExp, Min, Live;
  }

  lemma TombstonesKept(d: Db, now: real)
    ensures var c := Collect(d, now);
            && c.revoked.Keys == LiveTombstones(d, now) && |c.revoked| == |LiveTombstones(d, now)|
            && forall s :: s in LiveTombstones(d, now) <==> Tombstoned(d, s, now)
  {
    var c := Collect(d, now);
    assert c.revoked.Keys == LiveTombstones(d, now);
    assert |c.revoked| == |c.revoked.Keys|;
  }

  lemma OthersKept(d: Db, now: real)
    ensures var c := Collect(d, now);
            c.spent.Keys == LiveSpent(d, now) && c.handoffs.Keys == LiveTickets(d, now) && c.profiles == d.profiles
  {
  }

  lemma TombstoneAdded(d: Db, token: string, exp: int, now: real)
    ensures var revoked := Collect(d, now).revoked;
            && Entombed(d, revoked[token := exp], token, exp, now)
            && (token in revoked <==> Tombstoned(d, token, now)) && |revoked| == |LiveTombstones(d, now)|
  {
    CollectKeepsLive(d, now);
    TombstonesKept(d, now);
    hide Collect, LiveTombstones, Tombstoned;
  }

  lemma SessionGone(d: Db, token: string, gone: set<nat>, now: real)
    requires gone == set k | k in Collect(d, now).leases && Collect(d, now).leases[k].session == token
    ensures SessionTaken(d, Collect(d, now).leases - gone, gone, token, now)
  {
    CollectKeepsLive(d, now);
    hide Collect, LiveLeases;
  }

  /** Without an expiry, a revocation reaches as far as the session's live leases. */
  lemma RevokeDefault(a: Authority, now: real, token: string, save: Save, e: int)
    requires WellKept(a.db, a.nextId) && e >= 0
    requires forall k | k in LiveLeases(a.db, now) && a.db.leases[k].session == token :: a.db.leases[k].exp <= e
    requires e == 0 || exists k :: k in LiveLeases(a.db, now) && a.db.leases[k].session == token && a.db.leases[k].exp == e
    ensures RevokeSession(a, now, token, None, save) == RevokeSession(a, now, token, Some(e), save)
  {
    CollectKeepsLive(a.db, now);
    var leases := Collect(a.db, now).leases;
    var latest := LatestExp(leases, a.nextId, token);
    if e > 0 {
      var k :| k in LiveLeases(a.db, now) && a.db.leases[k].session == token && a.db.leases[k].exp == e;
      assert k in leases && leases[k].exp <= latest;
    }
    assert latest == e;
    hide Collect, LatestExp;
  }

  /** A session that has ended needs no tombstone. */
  lemma RevokeEnded(a: Authority, now: real, token: string, e: int, save: Save)
    requires !Live(e, now) && !a.failed
    ensures var (a', r) := RevokeSession(a, now, token, Some(e), save);
            r == Ok({}) && a' == a.(db := Collect(a.db, now))
  {
  }

  // ---- Over runs -------------------------------------------------------------------

  ghost predicate BothKin(a: Authority) {
    WellKept(a.db, a.nextId) && WellKept(a.durable, a.nextId) && Kin(a.db) && Kin(a.durable)
  }

  /** No request of these events reports a failed save, and none takes the lease's session or user away. */
  predicate Harmless(o: Op, l: Lease) {
    match o
    case DoBegin(_, _, _, _, _, _, saves) => saves == (Stored, Stored)
    case DoRedeem(_, _, _, _, save) => save == Stored
    case DoConsume(_, _, _, _, _, save) => save == Stored
    case DoRevokeSession(token, _, save) => save == Stored && token != l.session
    case DoRevokeUser(uid, save) => save == Stored && uid != l.uid
    case _ => true
  }

  ghost predicate Serving(w: World, id: nat, l: Lease) {
    && !w.a.failed && WellKept(w.a.db, w.a.nextId) && WellKept(w.a.durable, w.a.nextId) && id < w.a.nextId
    && Stands(w.a.db, id, l, w.now) && Stands(w.a.durable, id, l, w.now)
  }

  lemma BeginServes(a: Authority, now: real, o: Op, mainEpoch: string -> int, id: nat, l: Lease)
    requires o.DoBegin? && Harmless(o, l) && !a.failed && Stands(a.db, id, l, now) && Stands(a.durable, id, l, now)
    requires Live(l.exp, now) && id < a.nextId
    ensures var a' := Begin(a, now, o.uid, o.user, o.token, o.expires, o.origin, o.expectedEpoch, mainEpoch, o.saves).0;
            !a'.failed && Stands(a'.db, id, l, now) && Stands(a'.durable, id, l, now)
  {
    CollectKeepsLive(a.db, now);
    var a1 := a.(db := Collect(a.db, now));
    assert Stands(a1.db, id, l, now);
    ProfileServes(a1, now, o.uid, o.user, id, l);
    var (a2, record) := ProfileFor(a1, o.uid, o.user, Stored);
    var exp := Min(o.expires, now.Floor + WEEK);
    if record.Ok? {
      LeaseServes(a2, now, o.uid, record.value, o.token, exp, o.origin, o.expectedEpoch, id, l);
    }
    hide Collect, ProfileFor, BeginLease, Stands;
  }

  lemma ProfileServes(a: Authority, now: real, uid: nat, user: string, id: nat, l: Lease)
    requires !a.failed && Stands(a.db, id, l, now) && Stands(a.durable, id, l, now) && id < a.nextId
    ensures var a' := ProfileFor(a, uid, user, Stored).0;
            !a'.failed && Stands(a'.db, id, l, now) && Stands(a'.durable, id, l, now) && id < a'.nextId
  {
  }

  lemma LeaseServes(a: Authority, now: real, uid: nat, who: Profile, token: string, exp: int, origin: string,
                    mainEpoch: int, id: nat, l: Lease)
    requires !a.failed && Stands(a.db, id, l, now) && Stands(a.durable, id, l, now) && id < a.nextId
    ensures var a' := BeginLease(a, now, uid, who, token, exp, origin, mainEpoch, Stored).0;
            !a'.failed && Stands(a'.db, id, l, now) && Stands(a'.durable, id, l, now)
  {
    hide FindLease;
  }

  lemma RevokeServes(a: Authority, now: real, o: Op, id: nat, l: Lease)
    requires (o.DoRevokeSession? || o.DoRevokeUser?) && Harmless(o, l) && !a.failed
    requires Stands(a.db, id, l, now) && Stands(a.durable, id, l, now) && Live(l.exp, now)
    ensures var a' := if o.DoRevokeSession? then RevokeSession(a, now, o.token, o.until, o.save).0
                      else RevokeUser(a, o.uid, o.save).0;
            !a'.failed && Stands(a'.db, id, l, now) && Stands(a'.durable, id, l, now)
  {
    hide LatestExp;
    CollectKeepsLive(a.db, now);
    hide Collect;
  }

  lemma UseServes(a: Authority, now: real, o: Op, mainEpoch: string -> int, id: nat, l: Lease)
    requires Harmless(o, l) && !a.failed && Stands(a.db, id, l, now) && Stands(a.durable, id, l, now)
    ensures o.DoRedeem? ==>
              var a' := Redeem(a, now, o.ticket, o.origin, o.destination, o.mode, mainEpoch, o.save).0;
              !a'.failed && Stands(a'.db, id, l, now) && Stands(a'.durable, id, l, now)
    ensures o.DoMint? ==>
              var a' := Mint(a, now, o.role, o.lease, o.seconds, o.binding, mainEpoch).0;
              !a'.failed && Stands(a'.db, id, l, now) && Stands(a'.durable, id, l, now)
    ensures o.DoConsume? && now <= o.collectedAt && Live(l.exp, o.collectedAt) ==>
              var a' := ConsumeEntry(a, now, o.collectedAt, o.c, o.uid, o.bound, o.context, mainEpoch, o.save).0;
              !a'.failed && Stands(a'.db, id, l, o.collectedAt) && Stands(a'.durable, id, l, o.collectedAt)
  {
    hide LeaseOf, Verify;
    if o.DoConsume? && now <= o.collectedAt {
      CollectKeepsLive(a.db, o.collectedAt);
    }
    hide Collect;
  }

  lemma StepServes(w: World, e: Event, id: nat, l: Lease)
    requires Serving(w, id, l) && Harmless(e.op, l) && Live(l.exp, Step(w, e).now)
    ensures Serving(Step(w, e), id, l)
  {
    StepWellKept(w, e);
    StepMoves(w, e);
    if e.now >= w.now && !(e.op.DoConsume? && e.op.collectedAt < e.now) {
      var a, now, o := w.a, e.now, e.op;
      StandsLater(a.db, id, l, w.now, now);
      StandsLater(a.durable, id, l, w.now, now);
      assert Live(l.exp, now);
      UseServes(a, now, o, e.mainEpoch, id, l);
      if o.DoBegin? { BeginServes(a, now, o, e.mainEpoch, id, l); }
      if o.DoRevokeSession? || o.DoRevokeUser? { RevokeServes(a, now, o, id, l); }
      hide Begin, Redeem, ConsumeEntry, RevokeSession, RevokeUser, Mint, Verify, Stands;
    }
  }

  lemma {:induction false} RunLater(w: World, events: seq<Event>)
    ensures w.now <= RunAll(w, events).now
    decreases |events|
  {
    if events != [] { RunLater(Step(w, events[0]), events[1..]); }
  }

  /**
   A lease in a saved database is served for as long as it runs, whatever else happens, restarts included,
   unless its session or its user is revoked or its main session's epoch changes.
   */
  lemma {:induction false} LeaseLasts(w: World, events: seq<Event>, id: nat, l: Lease)
    requires Serving(w, id, l) && Live(l.exp, RunAll(w, events).now)
    requires forall i | 0 <= i < |events| :: Harmless(events[i].op, l)
    ensures Serving(RunAll(w, events), id, l)
    decreases |events|
  {
    if events != [] {
      RunLater(Step(w, events[0]), events[1..]);
      StepServes(w, events[0], id, l);
      hide Step, Serving, Harmless;
      LeaseLasts(Step(w, events[0]), events[1..], id, l);
    }
  }

  /** So is a credential: it verifies exactly until it expires. */
  lemma CredentialLasts(w: World, events: seq<Event>, c: Credential, l: Lease, mainEpoch: string -> int)
    requires Serving(w, c.lease, l) && c in w.a.minted && c.exp <= l.exp
    requires c.uid == l.uid && c.profile == l.who.profile && c.epoch == l.who.epoch
    requires forall i | 0 <= i < |events| :: Harmless(events[i].op, l)
    requires l.mainEpoch == mainEpoch(l.who.user) && Live(l.exp, RunAll(w, events).now)
    ensures var w' := RunAll(w, events);
            Verify(w'.a, w'.now, c, c.role, Some(c.uid), mainEpoch) <==> Live(c.exp, w'.now)
  {
    LeaseLasts(w, events, c.lease, l);
    MintedStays(w, events);
    var w' := RunAll(w, events);
    ServedExact(w'.a, c.lease, l, w'.now, mainEpoch);
    hide RunAll, LeaseOf, Stands;
  }

  lemma {:induction false} MintedStays(w: World, events: seq<Event>)
    requires WellKept(w.a.db, w.a.nextId) && WellKept(w.a.durable, w.a.nextId)
    ensures w.a.minted <= RunAll(w, events).a.minted
    decreases |events|
  {
    if events != [] {
      StepMoves(w, events[0]);
      StepWellKept(w, events[0]);
      hide Step, WellKept;
      MintedStays(Step(w, events[0]), events[1..]);
    }
  }

  lemma StepWellKept(w: World, e: Event)
    requires WellKept(w.a.db, w.a.nextId) && WellKept(w.a.durable, w.a.nextId)
    ensures var a := Step(w, e).a; WellKept(a.db, a.nextId) && WellKept(a.durable, a.nextId)
  {
    StepMoves(w, e);
    hide Step;
    var w' := Step(w, e);
    if Moves(w.a, w'.a, w'.now) {
      EvolvedWellKept(w.a.db, w'.a.db, w'.now, w.a.nextId, w'.a.nextId);
    }
  }

  // ---- Signing in -------------------------------------------------------------------

  lemma ShrunkKin(d: Db, d': Db)
    requires Kin(d) && ProfilesKept(d, d') && forall k | k in d'.leases :: k in d.leases && d'.leases[k] == d.leases[k]
    ensures Kin(d')
  {
  }

  lemma UseMakesNoLease(a: Authority, now: real, o: Op, mainEpoch: string -> int)
    ensures o.DoRedeem? ==>
              LeasesShrink(a, Redeem(a, now, o.ticket, o.origin, o.destination, o.mode, mainEpoch, o.save).0)
    ensures o.DoMint? ==> LeasesShrink(a, Mint(a, now, o.role, o.lease, o.seconds, o.binding, mainEpoch).0)
  {
    hide LeaseOf;
  }

  lemma ConsumeMakesNoLease(a: Authority, now: real, o: Op, mainEpoch: string -> int)
    requires o.DoConsume?
    ensures LeasesShrink(a, ConsumeEntry(a, now, o.collectedAt, o.c, o.uid, o.bound, o.context, mainEpoch, o.save).0)
  {
    CollectKeepsLive(a.db, o.collectedAt);
    hide Verify, Collect;
  }

  lemma RevokeMakesNoLease(a: Authority, now: real, o: Op)
    ensures o.DoRevokeSession? ==> LeasesShrink(a, RevokeSession(a, now, o.token, o.until, o.save).0)
    ensures o.DoRevokeUser? ==> LeasesShrink(a, RevokeUser(a, o.uid, o.save).0)
  {
    CollectKeepsLive(a.db, now);
    hide LatestExp, Collect;
  }

  /** Both copies come from the one in memory, or the durable one stays, without a new lease. */
  ghost predicate LeasesShrink(a: Authority, a': Authority) {
    && (forall k | k in a'.db.leases :: k in a.db.leases && a'.db.leases[k] == a.db.leases[k])
    && (a'.durable == a.durable || forall k | k in a'.durable.leases :: k in a.db.leases && a'.durable.leases[k] == a.db.leases[k])
  }

  lemma ShrinkKin(a: Authority, a': Authority, now: real)
    requires BothKin(a) && LeasesShrink(a, a') && Moves(a, a', now)
    ensures BothKin(a')
  {
    EvolvedWellKept(a.db, a'.db, now, a.nextId, a'.nextId);
    ShrunkKin(a.db, a'.db);
    if a'.durable != a.durable {
      EvolvedWellKept(a.db, a'.durable, now, a.nextId, a'.nextId);
      ShrunkKin(a.db, a'.durable);
    }
    hide Kin, LeasesShrink;
  }

  lemma BeginKin(a: Authority, now: real, o: Op, mainEpoch: string -> int)
    requires o.DoBegin? && BothKin(a)
    ensures BothKin(Begin(a, now, o.uid, o.user, o.token, o.expires, o.origin, o.expectedEpoch, mainEpoch, o.saves).0)
  {
    CollectKin(a, now);
    var a1 := a.(db := Collect(a.db, now));
    ProfileKin(a1, now, o.uid, o.user, o.saves.0);
    var (a2, record) := ProfileFor(a1, o.uid, o.user, o.saves.0);
    var exp := Min(o.expires, now.Floor + WEEK);
    if record.Ok? {
      BeginLeaseKin(a2, now, o.uid, record.value, o.token, exp, o.origin, o.expectedEpoch, o.saves.1);
    }
    hide Collect, ProfileFor, BeginLease, BothKin;
  }

  lemma CollectKin(a: Authority, now: real)
    requires BothKin(a)
    ensures BothKin(a.(db := Collect(a.db, now)))
  {
    CollectEvolves(a.db, now, a.nextId);
    ShrunkKin(a.db, Collect(a.db, now));
    hide Kin;
  }

  lemma ProfileKin(a: Authority, now: real, uid: nat, user: string, save: Save)
    requires BothKin(a)
    ensures var (a', r) := ProfileFor(a, uid, user, save);
            BothKin(a') && (r.Ok? ==> uid in a'.db.profiles && a'.db.profiles[uid] == r.value)
  {
    ProfileMoves(a, now, uid, user, save);
  }

  lemma BeginLeaseKin(a: Authority, now: real, uid: nat, who: Profile, token: string, exp: int, origin: string,
                      mainEpoch: int, save: Save)
    requires BothKin(a) && uid in a.db.profiles && a.db.profiles[uid] == who
    ensures BothKin(BeginLease(a, now, uid, who, token, exp, origin, mainEpoch, save).0)
  {
    BeginLeaseMoves(a, now, uid, who, token, exp, origin, mainEpoch, save);
    var a' := BeginLease(a, now, uid, who, token, exp, origin, mainEpoch, save).0;
    LeaseKin(a.db, a.nextId, Lease(uid, who, token, exp, mainEpoch));
    EvolvedWellKept(a.db, a'.db, now, a.nextId, a'.nextId);
    if a'.durable != a.durable { EvolvedWellKept(a.db, a'.durable, now, a.nextId, a'.nextId); }
    hide FindLease, Evolves, WellKept;
  }

  lemma LeaseKin(d: Db, id: nat, l: Lease)
    requires Kin(d) && l.uid in d.profiles && d.profiles[l.uid] == l.who
    ensures Kin(d.(leases := d.leases[id := l]))
  {
  }

  lemma StepKin(w: World, e: Event)
    requires BothKin(w.a)
    ensures BothKin(Step(w, e).a)
  {
    if e.now >= w.now {
      UseMakesNoLease(w.a, e.now, e.op, e.mainEpoch);
      RevokeMakesNoLease(w.a, e.now, e.op);
      if e.op.DoConsume? { ConsumeMakesNoLease(w.a, e.now, e.op, e.mainEpoch); }
      if e.op.DoBegin? { BeginKin(w.a, e.now, e.op, e.mainEpoch); }
      StepMoves(w, e);
      var w' := Step(w, e);
      if !e.op.DoBegin? && Moves(w.a, w'.a, w'.now) { ShrinkKin(w.a, w'.a, w'.now); }
      hide Begin, Redeem, ConsumeEntry, RevokeSession, RevokeUser, Mint, Verify, BothKin, Moves;
    }
  }

  lemma {:induction false} RunKin(w: World, events: seq<Event>)
    requires BothKin(w.a)
    ensures BothKin(RunAll(w, events).a)
    decreases |events|
  {
    hide Step, BothKin;
    if events != [] {
      StepKin(w, events[0]);
      RunKin(Step(w, events[0]), events[1..]);
    }
  }

  /**
   A sign-in that is accepted in any reachable world leads to a lease for just this session and user, which is
   then served for as long as it runs, whatever else happens, unless its session or its user is revoked or the
   main session's epoch changes.
   */
  lemma SignInServes(uiOrigin: string, mainOrigins: set<string>, history: seq<Event>, e: Event, later: seq<Event>,
                     mainEpoch: string -> int)
    requires var w := RunAll(Start(uiOrigin, mainOrigins), history);
             && e.op.DoBegin? && e.op.saves == (Stored, Stored) && w.now <= e.now
             && Begin(w.a, e.now, e.op.uid, e.op.user, e.op.token, e.op.expires, e.op.origin, e.op.expectedEpoch,
                      e.mainEpoch, e.op.saves).1.Ok?
    ensures var w := RunAll(Start(uiOrigin, mainOrigins), history);
            var (a', r) := Begin(w.a, e.now, e.op.uid, e.op.user, e.op.token, e.op.expires, e.op.origin,
                                 e.op.expectedEpoch, e.mainEpoch, e.op.saves);
            var w1 := Step(w, e);
            && w1.a == a' && r.value in a'.db.handoffs && a'.db.handoffs[r.value].lease in a'.db.leases
            && var id := a'.db.handoffs[r.value].lease;
               var l, w2 := a'.db.leases[id], RunAll(w1, later);
               && LeaseFor(l, e.op)
               && ((forall i | 0 <= i < |later| :: Harmless(later[i].op, l)) && Live(l.exp, w2.now)
                   && mainEpoch(e.op.user) == l.mainEpoch
                   ==> LeaseOf(w2.a, id, w2.now, mainEpoch) == Ok(l))
  {
    RunKin(Start(uiOrigin, mainOrigins), history);
    var w := RunAll(Start(uiOrigin, mainOrigins), history);
    BeginGives(w.a, e.now, e.op, e.mainEpoch);
    StepWellKept(w, e);
    var w1 := Step(w, e);
    hide Begin, RunAll;
    var r := Begin(w.a, e.now, e.op.uid, e.op.user, e.op.token, e.op.expires, e.op.origin, e.op.expectedEpoch,
                   e.mainEpoch, e.op.saves).1;
    var id := w1.a.db.handoffs[r.value].lease;
    var l, w2 := w1.a.db.leases[id], RunAll(w1, later);
    hide Step;
    if (forall i | 0 <= i < |later| :: Harmless(later[i].op, l)) && Live(l.exp, w2.now) && mainEpoch(e.op.user) == l.mainEpoch {
      LeaseLasts(w1, later, id, l);
      ServedExact(w2.a, id, l, w2.now, mainEpoch);
    }
  }
}
