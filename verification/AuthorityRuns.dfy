/** Whole runs of the identity database: requests, failed saves, restarts and the passing of time. */
module AuthorityRuns {
  import opened Authority
  import opened Options

  datatype Op =
    | DoBegin(uid: nat, user: string, token: string, expires: int, origin: string, expectedEpoch: int,
              saves: (Save, Save))
    | DoRedeem(ticket: nat, origin: string, destination: string, mode: string, save: Save)
    | DoMint(role: Role, lease: nat, seconds: int, binding: Option<Binding>)
    | DoVerify(c: Credential, role: Role, expected: Option<nat>)
    | DoConsume(c: Credential, uid: nat, bound: Binding, context: bool, collectedAt: real, save: Save)
    | DoRevokeSession(token: string, until: Option<int>, save: Save)
    | DoRevokeUser(uid: nat, save: Save)
    | DoRestart

  /** An operation, when it happens, and the main sessions' epochs at that moment. */
  datatype Event = Event(now: real, mainEpoch: string -> int, op: Op)

  /** What an operation granted, and the main session it was granted for. */
  datatype Grant =
    | Begun(session: string)
    | Redeemed(session: string, ticket: nat)
    | Verified(session: string, c: Credential, at: real, leaseExp: int)
    | Consumed(session: string, c: Credential)

  datatype World = World(a: Authority, now: real, log: seq<Grant>)

  function SessionOf(a: Authority, lease: nat): string {
    if lease in a.db.leases then a.db.leases[lease].session else ""
  }

  function Granted(log: seq<Grant>, ok: bool, g: Grant): seq<Grant> { if ok then log + [g] else log }

  /**
   Time does not run backwards, and stands still within one operation, except that a consumption
   reads the clock once to verify its permit and once more to collect what has expired.
   */
  function Step(w: World, e: Event): World {
    if e.now < w.now then w
    else
      var a, now, log := w.a, e.now, w.log;
      match e.op
      case DoBegin(uid, user, token, expires, origin, expected, saves) =>
        var (a', r) := Begin(a, now, uid, user, token, expires, origin, expected, e.mainEpoch, saves);
        World(a', now, Granted(log, r.Ok?, Begun(token)))
      case DoRedeem(ticket, origin, destination, mode, save) =>
        var (a', r) := Redeem(a, now, ticket, origin, destination, mode, e.mainEpoch, save);
        World(a', now, Granted(log, r.Ok?, Redeemed(if r.Ok? then SessionOf(a, r.value) else "", ticket)))
      case DoMint(role, lease, seconds, binding) =>
        World(Mint(a, now, role, lease, seconds, binding, e.mainEpoch).0, now, log)
      case DoVerify(c, role, uid) =>
        var ok := Verify(a, now, c, role, uid, e.mainEpoch);
        World(a, now, Granted(log, ok, Verified(SessionOf(a, c.lease), c, now,
                                                if ok then a.db.leases[c.lease].exp else 0)))
      case DoConsume(c, uid, binding, context, collectedAt, save) =>
        if collectedAt < now then w
        else
          var (a', r) := ConsumeEntry(a, now, collectedAt, c, uid, binding, context, e.mainEpoch, save);
          World(a', collectedAt, Granted(log, r.Ok?, Consumed(SessionOf(a, c.lease), c)))
      case DoRevokeSession(token, expires, save) =>
        World(RevokeSession(a, now, token, expires, save).0, now, log)
      case DoRevokeUser(uid, save) =>
        World(RevokeUser(a, uid, save).0, now, log)
      case DoRestart =>
        World(Restart(a), now, log)
  }

  function RunAll(w: World, events: seq<Event>): World
    decreases |events|
  {
    if events == [] then w else RunAll(Step(w, events[0]), events[1..])
  }

  /** A database file without anybody in it. */
  const EMPTY := Db(map[], map[], map[], map[], map[])

  function Start(uiOrigin: string, mainOrigins: set<string>): World {
    World(Authority(EMPTY, EMPTY, false, uiOrigin, mainOrigins, 0, {}), 0.0, [])
  }

  // ---- How one operation may change either copy of the database -----------------

  /** A profile stays its user's, and its epoch never goes back. */
  ghost predicate ProfilesKept(d: Db, d': Db) {
    forall u | u in d.profiles ::
      u in d'.profiles && d'.profiles[u].epoch >= d.profiles[u].epoch
      && d'.profiles[u].user == d.profiles[u].user && d'.profiles[u].profile == d.profiles[u].profile
  }

  /** Ids below `from` are old: their tickets and leases only disappear, live spent permits stay. */
  ghost predicate Evolves(d: Db, d': Db, now: real, from: nat, to: nat) {
    && (forall k | k in d'.handoffs :: k < to && (k < from ==> k in d.handoffs && d'.handoffs[k] == d.handoffs[k]))
    && (forall k | k in d'.leases :: k < to && (k < from ==> k in d.leases && d'.leases[k] == d.leases[k]))
    && (forall c | c in d.spent && Live(d.spent[c], now) :: c in d'.spent && d'.spent[c] == d.spent[c])
    && (forall c | c in d'.spent :: d'.spent[c] == c.exp)
    && ProfilesKept(d, d')
  }

  ghost predicate WellKept(d: Db, to: nat) {
    && (forall k | k in d.handoffs :: k < to)
    && (forall k | k in d.leases :: k < to)
    && (forall c | c in d.spent :: d.spent[c] == c.exp)
  }

  /** The copy in memory evolves; the durable one stays or becomes such an evolution. */
  ghost predicate Moves(a: Authority, a': Authority, now: real) {
    && a.nextId <= a'.nextId && a'.uiOrigin == a.uiOrigin && a'.mainOrigins == a.mainOrigins
    && a.minted <= a'.minted && (forall c | c in a'.minted :: c in a.minted || c.lease in a.db.leases)
    && Evolves(a.db, a'.db, now, a.nextId, a'.nextId)
    && (a'.durable == a.durable || Evolves(a.db, a'.durable, now, a.nextId, a'.nextId))
  }

  lemma EvolvesTwice(d: Db, d1: Db, d2: Db, now: real, from: nat, mid: nat, to: nat)
    requires from <= mid <= to && Evolves(d, d1, now, from, mid) && Evolves(d1, d2, now, mid, to)
    ensures Evolves(d, d2, now, from, to)
  {
  }

  lemma CollectEvolves(d: Db, now: real, to: nat)
    requires WellKept(d, to)
    ensures Evolves(d, Collect(d, now), now, to, to) && WellKept(Collect(d, now), to)
  {
  }

  lemma ProfileMoves(a: Authority, now: real, uid: nat, user: string, save: Save)
    requires WellKept(a.db, a.nextId)
    ensures var a' := ProfileFor(a, uid, user, save).0;
            Moves(a, a', now) && a'.db.handoffs == a.db.handoffs && a'.db.leases == a.db.leases
  {
  }

  lemma LeaseEvolves(d: Db, now: real, to: nat, lease: Lease)
    requires WellKept(d, to)
    ensures var d' := d.(leases := d.leases[to := lease]);
            Evolves(d, d', now, to, to + 1) && WellKept(d', to + 1) && WellKept(d, to + 1)
  {
  }

  lemma TicketEvolves(d: Db, d': Db, now: real, from: nat, to: nat, h: Handoff)
    requires Evolves(d, d', now, from, to) && from <= to
    ensures Evolves(d, d'.(handoffs := d'.handoffs[to := h]), now, from, to + 1) && Evolves(d, d', now, from, to + 1)
  {
  }

  lemma BeginLeaseMoves(a: Authority, now: real, uid: nat, who: Profile, token: string, exp: int, origin: string,
                        mainEpoch: int, save: Save)
    requires WellKept(a.db, a.nextId)
    ensures Moves(a, BeginLease(a, now, uid, who, token, exp, origin, mainEpoch, save).0, now)
  {
    hide FindLease, Evolves, WellKept;
    var found := FindLease(a.db.leases, a.nextId, uid, who, token, mainEpoch);
    var lease := Lease(uid, who, token, exp, mainEpoch);
    var d1 := if found.Some? then a.db else a.db.(leases := a.db.leases[a.nextId := lease]);
    EvolvesSelf(a.db, now, a.nextId);
    LeaseEvolves(a.db, now, a.nextId, lease);
    EvolvesLater(a.db, a.db, now, a.nextId, a.nextId, a.nextId + 1);
    assert Evolves(a.db, d1, now, a.nextId, a.nextId + 1);
    var ticket := Handoff(if found.Some? then found.value else a.nextId, origin, now.Floor + 60);
    TicketEvolves(a.db, d1, now, a.nextId, a.nextId + 1, ticket);
    if found.Some? { assert a.db.(leases := a.db.leases) == a.db; }
  }

  lemma BeginMoves(a: Authority, now: real, e: Op, mainEpoch: string -> int)
    requires e.DoBegin? && WellKept(a.db, a.nextId)
    ensures Moves(a, Begin(a, now, e.uid, e.user, e.token, e.expires, e.origin, e.expectedEpoch, mainEpoch, e.saves).0, now)
  {
    hide Collect, ProfileFor, BeginLease, Evolves;
    EvolvesSelf(a.db, now, a.nextId);
    CollectEvolves(a.db, now, a.nextId);
    var a1 := a.(db := Collect(a.db, now));
    ProfileMoves(a1, now, e.uid, e.user, e.saves.0);
    var (a2, record) := ProfileFor(a1, e.uid, e.user, e.saves.0);
    EvolvesTwice(a.db, a1.db, a2.db, now, a.nextId, a.nextId, a2.nextId);
    EvolvedWellKept(a1.db, a2.db, now, a.nextId, a2.nextId);
    var exp := Min(e.expires, now.Floor + WEEK);
    if record.Ok? {
      var a3 := BeginLease(a2, now, e.uid, record.value, e.token, exp, e.origin, e.expectedEpoch, e.saves.1).0;
      BeginLeaseMoves(a2, now, e.uid, record.value, e.token, exp, e.origin, e.expectedEpoch, e.saves.1);
      EvolvesTwice(a.db, a2.db, a3.db, now, a.nextId, a2.nextId, a3.nextId);
      if a2.durable != a.durable {
        EvolvesTwice(a.db, a1.db, a2.durable, now, a.nextId, a.nextId, a2.nextId);
        EvolvesLater(a.db, a2.durable, now, a.nextId, a2.nextId, a3.nextId);
      }
      if a3.durable != a2.durable {
        EvolvesTwice(a.db, a2.db, a3.durable, now, a.nextId, a2.nextId, a3.nextId);
      }
    } else if a2.durable != a.durable {
      EvolvesTwice(a.db, a1.db, a2.durable, now, a.nextId, a.nextId, a2.nextId);
    }
  }

  lemma EvolvesSelf(d: Db, now: real, to: nat)
    requires WellKept(d, to)
    ensures Evolves(d, d, now, to, to)
  {
  }

  lemma EvolvesLater(d: Db, d': Db, now: real, from: nat, to: nat, later: nat)
    requires Evolves(d, d', now, from, to) && to <= later
    ensures Evolves(d, d', now, from, later)
  {
  }

  lemma EvolvedWellKept(d: Db, d': Db, now: real, from: nat, to: nat)
    requires Evolves(d, d', now, from, to)
    ensures WellKept(d', to)
  {
  }

  lemma RedeemMoves(a: Authority, now: real, e: Op, mainEpoch: string -> int)
    requires e.DoRedeem? && WellKept(a.db, a.nextId)
    ensures Moves(a, Redeem(a, now, e.ticket, e.origin, e.destination, e.mode, mainEpoch, e.save).0, now)
  {
  }

  lemma SpendEvolves(d: Db, now: real, to: nat, c: Credential)
    requires WellKept(d, to)
    ensures var collected := Collect(d, now); Evolves(d, collected.(spent := collected.spent[c := c.exp]), now, to, to)
  {
  }

  lemma ConsumeMoves(a: Authority, now: real, e: Op, mainEpoch: string -> int)
    requires e.DoConsume? && WellKept(a.db, a.nextId)
    ensures Moves(a, ConsumeEntry(a, now, e.collectedAt, e.c, e.uid, e.bound, e.context, mainEpoch, e.save).0,
                  e.collectedAt)
  {
    hide Verify, Evolves, Collect, WellKept;
    EvolvesSelf(a.db, e.collectedAt, a.nextId);
    CollectEvolves(a.db, e.collectedAt, a.nextId);
    SpendEvolves(a.db, e.collectedAt, a.nextId, e.c);
  }

  lemma RevokeSessionMoves(a: Authority, now: real, e: Op)
    requires e.DoRevokeSession? && WellKept(a.db, a.nextId)
    ensures Moves(a, RevokeSession(a, now, e.token, e.until, e.save).0, now)
  {
    hide LatestExp, Collect, Evolves, WellKept;
    CollectEvolves(a.db, now, a.nextId);
    EvolvesSelf(a.db, now, a.nextId);
    var a1 := a.(db := Collect(a.db, now));
    var asked := if e.until.Some? then e.until.value else LatestExp(a1.db.leases, a1.nextId, e.token);
    var gone := set k | k in a1.db.leases && a1.db.leases[k].session == e.token;
    RevokedEvolves(a.db, a1.db, now, a.nextId, e.token, Min(asked, now.Floor + WEEK), gone);
  }

  lemma RevokedEvolves(d: Db, d': Db, now: real, to: nat, token: string, exp: int, gone: set<nat>)
    requires Evolves(d, d', now, to, to)
    ensures Evolves(d, d'.(revoked := d'.revoked[token := exp], leases := d'.leases - gone), now, to, to)
  {
  }

  lemma RevokeUserMoves(a: Authority, now: real, e: Op)
    requires e.DoRevokeUser? && WellKept(a.db, a.nextId)
    ensures Moves(a, RevokeUser(a, e.uid, e.save).0, now)
  {
  }

  lemma MintMoves(a: Authority, now: real, o: Op, mainEpoch: string -> int)
    requires o.DoMint? && WellKept(a.db, a.nextId)
    ensures Moves(a, Mint(a, now, o.role, o.lease, o.seconds, o.binding, mainEpoch).0, now)
  {
  }

  /** Every event moves the database on, leaves it as it is, or starts from the durable copy again. */
  lemma StepMoves(w: World, e: Event)
    requires WellKept(w.a.db, w.a.nextId)
    ensures var w' := Step(w, e);
            w.now <= w'.now && (w'.a == w.a || w'.a == Restart(w.a) || Moves(w.a, w'.a, w'.now))
  {
    hide Begin, Redeem, ConsumeEntry, RevokeSession, RevokeUser, Mint, Verify, Moves, WellKept;
    if e.now >= w.now {
      var a, now, o := w.a, e.now, e.op;
      if o.DoBegin? { BeginMoves(a, now, o, e.mainEpoch); }
      if o.DoRedeem? { RedeemMoves(a, now, o, e.mainEpoch); }
      if o.DoMint? { MintMoves(a, now, o, e.mainEpoch); }
      if o.DoConsume? && now <= o.collectedAt { ConsumeMoves(a, now, o, e.mainEpoch); }
      if o.DoRevokeSession? { RevokeSessionMoves(a, now, o); }
      if o.DoRevokeUser? { RevokeUserMoves(a, now, o); }
    }
  }

  // ---- One-use credentials -------------------------------------------------------

  /** What a grant has used up stays used up in this copy of the database. */
  ghost predicate UsedUp(d: Db, g: Grant, now: real, to: nat) {
    match g
    case Redeemed(_, ticket) => ticket < to && ticket !in d.handoffs
    case Consumed(_, c) => (c in d.spent && d.spent[c] == c.exp) || !Live(c.exp, now)
    case _ => true
  }

  ghost predicate AllUsedUp(d: Db, w: World) {
    WellKept(d, w.a.nextId) && forall g | g in w.log :: UsedUp(d, g, w.now, w.a.nextId)
  }

  /** No ticket and no permit occurs twice. */
  ghost predicate OneUse(log: seq<Grant>) {
    forall i, j | 0 <= i < j < |log| ::
      && (log[i].Redeemed? && log[j].Redeemed? ==> log[i].ticket != log[j].ticket)
      && (log[i].Consumed? && log[j].Consumed? ==> log[i].c != log[j].c)
  }

  ghost predicate Sound(w: World) {
    AllUsedUp(w.a.db, w) && AllUsedUp(w.a.durable, w) && OneUse(w.log)
  }

  lemma UsedUpLater(d: Db, d': Db, g: Grant, was: real, now: real, from: nat, to: nat)
    requires UsedUp(d, g, was, from) && was <= now && from <= to
    requires d' == d || Evolves(d, d', now, from, to)
    ensures UsedUp(d', g, now, to)
  {
  }

  /** A move that grants nothing keeps everything used up. */
  lemma MoveSound(w: World, a': Authority, now: real)
    requires Sound(w) && w.now <= now && Moves(w.a, a', now)
    ensures Sound(World(a', now, w.log))
  {
    var from, to := w.a.nextId, a'.nextId;
    hide Evolves, UsedUp;
    EvolvedWellKept(w.a.db, a'.db, now, from, to);
    if a'.durable != w.a.durable {
      EvolvedWellKept(w.a.db, a'.durable, now, from, to);
    }
    forall g | g in w.log ensures UsedUp(a'.db, g, now, to) && UsedUp(a'.durable, g, now, to) {
      UsedUpLater(w.a.db, a'.db, g, w.now, now, from, to);
      if a'.durable == w.a.durable {
        UsedUpLater(w.a.durable, a'.durable, g, w.now, now, from, to);
      } else {
        UsedUpLater(w.a.db, a'.durable, g, w.now, now, from, to);
      }
    }
  }

  /** Adding a grant that was not yet used up before and is now. */
  lemma GrantSound(w: World, g: Grant)
    requires Sound(w) && UsedUp(w.a.db, g, w.now, w.a.nextId) && UsedUp(w.a.durable, g, w.now, w.a.nextId)
    requires g.Redeemed? ==> forall h | h in w.log && h.Redeemed? :: h.ticket != g.ticket
    requires g.Consumed? ==> forall h | h in w.log && h.Consumed? :: h.c != g.c
    ensures Sound(w.(log := w.log + [g]))
  {
    hide WellKept, UsedUp;
    var log := w.log + [g];
    forall i, j | 0 <= i < j < |log|
      ensures && (log[i].Redeemed? && log[j].Redeemed? ==> log[i].ticket != log[j].ticket)
              && (log[i].Consumed? && log[j].Consumed? ==> log[i].c != log[j].c)
    {
      if j == |w.log| {
        assert log[i] in w.log;
      }
    }
  }

  lemma RedeemSound(w: World, e: Event)
    requires Sound(w) && e.op.DoRedeem? && w.now <= e.now
    ensures Sound(Step(w, e))
  {
    var o := e.op;
    var (a', r) := Redeem(w.a, e.now, o.ticket, o.origin, o.destination, o.mode, e.mainEpoch, o.save);
    RedeemMoves(w.a, e.now, o, e.mainEpoch);
    MoveSound(w, a', e.now);
    if r.Ok? {
      forall h | h in w.log && h.Redeemed? ensures h.ticket != o.ticket {
        assert UsedUp(w.a.db, h, w.now, w.a.nextId);
      }
      GrantSound(World(a', e.now, w.log), Redeemed(SessionOf(w.a, r.value), o.ticket));
    }
    hide Sound, Redeem;
  }

  /** The permit of a consumption expires between its two readings of the clock. */
  predicate Straddles(e: Event) {
    e.op.DoConsume? && e.now < e.op.c.exp as real <= e.op.collectedAt
  }

  predicate NoneStraddles(events: seq<Event>) { forall i | 0 <= i < |events| :: !Straddles(events[i]) }

  lemma ConsumeSound(w: World, e: Event)
    requires Sound(w) && e.op.DoConsume? && w.now <= e.now <= e.op.collectedAt && !Straddles(e)
    ensures Sound(Step(w, e))
  {
    hide Verify, Evolves;
    var o := e.op;
    var (a', r) := ConsumeEntry(w.a, e.now, o.collectedAt, o.c, o.uid, o.bound, o.context, e.mainEpoch, o.save);
    ConsumeMoves(w.a, e.now, o, e.mainEpoch);
    MoveSound(w, a', o.collectedAt);
    if r.Ok? {
      ConsumedFresh(w.a, e);
      forall h | h in w.log && h.Consumed? ensures h.c != o.c {
        assert UsedUp(w.a.db, h, w.now, w.a.nextId);
      }
      GrantSound(World(a', o.collectedAt, w.log), Consumed(SessionOf(w.a, o.c.lease), o.c));
    }
    hide Sound, ConsumeEntry;
  }

  /** A permit that is consumed is live and was not on record; now it is, durably. */
  lemma ConsumedFresh(a: Authority, e: Event)
    requires e.op.DoConsume? && !Straddles(e)
    ensures var o := e.op;
            var (a', r) := ConsumeEntry(a, e.now, o.collectedAt, o.c, o.uid, o.bound, o.context, e.mainEpoch, o.save);
            r.Ok? ==> Live(o.c.exp, e.now) && !(o.c in a.db.spent && a.db.spent[o.c] == o.c.exp)
                      && o.c in a'.db.spent && a'.db.spent[o.c] == o.c.exp && a'.durable == a'.db
  {
  }

  lemma StepSound(w: World, e: Event)
    requires Sound(w) && !Straddles(e)
    ensures Sound(Step(w, e))
  {
    hide Sound;
    if e.now >= w.now {
      var a, now, o := w.a, e.now, e.op;
      match o {
        case DoRedeem(_, _, _, _, _) => RedeemSound(w, e);
        case DoConsume(_, _, _, _, collectedAt, _) =>
          if now <= collectedAt { ConsumeSound(w, e); }
        case _ => OtherSound(w, e);
      }
    }
  }

  lemma OtherSound(w: World, e: Event)
    requires Sound(w) && !e.op.DoRedeem? && !e.op.DoConsume? && w.now <= e.now
    ensures Sound(Step(w, e))
  {
    hide Begin, RevokeSession, RevokeUser, Verify, LeaseOf, Moves;
    var a, now, o := w.a, e.now, e.op;
    if o.DoBegin? {
      var (a', r) := Begin(a, now, o.uid, o.user, o.token, o.expires, o.origin, o.expectedEpoch, e.mainEpoch, o.saves);
      BeginMoves(a, now, o, e.mainEpoch);
      MoveSound(w, a', now);
      if r.Ok? { GrantSound(World(a', now, w.log), Begun(o.token)); }
    } else if o.DoRevokeSession? {
      RevokeSessionMoves(a, now, o);
      MoveSound(w, RevokeSession(a, now, o.token, o.until, o.save).0, now);
    } else if o.DoRevokeUser? {
      RevokeUserMoves(a, now, o);
      MoveSound(w, RevokeUser(a, o.uid, o.save).0, now);
    } else if o.DoMint? {
      MintMoves(a, now, o, e.mainEpoch);
      MoveSound(w, Mint(a, now, o.role, o.lease, o.seconds, o.binding, e.mainEpoch).0, now);
    } else {
      LaterSound(w, now);
      if o.DoVerify? && Verify(a, now, o.c, o.role, o.expected, e.mainEpoch) {
        GrantSound(World(a, now, w.log), Step(w, e).log[|w.log|]);
      }
    }
    hide Sound;
  }

  /** Time passes, or the process starts again from the durable copy. */
  lemma LaterSound(w: World, now: real)
    requires Sound(w) && w.now <= now
    ensures Sound(World(w.a, now, w.log)) && Sound(World(Restart(w.a), now, w.log))
  {
    forall g | g in w.log
      ensures UsedUp(w.a.db, g, now, w.a.nextId) && UsedUp(w.a.durable, g, now, w.a.nextId)
    {
      UsedUpLater(w.a.db, w.a.db, g, w.now, now, w.a.nextId, w.a.nextId);
      UsedUpLater(w.a.durable, w.a.durable, g, w.now, now, w.a.nextId, w.a.nextId);
    }
  }

  lemma {:induction false} RunSound(w: World, events: seq<Event>)
    requires Sound(w) && NoneStraddles(events)
    ensures Sound(RunAll(w, events))
    decreases |events|
  {
    hide Sound, Step;
    if events != [] {
      StepSound(w, events[0]);
      RunSound(Step(w, events[0]), events[1..]);
    }
  }

  /**
   One use: over any run in which no permit expires between the two readings of its consumption,
   with expiry collection, failed saves and restarts, every handoff ticket is redeemed at most once
   and every entry permit is consumed at most once.
   */
  lemma CredentialsWorkOnce(uiOrigin: string, mainOrigins: set<string>, events: seq<Event>)
    requires NoneStraddles(events)
    ensures OneUse(RunAll(Start(uiOrigin, mainOrigins), events).log)
  {
    RunSound(Start(uiOrigin, mainOrigins), events);
  }

  // ---- Two readings of the clock -----------------------------------------------------

  /** A permit on record is accepted again exactly when the collection finds it expired. */
  lemma SpentPermitExact(a: Authority, verifiedAt: real, collectedAt: real, c: Credential, uid: nat,
                         binding: Binding, mainEpoch: string -> int)
    requires Verify(a, verifiedAt, c, Entry, Some(uid), mainEpoch) && c.binding == Some(binding)
    requires c in a.db.spent && a.db.spent[c] == c.exp && |Collect(a.db, collectedAt).spent| < 4096
    ensures ConsumeEntry(a, verifiedAt, collectedAt, c, uid, binding, true, mainEpoch, Stored).1.Ok?
            <==> collectedAt >= c.exp as real
  {
  }

  /** In a run so far sound, a consumed permit is consumed a second time exactly when it then expires between the readings. */
  lemma SecondConsumptionExact(w: World, e: Event, session: string)
    requires Sound(w) && e.op.DoConsume? && w.now <= e.now <= e.op.collectedAt
    requires Consumed(session, e.op.c) in w.log
    requires Verify(w.a, e.now, e.op.c, Entry, Some(e.op.uid), e.mainEpoch) && e.op.c.binding == Some(e.op.bound)
    requires e.op.context && e.op.save == Stored && |Collect(w.a.db, e.op.collectedAt).spent| < 4096
    ensures Step(w, e).log == w.log + [Consumed(SessionOf(w.a, e.op.c.lease), e.op.c)] <==> Straddles(e)
  {
    var c := e.op.c;
    assert UsedUp(w.a.db, Consumed(session, c), w.now, w.a.nextId);
    SpentPermitExact(w.a, e.now, e.op.collectedAt, c, e.op.uid, e.op.bound, e.mainEpoch);
    hide ConsumeEntry, Verify, Collect;
    assert |w.log + [Consumed(SessionOf(w.a, c.lease), c)]| == |w.log| + 1;
  }

  /** Every consumption of these events reads the clock once, or at exactly these two moments. */
  predicate Readings(events: seq<Event>, verifiedAt: real, collectedAt: real) {
    forall i | 0 <= i < |events| && events[i].op.DoConsume? ::
      events[i].op.collectedAt == events[i].now
      || (events[i].now == verifiedAt && events[i].op.collectedAt == collectedAt)
  }

  const BOUND := Binding("host", "ticket")

  /** The permit of the failing run: it expires with the second after `at`. */
  function Brief(at: real): Credential { Credential(Entry, 0, 0, 0, 1, at.Floor + 1, Some(BOUND), 3) }

  /** Sign in, mint a permit and consume it, all at one moment. */
  function OneConsumption(at: real): seq<Event> {
    [Event(at, _ => 0, DoBegin(0, "user", "token", at.Floor + 1, "main", 0, (Stored, Stored))),
     Event(at, _ => 0, DoMint(Entry, 1, 1, Some(BOUND))),
     Event(at, _ => 0, DoConsume(Brief(at), 0, BOUND, true, at, Stored))]
  }

  /** The world after that: the lease and the spent permit, and nothing else that counts. */
  ghost predicate Consumed1(w: World, at: real) {
    && w.now == at && !w.a.failed && w.log == [Begun("token"), Consumed("token", Brief(at))]
    && Brief(at) in w.a.minted && w.a.db.spent == map[Brief(at) := at.Floor + 1]
    && w.a.db.profiles == map[0 := Profile("user", 0, 0)] && w.a.db.revoked == map[]
    && w.a.db.leases == map[1 := Lease(0, Profile("user", 0, 0), "token", at.Floor + 1, 0)]
  }

  lemma BeginsOnce(at: real)
    requires at >= 0.0
    ensures var e := OneConsumption(at)[0];
            var w := Step(Start("ui", {"main"}), e);
            && w.now == at && !w.a.failed && w.log == [Begun("token")] && w.a.nextId == 3 && w.a.minted == {}
            && w.a.db.profiles == map[0 := Profile("user", 0, 0)] && w.a.db.spent == map[] && w.a.db.revoked == map[]
            && w.a.db.leases == map[1 := Lease(0, Profile("user", 0, 0), "token", at.Floor + 1, 0)]
  {
    var a := Start("ui", {"main"}).a;
    assert Collect(EMPTY, at) == EMPTY;
    var (a1, record) := ProfileFor(a, 0, "user", Stored);
    assert a1.db.profiles == map[0 := Profile("user", 0, 0)] && record == Ok(Profile("user", 0, 0));
    assert FindLease(map[], 1, 0, Profile("user", 0, 0), "token", 0).None?;
    hide FindLease;
  }

  /** The world after the sign-in and the minting of the permit. */
  ghost predicate Minted(w: World, at: real) {
    && w.now == at && !w.a.failed && w.log == [Begun("token")] && w.a.minted == {Brief(at)}
    && w.a.db.profiles == map[0 := Profile("user", 0, 0)] && w.a.db.spent == map[] && w.a.db.revoked == map[]
    && w.a.db.leases == map[1 := Lease(0, Profile("user", 0, 0), "token", at.Floor + 1, 0)]
  }

  lemma MintsOnce(at: real)
    requires at >= 0.0
    ensures Minted(Step(Step(Start("ui", {"main"}), OneConsumption(at)[0]), OneConsumption(at)[1]), at)
  {
    hide Begin;
    BeginsOnce(at);
    var w1 := Step(Start("ui", {"main"}), OneConsumption(at)[0]);
    assert LeaseOf(w1.a, 1, at, _ => 0).Ok?;
  }

  lemma ThenConsumes(w: World, at: real)
    requires at >= 0.0 && Minted(w, at)
    ensures Consumed1(Step(w, OneConsumption(at)[2]), at)
  {
    assert LeaseOf(w.a, 1, at, _ => 0) == Ok(Lease(0, Profile("user", 0, 0), "token", at.Floor + 1, 0));
    assert Verify(w.a, at, Brief(at), Entry, Some(0), _ => 0);
    var d := Collect(w.a.db, at);
    assert d.spent == map[] && d.leases == w.a.db.leases && d.revoked == map[] && d.profiles == w.a.db.profiles;
    hide Verify, Collect, LeaseOf;
  }

  lemma ConsumesOnce(at: real)
    requires at >= 0.0
    ensures Consumed1(RunAll(Start("ui", {"main"}), OneConsumption(at)), at)
  {
    hide Step, Minted, Consumed1;
    var events := OneConsumption(at);
    MintsOnce(at);
    var w1 := Step(Start("ui", {"main"}), events[0]);
    var w2 := Step(w1, events[1]);
    ThenConsumes(w2, at);
    assert events[1..][1..] == [events[2]] && events[1..][0] == events[1];
    assert RunAll(w2, [events[2]]) == RunAll(Step(w2, events[2]), []);
  }

  lemma {:induction false} RunAppend(w: World, events: seq<Event>, e: Event)
    ensures RunAll(w, events + [e]) == Step(RunAll(w, events), e)
    decreases |events|
  {
    hide Step;
    if events == [] {
      assert [e][1..] == [];
    } else {
      assert (events + [e])[1..] == events[1..] + [e];
      RunAppend(Step(w, events[0]), events[1..], e);
    }
  }

  function Late(at: real, later: real): Event {
    Event(at, _ => 0, DoConsume(Brief(at), 0, BOUND, true, later, Stored))
  }

  lemma LateConsumes(w: World, at: real, later: real)
    requires Consumed1(w, at) && later >= (at.Floor + 1) as real
    ensures Step(w, Late(at, later)).log == w.log + [Consumed("token", Brief(at))]
  {
    var c, lease := Brief(at), Lease(0, Profile("user", 0, 0), "token", at.Floor + 1, 0);
    assert LeaseOf(w.a, 1, at, _ => 0) == Ok(lease);
    assert Verify(w.a, at, c, Entry, Some(0), _ => 0);
    assert Collect(w.a.db, later).spent == map[];
    hide Verify, Collect, LeaseOf;
  }

  /** A second consumption that verifies at `at` and collects once the permit has expired. */
  lemma StraddlingConsumesTwice(at: real, later: real)
    requires at >= 0.0 && later >= (at.Floor + 1) as real
    ensures var events := OneConsumption(at) + [Late(at, later)];
            Readings(events, at, later) && !OneUse(RunAll(Start("ui", {"main"}), events).log)
  {
    hide Step;
    ConsumesOnce(at);
    var w := RunAll(Start("ui", {"main"}), OneConsumption(at));
    RunAppend(Start("ui", {"main"}), OneConsumption(at), Late(at, later));
    LateConsumes(w, at, later);
    var log := Step(w, Late(at, later)).log;
    assert log == [Begun("token"), Consumed("token", Brief(at)), Consumed("token", Brief(at))];
    hide RunAll;
    assert log[1].Consumed? && log[2].Consumed? && log[1].c == log[2].c;
  }

  lemma WholeSecond(exp: int, from: real, until: real)
    requires from.Floor == until.Floor
    ensures exp as real <= from || until < exp as real
  {
    if from < exp as real {
      assert exp >= from.Floor + 1 && exp as real >= (until.Floor + 1) as real;
    }
  }

  /** A permit expires at a whole second: with none between the readings, it cannot expire there. */
  lemma NoSecondBetween(events: seq<Event>, verifiedAt: real, collectedAt: real)
    requires Readings(events, verifiedAt, collectedAt) && verifiedAt.Floor == collectedAt.Floor
    ensures NoneStraddles(events)
  {
    forall i | 0 <= i < |events| && events[i].op.DoConsume? ensures !Straddles(events[i]) {
      WholeSecond(events[i].op.c.exp, verifiedAt, collectedAt);
    }
  }

  /**
   When consumptions read the clock once, or at `verifiedAt` and `collectedAt`, some run uses a ticket
   or a permit twice if and only if a whole second, at which a permit can expire, lies between the two.
   */
  lemma TwoReadingsExact(verifiedAt: real, collectedAt: real)
    requires 0.0 <= verifiedAt <= collectedAt
    ensures (exists events: seq<Event> ::
               Readings(events, verifiedAt, collectedAt) && !OneUse(RunAll(Start("ui", {"main"}), events).log))
            <==> verifiedAt.Floor < collectedAt.Floor
  {
    hide RunAll, OneUse, Readings, NoneStraddles, Start, OneConsumption, Late;
    if verifiedAt.Floor < collectedAt.Floor {
      StraddlingConsumesTwice(verifiedAt, collectedAt);
      var events := OneConsumption(verifiedAt) + [Late(verifiedAt, collectedAt)];
      assert Readings(events, verifiedAt, collectedAt);
    } else {
      forall events: seq<Event> | Readings(events, verifiedAt, collectedAt)
        ensures OneUse(RunAll(Start("ui", {"main"}), events).log)
      {
        NoSecondBetween(events, verifiedAt, collectedAt);
        CredentialsWorkOnce("ui", {"main"}, events);
      }
    }
  }
}
