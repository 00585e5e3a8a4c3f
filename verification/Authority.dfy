/**
 The browser identity database: leases of main sessions, one-use handoff tickets, capabilities
 bound to a lease, one-use entry permits, tombstones of revoked sessions, and its durable copy.

 Hashes are injective, so a digest is modelled by what it is taken of. A capability counts as
 signed when it is among those minted. Random ids are new numbers. Times are real, expiries whole.
 */
module Authority {
  import opened Options

  datatype Result<+T> = Ok(value: T) | Err

  const WEEK: int := 7 * 86400

  datatype Profile = Profile(user: string, profile: nat, epoch: nat)

  datatype Lease = Lease(uid: nat, who: Profile, session: string, exp: int, mainEpoch: int)

  datatype Handoff = Handoff(lease: nat, origin: string, exp: int)

  datatype Role = Ui | Content | Relay | Entry

  datatype Binding = Binding(host: string, ticket: string)

  datatype Credential = Credential(
    role: Role, uid: nat, profile: nat, epoch: nat, lease: nat, exp: int, binding: Option<Binding>, nonce: nat)

  datatype Db = Db(
    profiles: map<nat, Profile>, leases: map<nat, Lease>, handoffs: map<nat, Handoff>,
    spent: map<Credential, int>, revoked: map<string, int>)

  /** How a save ends; after a failure the durable copy may be the old or the new one. */
  datatype Save = Stored | LostOld | LostNew

  datatype Authority = Authority(
    db: Db, durable: Db, failed: bool, uiOrigin: string, mainOrigins: set<string>,
    nextId: nat, minted: set<Credential>)

  function Min(a: int, b: int): int { if a < b then a else b }

  predicate Live(exp: int, now: real) { exp as real > now }

  // ---- Parts of the operations ------------------------------------------------

  function Collect(db: Db, now: real): Db {
    Db(db.profiles,
       map k | k in db.leases && Live(db.leases[k].exp, now) :: db.leases[k],
       map k | k in db.handoffs && Live(db.handoffs[k].exp, now) :: db.handoffs[k],
       map k | k in db.spent && Live(db.spent[k], now) :: db.spent[k],
       map k | k in db.revoked && Live(db.revoked[k], now) :: db.revoked[k])
  }

  /** `save` of the database in memory; false: it raised. */
  function Persist(a: Authority, save: Save): (Authority, bool) {
    if a.failed then (a, false)
    else if save == Stored then (a.(durable := a.db), true)
    else (a.(failed := true, durable := if save == LostNew then a.db else a.durable), false)
  }

  function ProfileFor(a: Authority, uid: nat, user: string, save: Save): (Authority, Result<Profile>) {
    if a.failed then (a, Err)
    else if uid in a.db.profiles then
      (a, if a.db.profiles[uid].user == user then Ok(a.db.profiles[uid]) else Err)
    else
      var record := Profile(user, a.nextId, 0);
      var (saved, ok) := Persist(a.(db := a.db.(profiles := a.db.profiles[uid := record]), nextId := a.nextId + 1), save);
      (saved, if ok then Ok(record) else Err)
  }

  /** `_lease`: the live, unrevoked lease of this id whose profile and main session are current. */
  function LeaseOf(a: Authority, id: nat, now: real, mainEpoch: string -> int): Result<Lease> {
    if a.failed || id !in a.db.leases then Err
    else
      var lease := a.db.leases[id];
      if !Live(lease.exp, now) then Err
      else if lease.session in a.db.revoked && Live(a.db.revoked[lease.session], now) then Err
      else if lease.uid !in a.db.profiles || lease.who != a.db.profiles[lease.uid] then Err
      else if lease.mainEpoch != mainEpoch(lease.who.user) then Err
      else Ok(lease)
  }

  predicate Matches(lease: Lease, uid: nat, who: Profile, session: string, mainEpoch: int) {
    lease.uid == uid && lease.session == session && lease.who.epoch == who.epoch && lease.mainEpoch == mainEpoch
  }

  /** The first lease, in the order they were made, that already stands for this session. */
  function FindLease(leases: map<nat, Lease>, nextId: nat, uid: nat, who: Profile, session: string, mainEpoch: int,
                     from: nat := 0): (r: Option<nat>)
    ensures r.Some? ==> r.value in leases && Matches(leases[r.value], uid, who, session, mainEpoch)
    ensures r.None? ==> forall k | k in leases && from <= k < nextId :: !Matches(leases[k], uid, who, session, mainEpoch)
    decreases nextId - from
  {
    if from >= nextId then None
    else if from in leases && Matches(leases[from], uid, who, session, mainEpoch) then Some(from)
    else FindLease(leases, nextId, uid, who, session, mainEpoch, from + 1)
  }

  // ---- The operations ----------------------------------------------------------

  function Begin(a: Authority, now: real, uid: nat, user: string, token: string, expires: int, origin: string,
                 expectedEpoch: int, mainEpoch: string -> int, saves: (Save, Save)): (Authority, Result<nat>)
  {
    if origin !in a.mainOrigins || token == "" || a.failed then (a, Err)
    else
      var a := a.(db := Collect(a.db, now));
      if expectedEpoch != mainEpoch(user) then (a, Err)
      else
        var (a, record) := ProfileFor(a, uid, user, saves.0);
        var exp := Min(expires, now.Floor + WEEK);
        if record.Err? || !Live(exp, now) || token in a.db.revoked then (a, Err)
        else BeginLease(a, now, uid, record.value, token, exp, origin, expectedEpoch, saves.1)
  }

  function BeginLease(a: Authority, now: real, uid: nat, who: Profile, token: string, exp: int, origin: string,
                      mainEpoch: int, save: Save): (Authority, Result<nat>)
  {
    var found := FindLease(a.db.leases, a.nextId, uid, who, token, mainEpoch);
    if found.None? && |a.db.leases| >= 4096 then (a, Err)
    else
      var id := if found.Some? then found.value else a.nextId;
      var leases := if found.Some? then a.db.leases
                    else a.db.leases[id := Lease(uid, who, token, exp, mainEpoch)];
      var a := a.(db := a.db.(leases := leases), nextId := a.nextId + 1);
      if |a.db.handoffs| >= 1024 then (a, Err)
      else
        var ticket := a.nextId;
        var handoffs := a.db.handoffs[ticket := Handoff(id, origin, now.Floor + 60)];
        var (a, ok) := Persist(a.(db := a.db.(handoffs := handoffs), nextId := a.nextId + 1), save);
        (a, if ok then Ok(ticket) else Err)
  }

  predicate RedeemContext(a: Authority, h: Handoff, origin: string, destination: string, mode: string) {
    || (origin == h.origin && destination == "iframe" && mode == "navigate")
    || (origin == a.uiOrigin && destination == "empty" && (mode == "cors" || mode == "same-origin"))
  }

  function Redeem(a: Authority, now: real, ticket: nat, origin: string, destination: string, mode: string,
                  mainEpoch: string -> int, save: Save): (Authority, Result<nat>)
  {
    if ticket !in a.db.handoffs || !Live(a.db.handoffs[ticket].exp, now) then (a, Err)
    else
      var h := a.db.handoffs[ticket];
      if !RedeemContext(a, h, origin, destination, mode) || LeaseOf(a, h.lease, now, mainEpoch).Err? then (a, Err)
      else
        var (a, ok) := Persist(a.(db := a.db.(handoffs := a.db.handoffs - {ticket})), save);
        (a, if ok then Ok(h.lease) else Err)
  }

  function Mint(a: Authority, now: real, role: Role, id: nat, seconds: int, binding: Option<Binding>,
                mainEpoch: string -> int): (Authority, Result<Credential>)
  {
    var lease := LeaseOf(a, id, now, mainEpoch);
    if !(0 < seconds <= WEEK) || lease.Err? || (binding.Some? && role != Entry) then (a, Err)
    else
      var l := lease.value;
      var c := Credential(role, l.uid, l.who.profile, l.who.epoch, id, Min(now.Floor + seconds, l.exp), binding,
                          if binding.Some? then a.nextId else 0);
      (a.(minted := a.minted + {c}, nextId := a.nextId + 1), Ok(c))
  }

  /** A credential is accepted when it was minted here and its lease still carries it. */
  predicate Verify(a: Authority, now: real, c: Credential, role: Role, uid: Option<nat>, mainEpoch: string -> int) {
    && c in a.minted && c.role == role && (uid.Some? ==> c.uid == uid.value)
    && LeaseOf(a, c.lease, now, mainEpoch).Ok?
    && var l := LeaseOf(a, c.lease, now, mainEpoch).value;
       c.uid == l.uid && c.profile == l.who.profile && c.epoch == l.who.epoch && Live(c.exp, now) && c.exp <= l.exp
  }

  /** The clock is read once to verify the permit and once more to collect what has expired. */
  function ConsumeEntry(a: Authority, verifiedAt: real, collectedAt: real, c: Credential, uid: nat, binding: Binding,
                        context: bool, mainEpoch: string -> int, save: Save): (Authority, Result<()>)
  {
    if !Verify(a, verifiedAt, c, Entry, Some(uid), mainEpoch) || !context || c.binding != Some(binding) then (a, Err)
    else
      var a := a.(db := Collect(a.db, collectedAt));
      if c in a.db.spent || |a.db.spent| >= 4096 then (a, Err)
      else
        var (a, ok) := Persist(a.(db := a.db.(spent := a.db.spent[c := c.exp])), save);
        (a, if ok then Ok(()) else Err)
  }

  /** The latest expiry of the session's leases, 0 if it has none. */
  function LatestExp(leases: map<nat, Lease>, nextId: nat, session: string): (r: int)
    ensures r >= 0 && forall k | k in leases && k < nextId && leases[k].session == session :: leases[k].exp <= r
    ensures r == 0 || exists k :: k in leases && leases[k].session == session && leases[k].exp == r
    decreases nextId
  {
    if nextId == 0 then 0
    else
      var r, k := LatestExp(leases, nextId - 1, session), nextId - 1;
      if k in leases && leases[k].session == session && leases[k].exp > r then leases[k].exp else r
  }

  function RevokeSession(a: Authority, now: real, token: string, expires: Option<int>, save: Save)
    : (Authority, Result<set<nat>>)
  {
    if a.failed then (a, Err)
    else
      var a := a.(db := Collect(a.db, now));
      var asked := if expires.Some? then expires.value else LatestExp(a.db.leases, a.nextId, token);
      var exp := Min(asked, now.Floor + WEEK);
      if !Live(exp, now) then (a, Ok({}))
      else if token !in a.db.revoked && |a.db.revoked| >= 8192 then (a, Err)
      else
        var gone := set k | k in a.db.leases && a.db.leases[k].session == token;
        var db := a.db.(revoked := a.db.revoked[token := exp], leases := a.db.leases - gone);
        var (a, ok) := Persist(a.(db := db), save);
        (a, if ok then Ok(gone) else Err)
  }

  function RevokeUser(a: Authority, uid: nat, save: Save): (Authority, Result<()>) {
    var profiles := if uid in a.db.profiles
                    then a.db.profiles[uid := a.db.profiles[uid].(epoch := a.db.profiles[uid].epoch + 1)]
                    else a.db.profiles;
    var leases := a.db.leases - set k | k in a.db.leases && a.db.leases[k].uid == uid;
    var (a, ok) := Persist(a.(db := a.db.(profiles := profiles, leases := leases)), save);
    (a, if ok then Ok(()) else Err)
  }

  /** A new process reads the durable copy. */
  function Restart(a: Authority): Authority { a.(db := a.durable, failed := false) }
}
