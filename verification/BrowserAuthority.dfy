/** `BrowserAuthority`: the operations on the database in place, in the order the code does them. */
module BrowserAuthority {
  import opened A = Authority
  import opened Options

  class BrowserAuthority {
    var profiles: map<nat, Profile>
    var leases: map<nat, Lease>
    var handoffs: map<nat, Handoff>
    var spent: map<Credential, int>
    var revoked: map<string, int>
    var durable: Db
    var failed: bool
    var nextId: nat
    const uiOrigin: string
    const mainOrigins: set<string>
    var minted: set<Credential>

    function State(): (a: A.Authority) reads this {
      A.Authority(Db(profiles, leases, handoffs, spent, revoked), durable, failed, uiOrigin, mainOrigins, nextId, minted)
    }

    constructor (state: Db, uiOrigin: string, mainOrigins: set<string>, nextId: nat)
      ensures State() == A.Authority(state, state, false, uiOrigin, mainOrigins, nextId, {})
    {
      profiles, leases, handoffs, spent, revoked :=
        state.profiles, state.leases, state.handoffs, state.spent, state.revoked;
      durable, failed, this.nextId, minted := state, false, nextId, {};
      this.uiOrigin, this.mainOrigins := uiOrigin, mainOrigins;
    }

    method Save(save: Save) returns (ok: bool)
      modifies this
      ensures (State(), ok) == Persist(old(State()), save)
    {
      if failed {
        return false;
      }
      if save != LostOld {
        durable := State().db;
      }
      failed := save != Stored;
      return !failed;
    }

    method Collect(now: real)
      modifies this
      ensures State() == old(State()).(db := A.Collect(old(State()).db, now))
    {
      hide A.Collect;
      CollectParts(State().db, now);
      leases := DropExpired(leases, (l: Lease) => l.exp, now);
      handoffs := DropExpired(handoffs, (h: Handoff) => h.exp, now);
      spent := DropExpired(spent, (e: int) => e, now);
      revoked := DropExpired(revoked, (e: int) => e, now);
    }

    method ProfileOf(uid: nat, user: string, save: Save) returns (r: Result<Profile>)
      modifies this
      ensures (State(), r) == ProfileFor(old(State()), uid, user, save)
    {
      if failed {
        return Err;
      }
      if uid in profiles {
        return if profiles[uid].user == user then Ok(profiles[uid]) else Err;
      }
      var record := Profile(user, nextId, 0);
      profiles, nextId := profiles[uid := record], nextId + 1;
      var ok := Save(save);
      return if ok then Ok(record) else Err;
    }

    method Begin(now: real, uid: nat, user: string, token: string, expires: int, origin: string,
                 expectedEpoch: int, mainEpoch: string -> int, saves: (Save, Save)) returns (r: Result<nat>)
      modifies this
      ensures (State(), r) == A.Begin(old(State()), now, uid, user, token, expires, origin, expectedEpoch,
                                              mainEpoch, saves)
    {
      hide A.Collect, ProfileFor, BeginLease;
      if origin !in mainOrigins || token == "" || failed {
        return Err;
      }
      Collect(now);
      if expectedEpoch != mainEpoch(user) {
        return Err;
      }
      var record := ProfileOf(uid, user, saves.0);
      if record.Err? {
        return Err;
      }
      var exp := Min(expires, now.Floor + WEEK);
      if !Live(exp, now) {
        return Err;
      }
      if token in revoked {
        return Err;
      }
      r := Ticket(now, uid, record.value, token, exp, origin, expectedEpoch, saves.1);
    }

    /** Find or make the session's lease, and hand out a ticket for it. */
    method Ticket(now: real, uid: nat, who: Profile, token: string, exp: int, origin: string, mainEpoch: int, save: Save)
      returns (r: Result<nat>)
      modifies this
      ensures (State(), r) == BeginLease(old(State()), now, uid, who, token, exp, origin, mainEpoch, save)
    {
      var found := None;
      for k := 0 to nextId
        invariant found.None?
        invariant FindLease(leases, nextId, uid, who, token, mainEpoch)
                  == FindLease(leases, nextId, uid, who, token, mainEpoch, k)
      {
        if k in leases && Matches(leases[k], uid, who, token, mainEpoch) {
          found := Some(k);
          break;
        }
      }
      assert found == FindLease(leases, nextId, uid, who, token, mainEpoch);
      hide FindLease, Persist;
      if found.None? {
        if |leases| >= 4096 {
          return Err;
        }
        leases := leases[nextId := Lease(uid, who, token, exp, mainEpoch)];
      }
      var id := if found.Some? then found.value else nextId;
      nextId := nextId + 1;
      if |handoffs| >= 1024 {
        return Err;
      }
      var ticket := nextId;
      handoffs, nextId := handoffs[ticket := Handoff(id, origin, now.Floor + 60)], nextId + 1;
      var ok := Save(save);
      return if ok then Ok(ticket) else Err;
    }

    method Redeem(now: real, ticket: nat, origin: string, destination: string, mode: string,
                  mainEpoch: string -> int, save: Save) returns (r: Result<nat>)
      modifies this
      ensures (State(), r) == A.Redeem(old(State()), now, ticket, origin, destination, mode, mainEpoch, save)
    {
      hide LeaseOf, Persist;
      if ticket !in handoffs || !Live(handoffs[ticket].exp, now) {
        return Err;
      }
      var handoff := handoffs[ticket];
      if !RedeemContext(State(), handoff, origin, destination, mode) {
        return Err;
      }
      if LeaseOf(State(), handoff.lease, now, mainEpoch).Err? {
        return Err;
      }
      handoffs := handoffs - {ticket};
      var ok := Save(save);
      return if ok then Ok(handoff.lease) else Err;
    }

    method Mint(now: real, role: Role, id: nat, seconds: int, binding: Option<Binding>, mainEpoch: string -> int)
      returns (r: Result<Credential>)
      modifies this
      ensures (State(), r) == A.Mint(old(State()), now, role, id, seconds, binding, mainEpoch)
    {
      hide LeaseOf;
      if !(0 < seconds <= WEEK) {
        return Err;
      }
      var lease := LeaseOf(State(), id, now, mainEpoch);
      if lease.Err? || (binding.Some? && role != Entry) {
        return Err;
      }
      var l := lease.value;
      var c := Credential(role, l.uid, l.who.profile, l.who.epoch, id, Min(now.Floor + seconds, l.exp), binding,
                          if binding.Some? then nextId else 0);
      minted, nextId := minted + {c}, nextId + 1;
      return Ok(c);
    }

    method ConsumeEntry(verifiedAt: real, collectedAt: real, c: Credential, uid: nat, binding: Binding,
                        context: bool, mainEpoch: string -> int, save: Save) returns (r: Result<()>)
      modifies this
      ensures (State(), r) == A.ConsumeEntry(old(State()), verifiedAt, collectedAt, c, uid, binding, context,
                                                     mainEpoch, save)
    {
      hide Verify, A.Collect, Persist;
      if !Verify(State(), verifiedAt, c, Entry, Some(uid), mainEpoch) {
        return Err;
      }
      if !context || c.binding != Some(binding) {
        return Err;
      }
      Collect(collectedAt);
      if c in spent || |spent| >= 4096 {
        return Err;
      }
      spent := spent[c := c.exp];
      var ok := Save(save);
      return if ok then Ok(()) else Err;
    }

    method RevokeSession(now: real, token: string, expires: Option<int>, save: Save) returns (r: Result<set<nat>>)
      modifies this
      ensures (State(), r) == A.RevokeSession(old(State()), now, token, expires, save)
    {
      hide A.Collect, Persist;
      if failed {
        return Err;
      }
      Collect(now);
      var asked := 0;
      if expires.Some? {
        asked := expires.value;
      } else {
        for k := 0 to nextId
          invariant asked == LatestExp(leases, k, token)
        {
          if k in leases && leases[k].session == token && leases[k].exp > asked {
            asked := leases[k].exp;
          }
        }
      }
      hide LatestExp;
      var exp := Min(asked, now.Floor + WEEK);
      if !Live(exp, now) {
        return Ok({});
      }
      if token !in revoked && |revoked| >= 8192 {
        return Err;
      }
      revoked := revoked[token := exp];
      var gone := set k | k in leases && leases[k].session == token;
      leases := leases - gone;
      var ok := Save(save);
      return if ok then Ok(gone) else Err;
    }

    method RevokeUser(uid: nat, save: Save) returns (r: Result<()>)
      modifies this
      ensures (State(), r) == A.RevokeUser(old(State()), uid, save)
    {
      hide Persist;
      if uid in profiles {
        profiles := profiles[uid := profiles[uid].(epoch := profiles[uid].epoch + 1)];
      }
      leases := leases - set k | k in leases && leases[k].uid == uid;
      var ok := Save(save);
      return if ok then Ok(()) else Err;
    }
  }

  /** The records that are still live. */
  function Kept<K(==), V>(m: map<K, V>, exp: V -> int, now: real): map<K, V> {
    map k | k in m && Live(exp(m[k]), now) :: m[k]
  }

  lemma CollectParts(d: Db, now: real)
    ensures A.Collect(d, now) == Db(d.profiles, Kept(d.leases, (l: Lease) => l.exp, now),
                                    Kept(d.handoffs, (h: Handoff) => h.exp, now),
                                    Kept(d.spent, (e: int) => e, now), Kept(d.revoked, (e: int) => e, now))
  {
    var c := A.Collect(d, now);
    assert c.leases == Kept(d.leases, (l: Lease) => l.exp, now);
    assert c.handoffs == Kept(d.handoffs, (h: Handoff) => h.exp, now);
    assert c.spent == Kept(d.spent, (e: int) => e, now);
    assert c.revoked == Kept(d.revoked, (e: int) => e, now);
  }

  /** One of the loops of `_collect`: delete the records that have expired. */
  method DropExpired<K(==), V>(m: map<K, V>, exp: V -> int, now: real) returns (r: map<K, V>)
    ensures r == Kept(m, exp, now)
  {
    r := m;
    var keys := m.Keys;
    while keys != {}
      invariant keys <= m.Keys
      invariant r == map k | k in m && (k in keys || Live(exp(m[k]), now)) :: m[k]
      decreases |keys|
    {
      var k :| k in keys;
      keys := keys - {k};
      if !Live(exp(m[k]), now) {
        r := r - {k};
      }
    }
  }
}
