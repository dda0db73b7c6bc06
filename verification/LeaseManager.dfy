/** The lease manager object, tied call by call to the steps of `LeaseSteps`. */
module LeaseManager {
  import opened Lists
  import opened LeaseSteps

  class Manager {
    /** The repair of Attach; false is the code as written. */
    const once: bool
    var leases: map<Id, Lease>
    var keyToLease: map<Key, Id>
    var nextLeaseId: Id
    var revoked: set<Id>
    var closed: bool

    ghost function State(): LeaseSteps.Manager
      reads this
    {
      LeaseSteps.Manager(leases, keyToLease, nextLeaseId, revoked)
    }

    constructor (once: bool)
      ensures this.once == once && !closed && State() == NEW
    {
      this.once := once;
      leases, keyToLease, nextLeaseId, revoked, closed := map[], map[], 1, {}, false;
    }

    method Grant(ttl: int, now: int) returns (result: Outcome<Id>)
      modifies this
      ensures closed == old(closed)
      ensures closed ==> result == Err(Closed) && State() == old(State())
      ensures !closed ==> (State(), result) == LeaseSteps.Grant(old(State()), ttl, now)
    {
      if closed { return Err(Closed); }
      if ttl <= 0 { return Err(BadTtl); }
      nextLeaseId := nextLeaseId + 1;
      var id := nextLeaseId;
      leases := leases[id := Lease(ttl, now + ttl, [])];
      return Ok(id);
    }

    /** The loop that clears the index for one lease's keys. */
    method ClearIndex(keys: seq<Key>)
      modifies this`keyToLease
      ensures keyToLease == old(keyToLease) - Elements(keys)
    {
      for i := 0 to |keys|
        invariant keyToLease == old(keyToLease) - Elements(keys[..i])
      {
        assert Elements(keys[..i + 1]) == Elements(keys[..i]) + {keys[i]};
        keyToLease := keyToLease - {keys[i]};
      }
      assert keys[..|keys|] == keys;
    }

    method Drop(id: Id)
      requires id in leases
      modifies this
      ensures closed == old(closed) && State() == Dropped(old(State()), id)
    {
      var lease := leases[id];
      revoked := revoked + {id};
      leases := leases - {id};
      ClearIndex(lease.keys);
    }

    method Revoke(id: Id) returns (result: Outcome<()>)
      modifies this
      ensures closed == old(closed)
      ensures closed ==> result == Err(Closed) && State() == old(State())
      ensures !closed ==> (State(), result) == LeaseSteps.Revoke(old(State()), id)
    {
      if closed { return Err(Closed); }
      if id !in leases { return Err(NotFound); }
      Drop(id);
      return Ok(());
    }

    method KeepAlive(id: Id, now: int) returns (result: Outcome<int>)
      modifies this
      ensures closed == old(closed)
      ensures closed ==> result == Err(Closed) && State() == old(State())
      ensures !closed ==> (State(), result) == LeaseSteps.KeepAlive(old(State()), id, now)
    {
      if closed { return Err(Closed); }
      if id !in leases { return Err(NotFound); }
      if id in revoked { return Err(Revoked); }
      var lease := leases[id];
      leases := leases[id := lease.(expires := now + lease.ttl)];
      return Ok(lease.ttl);
    }

    method Attach(id: Id, key: Key) returns (result: Outcome<()>)
      modifies this
      ensures closed == old(closed)
      ensures closed ==> result == Err(Closed) && State() == old(State())
      ensures !closed ==> (State(), result) == LeaseSteps.Attach(old(State()), id, key, once)
    {
      if closed { return Err(Closed); }
      if id !in leases { return Err(NotFound); }
      if id in revoked { return Err(Revoked); }
      if key in keyToLease {
        if keyToLease[key] != id {
          var _ := DetachFromLease(keyToLease[key], key);
        } else if once {
          return Ok(());
        }
      }
      var lease := leases[id];
      leases := leases[id := lease.(keys := lease.keys + [key])];
      keyToLease := keyToLease[key := id];
      return Ok(());
    }

    method Detach(key: Key) returns (result: Outcome<()>)
      modifies this
      ensures closed == old(closed)
      ensures closed ==> result == Err(Closed) && State() == old(State())
      ensures !closed ==> (State(), result) == LeaseSteps.Detach(old(State()), key)
    {
      if closed { return Err(Closed); }
      if key !in keyToLease { return Err(NotAttached); }
      result := DetachFromLease(keyToLease[key], key);
    }

    method DetachFromLease(id: Id, key: Key) returns (result: Outcome<()>)
      modifies this
      ensures closed == old(closed)
      ensures (State(), result) == DetachFrom(old(State()), id, key)
    {
      if id !in leases { return Err(NotFound); }
      var keys := WithoutFirst(leases[id].keys, key);
      leases := leases[id := leases[id].(keys := keys)];
      keyToLease := keyToLease - {key};
      return Ok(());
    }

    /** Ranging over the leases takes them in an order of the map's own. */
    method GetExpiredKeys(now: int) returns (expired: seq<Key>, ghost order: seq<Id>)
      modifies this
      ensures closed == old(closed)
      ensures closed ==> expired == [] && State() == old(State())
      ensures !closed ==> Walks(order, old(leases).Keys)
      ensures !closed ==> (State(), expired) == Sweep(old(State()), order, now)
    {
      expired, order := [], [];
      if closed { return; }
      var ids := AnyOrder(leases.Keys);
      order := ids;
      for i := 0 to |ids|
        invariant closed == old(closed)
        invariant (State(), expired) == Sweep(old(State()), ids[..i], now)
      {
        assert ids[..i + 1] == ids[..i] + [ids[i]];
        SweepOneMore(old(State()), ids[..i], ids[i], now);
        var id := ids[i];
        assert expired + [] == expired;
        if id in leases && id !in revoked && now > leases[id].expires {
          expired := expired + leases[id].keys;
          Drop(id);
        }
      }
      assert ids[..|ids|] == ids;
    }

    method Close()
      modifies this
      ensures closed
      ensures leases == (if old(closed) then old(leases) else map[])
      ensures keyToLease == (if old(closed) then old(keyToLease) else map[])
      ensures revoked == (if old(closed) then old(revoked) else {})
    {
      if closed { return; }
      closed := true;
      leases, keyToLease, revoked := map[], map[], {};
    }
  }

  lemma {:induction false} SweepOneMore(m: LeaseSteps.Manager, order: seq<Id>, id: Id, now: int)
    ensures var (t, keys) := Sweep(m, order, now);
      Sweep(m, order + [id], now) == (SweepOne(t, id, now).0, keys + SweepOne(t, id, now).1)
    decreases |order|
  {
    var all := order + [id];
    if |order| == 0 {
      assert all == [id] && all[1..] == [];
      assert SweepOne(m, id, now).1 + [] == [] + SweepOne(m, id, now).1;
    } else {
      var (first, keys) := SweepOne(m, order[0], now);
      var (rest, more) := Sweep(first, order[1..], now);
      assert all[0] == order[0] && all[1..] == order[1..] + [id];
      SweepOneMore(first, order[1..], id, now);
      assert keys + (more + SweepOne(rest, id, now).1) == keys + more + SweepOne(rest, id, now).1;
    }
  }
}
