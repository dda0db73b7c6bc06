/** Leases and the index from keys back to them, one function for each call. */
module LeaseSteps {
  import opened Lists

  type Key = string

  type Id = int

  datatype Lease = Lease(ttl: int, expires: int, keys: seq<Key>)

  datatype Manager = Manager(leases: map<Id, Lease>, keyToLease: map<Key, Id>, nextLeaseId: Id, revoked: set<Id>)

  datatype Error = Closed | BadTtl | NotFound | Revoked | NotAttached

  datatype Outcome<T> = Ok(value: T) | Err(error: Error)

  const NEW := Manager(map[], map[], 1, {})

  /** Identifiers are counted up before use, so the first one is 2. */
  function Grant(m: Manager, ttl: int, now: int): (Manager, Outcome<Id>) {
    if ttl <= 0 then (m, Err(BadTtl))
    else
      var id := m.nextLeaseId + 1;
      (m.(leases := m.leases[id := Lease(ttl, now + ttl, [])], nextLeaseId := id), Ok(id))
  }

  /** What revoking and sweeping do to one lease. */
  function Dropped(m: Manager, id: Id): Manager
    requires id in m.leases
  {
    m.(leases := m.leases - {id}, revoked := m.revoked + {id}, keyToLease := m.keyToLease - Elements(m.leases[id].keys))
  }

  function Revoke(m: Manager, id: Id): (Manager, Outcome<()>) {
    if id !in m.leases then (m, Err(NotFound)) else (Dropped(m, id), Ok(()))
  }

  function KeepAlive(m: Manager, id: Id, now: int): (Manager, Outcome<int>) {
    if id !in m.leases then (m, Err(NotFound))
    else if id in m.revoked then (m, Err(Revoked))
    else
      var lease := m.leases[id];
      (m.(leases := m.leases[id := lease.(expires := now + lease.ttl)]), Ok(lease.ttl))
  }

  /** A dead lease leaves even the index as it is. */
  function DetachFrom(m: Manager, id: Id, key: Key): (Manager, Outcome<()>) {
    if id !in m.leases then (m, Err(NotFound))
    else
      var lease := m.leases[id];
      var left := m.leases[id := lease.(keys := RemoveFirst(lease.keys, key))];
      (m.(leases := left, keyToLease := m.keyToLease - {key}), Ok(()))
  }

  predicate AttachedTo(m: Manager, id: Id, key: Key) {
    key in m.keyToLease && m.keyToLease[key] == id
  }

  /** `once` is the repair: a key already attached to the lease is not listed again. */
  function Attach(m: Manager, id: Id, key: Key, once: bool): (Manager, Outcome<()>) {
    if id !in m.leases then (m, Err(NotFound))
    else if id in m.revoked then (m, Err(Revoked))
    else if once && AttachedTo(m, id, key) then (m, Ok(()))
    else
      var moves := key in m.keyToLease && m.keyToLease[key] != id;
      var freed := if moves then DetachFrom(m, m.keyToLease[key], key).0 else m;
      (Listed(freed, id, key), Ok(()))
  }

  function Listed(m: Manager, id: Id, key: Key): Manager {
    if id !in m.leases then m
    else
      var lease := m.leases[id];
      m.(leases := m.leases[id := lease.(keys := lease.keys + [key])], keyToLease := m.keyToLease[key := id])
  }

  function Detach(m: Manager, key: Key): (Manager, Outcome<()>) {
    if key !in m.keyToLease then (m, Err(NotAttached)) else DetachFrom(m, m.keyToLease[key], key)
  }

  /** One lease's turn in a sweep at the given time. */
  function SweepOne(m: Manager, id: Id, now: int): (Manager, seq<Key>) {
    if id !in m.leases || id in m.revoked || now <= m.leases[id].expires then (m, [])
    else (Dropped(m, id), m.leases[id].keys)
  }

  /** A sweep takes the leases in an order of the map's own. */
  function Sweep(m: Manager, order: seq<Id>, now: int): (Manager, seq<Key>)
    decreases |order|
  {
    if |order| == 0 then (m, [])
    else
      var (first, keys) := SweepOne(m, order[0], now);
      var (rest, more) := Sweep(first, order[1..], now);
      (rest, keys + more)
  }
}
