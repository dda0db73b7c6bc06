/** The index and the leases' own key lists say the same, over every run. */
module LeaseIndex {
  import opened Lists
  import opened LeaseSteps

  // ---------------------------------------------------------------- the invariant

  predicate Holds(m: Manager, id: Id, key: Key) {
    id in m.leases && key in m.leases[id].keys
  }

  /** The index sends a key to a lease exactly when that live lease lists it, and lists hold no key
      twice; revoked and live identifiers are apart, and all of them were counted. */
  ghost predicate Sound(m: Manager) {
    && (forall key, id :: AttachedTo(m, id, key) <==> Holds(m, id, key))
    && (forall id :: id in m.leases ==> NoDuplicates(m.leases[id].keys))
    && Counted(m)
  }

  ghost predicate Counted(m: Manager) {
    && m.nextLeaseId >= 1
    && (forall id :: id in m.leases ==> id !in m.revoked && 1 < id <= m.nextLeaseId)
    && (forall id :: id in m.revoked ==> 1 < id <= m.nextLeaseId)
  }

  lemma NewIsSound()
    ensures Sound(NEW)
  {
  }

  // ---------------------------------------------------------------- each call keeps it

  lemma GrantSound(m: Manager, ttl: int, now: int)
    requires Sound(m)
    ensures Sound(Grant(m, ttl, now).0)
    ensures Grant(m, ttl, now).1.Ok? ==> Grant(m, ttl, now).1.value !in m.leases.Keys + m.revoked
  {
    if ttl > 0 {
      var t := Grant(m, ttl, now).0;
      forall key, id ensures AttachedTo(t, id, key) <==> Holds(t, id, key) {
        assert AttachedTo(m, id, key) <==> Holds(m, id, key);
      }
    }
  }

  lemma DroppedSound(m: Manager, id: Id)
    requires Sound(m) && id in m.leases
    ensures Sound(Dropped(m, id))
    ensures forall key :: key in Dropped(m, id).keyToLease <==> key in m.keyToLease && key !in m.leases[id].keys
  {
    var t := Dropped(m, id);
    forall key, l ensures AttachedTo(t, l, key) <==> Holds(t, l, key) {
      assert AttachedTo(m, l, key) <==> Holds(m, l, key);
      assert AttachedTo(m, id, key) <==> Holds(m, id, key);
    }
  }

  lemma KeepAliveSound(m: Manager, id: Id, now: int)
    requires Sound(m)
    ensures Sound(KeepAlive(m, id, now).0)
  {
    var t := KeepAlive(m, id, now).0;
    forall key, l ensures AttachedTo(t, l, key) <==> Holds(t, l, key) {
      assert AttachedTo(m, l, key) <==> Holds(m, l, key);
    }
  }

  lemma DetachFromSound(m: Manager, id: Id, key: Key)
    requires Sound(m) && AttachedTo(m, id, key)
    ensures Sound(DetachFrom(m, id, key).0)
    ensures DetachFrom(m, id, key).0.keyToLease == m.keyToLease - {key}
    ensures DetachFrom(m, id, key).0.leases.Keys == m.leases.Keys && DetachFrom(m, id, key).0.revoked == m.revoked
  {
    assert Holds(m, id, key);
    var t := DetachFrom(m, id, key).0;
    RemoveFirstMeans(m.leases[id].keys, key);
    forall k, l ensures AttachedTo(t, l, k) <==> Holds(t, l, k) {
      assert AttachedTo(m, l, k) <==> Holds(m, l, k);
      assert AttachedTo(m, l, key) <==> Holds(m, l, key);
    }
  }

  lemma ListedSound(m: Manager, id: Id, key: Key)
    requires Sound(m) && id in m.leases && key !in m.keyToLease
    ensures Sound(Listed(m, id, key))
  {
    var t := Listed(m, id, key);
    forall k, l ensures AttachedTo(t, l, k) <==> Holds(t, l, k) {
      assert AttachedTo(m, l, k) <==> Holds(m, l, k);
      assert AttachedTo(m, l, key) <==> Holds(m, l, key);
    }
    forall l | l in t.leases ensures NoDuplicates(t.leases[l].keys) {
      assert AttachedTo(m, l, key) <==> Holds(m, l, key);
    }
  }

  lemma AttachSound(m: Manager, id: Id, key: Key, once: bool)
    requires Sound(m) && (AttachedTo(m, id, key) ==> once)
    ensures Sound(Attach(m, id, key, once).0)
  {
    if id in m.leases && id !in m.revoked && !AttachedTo(m, id, key) {
      var freed := m;
      if key in m.keyToLease {
        freed := DetachFrom(m, m.keyToLease[key], key).0;
        DetachFromSound(m, m.keyToLease[key], key);
      }
      ListedSound(freed, id, key);
    }
  }

  lemma DetachSound(m: Manager, key: Key)
    requires Sound(m)
    ensures Sound(Detach(m, key).0) && (Detach(m, key).1.Ok? <==> key in m.keyToLease)
    ensures key !in Detach(m, key).0.keyToLease && !exists id :: Holds(Detach(m, key).0, id, key)
  {
    if key in m.keyToLease {
      assert AttachedTo(m, m.keyToLease[key], key) <==> Holds(m, m.keyToLease[key], key);
      DetachFromSound(m, m.keyToLease[key], key);
    }
    var t := Detach(m, key).0;
    assert Sound(t);
    forall id ensures !Holds(t, id, key) {
      assert AttachedTo(t, id, key) <==> Holds(t, id, key);
    }
  }

  // ---------------------------------------------------------------- sweeps

  /** Attached to a lease that has run out. */
  predicate Due(m: Manager, key: Key, ids: set<Id>, now: int) {
    && key in m.keyToLease && m.keyToLease[key] in ids && m.keyToLease[key] in m.leases
    && now > m.leases[m.keyToLease[key]].expires
  }

  lemma SweepOneSplits(m: Manager, id: Id, now: int, key: Key)
    requires Sound(m)
    ensures var (t, keys) := SweepOne(m, id, now);
      && Sound(t) && NoDuplicates(keys)
      && (key in keys <==> Due(m, key, {id}, now))
      && (key in t.keyToLease <==> key in m.keyToLease && key !in keys)
      && (key in t.keyToLease ==> t.keyToLease[key] == m.keyToLease[key])
      && (forall l :: l in t.leases <==> l in m.leases && !(l == id && now > m.leases[id].expires))
      && (forall l :: l in t.leases ==> t.leases[l] == m.leases[l])
  {
    if id in m.leases {
      DroppedSound(m, id);
      assert AttachedTo(m, id, key) <==> Holds(m, id, key);
    }
    if key in m.keyToLease {
      assert AttachedTo(m, m.keyToLease[key], key) <==> Holds(m, m.keyToLease[key], key);
    }
  }

  /** A sweep hands out exactly the keys of the leases that have run out, each once, and keeps every
      other key attached where it was. */
  lemma {:induction false} SweepSplits(m: Manager, order: seq<Id>, now: int)
    requires Sound(m)
    ensures var (t, keys) := Sweep(m, order, now);
      && Sound(t) && NoDuplicates(keys)
      && (forall key :: key in keys <==> Due(m, key, Elements(order), now))
      && (forall key :: key in t.keyToLease <==> key in m.keyToLease && key !in keys)
      && (forall key :: key in t.keyToLease ==> t.keyToLease[key] == m.keyToLease[key])
    decreases |order|
  {
    if |order| > 0 {
      var (first, keys) := SweepOne(m, order[0], now);
      var (rest, more) := Sweep(first, order[1..], now);
      SweepOneSplits(m, order[0], now, "");
      SweepSplits(first, order[1..], now);
      forall key ensures key in keys + more <==> Due(m, key, Elements(order), now) {
        SweepOneSplits(m, order[0], now, key);
      }
      forall key
        ensures key in rest.keyToLease <==> key in m.keyToLease && key !in keys + more
        ensures key in rest.keyToLease ==> rest.keyToLease[key] == m.keyToLease[key]
        ensures key in keys ==> key !in more
      {
        SweepOneSplits(m, order[0], now, key);
      }
      JoinDistinct(keys, more);
    }
  }

  // ---------------------------------------------------------------- runs

  datatype Call =
    | DoGrant(ttl: int, now: int)
    | DoRevoke(id: Id)
    | DoKeepAlive(id: Id, now: int)
    | DoAttach(id: Id, key: Key)
    | DoDetach(key: Key)
    | DoSweep(order: seq<Id>, now: int)

  function Perform(m: Manager, c: Call, once: bool): Manager {
    match c
    case DoGrant(ttl, now) => Grant(m, ttl, now).0
    case DoRevoke(id) => Revoke(m, id).0
    case DoKeepAlive(id, now) => KeepAlive(m, id, now).0
    case DoAttach(id, key) => Attach(m, id, key, once).0
    case DoDetach(key) => Detach(m, key).0
    case DoSweep(order, now) => Sweep(m, order, now).0
  }

  function Run(m: Manager, calls: seq<Call>, once: bool): Manager
    decreases |calls|
  {
    if |calls| == 0 then m else Run(Perform(m, calls[0], once), calls[1..], once)
  }

  /** The call attaches a key to the lease it is on already. */
  predicate Reattaches(m: Manager, c: Call) {
    c.DoAttach? && c.id in m.leases && AttachedTo(m, c.id, c.key)
  }

  lemma PerformSound(m: Manager, c: Call, once: bool)
    requires Sound(m) && (Reattaches(m, c) ==> once)
    ensures Sound(Perform(m, c, once))
  {
    match c
    case DoGrant(ttl, now) => GrantSound(m, ttl, now);
    case DoRevoke(id) => if id in m.leases { DroppedSound(m, id); }
    case DoKeepAlive(id, now) => KeepAliveSound(m, id, now);
    case DoAttach(id, key) => if id in m.leases { AttachSound(m, id, key, once); }
    case DoDetach(key) => DetachSound(m, key);
    case DoSweep(order, now) => SweepSplits(m, order, now);
  }

  /** With the repair, the index is right after every run. */
  lemma {:induction false} EveryRunSound(m: Manager, calls: seq<Call>)
    requires Sound(m)
    ensures Sound(Run(m, calls, true))
    decreases |calls|
  {
    if |calls| > 0 {
      PerformSound(m, calls[0], true);
      EveryRunSound(Perform(m, calls[0], true), calls[1..]);
    }
  }

  /** A key is listed as often as the index says: once where it is attached, nowhere else. */
  lemma IndexMeansLists(calls: seq<Call>, key: Key, id: Id)
    ensures var m := Run(NEW, calls, true);
      AttachedTo(m, id, key) <==> id in m.leases && multiset(m.leases[id].keys)[key] == 1
  {
    NewIsSound();
    EveryRunSound(NEW, calls);
    var m := Run(NEW, calls, true);
    assert AttachedTo(m, id, key) <==> Holds(m, id, key);
    if id in m.leases { CountedOnce(m.leases[id].keys, key); }
  }

  lemma {:induction false} CountedOnce(keys: seq<Key>, key: Key)
    requires NoDuplicates(keys)
    ensures multiset(keys)[key] == if key in keys then 1 else 0
  {
    if |keys| > 0 {
      CountedOnce(keys[1..], key);
      assert keys == [keys[0]] + keys[1..];
    }
  }

  // ---------------------------------------------------------------- identifiers

  /** The identifiers handed out by a run, in order. */
  function Granted(m: Manager, calls: seq<Call>, once: bool): seq<Id>
    decreases |calls|
  {
    if |calls| == 0 then []
    else
      (if calls[0].DoGrant? && calls[0].ttl > 0 then [m.nextLeaseId + 1] else [])
      + Granted(Perform(m, calls[0], once), calls[1..], once)
  }

  lemma {:induction false} SweepKeepsCounter(m: Manager, order: seq<Id>, now: int)
    ensures Sweep(m, order, now).0.nextLeaseId == m.nextLeaseId
    decreases |order|
  {
    if |order| > 0 { SweepKeepsCounter(SweepOne(m, order[0], now).0, order[1..], now); }
  }

  /** Identifiers only go up, so none is ever handed out twice. */
  lemma {:induction false} GrantedAscend(m: Manager, calls: seq<Call>, once: bool)
    ensures forall i :: 0 <= i < |Granted(m, calls, once)| ==> m.nextLeaseId < Granted(m, calls, once)[i]
    ensures forall i, j :: 0 <= i < j < |Granted(m, calls, once)| ==>
      Granted(m, calls, once)[i] < Granted(m, calls, once)[j]
    decreases |calls|
  {
    if |calls| > 0 {
      if calls[0].DoSweep? { SweepKeepsCounter(m, calls[0].order, calls[0].now); }
      GrantedAscend(Perform(m, calls[0], once), calls[1..], once);
    }
  }

  // ---------------------------------------------------------------- lifetimes

  /** A sweep ends a lease exactly when more than its time to live has passed since it was granted
      or, if it is live, since it was last kept alive. */
  lemma LeaseLivesItsTtl(m: Manager, ttl: int, id: Id, now: int, later: int)
    requires Sound(m) && ttl > 0
    ensures var (t, granted) := Grant(m, ttl, now);
      granted.Ok? && (granted.value in SweepOne(t, granted.value, later).0.leases <==> later <= now + ttl)
    ensures id in m.leases ==>
      var (t, kept) := KeepAlive(m, id, now);
      && kept == Ok(m.leases[id].ttl)
      && (id in SweepOne(t, id, later).0.leases <==> later <= now + m.leases[id].ttl)
  {
    GrantSound(m, ttl, now);
    KeepAliveSound(m, id, now);
  }

  // ---------------------------------------------------------------- attaching as it is written

  /** Without the repair a call keeps the index right exactly when it does not re-attach a key to
      the lease it is on. */
  lemma AttachSoundExactlyWhen(m: Manager, id: Id, key: Key)
    requires Sound(m)
    ensures Sound(Attach(m, id, key, false).0) <==> !(id in m.leases && AttachedTo(m, id, key))
  {
    if id in m.leases && AttachedTo(m, id, key) {
      assert Holds(m, id, key);
      var keys := m.leases[id].keys;
      var i :| 0 <= i < |keys| && keys[i] == key;
      assert (keys + [key])[i] == (keys + [key])[|keys|];
      assert Attach(m, id, key, false).0.leases[id].keys == keys + [key];
    } else if id in m.leases {
      AttachSound(m, id, key, false);
    }
  }

  lemma {:induction false} RemoveFirstKeepsCopy(keys: seq<Key>, key: Key)
    requires key in keys
    ensures key in RemoveFirst(keys + [key], key)
  {
    var all := keys + [key];
    if keys[0] == key {
      assert all[1..] == keys[1..] + [key];
      assert all[1..][|keys| - 1] == key;
    } else {
      assert all[1..] == keys[1..] + [key];
      RemoveFirstKeepsCopy(keys[1..], key);
    }
  }

  /** After such a call, detaching the key leaves a copy behind, and the sweep that ends the lease
      still hands the key out for deletion. */
  lemma DetachedKeyStillExpires(m: Manager, id: Id, key: Key, now: int)
    requires Sound(m) && id in m.leases && AttachedTo(m, id, key) && now > m.leases[id].expires
    ensures var t := Detach(Attach(m, id, key, false).0, key).0;
      key !in t.keyToLease && key in SweepOne(t, id, now).1
  {
    assert Holds(m, id, key);
    RemoveFirstKeepsCopy(m.leases[id].keys, key);
  }

  /** Where the index is right, a sweep never hands out a key that was just detached. */
  lemma DetachedKeyStays(m: Manager, key: Key, order: seq<Id>, now: int)
    requires Sound(m)
    ensures key !in Sweep(Detach(m, key).0, order, now).1
  {
    DetachSound(m, key);
    SweepSplits(Detach(m, key).0, order, now);
  }
}
