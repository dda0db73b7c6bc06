/** What each call on the lease manager does, told by who is attached to what afterwards, and that an
    attached key stays so until it is handed out with its lease. */
module LeaseEffects {
  import opened Lists
  import opened LeaseSteps
  import opened LeaseIndex

  // ---------------------------------------------------------------- what each call does

  /** The leases other than id are as they were, identifiers included. */
  ghost predicate OthersKept(m: Manager, t: Manager, id: Id) {
    && (forall l :: l in m.leases && l != id ==> l in t.leases && t.leases[l] == m.leases[l])
    && (forall l :: l in t.leases && l != id ==> l in m.leases)
  }

  /** A grant makes one empty lease under the next number, live for its time to live, and nothing else; a time to live
      that is not positive makes none. */
  lemma GrantMakes(m: Manager, ttl: int, now: int)
    requires Sound(m)
    ensures var (t, r) := Grant(m, ttl, now);
      && (ttl <= 0 ==> r == Err(BadTtl) && t == m)
      && (ttl > 0 ==>
            && r == Ok(m.nextLeaseId + 1) && t.nextLeaseId == r.value
            && r.value in t.leases && t.leases[r.value] == Lease(ttl, now + ttl, [])
            && OthersKept(m, t, r.value) && t.keyToLease == m.keyToLease && t.revoked == m.revoked
            && forall key :: !AttachedTo(t, r.value, key))
  {
    GrantSound(m, ttl, now);
    if ttl > 0 {
      var (t, r) := Grant(m, ttl, now);
      forall key ensures !AttachedTo(t, r.value, key) {
        assert AttachedTo(t, r.value, key) <==> Holds(t, r.value, key);
      }
    }
  }

  /** Revoking a live lease ends it: it and its identifier are dead, its keys are attached nowhere, and
      every other lease and key is as it was. */
  lemma RevokeEnds(m: Manager, id: Id)
    requires Sound(m)
    ensures var (t, r) := Revoke(m, id);
      && (id !in m.leases ==> r == Err(NotFound) && t == m)
      && (id in m.leases ==>
            && r == Ok(()) && id !in t.leases && id in t.revoked && OthersKept(m, t, id)
            && forall key, l :: AttachedTo(t, l, key) <==> l != id && AttachedTo(m, l, key))
  {
    if id in m.leases {
      var t := Revoke(m, id).0;
      DroppedSound(m, id);
      forall key, l ensures AttachedTo(t, l, key) <==> l != id && AttachedTo(m, l, key) {
        assert AttachedTo(m, id, key) <==> Holds(m, id, key);
        assert AttachedTo(m, l, key) <==> Holds(m, l, key);
        assert AttachedTo(t, l, key) <==> Holds(t, l, key);
      }
    }
  }

  /** Every lease has what it had, but for key, which is on lease id and on no other. */
  ghost predicate MovedTo(m: Manager, t: Manager, id: Id, key: Key) {
    && t.leases.Keys == m.leases.Keys && t.revoked == m.revoked && t.nextLeaseId == m.nextLeaseId
    && (forall l :: l in m.leases ==> t.leases[l].ttl == m.leases[l].ttl && t.leases[l].expires == m.leases[l].expires)
    && (forall l, k :: l in m.leases ==>
          (k in t.leases[l].keys <==> if k == key then l == id else k in m.leases[l].keys))
    && (forall l, k :: AttachedTo(t, l, k) <==> if k == key then l == id else AttachedTo(m, l, k))
  }

  lemma DetachedMoves(m: Manager, id: Id, key: Key)
    requires Sound(m) && AttachedTo(m, id, key)
    ensures var t := DetachFrom(m, id, key).0;
      && t.leases.Keys == m.leases.Keys && t.revoked == m.revoked && t.nextLeaseId == m.nextLeaseId
      && (forall l :: l in m.leases ==>
            t.leases[l].ttl == m.leases[l].ttl && t.leases[l].expires == m.leases[l].expires)
      && (forall l, k :: l in m.leases ==> (k in t.leases[l].keys <==> k != key && k in m.leases[l].keys))
      && (forall l, k :: AttachedTo(t, l, k) <==> k != key && AttachedTo(m, l, k))
  {
    assert Holds(m, id, key);
    RemoveFirstMeans(m.leases[id].keys, key);
    var t := DetachFrom(m, id, key).0;
    forall l, k | l in m.leases ensures k in t.leases[l].keys <==> k != key && k in m.leases[l].keys {
      assert AttachedTo(m, l, key) <==> Holds(m, l, key);
    }
  }

  lemma ListedMoves(m: Manager, t: Manager, id: Id, key: Key)
    requires id in m.leases && t == Listed(m, id, key)
    requires forall l :: l in m.leases && l != id ==> key !in m.leases[l].keys
    ensures MovedTo(m, t, id, key)
  {
  }

  /** Attaching to a live lease attaches: the key is on that lease and on no other, every other key is
      where it was, and no lease lives longer or shorter for it. A dead lease is reported. */
  lemma AttachAttaches(m: Manager, id: Id, key: Key, once: bool)
    requires Sound(m)
    ensures var (t, r) := Attach(m, id, key, once);
      && (id !in m.leases ==> r == Err(NotFound) && t == m)
      && (id in m.leases ==> r == Ok(()) && MovedTo(m, t, id, key))
  {
    if id in m.leases {
      var t := Attach(m, id, key, once).0;
      forall l | l in m.leases ensures key in m.leases[l].keys <==> AttachedTo(m, l, key) {
        assert AttachedTo(m, l, key) <==> Holds(m, l, key);
      }
      if once && AttachedTo(m, id, key) {
      } else if key in m.keyToLease && m.keyToLease[key] != id {
        var freed := DetachFrom(m, m.keyToLease[key], key).0;
        DetachedMoves(m, m.keyToLease[key], key);
        ListedMoves(freed, t, id, key);
      } else {
        ListedMoves(m, t, id, key);
      }
    }
  }

  /** Detaching takes the key off its lease and does nothing else. */
  lemma DetachDetaches(m: Manager, key: Key)
    requires Sound(m)
    ensures var (t, r) := Detach(m, key);
      && (key !in m.keyToLease ==> r == Err(NotAttached) && t == m)
      && (key in m.keyToLease ==>
            && r == Ok(()) && t.leases.Keys == m.leases.Keys && t.revoked == m.revoked
            && (forall l :: l in m.leases ==>
                  t.leases[l].ttl == m.leases[l].ttl && t.leases[l].expires == m.leases[l].expires)
            && forall l, k :: AttachedTo(t, l, k) <==> k != key && AttachedTo(m, l, k))
  {
    if key in m.keyToLease {
      assert AttachedTo(m, m.keyToLease[key], key) <==> Holds(m, m.keyToLease[key], key);
      DetachedMoves(m, m.keyToLease[key], key);
    }
  }

  // ---------------------------------------------------------------- sweeps end leases

  /** A sweep ends exactly the leases it meets that have run out, and no other. */
  lemma {:induction false} SweepEnds(m: Manager, order: seq<Id>, now: int)
    requires Sound(m)
    ensures var t := Sweep(m, order, now).0;
      && (forall l :: l in t.leases <==> l in m.leases && !(l in order && now > m.leases[l].expires))
      && (forall l :: l in t.leases ==> t.leases[l] == m.leases[l])
    decreases |order|
  {
    if |order| > 0 {
      SweepOneSplits(m, order[0], now, "");
      SweepEnds(SweepOne(m, order[0], now).0, order[1..], now);
      assert order == [order[0]] + order[1..];
    }
  }

  // ---------------------------------------------------------------- an attached key, over every run

  /** The call leaves the key where it is, unless it is a sweep that ends its lease. */
  predicate LeavesKey(c: Call, id: Id, key: Key) {
    && (c.DoAttach? && c.key == key ==> c.id == id)
    && (c.DoDetach? ==> c.key != key)
    && (c.DoRevoke? ==> c.id != id)
  }

  predicate AllLeaveKey(calls: seq<Call>, id: Id, key: Key) {
    forall i :: 0 <= i < |calls| ==> LeavesKey(calls[i], id, key)
  }

  /** What the sweeps of a run hand out, in order. */
  function HandedOut(m: Manager, calls: seq<Call>): seq<Key>
    decreases |calls|
  {
    if |calls| == 0 then []
    else
      (if calls[0].DoSweep? then Sweep(m, calls[0].order, calls[0].now).1 else [])
      + HandedOut(Perform(m, calls[0], true), calls[1..])
  }

  lemma CallKeepsKey(m: Manager, id: Id, key: Key, c: Call)
    requires Sound(m) && AttachedTo(m, id, key) && LeavesKey(c, id, key)
    ensures var t := Perform(m, c, true);
      if c.DoSweep? && id in c.order && c.now > m.leases[id].expires
      then key in Sweep(m, c.order, c.now).1 && id !in t.leases
      else AttachedTo(t, id, key) && id in t.leases && (c.DoSweep? ==> key !in Sweep(m, c.order, c.now).1)
    ensures id in m.leases
  {
    assert Holds(m, id, key);
    match c
    case DoGrant(ttl, now) => GrantMakes(m, ttl, now);
    case DoRevoke(l) => RevokeEnds(m, l);
    case DoKeepAlive(_, _) =>
    case DoAttach(l, k) => AttachAttaches(m, l, k, true);
    case DoDetach(k) => DetachDetaches(m, k);
    case DoSweep(order, now) =>
      SweepSplits(m, order, now);
      SweepEnds(m, order, now);
  }

  lemma DeadStaysDead(m: Manager, id: Id, key: Key, c: Call)
    requires Sound(m) && 1 < id <= m.nextLeaseId && id !in m.leases && key !in m.keyToLease && LeavesKey(c, id, key)
    ensures var t := Perform(m, c, true);
      && id !in t.leases && key !in t.keyToLease && id <= t.nextLeaseId
      && (c.DoSweep? ==> key !in Sweep(m, c.order, c.now).1)
  {
    assert forall l :: !AttachedTo(m, l, key);
    match c
    case DoGrant(ttl, now) => GrantMakes(m, ttl, now);
    case DoRevoke(l) => RevokeEnds(m, l);
    case DoKeepAlive(_, _) =>
    case DoAttach(l, k) =>
      AttachAttaches(m, l, k, true);
      if l in m.leases && k != key { assert forall x :: !AttachedTo(Attach(m, l, k, true).0, x, key); }
    case DoDetach(k) => DetachDetaches(m, k);
    case DoSweep(order, now) =>
      SweepSplits(m, order, now);
      SweepEnds(m, order, now);
      SweepKeepsCounter(m, order, now);
  }

  lemma {:induction false} DeadHandsOutNothing(m: Manager, id: Id, key: Key, calls: seq<Call>)
    requires Sound(m) && 1 < id <= m.nextLeaseId && id !in m.leases && key !in m.keyToLease
    requires AllLeaveKey(calls, id, key)
    ensures id !in Run(m, calls, true).leases && key !in HandedOut(m, calls)
    decreases |calls|
  {
    if |calls| > 0 {
      DeadStaysDead(m, id, key, calls[0]);
      PerformSound(m, calls[0], true);
      DeadHandsOutNothing(Perform(m, calls[0], true), id, key, calls[1..]);
    }
  }

  /** Over every run: a key that is on a lease, and that no call moves, detaches or revokes, is there for
      as long as the lease lives, and is handed out by the sweep that ends it. */
  lemma {:induction false} AttachedUntilHandedOut(m: Manager, id: Id, key: Key, calls: seq<Call>)
    requires Sound(m) && AttachedTo(m, id, key) && AllLeaveKey(calls, id, key)
    ensures var t := Run(m, calls, true);
      && (id in t.leases <==> key !in HandedOut(m, calls))
      && (id in t.leases <==> AttachedTo(t, id, key))
    decreases |calls|
  {
    assert Holds(m, id, key);
    if |calls| > 0 {
      var c, t := calls[0], Perform(m, calls[0], true);
      CallKeepsKey(m, id, key, c);
      PerformSound(m, c, true);
      if c.DoSweep? && id in c.order && c.now > m.leases[id].expires {
        SweptAway(m, id, key, c.order, c.now);
        DeadHandsOutNothing(t, id, key, calls[1..]);
        EveryRunSound(t, calls[1..]);
        assert !Holds(Run(t, calls[1..], true), id, key);
      } else {
        AttachedUntilHandedOut(t, id, key, calls[1..]);
      }
    }
  }

  lemma SweptAway(m: Manager, id: Id, key: Key, order: seq<Id>, now: int)
    requires Sound(m) && AttachedTo(m, id, key) && key in Sweep(m, order, now).1
    ensures var t := Sweep(m, order, now).0; key !in t.keyToLease && 1 < id <= t.nextLeaseId
  {
    assert Holds(m, id, key);
    SweepSplits(m, order, now);
    SweepKeepsCounter(m, order, now);
  }

  /** So attaching a key to a live lease gets it handed out, by the sweep that ends that lease. */
  lemma AttachedKeyIsHandedOut(m: Manager, id: Id, key: Key, calls: seq<Call>, order: seq<Id>, now: int)
    requires Sound(m) && id in m.leases && AllLeaveKey(calls, id, key)
    requires var t := Run(Attach(m, id, key, true).0, calls, true);
      id in t.leases && id in order && now > t.leases[id].expires
    ensures var t := Run(Attach(m, id, key, true).0, calls, true);
      key in Sweep(t, order, now).1
  {
    var n := Attach(m, id, key, true).0;
    AttachAttaches(m, id, key, true);
    PerformSound(m, DoAttach(id, key), true);
    AttachedUntilHandedOut(n, id, key, calls);
    EveryRunSound(n, calls);
    SweepSplits(Run(n, calls, true), order, now);
  }
}
