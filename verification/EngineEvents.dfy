/** What the engine tells its watcher, and what a client makes of it that follows every event. */
module EngineEvents {
  import opened Lists
  import opened EngineSteps
  import opened EngineReplay
  import W = WatchSteps

  // ---------------------------------------------------------------- the events of each change

  function ValueBefore(data: Data, key: Key): Value {
    if key in data then data[key].value else ""
  }

  function PutTold(data: Data, key: Key, value: Value): W.Event {
    W.Event(false, key, value, ValueBefore(data, key), Version(data, key) + 1)
  }

  /** A swap does not tell the value before. */
  function SwapTold(data: Data, key: Key, value: Value): W.Event {
    PutTold(data, key, value).(prevValue := "")
  }

  function DeleteTold(data: Data, key: Key): seq<W.Event> {
    if key in data then [W.Event(true, key, "", data[key].value, 0)] else []
  }

  function CasTold(s: State, key: Key, prev: Value, next: Value, now: int): seq<W.Event> {
    if Visible(s.data, key, now) == prev then [SwapTold(WithoutExpired(s, key, now).data, key, next)] else []
  }

  function PutsTold(data: Data, kvs: map<Key, Value>, order: seq<Key>, ttl: int, now: int): seq<W.Event>
    requires forall k :: k in order ==> k in kvs
    decreases |order|
  {
    if |order| == 0 then []
    else
      [PutTold(data, order[0], kvs[order[0]])]
      + PutsTold(Stored(data, order[0], kvs[order[0]], ttl, now), kvs, order[1..], ttl, now)
  }

  /** A key listed twice is gone the second time. */
  function DeletesTold(data: Data, keys: seq<Key>): seq<W.Event>
    decreases |keys|
  {
    if |keys| == 0 then [] else DeleteTold(data, keys[0]) + DeletesTold(data - {keys[0]}, keys[1..])
  }

  ghost function Told(s: State, e: Event): seq<W.Event>
    requires Possible(e)
  {
    match e
    case PutKey(key, value, _, _) => [PutTold(s.data, key, value)]
    case DeleteKey(key) => DeleteTold(s.data, key)
    case Cas(key, prev, next, now) => CasTold(s, key, prev, next, now)
    case BatchPut(kvs, _, memOrder, ttl, now) => PutsTold(s.data, kvs, memOrder, ttl, now)
    case BatchDelete(keys) => DeletesTold(s.data, keys)
    case Expire(key) => DeleteTold(s.data, key)
    case Vanish(_) => []
    case Commit(_) => []
    case Restart => []
  }

  // ---------------------------------------------------------------- a client that follows them

  type Mirror = map<Key, (Value, int)>

  function Follow(m: Mirror, e: W.Event): Mirror {
    if e.delete then m - {e.key} else m[e.key := (e.value, e.version)]
  }

  function FollowAll(m: Mirror, es: seq<W.Event>): Mirror
    decreases |es|
  {
    if |es| == 0 then m else FollowAll(Follow(m, es[0]), es[1..])
  }

  ghost function RunTold(s: State, es: seq<Event>): seq<W.Event>
    requires AllPossible(es)
    decreases |es|
  {
    if |es| == 0 then [] else Told(s, es[0]) + RunTold(Perform(s, es[0]), es[1..])
  }

  /** The client holds the key with memory's value and version, or neither holds it. */
  predicate Mirrors(data: Data, m: Mirror, k: Key) {
    (k in data <==> k in m) && (k in data ==> m[k] == (data[k].value, data[k].version))
  }

  /** The keys that left memory since the client last heard of them. */
  ghost function Missed(s: State, missed: set<Key>, e: Event): set<Key> {
    match e
    case PutKey(key, _, _, _) => missed - {key}
    case DeleteKey(key) => if key in s.data then missed - {key} else missed
    case Cas(key, prev, _, now) =>
      if Visible(s.data, key, now) == prev then missed - {key}
      else if key in s.data && s.data[key].Expired(now) then missed + {key}
      else missed
    case BatchPut(kvs, _, _, _, _) => missed - kvs.Keys
    case BatchDelete(keys) => missed - (Elements(keys) * s.data.Keys)
    case Expire(key) => if key in s.data then missed - {key} else missed
    case Vanish(key) => if key in s.data then missed + {key} else missed
    case Commit(_) => missed
    case Restart => missed
  }

  ghost function MissedIn(s: State, missed: set<Key>, es: seq<Event>): set<Key>
    requires AllPossible(es)
    decreases |es|
  {
    if |es| == 0 then missed else MissedIn(Perform(s, es[0]), Missed(s, missed, es[0]), es[1..])
  }

  /** A missed key is still in the mirror, though no longer in memory. */
  predicate Follows(data: Data, m: Mirror, k: Key, missed: bool) {
    if missed then k !in data && k in m else Mirrors(data, m, k)
  }

  lemma {:induction false} FollowConcat(m: Mirror, a: seq<W.Event>, b: seq<W.Event>)
    ensures FollowAll(m, a + b) == FollowAll(FollowAll(m, a), b)
    decreases |a|
  {
    if |a| == 0 {
      assert a + b == b;
    } else {
      assert (a + b)[1..] == a[1..] + b;
      FollowConcat(Follow(m, a[0]), a[1..], b);
    }
  }

  lemma FollowOne(m: Mirror, e: W.Event)
    ensures FollowAll(m, [e]) == Follow(m, e)
  {
    assert [e][1..] == [];
  }

  lemma DeleteFollows(data: Data, m: Mirror, key: Key, k: Key, missed: bool)
    requires Follows(data, m, k, missed)
    ensures Follows(data - {key}, FollowAll(m, DeleteTold(data, key)), k, missed && !(k == key && key in data))
  {
    if key in data { FollowOne(m, DeleteTold(data, key)[0]); }
  }

  lemma PutFollows(data: Data, m: Mirror, e: W.Event, key: Key, value: Value, ttl: int, now: int, k: Key, missed: bool)
    requires Follows(data, m, k, missed)
    requires !e.delete && e.key == key && e.value == value && e.version == Version(data, key) + 1
    ensures Follows(Stored(data, key, value, ttl, now), Follow(m, e), k, missed && k != key)
  {
  }

  lemma {:induction false} PutsFollow(
    data: Data, m: Mirror, kvs: map<Key, Value>, order: seq<Key>, ttl: int, now: int, k: Key, missed: bool)
    requires (forall k :: k in order ==> k in kvs) && Follows(data, m, k, missed)
    ensures Follows(StoredAll(data, kvs, order, ttl, now), FollowAll(m, PutsTold(data, kvs, order, ttl, now)),
                    k, missed && k !in order)
    decreases |order|
  {
    if |order| > 0 {
      var key := order[0];
      var e, more := PutTold(data, key, kvs[key]), Stored(data, key, kvs[key], ttl, now);
      PutFollows(data, m, e, key, kvs[key], ttl, now, k, missed);
      PutsFollow(more, Follow(m, e), kvs, order[1..], ttl, now, k, missed && k != key);
      FollowConcat(m, [e], PutsTold(more, kvs, order[1..], ttl, now));
      FollowOne(m, e);
    }
  }

  lemma {:induction false} DeletesFollow(data: Data, m: Mirror, keys: seq<Key>, k: Key, missed: bool)
    requires Follows(data, m, k, missed)
    ensures Follows(data - Elements(keys), FollowAll(m, DeletesTold(data, keys)), k,
                    missed && !(k in keys && k in data))
    decreases |keys|
  {
    if |keys| > 0 {
      var key := keys[0];
      DeleteFollows(data, m, key, k, missed);
      var still := missed && !(k == key && key in data);
      DeletesFollow(data - {key}, FollowAll(m, DeleteTold(data, key)), keys[1..], k, still);
      FollowConcat(m, DeleteTold(data, key), DeletesTold(data - {key}, keys[1..]));
      assert data - {key} - Elements(keys[1..]) == data - Elements(keys);
    } else {
      assert data - Elements(keys) == data;
    }
  }

  // ---------------------------------------------------------------- every event, every run

  /** Neither a restart, which ends every watch, nor a committed transaction that touches k. */
  predicate Watched(e: Event, k: Key) {
    !e.Restart? && LeavesAlone(e, k)
  }

  lemma CasFollows(s: State, m: Mirror, missed: set<Key>, e: Event, k: Key)
    requires e.Cas? && Follows(s.data, m, k, k in missed)
    ensures Follows(Perform(s, e).data, FollowAll(m, Told(s, e)), k, k in Missed(s, missed, e))
  {
    var clean := WithoutExpired(s, e.key, e.now);
    if Visible(s.data, e.key, e.now) == e.prev {
      FollowOne(m, SwapTold(clean.data, e.key, e.next));
    }
  }

  lemma EventFollows(s: State, m: Mirror, missed: set<Key>, e: Event, k: Key)
    requires Possible(e) && Watched(e, k) && Follows(s.data, m, k, k in missed)
    ensures Follows(Perform(s, e).data, FollowAll(m, Told(s, e)), k, k in Missed(s, missed, e))
  {
    match e
    case PutKey(key, value, ttl, now) =>
      FollowOne(m, PutTold(s.data, key, value));
      PutFollows(s.data, m, PutTold(s.data, key, value), key, value, ttl, now, k, k in missed);
    case DeleteKey(key) => DeleteFollows(s.data, m, key, k, k in missed);
    case Cas(_, _, _, _) => CasFollows(s, m, missed, e, k);
    case BatchPut(kvs, _, memOrder, ttl, now) => PutsFollow(s.data, m, kvs, memOrder, ttl, now, k, k in missed);
    case BatchDelete(keys) => DeletesFollow(s.data, m, keys, k, k in missed);
    case Expire(key) => DeleteFollows(s.data, m, key, k, k in missed);
    case Vanish(_) =>
    case Commit(operations) => AppliedTo(s.data, operations, k);
  }

  lemma {:induction false} RunFollows(s: State, m: Mirror, missed: set<Key>, es: seq<Event>, k: Key)
    requires AllPossible(es) && (forall i :: 0 <= i < |es| ==> Watched(es[i], k)) && Follows(s.data, m, k, k in missed)
    ensures Follows(Run(s, es).data, FollowAll(m, RunTold(s, es)), k, k in MissedIn(s, missed, es))
    decreases |es|
  {
    if |es| > 0 {
      EventFollows(s, m, missed, es[0], k);
      RunFollows(Perform(s, es[0]), FollowAll(m, Told(s, es[0])), Missed(s, missed, es[0]), es[1..], k);
      FollowConcat(m, Told(s, es[0]), RunTold(Perform(s, es[0]), es[1..]));
    }
  }

  /** From any state that a client mirrors, over every run without a restart: following every event the
      client still holds a key as memory does exactly when the key, untouched by committed transactions,
      has not left memory unannounced since the last event about it. */
  lemma MirrorsExactlyWhen(s: State, m: Mirror, es: seq<Event>, k: Key)
    requires AllPossible(es) && (forall i :: 0 <= i < |es| ==> Watched(es[i], k)) && Mirrors(s.data, m, k)
    ensures Mirrors(Run(s, es).data, FollowAll(m, RunTold(s, es)), k) <==> k !in MissedIn(s, {}, es)
  {
    RunFollows(s, m, {}, es, k);
  }

  // ---------------------------------------------------------------- the value before

  /** An event about k tells the value that the client held before it, or none if it held none; a delete
      tells no other value, and no version. */
  predicate TellsBefore(m: Mirror, e: W.Event, k: Key) {
    e.key == k ==>
      e.prevValue == (if k in m then m[k].0 else "") && (e.delete ==> e.value == "" && e.version == 0)
  }

  ghost predicate Chained(m: Mirror, es: seq<W.Event>, k: Key)
    decreases |es|
  {
    |es| > 0 ==> TellsBefore(m, es[0], k) && Chained(Follow(m, es[0]), es[1..], k)
  }

  lemma {:induction false} ChainsJoin(m: Mirror, a: seq<W.Event>, b: seq<W.Event>, k: Key)
    requires Chained(m, a, k) && Chained(FollowAll(m, a), b, k)
    ensures Chained(m, a + b, k)
    decreases |a|
  {
    if |a| == 0 {
      assert a + b == b;
    } else {
      assert (a + b)[1..] == a[1..] + b;
      ChainsJoin(Follow(m, a[0]), a[1..], b, k);
    }
  }

  lemma {:induction false} PutsChain(
    data: Data, m: Mirror, kvs: map<Key, Value>, order: seq<Key>, ttl: int, now: int, k: Key)
    requires (forall k :: k in order ==> k in kvs) && Mirrors(data, m, k)
    ensures Chained(m, PutsTold(data, kvs, order, ttl, now), k)
    decreases |order|
  {
    if |order| > 0 {
      var key := order[0];
      var e := PutTold(data, key, kvs[key]);
      PutFollows(data, m, e, key, kvs[key], ttl, now, k, false);
      PutsChain(Stored(data, key, kvs[key], ttl, now), Follow(m, e), kvs, order[1..], ttl, now, k);
    }
  }

  lemma DeleteChains(data: Data, m: Mirror, key: Key, k: Key)
    requires Mirrors(data, m, k)
    ensures Chained(m, DeleteTold(data, key), k)
  {
  }

  lemma {:induction false} DeletesChain(data: Data, m: Mirror, keys: seq<Key>, k: Key)
    requires Mirrors(data, m, k)
    ensures Chained(m, DeletesTold(data, keys), k)
    decreases |keys|
  {
    if |keys| > 0 {
      var key := keys[0];
      DeleteChains(data, m, key, k);
      DeleteFollows(data, m, key, k, false);
      DeletesChain(data - {key}, FollowAll(m, DeleteTold(data, key)), keys[1..], k);
      ChainsJoin(m, DeleteTold(data, key), DeletesTold(data - {key}, keys[1..]), k);
    }
  }

  /** The event neither swaps k nor takes it from memory unannounced. */
  predicate Announced(e: Event, k: Key) {
    (e.Cas? ==> e.key != k) && (e.Vanish? ==> e.key != k)
  }

  lemma EventChains(s: State, m: Mirror, e: Event, k: Key)
    requires Possible(e) && Watched(e, k) && Announced(e, k) && Mirrors(s.data, m, k)
    ensures Chained(m, Told(s, e), k) && Mirrors(Perform(s, e).data, FollowAll(m, Told(s, e)), k)
  {
    EventFollows(s, m, {}, e, k);
    match e
    case PutKey(_, _, _, _) =>
    case DeleteKey(key) => DeleteChains(s.data, m, key, k);
    case Cas(_, _, _, _) =>
    case BatchPut(kvs, _, memOrder, ttl, now) => PutsChain(s.data, m, kvs, memOrder, ttl, now, k);
    case BatchDelete(keys) => DeletesChain(s.data, m, keys, k);
    case Expire(key) => DeleteChains(s.data, m, key, k);
    case Vanish(_) =>
    case Commit(_) =>
  }

  /** Over every such run, every event about the key tells the value that a client following the events
      held before it: the events of a key chain, each to the one before. */
  lemma {:induction false} ValuesChain(s: State, m: Mirror, es: seq<Event>, k: Key)
    requires AllPossible(es) && Mirrors(s.data, m, k)
    requires forall i :: 0 <= i < |es| ==> Watched(es[i], k) && Announced(es[i], k)
    ensures Chained(m, RunTold(s, es), k)
    decreases |es|
  {
    if |es| > 0 {
      EventChains(s, m, es[0], k);
      ValuesChain(Perform(s, es[0]), FollowAll(m, Told(s, es[0])), es[1..], k);
      ChainsJoin(m, Told(s, es[0]), RunTold(Perform(s, es[0]), es[1..]), k);
    }
  }

  /** A swap breaks the chain exactly when the client held a value, and not the empty one: it tells none. */
  lemma SwapChainsExactlyWhen(s: State, m: Mirror, key: Key, prev: Value, next: Value, now: int)
    requires Mirrors(s.data, m, key) && Visible(s.data, key, now) == prev
    ensures Chained(m, CasTold(s, key, prev, next, now), key) <==> !(key in m && m[key].0 != "")
  {
  }
}
