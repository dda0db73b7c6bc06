/** Memory against the log: which keys a restart brings back as they were. */
module EngineReplay {
  import opened Lists
  import opened EngineSteps

  /** `Expire` is a key's removal with its lease, which is announced to watchers; `Vanish` is one that
      is not. Neither leaves a record. */
  datatype Event =
    | PutKey(key: Key, value: Value, ttl: int, now: int)
    | DeleteKey(key: Key)
    | Cas(key: Key, prev: Value, next: Value, now: int)
    | BatchPut(kvs: map<Key, Value>, logOrder: seq<Key>, memOrder: seq<Key>, ttl: int, now: int)
    | BatchDelete(keys: seq<Key>)
    | Expire(key: Key)
    | Vanish(key: Key)
    | Commit(operations: seq<Command>)
    | Restart

  ghost predicate Possible(e: Event) {
    e.BatchPut? ==> Walks(e.logOrder, e.kvs.Keys) && Walks(e.memOrder, e.kvs.Keys)
  }

  ghost function Perform(s: State, e: Event): State
    requires Possible(e)
  {
    match e
    case PutKey(key, value, ttl, now) => PutStep(s, key, value, ttl, now)
    case DeleteKey(key) => DeleteStep(s, key)
    case Cas(key, prev, next, now) => CasStep(s, key, prev, next, now)
    case BatchPut(kvs, logOrder, memOrder, ttl, now) => BatchPutStep(s, kvs, logOrder, memOrder, ttl, now)
    case BatchDelete(keys) => BatchDeleteStep(s, keys)
    case Expire(key) => Vanished(s, key)
    case Vanish(key) => Vanished(s, key)
    case Commit(operations) => Committed(s, operations)
    case Restart => s.(data := Replay(s.log))
  }

  /** The keys that vanished from memory without a record since their last logged delete; a restart
      starts afresh from what the log holds. */
  ghost function Lost(s: State, lost: set<Key>, e: Event): set<Key> {
    match e
    case DeleteKey(key) => if key in s.data then lost - {key} else lost
    case BatchDelete(keys) => lost - (Elements(keys) * s.data.Keys)
    case Cas(key, _, _, now) => if key in s.data && s.data[key].Expired(now) then lost + {key} else lost
    case Expire(key) => if key in s.data then lost + {key} else lost
    case Vanish(key) => if key in s.data then lost + {key} else lost
    case Restart => {}
    case _ => lost
  }

  ghost predicate AllPossible(es: seq<Event>) {
    forall i :: 0 <= i < |es| ==> Possible(es[i])
  }

  ghost function Run(s: State, es: seq<Event>): State
    requires AllPossible(es)
    decreases |es|
  {
    if |es| == 0 then s else Run(Perform(s, es[0]), es[1..])
  }

  ghost function LostIn(s: State, lost: set<Key>, es: seq<Event>): set<Key>
    requires AllPossible(es)
    decreases |es|
  {
    if |es| == 0 then lost else LostIn(Perform(s, es[0]), Lost(s, lost, es[0]), es[1..])
  }

  // ---------------------------------------------------------------- one key at a time

  /** The same value and version, or absent on both sides. */
  predicate Agree(memory: Data, replay: Data, k: Key) {
    && (k in memory <==> k in replay)
    && (k in memory ==> memory[k].value == replay[k].value && memory[k].version == replay[k].version)
  }

  /** What replay makes of a key that vanished: it is back, and its version has run ahead. */
  predicate Stale(memory: Data, replay: Data, k: Key) {
    && k in replay && replay[k].version >= 1
    && (k in memory ==> memory[k].value == replay[k].value && memory[k].version < replay[k].version)
  }

  predicate Tracks(memory: Data, replay: Data, k: Key, lost: bool) {
    if lost then Stale(memory, replay, k) else Agree(memory, replay, k) && (k in replay ==> replay[k].version >= 1)
  }

  /** Both sides hold what they held, or both took one more put of the same value. */
  predicate Unmoved(before: Data, after: Data, k: Key) {
    (k in before <==> k in after) && (k in before ==> before[k] == after[k])
  }

  predicate TookPut(before: Data, after: Data, k: Key, value: Value) {
    && k in after && after[k].value == value
    && after[k].version == if k in before then before[k].version + 1 else 1
  }

  lemma PutTracks(m: Data, r: Data, m': Data, r': Data, k: Key, value: Value, lost: bool)
    requires Tracks(m, r, k, lost) && TookPut(m, m', k, value) && TookPut(r, r', k, value)
    ensures Tracks(m', r', k, lost)
  {
  }

  lemma UnmovedTracks(m: Data, r: Data, m': Data, r': Data, k: Key, lost: bool)
    requires Tracks(m, r, k, lost) && Unmoved(m, m', k) && Unmoved(r, r', k)
    ensures Tracks(m', r', k, lost)
  {
  }

  // ---------------------------------------------------------------- what commands do to one key

  predicate DeletesKey(cs: seq<Command>, k: Key) {
    Delete(k) in cs
  }

  /** The puts of k behind its last delete. */
  function PutsSince(cs: seq<Command>, k: Key): nat
    decreases |cs|
  {
    if |cs| == 0 then 0
    else PutsSince(cs[1..], k) + if cs[0].Put? && cs[0].key == k && !DeletesKey(cs[1..], k) then 1 else 0
  }

  /** The value of the last of them. */
  function LastPut(cs: seq<Command>, k: Key): Value
    decreases |cs|
  {
    if |cs| == 0 then ""
    else if PutsSince(cs[1..], k) == 0 && cs[0].Put? && cs[0].key == k then cs[0].value
    else LastPut(cs[1..], k)
  }

  /** Zero stands for a key that is not there. */
  function Version(data: Data, k: Key): nat {
    if k in data then data[k].version else 0
  }

  predicate Versioned(data: Data, k: Key) {
    k in data ==> data[k].version >= 1
  }

  /** Commands leave a key with as many versions more as they put behind their last delete of it, and
      with the last value put. */
  lemma {:induction false} AppliedTo(data: Data, cs: seq<Command>, k: Key)
    ensures var after, n := ApplyCommands(data, cs), PutsSince(cs, k);
      && Version(after, k) == n + (if DeletesKey(cs, k) then 0 else Version(data, k))
      && (n > 0 ==> k in after && after[k].value == LastPut(cs, k))
      && (n == 0 ==> if DeletesKey(cs, k) then k !in after else Unmoved(data, after, k))
    decreases |cs|
  {
    if |cs| > 0 {
      AppliedTo(ApplyCommand(data, cs[0]), cs[1..], k);
      assert cs == [cs[0]] + cs[1..];
    }
  }

  /** What the log makes of a key: its version counts the puts since the last delete. */
  lemma ReplayOnKey(log: seq<Command>, k: Key)
    ensures Version(Replay(log), k) == PutsSince(log, k) && Versioned(Replay(log), k)
    ensures k in Replay(log) ==> Replay(log)[k].value == LastPut(log, k)
  {
    AppliedTo(map[], log, k);
  }

  lemma AppliedVersioned(data: Data, cs: seq<Command>, k: Key)
    requires Versioned(data, k)
    ensures Versioned(ApplyCommands(data, cs), k)
  {
    AppliedTo(data, cs, k);
  }

  // ---------------------------------------------------------------- what a batch does to one key

  lemma {:induction false} ApplyConcat(data: Data, a: seq<Command>, b: seq<Command>)
    ensures ApplyCommands(data, a + b) == ApplyCommands(ApplyCommands(data, a), b)
    decreases |a|
  {
    if |a| == 0 {
      assert a + b == b;
    } else {
      ApplyConcat(ApplyCommand(data, a[0]), a[1..], b);
      assert (a + b)[1..] == a[1..] + b;
    }
  }

  lemma ReplayMore(log: seq<Command>, c: Command)
    ensures Replay(log + [c]) == ApplyCommand(Replay(log), c)
  {
    ApplyConcat(map[], log, [c]);
  }

  lemma {:induction false} StoredAllOnKey(data: Data, kvs: map<Key, Value>, order: seq<Key>, ttl: int, now: int, k: Key)
    requires (forall k :: k in order ==> k in kvs) && NoDuplicates(order)
    ensures var after := StoredAll(data, kvs, order, ttl, now);
      if k in order then TookPut(data, after, k, kvs[k]) else Unmoved(data, after, k)
    decreases |order|
  {
    if |order| > 0 {
      StoredAllOnKey(Stored(data, order[0], kvs[order[0]], ttl, now), kvs, order[1..], ttl, now, k);
    }
  }

  lemma {:induction false} PutsOnKey(data: Data, kvs: map<Key, Value>, order: seq<Key>, k: Key)
    requires (forall k :: k in order ==> k in kvs) && NoDuplicates(order)
    ensures var after := ApplyCommands(data, Puts(kvs, order));
      if k in order then TookPut(data, after, k, kvs[k]) else Unmoved(data, after, k)
    decreases |order|
  {
    if |order| > 0 {
      PutsOnKey(ApplyPut(data, order[0], kvs[order[0]]), kvs, order[1..], k);
      assert Puts(kvs, order)[1..] == Puts(kvs, order[1..]);
    }
  }

  lemma {:induction false} DeletesOnKey(data: Data, held: Data, keys: seq<Key>, k: Key)
    ensures var after := ApplyCommands(data, Deletes(held, keys));
      if k in keys && k in held then k !in after else Unmoved(data, after, k)
    decreases |keys|
  {
    if |keys| > 0 {
      var rest := Deletes(held, keys[1..]);
      if keys[0] in held {
        DeletesOnKey(data - {keys[0]}, held, keys[1..], k);
        assert Deletes(held, keys)[1..] == rest;
      } else {
        DeletesOnKey(data, held, keys[1..], k);
        assert Deletes(held, keys) == rest;
      }
    }
  }

  // ---------------------------------------------------------------- every event keeps track

  lemma BatchPutTracks(s: State, lost: set<Key>, e: Event, k: Key)
    requires e.BatchPut? && Possible(e) && Tracks(s.data, Replay(s.log), k, k in lost)
    ensures Tracks(Perform(s, e).data, Replay(Perform(s, e).log), k, k in lost)
  {
    var cs := Puts(e.kvs, e.logOrder);
    ApplyConcat(map[], s.log, cs);
    StoredAllOnKey(s.data, e.kvs, e.memOrder, e.ttl, e.now, k);
    PutsOnKey(Replay(s.log), e.kvs, e.logOrder, k);
    if k in e.kvs {
      PutTracks(s.data, Replay(s.log), Perform(s, e).data, Replay(Perform(s, e).log), k, e.kvs[k], k in lost);
    } else {
      UnmovedTracks(s.data, Replay(s.log), Perform(s, e).data, Replay(Perform(s, e).log), k, k in lost);
    }
  }

  lemma BatchDeleteTracks(s: State, lost: set<Key>, keys: seq<Key>, k: Key)
    requires Tracks(s.data, Replay(s.log), k, k in lost)
    ensures var t := BatchDeleteStep(s, keys);
      Tracks(t.data, Replay(t.log), k, k in lost - (Elements(keys) * s.data.Keys))
  {
    ApplyConcat(map[], s.log, Deletes(s.data, keys));
    DeletesOnKey(Replay(s.log), s.data, keys, k);
  }

  /** No committed transaction touches k. */
  predicate LeavesAlone(e: Event, k: Key) {
    e.Commit? ==> !DeletesKey(e.operations, k) && PutsSince(e.operations, k) == 0
  }

  lemma EventTracks(s: State, lost: set<Key>, e: Event, k: Key)
    requires Possible(e) && Tracks(s.data, Replay(s.log), k, k in lost) && LeavesAlone(e, k)
    ensures Tracks(Perform(s, e).data, Replay(Perform(s, e).log), k, k in Lost(s, lost, e))
  {
    match e
    case PutKey(key, value, _, _) => ReplayMore(s.log, Put(key, value));
    case DeleteKey(key) => ReplayMore(s.log, Delete(key));
    case Cas(key, _, next, _) => ReplayMore(s.log, Put(key, next));
    case BatchPut(_, _, _, _, _) => BatchPutTracks(s, lost, e, k);
    case BatchDelete(keys) => BatchDeleteTracks(s, lost, keys, k);
    case Expire(_) =>
    case Vanish(_) =>
    case Commit(operations) => AppliedTo(s.data, operations, k);
    case Restart =>
  }

  predicate AllLeaveAlone(es: seq<Event>, k: Key) {
    forall i :: 0 <= i < |es| ==> LeavesAlone(es[i], k)
  }

  lemma {:induction false} RunTracks(s: State, lost: set<Key>, es: seq<Event>, k: Key)
    requires AllPossible(es) && Tracks(s.data, Replay(s.log), k, k in lost) && AllLeaveAlone(es, k)
    ensures Tracks(Run(s, es).data, Replay(Run(s, es).log), k, k in LostIn(s, lost, es))
    decreases |es|
  {
    if |es| > 0 {
      EventTracks(s, lost, es[0], k);
      RunTracks(Perform(s, es[0]), Lost(s, lost, es[0]), es[1..], k);
    }
  }

  // ---------------------------------------------------------------- the account of versions

  /** How far the log is ahead of memory in versions of k: what memory alone lost, less what memory
      alone gained. A logged delete and a restart settle the account. */
  ghost function Gap(s: State, gap: int, e: Event, k: Key): int {
    match e
    case DeleteKey(key) => if key == k && k in s.data then 0 else gap
    case BatchDelete(keys) => if k in keys && k in s.data then 0 else gap
    case Cas(key, _, _, now) => gap + Version(s.data, k) - Version(WithoutExpired(s, key, now).data, k)
    case Expire(key) => gap + Version(s.data, k) - Version(Vanished(s, key).data, k)
    case Vanish(key) => gap + Version(s.data, k) - Version(Vanished(s, key).data, k)
    case Commit(operations) => gap + Version(s.data, k) - Version(Committed(s, operations).data, k)
    case Restart => 0
    case _ => gap
  }

  ghost function GapIn(s: State, gap: int, es: seq<Event>, k: Key): int
    requires AllPossible(es)
    decreases |es|
  {
    if |es| == 0 then gap else GapIn(Perform(s, es[0]), Gap(s, gap, es[0], k), es[1..], k)
  }

  ghost predicate Balanced(s: State, gap: int, k: Key) {
    Versioned(s.data, k) && Version(Replay(s.log), k) == Version(s.data, k) + gap
  }

  lemma BatchPutBalances(s: State, gap: int, e: Event, k: Key)
    requires e.BatchPut? && Possible(e) && Balanced(s, gap, k)
    ensures Balanced(Perform(s, e), gap, k)
  {
    ApplyConcat(map[], s.log, Puts(e.kvs, e.logOrder));
    StoredAllOnKey(s.data, e.kvs, e.memOrder, e.ttl, e.now, k);
    PutsOnKey(Replay(s.log), e.kvs, e.logOrder, k);
  }

  lemma BatchDeleteBalances(s: State, gap: int, keys: seq<Key>, k: Key)
    requires Balanced(s, gap, k)
    ensures Balanced(BatchDeleteStep(s, keys), Gap(s, gap, BatchDelete(keys), k), k)
  {
    ApplyConcat(map[], s.log, Deletes(s.data, keys));
    DeletesOnKey(Replay(s.log), s.data, keys, k);
  }

  lemma EventBalances(s: State, gap: int, e: Event, k: Key)
    requires Possible(e) && Balanced(s, gap, k)
    ensures Balanced(Perform(s, e), Gap(s, gap, e, k), k)
  {
    match e
    case PutKey(key, value, _, _) => ReplayMore(s.log, Put(key, value));
    case DeleteKey(key) => ReplayMore(s.log, Delete(key));
    case Cas(key, _, next, _) => ReplayMore(s.log, Put(key, next));
    case BatchPut(_, _, _, _, _) => BatchPutBalances(s, gap, e, k);
    case BatchDelete(keys) => BatchDeleteBalances(s, gap, keys, k);
    case Expire(_) =>
    case Vanish(_) =>
    case Commit(operations) => AppliedVersioned(s.data, operations, k);
    case Restart => ReplayOnKey(s.log, k);
  }

  lemma {:induction false} RunBalances(s: State, gap: int, es: seq<Event>, k: Key)
    requires AllPossible(es) && Balanced(s, gap, k)
    ensures Balanced(Run(s, es), GapIn(s, gap, es, k), k)
    decreases |es|
  {
    if |es| > 0 {
      EventBalances(s, gap, es[0], k);
      RunBalances(Perform(s, es[0]), Gap(s, gap, es[0], k), es[1..], k);
    }
  }

  // ---------------------------------------------------------------- main results

  const EMPTY := State(map[], [])

  /** Conservation, over every run and for every key: the version that a restart gives the key is the
      one in memory and what the account of unlogged changes adds; it counts the puts logged since the
      last logged delete. */
  lemma VersionsBalance(es: seq<Event>, k: Key)
    requires AllPossible(es)
    ensures var s := Run(EMPTY, es);
      PutsSince(s.log, k) == Version(Replay(s.log), k) == Version(s.data, k) + GapIn(EMPTY, 0, es, k)
  {
    RunBalances(EMPTY, 0, es, k);
    ReplayOnKey(Run(EMPTY, es).log, k);
  }

  /** Over every run and for every key, committed transactions included: the key comes back from the
      log as memory holds it exactly when its account is settled and memory holds the last value
      logged. */
  lemma RecoversExactlyWhen(es: seq<Event>, k: Key)
    requires AllPossible(es)
    ensures var s := Run(EMPTY, es);
      Agree(s.data, Replay(s.log), k) <==>
        GapIn(EMPTY, 0, es, k) == 0 && (k in s.data ==> s.data[k].value == LastPut(s.log, k))
  {
    RunBalances(EMPTY, 0, es, k);
    ReplayOnKey(Run(EMPTY, es).log, k);
  }

  /** For a key that no committed transaction touches: exactly when it has not vanished without a
      record since its last logged delete or restart. */
  lemma UntouchedRecoversExactlyWhen(es: seq<Event>, k: Key)
    requires AllPossible(es) && AllLeaveAlone(es, k)
    ensures var s := Run(EMPTY, es); Agree(s.data, Replay(s.log), k) <==> k !in LostIn(EMPTY, {}, es)
  {
    RunTracks(EMPTY, {}, es, k);
  }

  /** Whatever vanished, such a key comes back with its value if memory holds it, and with a version no
      smaller than in memory. */
  lemma HeldKeysRecover(es: seq<Event>, k: Key)
    requires AllPossible(es) && AllLeaveAlone(es, k) && k in Run(EMPTY, es).data
    ensures var s := Run(EMPTY, es);
      && k in Replay(s.log) && Replay(s.log)[k].value == s.data[k].value
      && s.data[k].version <= Replay(s.log)[k].version
  {
    RunTracks(EMPTY, {}, es, k);
  }

  /** Values and versions; the log records neither times to live nor expiry. */
  function Contents(data: Data): map<Key, (Value, nat)> {
    map k | k in data :: (data[k].value, data[k].version)
  }

  lemma AgreeEverywhere(memory: Data, replay: Data)
    ensures Contents(memory) == Contents(replay) <==> forall k :: Agree(memory, replay, k)
  {
    if Contents(memory) == Contents(replay) {
      forall k ensures Agree(memory, replay, k) {
        assert k in memory <==> k in Contents(memory);
        assert k in replay <==> k in Contents(replay);
        if k in memory { assert Contents(memory)[k] == Contents(replay)[k]; }
      }
    } else if forall k :: Agree(memory, replay, k) {
      assert forall k :: k in Contents(memory) <==> Agree(memory, replay, k) && k in memory;
      assert forall k :: k in Contents(replay) <==> Agree(memory, replay, k) && k in replay;
    }
  }

  /** The account of k is settled, and memory holds the last value logged. */
  ghost predicate Settled(es: seq<Event>, k: Key)
    requires AllPossible(es)
  {
    var s := Run(EMPTY, es);
    GapIn(EMPTY, 0, es, k) == 0 && (k in s.data ==> s.data[k].value == LastPut(s.log, k))
  }

  /** A restart brings back the whole map, values and versions, exactly when every key is settled. */
  lemma ContentsRecoverExactlyWhen(es: seq<Event>)
    requires AllPossible(es)
    ensures var s := Run(EMPTY, es); Contents(Replay(s.log)) == Contents(s.data) <==> forall k :: Settled(es, k)
  {
    var s := Run(EMPTY, es);
    AgreeEverywhere(s.data, Replay(s.log));
    forall k ensures Agree(s.data, Replay(s.log), k) <==> Settled(es, k) { RecoversExactlyWhen(es, k); }
    assert (forall k :: Settled(es, k)) <==> forall k :: Agree(s.data, Replay(s.log), k);
  }

  /** An event that changes a held key in memory without a record. */
  ghost predicate Loses(s: State, e: Event) {
    || ((e.Expire? || e.Vanish?) && e.key in s.data)
    || (e.Cas? && e.key in s.data && s.data[e.key].Expired(e.now))
    || (e.Commit? && e.operations != [])
  }

  ghost predicate NeverLoses(s: State, es: seq<Event>)
    requires AllPossible(es)
    decreases |es|
  {
    |es| > 0 ==> !Loses(s, es[0]) && NeverLoses(Perform(s, es[0]), es[1..])
  }

  lemma {:induction false} LoggedRunsLoseNothing(s: State, es: seq<Event>)
    requires AllPossible(es) && NeverLoses(s, es)
    ensures LostIn(s, {}, es) == {}
    ensures forall k :: AllLeaveAlone(es, k)
    decreases |es|
  {
    if |es| > 0 {
      assert Lost(s, {}, es[0]) == {};
      LoggedRunsLoseNothing(Perform(s, es[0]), es[1..]);
      forall k ensures AllLeaveAlone(es, k) {
        assert AllLeaveAlone(es[1..], k) && LeavesAlone(es[0], k);
        assert es == [es[0]] + es[1..];
      }
    }
  }

  /** After a run of logged changes and restarts alone everything comes back. */
  lemma LoggedRunsRecover(es: seq<Event>)
    requires AllPossible(es) && NeverLoses(EMPTY, es)
    ensures var s := Run(EMPTY, es); Contents(Replay(s.log)) == Contents(s.data)
  {
    var s := Run(EMPTY, es);
    LoggedRunsLoseNothing(EMPTY, es);
    forall k ensures Agree(s.data, Replay(s.log), k) { UntouchedRecoversExactlyWhen(es, k); }
    AgreeEverywhere(s.data, Replay(s.log));
  }

  // ---------------------------------------------------------------- what readers see

  /** A put value can be read for its time to live, and for good if none was given; a negative one
      makes the key expire at once. */
  lemma PutVisibleExactlyWhen(s: State, key: Key, value: Value, ttl: int, now: int, later: int)
    requires value != "" && later > ZERO_TIME
    ensures Visible(PutStep(s, key, value, ttl, now).data, key, later) == value
       <==> ttl == 0 || (ttl > 0 && later <= now + ttl)
  {
  }

  lemma {:induction false} StoredAllExpires(
    data: Data, kvs: map<Key, Value>, order: seq<Key>, ttl: int, now: int, k: Key)
    requires forall k :: k in order ==> k in kvs
    ensures var after := StoredAll(data, kvs, order, ttl, now);
      if k in order then
        k in after && after[k].value == kvs[k] && after[k].ttl == ttl && after[k].expires == Expires(ttl, now)
      else (k in after <==> k in data) && (k in data ==> after[k] == data[k])
    decreases |order|
  {
    if |order| > 0 {
      StoredAllExpires(Stored(data, order[0], kvs[order[0]], ttl, now), kvs, order[1..], ttl, now, k);
    }
  }

  /** So can every value of a batch, and readers see no difference in any other key. */
  lemma BatchPutVisibleExactlyWhen(s: State, e: Event, k: Key, later: int)
    requires e.BatchPut? && Possible(e) && later > ZERO_TIME
    ensures var after := Perform(s, e).data;
      && (k in e.kvs && e.kvs[k] != "" ==>
            (Visible(after, k, later) == e.kvs[k] <==> e.ttl == 0 || (e.ttl > 0 && later <= e.now + e.ttl)))
      && (k !in e.kvs ==> Visible(after, k, later) == Visible(s.data, k, later))
  {
    StoredAllExpires(s.data, e.kvs, e.memOrder, e.ttl, e.now, k);
    assert k in e.memOrder <==> k in e.kvs.Keys;
  }

  /** A swap happens exactly when readers see the expected value; then they see the new one from
      then on, and otherwise whatever they saw before. Other keys are left alone. */
  lemma CasSwapsExactlyWhen(s: State, key: Key, prev: Value, next: Value, now: int, later: int, other: Key)
    requires now <= later && other != key
    ensures var t := CasStep(s, key, prev, next, now);
      && (|t.log| > |s.log| <==> Visible(s.data, key, now) == prev)
      && (Visible(s.data, key, now) == prev ==> Visible(t.data, key, later) == next)
      && (Visible(s.data, key, now) != prev ==> Visible(t.data, key, later) == Visible(s.data, key, later))
      && Unmoved(s.data, t.data, other)
  {
  }

  // ---------------------------------------------------------------- what the log does not hold

  predicate Permanent(data: Data) {
    forall k :: k in data ==> data[k].ttl == 0
  }

  lemma {:induction false} ApplyKeepsPermanent(data: Data, cs: seq<Command>)
    requires Permanent(data)
    ensures Permanent(ApplyCommands(data, cs))
    decreases |cs|
  {
    if |cs| > 0 { ApplyKeepsPermanent(ApplyCommand(data, cs[0]), cs[1..]); }
  }

  /** A time to live does not survive a restart: no recovered key ever expires. */
  lemma RecoveredKeysNeverExpire(log: seq<Command>, k: Key, now: int)
    requires k in Replay(log)
    ensures !Replay(log)[k].Expired(now)
  {
    ApplyKeepsPermanent(map[], log);
  }

  /** A committed transaction leaves no record. With n puts of the key since its last delete, v the last
      of them: if n is 0, a restart brings the key back as memory holds it exactly if the transaction did
      not delete it or it was not there; otherwise exactly if the transaction deleted it and then, by
      chance, put back the value and version it had. */
  lemma CommitRecoversExactlyWhen(s: State, operations: seq<Command>, k: Key)
    requires Agree(s.data, Replay(s.log), k)
    ensures var t, n := Committed(s, operations), PutsSince(operations, k);
      Agree(t.data, Replay(t.log), k) <==>
        if n == 0 then !DeletesKey(operations, k) || k !in s.data
        else
          && DeletesKey(operations, k) && k in s.data
          && s.data[k].value == LastPut(operations, k) && s.data[k].version == n
  {
    AppliedTo(s.data, operations, k);
  }

  /** So a key that a committed transaction deletes is back after a restart, with its old value. */
  lemma DeletedKeyComesBack(s: State, k: Key)
    requires k in s.data && Agree(s.data, Replay(s.log), k)
    ensures var t := Committed(s, [Delete(k)]);
      k !in t.data && k in Replay(t.log) && Replay(t.log)[k].value == s.data[k].value
  {
    AppliedTo(s.data, [Delete(k)], k);
  }
}
