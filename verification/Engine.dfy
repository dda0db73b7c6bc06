/** The storage engine object, tied call by call to the steps of `EngineSteps`. Every log call
    succeeds. */
module Engine {
  import opened Lists
  import opened EngineSteps
  import opened EngineEvents
  import R = EngineRange
  import W = WatchSteps

  datatype Error = Closed | KeyNotFound | KeyExpired | CasFailed | TxnNotFound | InvalidTxn

  datatype Outcome<T> = Ok(value: T) | Err(error: Error)

  datatype Status = Pending | Finished | Aborted

  datatype Transaction = Transaction(operations: seq<Command>, status: Status)

  /** What the engine tells its watcher, and the leases it has its lease manager grant and attach to a
      key, are kept in order of the calls. */
  class Store {
    var data: Data
    var log: seq<Command>
    var told: seq<W.Event>
    var granted: seq<(int, Key)>
    var transactions: map<string, Transaction>
    var closed: bool

    ghost function State(): EngineSteps.State
      reads this
    {
      EngineSteps.State(data, log)
    }

    /** Every registered transaction is pending. */
    ghost predicate Valid()
      reads this
    {
      forall id :: id in transactions ==> transactions[id].status.Pending?
    }

    /** Recovery applies the records one after another. */
    constructor (records: seq<Command>)
      ensures Valid() && !closed && transactions == map[]
      ensures log == records && data == Replay(records) && told == [] && granted == []
    {
      var recovered: Data := map[];
      for i := 0 to |records|
        invariant ApplyCommands(recovered, records[i..]) == Replay(records)
      {
        recovered := ApplyCommand(recovered, records[i]);
        assert records[i..][1..] == records[i + 1..];
      }
      data, log, told, granted, transactions, closed := recovered, records, [], [], map[], false;
    }

    /** A positive time to live comes with a lease of that length. */
    method Put(key: Key, value: Value, ttl: int, now: int) returns (result: Outcome<()>)
      requires Valid()
      modifies this`data, this`log, this`told, this`granted
      ensures closed ==> result == Err(Closed) && State() == old(State())
      ensures closed ==> told == old(told) && granted == old(granted)
      ensures !closed ==> result == Ok(()) && State() == PutStep(old(State()), key, value, ttl, now)
      ensures !closed ==> told == old(told) + [PutTold(old(data), key, value)]
      ensures !closed ==> granted == old(granted) + if ttl > 0 then [(ttl, key)] else []
    {
      if closed { return Err(Closed); }
      log := log + [Command.Put(key, value)];
      var prevValue := "";
      if key in data { prevValue := data[key].value; }
      PutInMemory(key, value, ttl, now);
      if ttl > 0 { granted := granted + [(ttl, key)]; }
      told := told + [W.Event(false, key, value, prevValue, data[key].version)];
      return Ok(());
    }

    method PutUnsafe(key: Key, value: Value, ttl: int, now: int)
      modifies this`data, this`log, this`told
      ensures State() == PutStep(old(State()), key, value, ttl, now)
      ensures told == old(told) + [SwapTold(old(data), key, value)]
    {
      log := log + [Command.Put(key, value)];
      PutInMemory(key, value, ttl, now);
      told := told + [W.Event(false, key, value, "", data[key].version)];
    }

    method PutInMemory(key: Key, value: Value, ttl: int, now: int)
      modifies this`data
      ensures data == Stored(old(data), key, value, ttl, now)
    {
      var expires := ZERO_TIME;
      if ttl > 0 { expires := now + ttl; }
      if key in data {
        var existing := data[key];
        data := data[key := KeyValue(value, existing.version + 1, ttl, expires)];
      } else {
        data := data[key := KeyValue(value, 1, ttl, expires)];
      }
    }

    /** An expired key is reported as such; its removal runs on its own (`Remove`). */
    method Get(key: Key, now: int) returns (result: Outcome<KeyValue>)
      ensures closed ==> result == Err(Closed)
      ensures !closed && key !in data ==> result == Err(KeyNotFound)
      ensures !closed && key in data ==> result == if data[key].Expired(now) then Err(KeyExpired) else Ok(data[key])
    {
      if closed { return Err(Closed); }
      if key !in data { return Err(KeyNotFound); }
      var kv := data[key];
      if kv.ttl != 0 && now > kv.expires { return Err(KeyExpired); }
      return Ok(kv);
    }

    method Delete(key: Key) returns (result: Outcome<()>)
      modifies this`data, this`log, this`told
      ensures closed ==> result == Err(Closed) && State() == old(State()) && told == old(told)
      ensures !closed ==> result == if key in old(data) then Ok(()) else Err(KeyNotFound)
      ensures !closed ==> State() == DeleteStep(old(State()), key)
      ensures !closed ==> told == old(told) + DeleteTold(old(data), key)
    {
      if closed { return Err(Closed); }
      if key !in data { return Err(KeyNotFound); }
      log := log + [Command.Delete(key)];
      var prevValue := data[key].value;
      data := data - {key};
      told := told + [W.Event(true, key, "", prevValue, 0)];
      return Ok(());
    }

    method CompareAndSwap(key: Key, prev: Value, next: Value, now: int) returns (result: Outcome<()>)
      modifies this`data, this`log, this`told
      ensures closed ==> result == Err(Closed) && State() == old(State()) && told == old(told)
      ensures !closed ==> result == if Visible(old(data), key, now) == prev then Ok(()) else Err(CasFailed)
      ensures !closed ==> State() == CasStep(old(State()), key, prev, next, now)
      ensures !closed ==> told == old(told) + CasTold(old(State()), key, prev, next, now)
    {
      if closed { return Err(Closed); }
      if key !in data {
        if |prev| != 0 { return Err(CasFailed); }
      } else if data[key].ttl != 0 && now > data[key].expires {
        data := data - {key};
        if |prev| != 0 { return Err(CasFailed); }
      } else if data[key].value != prev {
        return Err(CasFailed);
      }
      PutUnsafe(key, next, 0, now);
      return Ok(());
    }

    /** First every record, then every change in memory, each time in an order of the map's own. */
    method BatchPut(kvs: map<Key, Value>, ttl: int, now: int)
      returns (result: Outcome<()>, ghost logOrder: seq<Key>, ghost memOrder: seq<Key>)
      modifies this`data, this`log, this`told
      ensures closed ==> result == Err(Closed) && State() == old(State()) && told == old(told)
      ensures !closed ==> result == Ok(()) && Walks(logOrder, kvs.Keys) && Walks(memOrder, kvs.Keys)
      ensures !closed ==> told == old(told) + PutsTold(old(data), kvs, memOrder, ttl, now)
      ensures !closed ==> State() == BatchPutStep(old(State()), kvs, logOrder, memOrder, ttl, now)
    {
      if closed { return Err(Closed), [], []; }
      logOrder := LogPuts(kvs);
      memOrder := ApplyPuts(kvs, ttl, now);
      return Ok(()), logOrder, memOrder;
    }

    method LogPuts(kvs: map<Key, Value>) returns (ghost order: seq<Key>)
      modifies this`log
      ensures Walks(order, kvs.Keys) && log == old(log) + Puts(kvs, order)
    {
      var left := kvs.Keys;
      order := [];
      while left != {}
        invariant left <= kvs.Keys && Walks(order, kvs.Keys - left)
        invariant log == old(log) + Puts(kvs, order)
        decreases |left|
      {
        var key :| key in left;
        log := log + [Command.Put(key, kvs[key])];
        assert Puts(kvs, order + [key]) == Puts(kvs, order) + [Command.Put(key, kvs[key])];
        order := order + [key];
        left := left - {key};
      }
      assert kvs.Keys - left == kvs.Keys;
    }

    method ApplyPuts(kvs: map<Key, Value>, ttl: int, now: int) returns (ghost order: seq<Key>)
      modifies this`data, this`told
      ensures Walks(order, kvs.Keys) && data == StoredAll(old(data), kvs, order, ttl, now)
      ensures told == old(told) + PutsTold(old(data), kvs, order, ttl, now)
    {
      var left := kvs.Keys;
      order := [];
      while left != {}
        invariant left <= kvs.Keys && Walks(order, kvs.Keys - left)
        invariant data == StoredAll(old(data), kvs, order, ttl, now)
        invariant told == old(told) + PutsTold(old(data), kvs, order, ttl, now)
        decreases |left|
      {
        var key :| key in left;
        StoredOneMore(old(data), kvs, order, key, ttl, now);
        ToldOneMore(old(data), kvs, order, key, ttl, now);
        var prevValue := "";
        if key in data { prevValue := data[key].value; }
        PutInMemory(key, kvs[key], ttl, now);
        told := told + [W.Event(false, key, kvs[key], prevValue, data[key].version)];
        order := order + [key];
        left := left - {key};
      }
      assert kvs.Keys - left == kvs.Keys;
    }

    method BatchDelete(keys: seq<Key>) returns (result: Outcome<()>)
      modifies this`data, this`log, this`told
      ensures closed ==> result == Err(Closed) && State() == old(State()) && told == old(told)
      ensures !closed ==> result == Ok(()) && State() == BatchDeleteStep(old(State()), keys)
      ensures !closed ==> told == old(told) + DeletesTold(old(data), keys)
    {
      if closed { return Err(Closed); }
      assert keys[0..] == keys;
      for i := 0 to |keys|
        invariant data == old(data) && told == old(told)
        invariant log + Deletes(data, keys[i..]) == old(log) + Deletes(data, keys)
      {
        assert keys[i..][1..] == keys[i + 1..];
        if keys[i] in data { log := log + [Command.Delete(keys[i])]; }
      }
      for i := 0 to |keys|
        invariant log == old(log) + Deletes(old(data), keys)
        invariant data == old(data) - Elements(keys[..i])
        invariant told + DeletesTold(data, keys[i..]) == old(told) + DeletesTold(old(data), keys)
      {
        assert Elements(keys[..i + 1]) == Elements(keys[..i]) + {keys[i]};
        assert keys[i..][1..] == keys[i + 1..];
        if keys[i] in data {
          var prevValue := data[keys[i]].value;
          data := data - {keys[i]};
          told := told + [W.Event(true, keys[i], "", prevValue, 0)];
        } else {
          assert data - {keys[i]} == data;
        }
      }
      assert keys[..|keys|] == keys;
      return Ok(());
    }

    method Range(key: Key, rangeEnd: Key, limit: int, now: int)
      returns (result: Outcome<(seq<(Key, KeyValue)>, nat)>)
      ensures closed ==> result == Err(Closed)
      ensures !closed ==> result == Ok((R.Items(data, R.RangeKeys(data, key, rangeEnd, limit, now)),
                                        |R.Matches(data, key, rangeEnd, now)|))
    {
      if closed { return Err(Closed); }
      var items, count := R.Query(data, key, rangeEnd, limit, now);
      return Ok((items, count));
    }

    /** The removal of an expired key by a reader or the cleanup: memory only, and nobody is told. */
    method Remove(key: Key)
      modifies this`data
      ensures State() == Vanished(old(State()), key)
    {
      if key in data { data := data - {key}; }
    }

    /** The removal of a key whose lease has run out or was revoked: the watcher is told. */
    method RemoveLeased(key: Key)
      modifies this`data, this`told
      ensures State() == Vanished(old(State()), key) && told == old(told) + DeleteTold(old(data), key)
    {
      if key in data {
        var prevValue := data[key].value;
        data := data - {key};
        told := told + [W.Event(true, key, "", prevValue, 0)];
      }
    }

    /** The periodic cleanup, over the map in any order. */
    method CleanupExpired(now: int)
      modifies this`data
      ensures closed ==> data == old(data)
      ensures !closed ==> data == Kept(old(data), now)
    {
      if closed { return; }
      var left := data.Keys;
      while left != {}
        invariant left <= data.Keys <= old(data).Keys
        invariant forall k :: k in data ==> data[k] == old(data)[k]
        invariant forall k :: k in old(data) && k !in left ==> (k in data <==> k in Kept(old(data), now))
        decreases |left|
      {
        var key :| key in left;
        if data[key].ttl > 0 && now > data[key].expires { data := data - {key}; }
        left := left - {key};
      }
    }

    // -------------------------------------------------------------- transactions

    method BeginTransaction(id: string) returns (result: Outcome<string>)
      requires Valid()
      modifies this`transactions
      ensures Valid()
      ensures closed ==> result == Err(Closed) && transactions == old(transactions)
      ensures !closed ==> result == Ok(id) && transactions == old(transactions)[id := Transaction([], Pending)]
    {
      if closed { return Err(Closed); }
      transactions := transactions[id := Transaction([], Pending)];
      return Ok(id);
    }

    method AddOperation(id: string, operation: Command) returns (result: Outcome<()>)
      requires Valid()
      modifies this`transactions
      ensures Valid()
      ensures closed ==> result == Err(Closed)
      ensures !closed ==> result == if id in old(transactions) then Ok(()) else Err(TxnNotFound)
      ensures result.Err? ==> transactions == old(transactions)
      ensures result.Ok? ==> transactions == old(transactions)[id :=
          Transaction(old(transactions)[id].operations + [operation], Pending)]
    {
      if closed { return Err(Closed); }
      if id !in transactions { return Err(TxnNotFound); }
      var txn := transactions[id];
      if !txn.status.Pending? { return Err(InvalidTxn); }
      transactions := transactions[id := txn.(operations := txn.operations + [operation])];
      return Ok(());
    }

    /** The operations are applied to memory only; the invalid-transaction error cannot occur. */
    method CommitTransaction(id: string) returns (result: Outcome<()>)
      requires Valid()
      modifies this`data, this`transactions
      ensures Valid()
      ensures closed ==> result == Err(Closed)
      ensures !closed ==> result == if id in old(transactions) then Ok(()) else Err(TxnNotFound)
      ensures result.Err? ==> State() == old(State()) && transactions == old(transactions)
      ensures result.Ok? ==> State() == Committed(old(State()), old(transactions)[id].operations)
      ensures result.Ok? ==> transactions == old(transactions) - {id}
    {
      if closed { return Err(Closed); }
      if id !in transactions { return Err(TxnNotFound); }
      var txn := transactions[id];
      if !txn.status.Pending? { return Err(InvalidTxn); }
      for i := 0 to |txn.operations|
        invariant transactions == old(transactions)
        invariant ApplyCommands(data, txn.operations[i..]) == ApplyCommands(old(data), txn.operations)
      {
        assert txn.operations[i..][1..] == txn.operations[i + 1..];
        var operation := txn.operations[i];
        if operation.Put? {
          data := ApplyPut(data, operation.key, operation.value);
        } else {
          data := ApplyDelete(data, operation.key);
        }
      }
      transactions := transactions - {id};
      return Ok(());
    }
  }

  /** What the cleanup leaves; it does not count a negative time to live as expired. */
  function Kept(data: Data, now: int): Data {
    map k | k in data && !(data[k].ttl > 0 && now > data[k].expires) :: data[k]
  }

  /** The cleanup keeps exactly the keys without a positive time to live and those still within it, with
      their entries, so that no reader from then on sees a difference. */
  lemma CleanupUnseen(data: Data, now: int, k: Key, later: int)
    requires now <= later
    ensures k in Kept(data, now) <==> k in data && (data[k].ttl <= 0 || now <= data[k].expires)
    ensures k in Kept(data, now) ==> Kept(data, now)[k] == data[k]
    ensures Visible(Kept(data, now), k, later) == Visible(data, k, later)
  {
  }

  lemma {:induction false} StoredOneMore(
    data: Data, kvs: map<Key, Value>, order: seq<Key>, key: Key, ttl: int, now: int)
    requires key in kvs && forall k :: k in order ==> k in kvs
    ensures StoredAll(data, kvs, order + [key], ttl, now)
         == Stored(StoredAll(data, kvs, order, ttl, now), key, kvs[key], ttl, now)
    decreases |order|
  {
    if |order| == 0 {
      assert order + [key] == [key];
    } else {
      var all := order + [key];
      assert all[0] == order[0] && all[1..] == order[1..] + [key];
      StoredOneMore(Stored(data, order[0], kvs[order[0]], ttl, now), kvs, order[1..], key, ttl, now);
    }
  }

  lemma {:induction false} ToldOneMore(
    data: Data, kvs: map<Key, Value>, order: seq<Key>, key: Key, ttl: int, now: int)
    requires key in kvs && forall k :: k in order ==> k in kvs
    ensures PutsTold(data, kvs, order + [key], ttl, now)
         == PutsTold(data, kvs, order, ttl, now) + [PutTold(StoredAll(data, kvs, order, ttl, now), key, kvs[key])]
    decreases |order|
  {
    var all := order + [key];
    if |order| == 0 {
      assert all == [key];
    } else {
      assert all[0] == order[0] && all[1..] == order[1..] + [key];
      ToldOneMore(Stored(data, order[0], kvs[order[0]], ttl, now), kvs, order[1..], key, ttl, now);
    }
  }
}
