/** The storage engine's map and the log it must be rebuilt from, one function for each change. */
module EngineSteps {
  import opened Lists

  type Key = string

  type Value = string

  /** `expires` is the zero time when no positive time to live was given. */
  datatype KeyValue = KeyValue(value: Value, version: nat, ttl: int, expires: int) {
    predicate Expired(now: int) { ttl != 0 && now > expires }
  }

  type Data = map<Key, KeyValue>

  datatype Command = Put(key: Key, value: Value) | Delete(key: Key)

  datatype State = State(data: Data, log: seq<Command>)

  const ZERO_TIME := 0

  function Expires(ttl: int, now: int): int {
    if ttl > 0 then now + ttl else ZERO_TIME
  }

  // ---------------------------------------------------------------- recovery

  function ApplyPut(data: Data, key: Key, value: Value): Data {
    if key in data then data[key := data[key].(value := value, version := data[key].version + 1)]
    else data[key := KeyValue(value, 1, 0, ZERO_TIME)]
  }

  function ApplyDelete(data: Data, key: Key): Data {
    data - {key}
  }

  function ApplyCommand(data: Data, c: Command): Data {
    match c
    case Put(key, value) => ApplyPut(data, key, value)
    case Delete(key) => ApplyDelete(data, key)
  }

  function ApplyCommands(data: Data, cs: seq<Command>): Data
    decreases |cs|
  {
    if |cs| == 0 then data else ApplyCommands(ApplyCommand(data, cs[0]), cs[1..])
  }

  function Replay(log: seq<Command>): Data {
    ApplyCommands(map[], log)
  }

  // ---------------------------------------------------------------- logged changes

  function Stored(data: Data, key: Key, value: Value, ttl: int, now: int): Data {
    var version := if key in data then data[key].version + 1 else 1;
    data[key := KeyValue(value, version, ttl, Expires(ttl, now))]
  }

  function PutStep(s: State, key: Key, value: Value, ttl: int, now: int): State {
    State(Stored(s.data, key, value, ttl, now), s.log + [Put(key, value)])
  }

  function DeleteStep(s: State, key: Key): State {
    if key in s.data then State(s.data - {key}, s.log + [Delete(key)]) else s
  }

  /** An expired key is dropped from memory, without a record, before the values are compared. */
  function WithoutExpired(s: State, key: Key, now: int): State {
    if key in s.data && s.data[key].Expired(now) then s.(data := s.data - {key}) else s
  }

  /** What a reader would see; a missing key counts as the empty value. */
  function Visible(data: Data, key: Key, now: int): Value {
    if key in data && !data[key].Expired(now) then data[key].value else ""
  }

  function CasStep(s: State, key: Key, prev: Value, next: Value, now: int): State {
    var clean := WithoutExpired(s, key, now);
    if Visible(s.data, key, now) == prev then PutStep(clean, key, next, 0, now) else clean
  }

  function Puts(kvs: map<Key, Value>, order: seq<Key>): (cs: seq<Command>)
    requires forall k :: k in order ==> k in kvs
    ensures |cs| == |order|
  {
    seq(|order|, i requires 0 <= i < |order| => assert order[i] in order; Put(order[i], kvs[order[i]]))
  }

  function StoredAll(data: Data, kvs: map<Key, Value>, order: seq<Key>, ttl: int, now: int): Data
    requires forall k :: k in order ==> k in kvs
    decreases |order|
  {
    if |order| == 0 then data
    else StoredAll(Stored(data, order[0], kvs[order[0]], ttl, now), kvs, order[1..], ttl, now)
  }

  function BatchPutStep(
    s: State, kvs: map<Key, Value>, logOrder: seq<Key>, memOrder: seq<Key>, ttl: int, now: int): State
    requires forall k :: k in logOrder || k in memOrder ==> k in kvs
  {
    State(StoredAll(s.data, kvs, memOrder, ttl, now), s.log + Puts(kvs, logOrder))
  }

  /** Keys the engine does not hold are skipped; a key listed twice is logged twice. */
  function Deletes(data: Data, keys: seq<Key>): seq<Command>
    decreases |keys|
  {
    if |keys| == 0 then []
    else (if keys[0] in data then [Delete(keys[0])] else []) + Deletes(data, keys[1..])
  }

  function BatchDeleteStep(s: State, keys: seq<Key>): State {
    State(s.data - Elements(keys), s.log + Deletes(s.data, keys))
  }

  // ---------------------------------------------------------------- changes without a record

  /** Expiry and lease removals touch only memory. */
  function Vanished(s: State, key: Key): State {
    s.(data := s.data - {key})
  }

  /** So does a committed transaction. */
  function Committed(s: State, operations: seq<Command>): State {
    s.(data := ApplyCommands(s.data, operations))
  }
}
