/** The watcher object, tied call by call to the steps of `WatchSteps`. */
module Watcher {
  import opened Lists
  import opened WatchSteps

  datatype Outcome = Ok | NotFound

  class Watcher {
    /** The repair of the prefix test; false is the code as written. */
    const all: bool
    var watches: map<Id, Watch>
    var buckets: map<string, seq<Id>>
    var nextId: Id
    var queue: seq<Event>
    var chans: map<Id, seq<Event>>
    var closed: bool

    ghost function State(): WatchSteps.State
      reads this
    {
      WatchSteps.State(watches, buckets, nextId, queue, chans)
    }

    constructor (all: bool)
      ensures this.all == all && !closed && State() == NEW
    {
      this.all := all;
      watches, buckets, nextId, queue, chans, closed := map[], map[], 1, [], map[], false;
    }

    /** Identifier 0 stands for no watch. */
    method Watch(key: Key, prefix: bool, prevKV: bool) returns (id: Id)
      modifies this
      ensures closed == old(closed)
      ensures closed ==> id == 0 && State() == old(State())
      ensures !closed ==> id == old(nextId) && State() == AddWatch(old(State()), WatchSteps.Watch(key, prefix, prevKV))
    {
      if closed { return 0; }
      id := nextId;
      nextId := nextId + 1;
      watches := watches[id := WatchSteps.Watch(key, prefix, prevKV)];
      chans := chans[id := []];
      var name := if prefix then "prefix:" + key else "exact:" + key;
      if name in buckets {
        buckets := buckets[name := buckets[name] + [id]];
      } else {
        assert [] + [id] == [id];
        buckets := buckets[name := [id]];
      }
    }

    method Cancel(id: Id) returns (result: Outcome)
      modifies this
      ensures closed == old(closed)
      ensures result == if id in old(watches) then Ok else NotFound
      ensures State() == WatchSteps.Cancel(old(State()), id)
    {
      if id !in watches { return NotFound; }
      var watch := watches[id];
      chans := chans - {id};
      watches := watches - {id};
      RemoveFromMapping(id, watch);
      return Ok;
    }

    method RemoveFromMapping(id: Id, watch: WatchSteps.Watch)
      modifies this`buckets
      ensures buckets == Unmapped(old(buckets), BucketOf(watch), id)
    {
      var name := if watch.prefix then "prefix:" + watch.key else "exact:" + watch.key;
      if name in buckets {
        var left := WithoutFirst(buckets[name], id);
        buckets := buckets[name := left];
        if |buckets[name]| == 0 {
          buckets := buckets - {name};
        }
      }
    }

    /** Events that find the queue full are dropped. */
    method Notify(e: Event)
      modifies this`queue
      ensures closed ==> queue == old(queue)
      ensures !closed ==> State() == WatchSteps.Notify(old(State()), e)
    {
      if closed { return; }
      if |queue| < 1000 { queue := queue + [e]; }
    }

    /** One turn of the event loop, with an event waiting. */
    method DistributeNext() returns (ghost order: seq<string>)
      requires |queue| > 0
      modifies this`queue, this`chans
      ensures Walks(order, buckets.Keys)
      ensures State() == Distribute(old(State()), order, all)
    {
      var e := queue[0];
      queue := queue[1..];
      var names := AnyOrder(buckets.Keys);
      order := names;
      var ids := FindTargets(names, e.key);
      assert ids == Targets(old(State()), names, e.key, all);
      SendToAll(ids, e);
    }

    /** A full channel drops the event. */
    method SendToAll(ids: seq<Id>, e: Event)
      modifies this`chans
      ensures chans == SendAll(old(chans), ids, e)
    {
      assert ids[0..] == ids;
      for i := 0 to |ids|
        invariant SendAll(chans, ids[i..], e) == SendAll(old(chans), ids, e)
      {
        assert ids[i..][1..] == ids[i + 1..];
        if ids[i] in chans && |chans[ids[i]]| < 100 {
          chans := chans[ids[i] := chans[ids[i]] + [e]];
        }
      }
      assert ids[|ids|..] == [];
    }

    /** The exact bucket, then every prefix bucket whose prefix the key has. */
    method FindTargets(names: seq<string>, key: Key) returns (ids: seq<Id>)
      requires Walks(names, buckets.Keys)
      ensures ids == Targets(State(), names, key, all)
    {
      ids := [];
      if "exact:" + key in buckets { ids := ids + buckets["exact:" + key]; }
      for i := 0 to |names|
        invariant ids + PrefixTargets(buckets, names[i..], key, all) == Targets(State(), names, key, all)
      {
        assert names[i..][1..] == names[i + 1..];
        var name := names[i];
        if (if all then |name| >= 7 else |name| > 7) && name[..7] == "prefix:" {
          var prefixKey := name[7..];
          if |key| >= |prefixKey| && key[..|prefixKey|] == prefixKey {
            assert name in names;
            ids := ids + buckets[name];
          }
        }
      }
    }
  }
}
