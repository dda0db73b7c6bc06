/** Watches, the index of buckets that finds them, and the bounded queues events pass through. */
module WatchSteps {
  import opened Lists

  type Key = string

  type Id = int

  datatype Event = Event(delete: bool, key: Key, value: string, prevValue: string, version: int)

  datatype Watch = Watch(key: Key, prefix: bool, prevKV: bool)

  /** `chans` holds what each watch's client has not taken yet. */
  datatype State = State(
    watches: map<Id, Watch>, buckets: map<string, seq<Id>>, nextId: Id,
    queue: seq<Event>, chans: map<Id, seq<Event>>)

  const QUEUE_LIMIT: nat := 1000

  const CHAN_LIMIT: nat := 100

  const PREFIX := "prefix:"

  const EXACT := "exact:"

  const NEW := State(map[], map[], 1, [], map[])

  function BucketOf(w: Watch): string {
    (if w.prefix then PREFIX else EXACT) + w.key
  }

  function Bucket(buckets: map<string, seq<Id>>, name: string): seq<Id> {
    if name in buckets then buckets[name] else []
  }

  function AddWatch(s: State, w: Watch): State {
    var id, name := s.nextId, BucketOf(w);
    s.(watches := s.watches[id := w], buckets := s.buckets[name := Bucket(s.buckets, name) + [id]],
       nextId := id + 1, chans := s.chans[id := []])
  }

  /** An emptied bucket is taken out of the index. */
  function Unmapped(buckets: map<string, seq<Id>>, name: string, id: Id): map<string, seq<Id>> {
    if name !in buckets then buckets
    else
      var left := RemoveFirst(buckets[name], id);
      if left == [] then buckets - {name} else buckets[name := left]
  }

  function Cancel(s: State, id: Id): State {
    if id !in s.watches then s
    else
      s.(watches := s.watches - {id}, chans := s.chans - {id},
         buckets := Unmapped(s.buckets, BucketOf(s.watches[id]), id))
  }

  function Notify(s: State, e: Event): State {
    if |s.queue| < QUEUE_LIMIT then s.(queue := s.queue + [e]) else s
  }

  // ---------------------------------------------------------------- dispatch

  /** `all` is the repair: the test `> 7` on a bucket's name leaves out the empty prefix. */
  predicate PrefixBucketMatches(name: string, key: Key, all: bool) {
    && (if all then |name| >= |PREFIX| else |name| > |PREFIX|)
    && name[..|PREFIX|] == PREFIX && name[|PREFIX|..] <= key
  }

  function PrefixTargets(buckets: map<string, seq<Id>>, order: seq<string>, key: Key, all: bool): seq<Id>
    decreases |order|
  {
    if |order| == 0 then []
    else
      (if PrefixBucketMatches(order[0], key, all) then Bucket(buckets, order[0]) else [])
      + PrefixTargets(buckets, order[1..], key, all)
  }

  /** The exact bucket first, then the prefix buckets in an order of the map's own. */
  function Targets(s: State, order: seq<string>, key: Key, all: bool): seq<Id> {
    Bucket(s.buckets, EXACT + key) + PrefixTargets(s.buckets, order, key, all)
  }

  /** A full channel drops the event. */
  function Send(chans: map<Id, seq<Event>>, id: Id, e: Event): map<Id, seq<Event>> {
    if id in chans && |chans[id]| < CHAN_LIMIT then chans[id := chans[id] + [e]] else chans
  }

  function SendAll(chans: map<Id, seq<Event>>, ids: seq<Id>, e: Event): map<Id, seq<Event>>
    decreases |ids|
  {
    if |ids| == 0 then chans else SendAll(Send(chans, ids[0], e), ids[1..], e)
  }

  /** One turn of the event loop. */
  function Distribute(s: State, order: seq<string>, all: bool): State {
    if |s.queue| == 0 then s
    else
      s.(queue := s.queue[1..], chans := SendAll(s.chans, Targets(s, order, s.queue[0].key, all), s.queue[0]))
  }

  /** A client takes the next event of its channel. */
  function Receive(s: State, id: Id): State {
    if id in s.chans && |s.chans[id]| > 0 then s.(chans := s.chans[id := s.chans[id][1..]]) else s
  }
}
