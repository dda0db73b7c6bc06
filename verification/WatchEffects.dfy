/** What each call on the watcher does, and how an event comes to the clients that asked for it. */
module WatchEffects {
  import opened Lists
  import opened WatchSteps
  import opened WatchDispatch

  /** A new watch is live, with what it asks for and nothing waiting; every other watch is as it was. */
  lemma WatchWatches(s: State, w: Watch)
    requires Indexed(s)
    ensures var t, id := AddWatch(s, w), s.nextId;
      && id !in s.watches && t.watches == s.watches[id := w] && t.chans == s.chans[id := []]
      && t.queue == s.queue && t.nextId > id
  {
    AddWatchIndexed(s, w);
  }

  /** A cancelled watch is gone with all that waited for it; every other watch is as it was. */
  lemma CancelEnds(s: State, id: Id)
    requires Indexed(s)
    ensures var t := Cancel(s, id);
      && id !in t.watches && id !in t.chans && t.queue == s.queue && t.nextId == s.nextId
      && (forall l :: l != id ==> (l in t.watches <==> l in s.watches) && (l in t.chans <==> l in s.chans))
      && (forall l :: l in t.watches ==> t.watches[l] == s.watches[l] && t.chans[l] == s.chans[l])
  {
  }

  /** An event is queued behind those that wait, exactly when fewer than a thousand do. */
  lemma NotifiedExactlyWhen(s: State, e: Event)
    ensures var t := Notify(s, e);
      && t.queue == (if |s.queue| < 1000 then s.queue + [e] else s.queue)
      && t.watches == s.watches && t.chans == s.chans && t.buckets == s.buckets
  {
  }

  /** The watch's client gets the event: the key is the one it watches, or starts with its prefix, which
      the code as written overlooks if the prefix is empty. */
  predicate Gets(w: Watch, key: Key, all: bool) {
    if w.prefix then |w.key| <= |key| && key[..|w.key|] == w.key && (w.key == "" ==> all) else w.key == key
  }

  /** One turn of the loop takes the oldest event and puts it behind what waits for each client that gets
      it and for whom fewer than a hundred wait; nobody else's events change. */
  lemma DistributesExactly(s: State, order: seq<string>, all: bool)
    requires Indexed(s) && Walks(order, s.buckets.Keys) && |s.queue| > 0
    ensures var e, t := s.queue[0], Distribute(s, order, all);
      && t.queue == s.queue[1..] && t.watches == s.watches && t.chans.Keys == s.watches.Keys
      && forall id :: id in s.watches ==>
           id in s.chans
           && t.chans[id] == if Gets(s.watches[id], e.key, all) && |s.chans[id]| < 100 then s.chans[id] + [e]
                             else s.chans[id]
  {
    var e, t := s.queue[0], Distribute(s, order, all);
    var ids := Targets(s, order, e.key, all);
    TargetsMean(s, order, e.key, all);
    SendAllMeans(s.chans, ids, e, 0);
    forall id | id in s.watches
      ensures t.chans[id] == if Gets(s.watches[id], e.key, all) && |s.chans[id]| < 100 then s.chans[id] + [e]
                             else s.chans[id]
    {
      SendAllMeans(s.chans, ids, e, id);
    }
  }

  /** A client takes the oldest event that waits for it, and only that. */
  lemma TakesOldest(s: State, id: Id)
    requires Indexed(s) && id in s.watches && |s.chans[id]| > 0
    ensures id in s.chans && s.chans[id] == [s.chans[id][0]] + Receive(s, id).chans[id]
    ensures Receive(s, id) == s.(chans := s.chans[id := Receive(s, id).chans[id]])
  {
  }
}
