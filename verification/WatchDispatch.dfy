/** The index against the plain filter over all watches, and what each watch's client gets. */
module WatchDispatch {
  import opened Lists
  import opened WatchSteps

  // ---------------------------------------------------------------- the invariant

  /** What a watch asks for. */
  predicate Asks(w: Watch, key: Key) {
    if w.prefix then w.key <= key else w.key == key
  }

  /** What the index gives it. */
  predicate Reached(w: Watch, key: Key, all: bool) {
    Asks(w, key) && (w.prefix && w.key == "" ==> all)
  }

  /** Each live watch is in its own bucket, once, and no bucket holds anything else. */
  ghost predicate Indexed(s: State) {
    && (forall id {:trigger id in s.watches} :: id in s.watches ==>
          id in Bucket(s.buckets, BucketOf(s.watches[id])) && 1 <= id < s.nextId)
    && (forall name {:trigger s.buckets[name]} :: name in s.buckets ==>
          s.buckets[name] != [] && NoDuplicates(s.buckets[name]))
    && (forall name, id {:trigger id in s.buckets[name]} :: name in s.buckets && id in s.buckets[name] ==>
          id in s.watches && BucketOf(s.watches[id]) == name)
    && s.chans.Keys == s.watches.Keys && s.nextId >= 1
  }

  lemma AddWatchIndexed(s: State, w: Watch)
    requires Indexed(s)
    ensures Indexed(AddWatch(s, w)) && s.nextId !in s.watches
  {
    var t, name := AddWatch(s, w), BucketOf(w);
    forall id | id in t.watches ensures id in Bucket(t.buckets, BucketOf(t.watches[id])) {
      if id != s.nextId { assert id in s.watches; }
    }
    forall other | other in t.buckets ensures t.buckets[other] != [] && NoDuplicates(t.buckets[other]) {
      if other == name {
        if name in s.buckets {
          assert forall id :: id in s.buckets[name] ==> id in s.watches;
          JoinDistinct(s.buckets[name], [s.nextId]);
        }
      } else {
        assert t.buckets[other] == s.buckets[other];
      }
    }
    forall other, id | other in t.buckets && id in t.buckets[other]
      ensures id in t.watches && BucketOf(t.watches[id]) == other
    {
      if other != name || id != s.nextId { assert other in s.buckets && id in s.buckets[other]; }
    }
  }

  lemma CancelIndexed(s: State, id: Id)
    requires Indexed(s)
    ensures Indexed(Cancel(s, id))
  {
    if id in s.watches {
      var t, name := Cancel(s, id), BucketOf(s.watches[id]);
      assert name in s.buckets && id in s.buckets[name];
      RemoveFirstMeans(s.buckets[name], id);
      forall other | other in t.watches ensures other in Bucket(t.buckets, BucketOf(t.watches[other])) {
        assert other in s.watches;
      }
      forall other | other in t.buckets ensures t.buckets[other] != [] && NoDuplicates(t.buckets[other]) {
        assert other in s.buckets && NoDuplicates(s.buckets[other]);
      }
      forall other, l | other in t.buckets && l in t.buckets[other]
        ensures l in t.watches && BucketOf(t.watches[l]) == other
      {
        assert other in s.buckets && l in s.buckets[other];
      }
    }
  }

  // ---------------------------------------------------------------- buckets and keys

  lemma BucketReadsBack(w: Watch, key: Key, all: bool)
    ensures PrefixBucketMatches(BucketOf(w), key, all) <==> w.prefix && Reached(w, key, all)
    ensures BucketOf(w) == EXACT + key <==> !w.prefix && w.key == key
  {
    var name := BucketOf(w);
    if w.prefix {
      assert name[..|PREFIX|] == PREFIX && name[|PREFIX|..] == w.key;
      assert name[0] == 'p' && (EXACT + key)[0] == 'e';
    } else {
      assert name[0] == 'e' && PREFIX[0] == 'p';
      assert |name| >= |PREFIX| ==> name[..|PREFIX|][0] == 'e';
      assert name[|EXACT|..] == w.key && (EXACT + key)[|EXACT|..] == key;
    }
  }

  lemma {:induction false} PrefixTargetsMean(s: State, order: seq<string>, key: Key, all: bool)
    requires Indexed(s) && NoDuplicates(order)
    ensures var ids := PrefixTargets(s.buckets, order, key, all);
      && NoDuplicates(ids)
      && forall id :: id in ids <==>
           && id in s.watches && s.watches[id].prefix
           && Reached(s.watches[id], key, all) && BucketOf(s.watches[id]) in order
    decreases |order|
  {
    if |order| > 0 {
      var name, rest := order[0], PrefixTargets(s.buckets, order[1..], key, all);
      var first := if PrefixBucketMatches(name, key, all) then Bucket(s.buckets, name) else [];
      PrefixTargetsMean(s, order[1..], key, all);
      assert order == [name] + order[1..];
      forall id | id in s.watches
        ensures id in first <==>
                  BucketOf(s.watches[id]) == name && s.watches[id].prefix && Reached(s.watches[id], key, all)
      {
        BucketReadsBack(s.watches[id], key, all);
      }
      assert forall id :: id in first ==> id in s.watches && BucketOf(s.watches[id]) == name;
      assert name !in order[1..];
      forall id | id in first ensures id !in rest { assert BucketOf(s.watches[id]) == name; }
      JoinDistinct(first, rest);
    }
  }

  lemma ExactTargetsMean(s: State, key: Key)
    requires Indexed(s)
    ensures var ids := Bucket(s.buckets, EXACT + key);
      && NoDuplicates(ids)
      && forall id :: id in ids <==> id in s.watches && !s.watches[id].prefix && s.watches[id].key == key
  {
    forall id | id in s.watches
      ensures id in Bucket(s.buckets, EXACT + key) <==> !s.watches[id].prefix && s.watches[id].key == key
    {
      BucketReadsBack(s.watches[id], key, true);
    }
  }

  /** An event reaches exactly the live watches that the index has for its key, each of them once,
      in whatever order the buckets are walked. */
  lemma TargetsMean(s: State, order: seq<string>, key: Key, all: bool)
    requires Indexed(s) && Walks(order, s.buckets.Keys)
    ensures NoDuplicates(Targets(s, order, key, all))
    ensures forall id :: id in Targets(s, order, key, all) <==> id in s.watches && Reached(s.watches[id], key, all)
  {
    ExactTargetsMean(s, key);
    PrefixTargetsMean(s, order, key, all);
    forall id | id in Bucket(s.buckets, EXACT + key) ensures id !in PrefixTargets(s.buckets, order, key, all) {
      assert !s.watches[id].prefix;
    }
    JoinDistinct(Bucket(s.buckets, EXACT + key), PrefixTargets(s.buckets, order, key, all));
    forall id | id in s.watches ensures BucketOf(s.watches[id]) in order {
      assert BucketOf(s.watches[id]) in s.buckets;
    }
  }

  /** The dispatch as written agrees with the plain filter, whatever the event, exactly when no live
      watch asks for the empty prefix. */
  lemma DispatchIsFilterExactlyWhen(s: State, order: seq<string>)
    requires Indexed(s) && Walks(order, s.buckets.Keys)
    ensures (forall key, id :: id in Targets(s, order, key, false) <==> id in s.watches && Asks(s.watches[id], key))
       <==> forall id :: id in s.watches ==> !(s.watches[id].prefix && s.watches[id].key == "")
  {
    forall key
      ensures forall id :: id in Targets(s, order, key, false) <==>
                id in s.watches && Reached(s.watches[id], key, false)
    {
      TargetsMean(s, order, key, false);
    }
    if id :| id in s.watches && s.watches[id].prefix && s.watches[id].key == "" {
      assert Asks(s.watches[id], "") && !Reached(s.watches[id], "", false);
      assert id !in Targets(s, order, "", false);
    }
  }

  // ---------------------------------------------------------------- sending

  lemma {:induction false} SendAllMeans(chans: map<Id, seq<Event>>, ids: seq<Id>, e: Event, id: Id)
    requires NoDuplicates(ids)
    ensures SendAll(chans, ids, e).Keys == chans.Keys
    ensures id in chans ==> SendAll(chans, ids, e)[id] == (if id in ids then Send(chans, id, e)[id] else chans[id])
    decreases |ids|
  {
    if |ids| > 0 {
      SendAllMeans(Send(chans, ids[0], e), ids[1..], e, id);
      assert ids == [ids[0]] + ids[1..];
      assert ids[0] !in ids[1..];
    }
  }

  lemma DistributeIndexed(s: State, order: seq<string>, all: bool)
    requires Indexed(s) && Walks(order, s.buckets.Keys)
    ensures Indexed(Distribute(s, order, all))
  {
    if |s.queue| > 0 {
      TargetsMean(s, order, s.queue[0].key, all);
      SendAllMeans(s.chans, Targets(s, order, s.queue[0].key, all), s.queue[0], 0);
    }
  }

  // ---------------------------------------------------------------- what a client gets

  function Filter(es: seq<Event>, w: Watch, all: bool): seq<Event> {
    if |es| == 0 then []
    else Filter(es[..|es| - 1], w, all) + (if Reached(w, es[|es| - 1].key, all) then [es[|es| - 1]] else [])
  }

  /** Some events of b, in b's order. */
  predicate Subsequence(a: seq<Event>, b: seq<Event>)
    decreases |b|
  {
    if |a| == 0 then true
    else if |b| == 0 then false
    else if a[|a| - 1] == b[|b| - 1] && Subsequence(a[..|a| - 1], b[..|b| - 1]) then true
    else Subsequence(a, b[..|b| - 1])
  }

  lemma {:induction false} SubsequenceOfItself(a: seq<Event>)
    ensures Subsequence(a, a)
  {
    if |a| > 0 { SubsequenceOfItself(a[..|a| - 1]); }
  }

  lemma BothGrow(a: seq<Event>, b: seq<Event>, e: Event)
    requires Subsequence(a, b)
    ensures Subsequence(a + [e], b + [e]) && Subsequence(a, b + [e])
  {
    assert (a + [e])[..|a|] == a && (b + [e])[..|b|] == b;
  }

  lemma {:induction false} LastDropped(a: seq<Event>, e: Event, b: seq<Event>)
    requires Subsequence(a + [e], b)
    ensures Subsequence(a, b)
    decreases |b|
  {
    var front := b[..|b| - 1];
    assert (a + [e])[..|a|] == a;
    if e == b[|b| - 1] && Subsequence(a, front) {
      if |a| > 0 { Widened(a, front, b[|b| - 1]); }
      assert b == front + [b[|b| - 1]];
    } else {
      LastDropped(a, e, front);
      Widened(a, front, b[|b| - 1]);
      assert b == front + [b[|b| - 1]];
    }
  }

  lemma Widened(a: seq<Event>, b: seq<Event>, e: Event)
    requires Subsequence(a, b)
    ensures Subsequence(a, b + [e])
  {
    assert (b + [e])[..|b|] == b;
  }

  /** Leaving one event out keeps a subsequence. */
  lemma {:induction false} OneDropped(a: seq<Event>, e: Event, rest: seq<Event>, b: seq<Event>)
    requires Subsequence(a + [e] + rest, b)
    ensures Subsequence(a + rest, b)
    decreases |b|
  {
    if |rest| == 0 {
      assert a + [e] + rest == a + [e] && a + rest == a;
      LastDropped(a, e, b);
    } else {
      var all, front, last := a + [e] + rest, b[..|b| - 1], rest[..|rest| - 1];
      assert all[..|all| - 1] == a + [e] + last;
      assert (a + rest)[..|a + rest| - 1] == a + last;
      if all[|all| - 1] == b[|b| - 1] && Subsequence(a + [e] + last, front) {
        OneDropped(a, e, last, front);
      } else {
        OneDropped(a, e, rest, front);
        Widened(a + rest, front, b[|b| - 1]);
        assert b == front + [b[|b| - 1]];
      }
    }
  }

  lemma FilterSnoc(es: seq<Event>, e: Event, w: Watch, all: bool)
    ensures Filter(es + [e], w, all) == Filter(es, w, all) + (if Reached(w, e.key, all) then [e] else [])
  {
    assert (es + [e])[..|es|] == es;
  }

  lemma {:induction false} FilterCons(es: seq<Event>, w: Watch, all: bool)
    requires |es| > 0
    ensures Filter(es, w, all) == (if Reached(w, es[0].key, all) then [es[0]] else []) + Filter(es[1..], w, all)
    decreases |es|
  {
    if |es| == 1 {
      assert es[..0] == [] && es[1..] == [];
    } else {
      FilterCons(es[..|es| - 1], w, all);
      assert es[..|es| - 1][1..] == es[1..][..|es| - 2];
    }
  }

  // ---------------------------------------------------------------- runs

  datatype Step =
    | DoWatch(w: Watch)
    | DoCancel(id: Id)
    | DoNotify(e: Event)
    | DoDistribute(order: seq<string>)
    | DoReceive(id: Id)

  /** For each live watch: the events its client has taken, the events that were waiting when it was
      made or came later, and whether any of them was dropped on the way. */
  datatype Trace = Trace(taken: map<Id, seq<Event>>, since: map<Id, seq<Event>>, dropped: set<Id>)

  datatype World = World(state: State, trace: Trace)

  const START := World(NEW, Trace(map[], map[], {}))

  ghost predicate Possible(s: State, step: Step) {
    step.DoDistribute? ==> Walks(step.order, s.buckets.Keys)
  }

  function Perform(s: State, step: Step, all: bool): State {
    match step
    case DoWatch(w) => AddWatch(s, w)
    case DoCancel(id) => Cancel(s, id)
    case DoNotify(e) => Notify(s, e)
    case DoDistribute(order) => Distribute(s, order, all)
    case DoReceive(id) => Receive(s, id)
  }

  /** The watches whose channel is full when an event for them is sent. */
  function Overflowing(s: State, e: Event, all: bool): set<Id> {
    set id | id in s.watches && Reached(s.watches[id], e.key, all) && id in s.chans && |s.chans[id]| >= CHAN_LIMIT
  }

  function Follow(s: State, t: Trace, step: Step, all: bool): Trace {
    match step
    case DoWatch(w) =>
      t.(taken := t.taken[s.nextId := []], since := t.since[s.nextId := s.queue], dropped := t.dropped - {s.nextId})
    case DoCancel(id) => t.(taken := t.taken - {id}, since := t.since - {id})
    case DoNotify(e) =>
      t.(since := map id | id in t.since :: t.since[id] + [e],
         dropped := t.dropped + if |s.queue| >= QUEUE_LIMIT then s.watches.Keys else {})
    case DoDistribute(_) =>
      if |s.queue| == 0 then t else t.(dropped := t.dropped + Overflowing(s, s.queue[0], all))
    case DoReceive(id) =>
      if id in s.chans && |s.chans[id]| > 0 && id in t.taken then
        t.(taken := t.taken[id := t.taken[id] + [s.chans[id][0]]])
      else t
  }

  function Next(w: World, step: Step, all: bool): World {
    World(Perform(w.state, step, all), Follow(w.state, w.trace, step, all))
  }

  function Run(w: World, steps: seq<Step>, all: bool): World
    decreases |steps|
  {
    if |steps| == 0 then w else Run(Next(w, steps[0], all), steps[1..], all)
  }

  ghost predicate AllPossible(w: World, steps: seq<Step>, all: bool)
    decreases |steps|
  {
    |steps| > 0 ==> Possible(w.state, steps[0]) && AllPossible(Next(w, steps[0], all), steps[1..], all)
  }

  /** Everything that has been put on a watch's channel. */
  function Stream(w: World, id: Id): seq<Event>
    requires id in w.trace.taken && id in w.state.chans
  {
    w.trace.taken[id] + w.state.chans[id]
  }

  /** The stream and what still waits in the queue, against everything there was to see. */
  predicate StreamOk(w: World, id: Id, all: bool)
    requires id in w.trace.taken && id in w.state.chans && id in w.trace.since && id in w.state.watches
  {
    var watch := w.state.watches[id];
    var so := Stream(w, id) + Filter(w.state.queue, watch, all);
    var due := Filter(w.trace.since[id], watch, all);
    Subsequence(so, due) && (id !in w.trace.dropped ==> so == due)
  }

  ghost predicate Following(w: World, all: bool) {
    && Indexed(w.state)
    && w.trace.taken.Keys == w.state.watches.Keys && w.trace.since.Keys == w.state.watches.Keys
    && forall id :: id in w.state.watches ==> StreamOk(w, id, all)
  }

  lemma OneMoreNotified(stream: seq<Event>, queue: seq<Event>, since: seq<Event>, e: Event, watch: Watch, all: bool)
    requires Subsequence(stream + Filter(queue, watch, all), Filter(since, watch, all))
    ensures Subsequence(stream + Filter(queue + [e], watch, all), Filter(since + [e], watch, all))
    ensures Subsequence(stream + Filter(queue, watch, all), Filter(since + [e], watch, all))
    ensures stream + Filter(queue, watch, all) == Filter(since, watch, all) ==>
      stream + Filter(queue + [e], watch, all) == Filter(since + [e], watch, all)
  {
    FilterSnoc(since, e, watch, all);
    FilterSnoc(queue, e, watch, all);
    var more := if Reached(watch, e.key, all) then [e] else [];
    BothMore(stream, Filter(queue, watch, all), Filter(since, watch, all), more);
  }

  lemma BothMore(stream: seq<Event>, waiting: seq<Event>, due: seq<Event>, more: seq<Event>)
    requires Subsequence(stream + waiting, due) && |more| <= 1
    ensures Subsequence(stream + (waiting + more), due + more) && Subsequence(stream + waiting, due + more)
    ensures stream + waiting == due ==> stream + (waiting + more) == due + more
  {
    if |more| == 0 {
      assert waiting + more == waiting && due + more == due;
    } else {
      assert more == [more[0]] && stream + (waiting + more) == stream + waiting + [more[0]];
      BothGrow(stream + waiting, due, more[0]);
    }
  }

  lemma NotifyFollows(w: World, e: Event, id: Id, all: bool)
    requires Following(w, all) && id in w.state.watches
    ensures StreamOk(Next(w, DoNotify(e), all), id, all)
  {
    assert StreamOk(w, id, all);
    OneMoreNotified(Stream(w, id), w.state.queue, w.trace.since[id], e, w.state.watches[id], all);
  }

  lemma DistributeFollows(w: World, order: seq<string>, id: Id, all: bool)
    requires Following(w, all) && id in w.state.watches && Walks(order, w.state.buckets.Keys) && |w.state.queue| > 0
    ensures id in Next(w, DoDistribute(order), all).state.chans
    ensures StreamOk(Next(w, DoDistribute(order), all), id, all)
  {
    var s, e, watch := w.state, w.state.queue[0], w.state.watches[id];
    var ids := Targets(s, order, e.key, all);
    assert StreamOk(w, id, all);
    TargetsMean(s, order, e.key, all);
    SendAllMeans(s.chans, ids, e, id);
    FilterCons(s.queue, watch, all);
    var rest := Filter(s.queue[1..], watch, all);
    if Reached(watch, e.key, all) {
      var due := Filter(w.trace.since[id], watch, all);
      assert Stream(w, id) + ([e] + rest) == Stream(w, id) + [e] + rest;
      if |s.chans[id]| < CHAN_LIMIT {
        assert w.trace.taken[id] + (s.chans[id] + [e]) == Stream(w, id) + [e];
      } else {
        OneDropped(Stream(w, id), e, rest, due);
        assert id in Overflowing(s, e, all);
      }
    } else {
      assert [] + rest == rest;
    }
  }

  lemma ReceiveFollows(w: World, id: Id, other: Id, all: bool)
    requires Following(w, all) && other in w.state.watches
    ensures StreamOk(Next(w, DoReceive(id), all), other, all)
  {
    assert StreamOk(w, other, all);
    if id == other && |w.state.chans[id]| > 0 {
      var taken, chan := w.trace.taken[id], w.state.chans[id];
      assert taken + [chan[0]] + chan[1..] == taken + chan;
    }
  }

  lemma WatchFollows(w: World, watch: Watch, id: Id, all: bool)
    requires Following(w, all) && (id in w.state.watches || id == w.state.nextId)
    ensures StreamOk(Next(w, DoWatch(watch), all), id, all)
  {
    AddWatchIndexed(w.state, watch);
    if id == w.state.nextId {
      SubsequenceOfItself(Filter(w.state.queue, watch, all));
      assert [] + [] + Filter(w.state.queue, watch, all) == Filter(w.state.queue, watch, all);
    } else {
      assert StreamOk(w, id, all);
    }
  }

  lemma EachFollows(w: World, step: Step, id: Id, all: bool)
    requires Following(w, all) && Possible(w.state, step) && id in Next(w, step, all).state.watches
    ensures id in Next(w, step, all).trace.taken && id in Next(w, step, all).state.chans
    ensures id in Next(w, step, all).trace.since && StreamOk(Next(w, step, all), id, all)
  {
    match step
    case DoWatch(watch) => WatchFollows(w, watch, id, all);
    case DoCancel(other) => assert StreamOk(w, id, all);
    case DoNotify(e) => NotifyFollows(w, e, id, all);
    case DoDistribute(order) =>
      if |w.state.queue| > 0 { DistributeFollows(w, order, id, all); } else { assert StreamOk(w, id, all); }
    case DoReceive(other) => ReceiveFollows(w, other, id, all);
  }

  lemma StepIndexed(s: State, step: Step, all: bool)
    requires Indexed(s) && Possible(s, step)
    ensures Indexed(Perform(s, step, all))
  {
    match step
    case DoWatch(watch) => AddWatchIndexed(s, watch);
    case DoCancel(id) => CancelIndexed(s, id);
    case DoNotify(_) =>
    case DoDistribute(order) => DistributeIndexed(s, order, all);
    case DoReceive(_) =>
  }

  lemma StepTraced(w: World, step: Step, all: bool)
    requires Following(w, all) && Possible(w.state, step)
    ensures var t := Next(w, step, all);
      t.trace.taken.Keys == t.state.watches.Keys && t.trace.since.Keys == t.state.watches.Keys
  {
  }

  lemma StepFollows(w: World, step: Step, all: bool)
    requires Following(w, all) && Possible(w.state, step)
    ensures Following(Next(w, step, all), all)
  {
    StepIndexed(w.state, step, all);
    StepTraced(w, step, all);
    forall id | id in Next(w, step, all).state.watches ensures StreamOk(Next(w, step, all), id, all) {
      EachFollows(w, step, id, all);
    }
  }

  lemma {:induction false} RunFollows(w: World, steps: seq<Step>, all: bool)
    requires Following(w, all) && AllPossible(w, steps, all)
    ensures Following(Run(w, steps, all), all)
    decreases |steps|
  {
    if |steps| > 0 {
      StepFollows(w, steps[0], all);
      RunFollows(Next(w, steps[0], all), steps[1..], all);
    }
  }

  // ---------------------------------------------------------------- main results

  /** After every run, what a live watch's client has been given is a subsequence of the matching
      events that were waiting when it was made or notified later. */
  lemma StreamIsSubsequence(steps: seq<Step>, id: Id, all: bool)
    requires AllPossible(START, steps, all) && id in Run(START, steps, all).state.watches
    ensures var w := Run(START, steps, all);
      && id in w.trace.taken && id in w.state.chans && id in w.trace.since
      && Subsequence(Stream(w, id), Filter(w.trace.since[id], w.state.watches[id], all))
  {
    RunFollows(START, steps, all);
    var w := Run(START, steps, all);
    assert StreamOk(w, id, all);
    TailDropped(Stream(w, id), Filter(w.state.queue, w.state.watches[id], all),
                Filter(w.trace.since[id], w.state.watches[id], all));
  }

  lemma {:induction false} TailDropped(a: seq<Event>, tail: seq<Event>, b: seq<Event>)
    requires Subsequence(a + tail, b)
    ensures Subsequence(a, b)
    decreases |tail|
  {
    if |tail| == 0 {
      assert a + tail == a;
    } else {
      var front := tail[..|tail| - 1];
      assert a + tail == (a + front) + [tail[|tail| - 1]];
      LastDropped(a + front, tail[|tail| - 1], b);
      TailDropped(a, front, b);
    }
  }

  /** Once the queue is empty and if no buffer was full on the way, the client has been given all of
      them. */
  lemma StreamIsComplete(steps: seq<Step>, id: Id, all: bool)
    requires AllPossible(START, steps, all) && id in Run(START, steps, all).state.watches
    requires Run(START, steps, all).state.queue == [] && id !in Run(START, steps, all).trace.dropped
    ensures var w := Run(START, steps, all);
      && id in w.trace.taken && id in w.state.chans && id in w.trace.since
      && Stream(w, id) == Filter(w.trace.since[id], w.state.watches[id], all)
  {
    RunFollows(START, steps, all);
    var w := Run(START, steps, all);
    assert StreamOk(w, id, all);
    assert Stream(w, id) + [] == Stream(w, id);
  }
}
