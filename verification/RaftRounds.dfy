/** Building runs round by round, under any rules: a leader offers its log to a set of followers,
    they take it, and the leader hears their answers. */
module RaftRounds {
  import opened RaftTypes
  import opened RaftSteps
  import opened RaftCluster
  import opened RaftQuorums
  import opened RaftPaths

  // ---------------------------------------------------------------- leading and writing

  /** n has won the next term with the votes of vs, and written a command. */
  ghost predicate Wrote(s: Cluster, t: Cluster, n: NodeId, vs: set<NodeId>, command: Command) {
    && n in s.nodes && t.nodes.Keys == s.nodes.Keys
    && var x, y := s.nodes[n], t.nodes[n];
      && y.role == Leader && y.currentTerm == x.currentTerm + 1 && y.commitIndex == x.commitIndex
      && y.log == x.log + [LogEntry(x.currentTerm + 1, |x.log|, command)]
      && (forall v {:trigger Get(y.nextIndex, v)} :: v in s.members && v != n ==> Get(y.nextIndex, v) == |x.log|)
      && (forall f {:trigger t.nodes[f]} {:trigger s.nodes[f]} :: f in s.nodes && f != n ==>
            t.nodes[f] == if f in vs then Voted(s.nodes[f], x.currentTerm + 1, n) else s.nodes[f])
      && (forall v :: v in s.members && v != n ==> AppendEntriesFor(y, v) in t.net && Ask(x, v) in t.net)
  }

  lemma LeadAndWrite(rules: Rules, path: seq<Cluster>, n: NodeId, vs: set<NodeId>, command: Command)
      returns (longer: seq<Cluster>)
    requires IsPath(rules, path) && Named(Last(path)) && OthersOf(Last(path).members, n, vs)
    requires |vs| == |Last(path).members| / 2 > 0
    requires Last(path).nodes[n].role == Follower
    requires forall v :: v in vs ==> WillVote(Last(path).nodes[n], Last(path).nodes[v])
    ensures GoesOn(rules, path, longer) && Wrote(Last(path), Last(longer), n, vs, command)
  {
    var mid := Elect(rules, path, n, vs);
    longer := Write(rules, mid, n, command);
    WroteThen(Last(path), Last(mid), Last(longer), n, vs, command);
  }

  lemma WroteThen(s: Cluster, mid: Cluster, t: Cluster, n: NodeId, vs: set<NodeId>, command: Command)
    requires Named(s) && n in s.nodes && Won(s, mid, n, vs) && mid.net <= t.net
    requires var x := mid.nodes[n];
      t.nodes == mid.nodes[n := x.(log := x.log + [LogEntry(x.currentTerm, |x.log|, command)])]
    requires forall v :: v in s.members && v != n ==> AppendEntriesFor(t.nodes[n], v) in t.net
    ensures Wrote(s, t, n, vs, command)
  {
    var y, z := mid.nodes[n], t.nodes[n];
    forall v | v in s.members && v != n ensures Get(z.nextIndex, v) == |s.nodes[n].log| {
      assert Get(y.nextIndex, v) == |s.nodes[n].log|;
    }
  }

  // ---------------------------------------------------------------- taking a leader's entries

  /** y accepts what x sends it. */
  predicate WillTake(x: NodeState, y: NodeState) {
    var msg := AppendEntriesFor(x, y.id);
    && x.currentTerm >= y.currentTerm && 1 <= Get(x.nextIndex, y.id) <= |x.log|
    && |y.log| > 0 && Matches(y.log, msg.prevLogIndex, msg.prevLogTerm)
  }

  function Taken(rules: Rules, x: NodeState, y: NodeState): Log
    requires WillTake(x, y)
  {
    var msg := AppendEntriesFor(x, y.id);
    Merge(rules, y.log, msg.prevLogIndex, msg.entries)
  }

  /** z is y after taking what x sent it. */
  ghost predicate Took(rules: Rules, x: NodeState, y: NodeState, z: NodeState)
    requires WillTake(x, y)
  {
    && z.log == Taken(rules, x, y) && |z.log| > 0
    && z.currentTerm == x.currentTerm && z.id == y.id && z.clusterNodes == y.clusterNodes
    && z.commitIndex == (if x.commitIndex > y.commitIndex then Min(x.commitIndex, |z.log| - 1) else y.commitIndex)
    && z.role == (if x.currentTerm > y.currentTerm then Follower else y.role)
  }

  function Ack(x: NodeState, f: NodeId): Message
    requires |x.log| > 0
  {
    AppendEntriesResponse(x.currentTerm, f, x.id, true, |x.log| - 1)
  }

  lemma TakeOutcome(rules: Rules, x: NodeState, y: NodeState)
    requires WillTake(x, y) && x.id != NO_NODE
    ensures var o := HandleAppendEntries(rules, y, AppendEntriesFor(x, y.id));
      Took(rules, x, y, o.node) && o.sent == [Ack(x, y.id)]
  {
    var msg := AppendEntriesFor(x, y.id);
    var z := AdoptTerm(y, msg.term).(log := Taken(rules, x, y));
    MergeKeepsEntries(rules, y.log, msg.prevLogIndex, msg.entries);
    NotifyReadyOnlyQueues(z.(commitIndex := Min(msg.leaderCommit, |z.log| - 1)));
  }

  /** x has sent its entries to all of fs, who will take them. */
  ghost predicate Offered(s: Cluster, x: NodeState, fs: set<NodeId>) {
    forall f :: f in fs ==> f in s.nodes && AppendEntriesFor(x, f) in s.net && WillTake(x, s.nodes[f])
  }

  lemma TakeOne(rules: Rules, path: seq<Cluster>, x: NodeState, f: NodeId) returns (longer: seq<Cluster>)
    requires IsPath(rules, path) && Named(Last(path)) && x.id != NO_NODE
    requires f in Last(path).nodes && AppendEntriesFor(x, f) in Last(path).net && WillTake(x, Last(path).nodes[f])
    ensures GoesOn(rules, path, longer)
    ensures Last(longer).nodes == Last(path).nodes[f := Last(longer).nodes[f]]
    ensures Took(rules, x, Last(path).nodes[f], Last(longer).nodes[f]) && Ack(x, f) in Last(longer).net
  {
    var y, msg := Last(path).nodes[f], AppendEntriesFor(x, f);
    TakeOutcome(rules, x, y);
    assert Act(rules, y, Receive(msg)) == HandleAppendEntries(rules, y, msg);
    longer := Move(rules, path, Receive(msg));
  }

  /** The nodes once those of fs have taken what x sent. */
  ghost predicate TookAll(rules: Rules, s: Cluster, t: Cluster, x: NodeState, fs: set<NodeId>)
    requires Offered(s, x, fs)
  {
    && t.nodes.Keys == s.nodes.Keys
    && (forall f {:trigger t.nodes[f]} :: f in fs ==> Took(rules, x, s.nodes[f], t.nodes[f]))
    && (forall f {:trigger t.nodes[f]} {:trigger s.nodes[f]} :: f in s.nodes && f !in fs ==> t.nodes[f] == s.nodes[f])
    && (|x.log| > 0 ==> forall f :: f in fs ==> Ack(x, f) in t.net)
  }

  lemma {:induction false} TakeAll(rules: Rules, path: seq<Cluster>, x: NodeState, fs: set<NodeId>)
      returns (longer: seq<Cluster>)
    requires IsPath(rules, path) && Named(Last(path)) && x.id != NO_NODE && Offered(Last(path), x, fs)
    ensures GoesOn(rules, path, longer) && TookAll(rules, Last(path), Last(longer), x, fs)
    decreases |fs|
  {
    if |fs| == 0 {
      longer := path;
    } else {
      var fewer, last := OneLess(fs);
      var mid := TakeAll(rules, path, x, fewer);
      assert Last(mid).nodes[last] == Last(path).nodes[last];
      longer := TakeOne(rules, mid, x, last);
      TookOneMore(rules, Last(path), Last(mid), Last(longer), x, fs, last);
    }
  }

  lemma TookOneMore(rules: Rules, s: Cluster, mid: Cluster, t: Cluster, x: NodeState, fs: set<NodeId>, last: NodeId)
    requires Offered(s, x, fs) && Offered(s, x, fs - {last}) && TookAll(rules, s, mid, x, fs - {last}) && last in fs
    requires last in t.nodes && t.nodes == mid.nodes[last := t.nodes[last]] && mid.net <= t.net && |x.log| > 0
    requires Took(rules, x, s.nodes[last], t.nodes[last]) && Ack(x, last) in t.net
    ensures TookAll(rules, s, t, x, fs)
  {
  }

  // ---------------------------------------------------------------- hearing the answers

  /** y is leader x once it has heard that fs store its whole log. */
  ghost predicate Heard(rules: Rules, x: NodeState, y: NodeState, fs: set<NodeId>) {
    && y.role == x.role && y.currentTerm == x.currentTerm && y.log == x.log
    && y.id == x.id && y.clusterNodes == x.clusterNodes
    && x.commitIndex <= y.commitIndex < |x.log|
    && (forall f {:trigger Get(y.matchIndex, f)} {:trigger Get(y.nextIndex, f)} :: f in fs ==>
          Get(y.matchIndex, f) == |x.log| - 1 && Get(y.nextIndex, f) == |x.log|)
  }

  lemma {:induction false} TargetBelow(ownTermOnly: bool, x: NodeState, end: nat)
    requires x.commitIndex < end
    ensures x.commitIndex <= CommitTarget(ownTermOnly, x, end) < end
    ensures Committable(ownTermOnly, x, end - 1) ==> CommitTarget(ownTermOnly, x, end) == end - 1
  {
    if end > x.commitIndex + 1 { TargetBelow(ownTermOnly, x, end - 1); }
  }

  function Acknowledged(x: NodeState, f: NodeId): NodeState
    requires |x.log| > 0
  {
    x.(matchIndex := x.matchIndex[f := |x.log| - 1], nextIndex := x.nextIndex[f := |x.log|])
  }

  lemma AckOutcome(rules: Rules, x: NodeState, f: NodeId)
    requires x.role == Leader && x.commitIndex < |x.log| && f != NO_NODE
    ensures var o, y := HandleAppendEntriesResponse(rules, x, Ack(x, f)), Acknowledged(x, f);
      && o.node == y.(commitIndex := o.node.commitIndex, lastApplied := o.node.lastApplied, applyCh := o.node.applyCh)
      && x.commitIndex <= o.node.commitIndex < |x.log|
      && (Committable(rules.commitOwnTermOnly, y, |x.log| - 1) ==> o.node.commitIndex == |x.log| - 1)
      && (o.node.commitIndex > 0 ==> o.sent == SendHeartbeats(o.node))
  {
    var y := Acknowledged(x, f);
    assert y == x.(matchIndex := x.matchIndex[f := |x.log| - 1], nextIndex := x.nextIndex[f := |x.log| - 1 + 1]);
    TargetBelow(rules.commitOwnTermOnly, y, |x.log|);
    NotifyReadyOnlyQueues(y.(commitIndex := CommitTarget(rules.commitOwnTermOnly, y, |x.log|)));
  }

  /** f's answer reaches leader n. */
  lemma HearOne(rules: Rules, path: seq<Cluster>, x: NodeState, f: NodeId) returns (longer: seq<Cluster>)
    requires IsPath(rules, path) && Named(Last(path)) && x.id in Last(path).nodes && Last(path).nodes[x.id] == x
    requires x.role == Leader && x.commitIndex < |x.log| && f in Last(path).members
    requires Ack(x, f) in Last(path).net
    ensures GoesOn(rules, path, longer)
    ensures var o := HandleAppendEntriesResponse(rules, x, Ack(x, f));
      Last(longer).nodes == Last(path).nodes[x.id := o.node] && forall msg :: msg in o.sent ==> msg in Last(longer).net
  {
    AckOutcome(rules, x, f);
    assert Act(rules, x, Receive(Ack(x, f))) == HandleAppendEntriesResponse(rules, x, Ack(x, f));
    longer := Move(rules, path, Receive(Ack(x, f)));
  }

  ghost predicate Answered(s: Cluster, n: NodeId, fs: set<NodeId>) {
    && n in s.nodes
    && var x := s.nodes[n];
      && x.role == Leader && x.commitIndex < |x.log|
      && forall f :: f in fs ==> Ack(x, f) in s.net
  }

  lemma {:induction false} HearSome(rules: Rules, path: seq<Cluster>, n: NodeId, fs: set<NodeId>)
      returns (longer: seq<Cluster>)
    requires IsPath(rules, path) && Named(Last(path))
    requires OthersOf(Last(path).members, n, fs) && Answered(Last(path), n, fs)
    ensures GoesOn(rules, path, longer)
    ensures Last(longer).nodes == Last(path).nodes[n := Last(longer).nodes[n]]
    ensures Heard(rules, Last(path).nodes[n], Last(longer).nodes[n], fs)
    decreases |fs|
  {
    if |fs| == 0 {
      longer := path;
    } else {
      var fewer, last := OneLess(fs);
      var mid := HearSome(rules, path, n, fewer);
      longer := HearOne(rules, mid, Last(mid).nodes[n], last);
      AckOutcome(rules, Last(mid).nodes[n], last);
      HeardOneMore(rules, Last(path).nodes[n], Last(mid).nodes[n], last, fewer);
      UpdateTwice(Last(path).nodes, n, Last(mid).nodes[n], Last(longer).nodes[n]);
    }
  }

  lemma HeardOneMore(rules: Rules, x: NodeState, y: NodeState, last: NodeId, fewer: set<NodeId>)
    requires x.role == Leader && |x.log| > 0 && Heard(rules, x, y, fewer) && last != NO_NODE && last !in fewer
    ensures Heard(rules, x, HandleAppendEntriesResponse(rules, y, Ack(y, last)).node, fewer + {last})
  {
    AckOutcome(rules, y, last);
    var z := HandleAppendEntriesResponse(rules, y, Ack(y, last)).node;
    forall f | f in fewer + {last} ensures Get(z.matchIndex, f) == |x.log| - 1 && Get(z.nextIndex, f) == |x.log| {
      if f != last { assert Get(y.matchIndex, f) == |x.log| - 1 && Get(y.nextIndex, f) == |x.log|; }
    }
  }

  /** As many others as are half the cluster are a majority with the leader. */
  lemma HalfTheOthersCommit(ownTermOnly: bool, x: NodeState, fs: set<NodeId>)
    requires ValidMembers(x.clusterNodes) && OthersOf(x.clusterNodes, x.id, fs) && |fs| >= |x.clusterNodes| / 2
    requires |x.log| > 0 && forall f :: f in fs ==> Get(x.matchIndex, f) == |x.log| - 1
    requires ownTermOnly ==> x.log[|x.log| - 1].term == x.currentTerm
    ensures Committable(ownTermOnly, x, |x.log| - 1)
  {
    ReplicasCounts(x.id, x.clusterNodes, x.matchIndex, |x.log| - 1);
    var replicas := ReplicaSet(x.id, Members(x.clusterNodes), x.matchIndex, |x.log| - 1);
    assert {x.id} + fs <= replicas;
    SubsetSize({x.id} + fs, replicas);
  }

  /** The leader has heard fs, committed its log and announced it. */
  ghost predicate CommittedAll(s: Cluster, t: Cluster, n: NodeId, fs: set<NodeId>) {
    && n in s.nodes && n in t.nodes && t.nodes == s.nodes[n := t.nodes[n]]
    && var x, y := s.nodes[n], t.nodes[n];
      && y.role == Leader && y.currentTerm == x.currentTerm && y.log == x.log && y.commitIndex == |x.log| - 1
      && (forall f {:trigger Get(y.nextIndex, f)} :: f in fs ==> Get(y.nextIndex, f) == |x.log|)
      && (forall v :: v in s.members && v != n ==> AppendEntriesFor(y, v) in t.net)
  }

  lemma LastAckOutcome(rules: Rules, x: NodeState, y: NodeState, last: NodeId, fewer: set<NodeId>)
    requires x.role == Leader && |x.log| > 1 && Heard(rules, x, y, fewer) && last !in fewer
    requires ValidMembers(x.clusterNodes) && OthersOf(x.clusterNodes, x.id, fewer + {last})
    requires |fewer| + 1 >= |x.clusterNodes| / 2
    requires rules.commitOwnTermOnly ==> x.log[|x.log| - 1].term == x.currentTerm
    ensures var o := HandleAppendEntriesResponse(rules, y, Ack(y, last));
      && Heard(rules, x, o.node, fewer + {last}) && o.node.commitIndex == |x.log| - 1
      && forall v :: v in x.clusterNodes && v != x.id ==> AppendEntriesFor(o.node, v) in o.sent
  {
    HeardOneMore(rules, x, y, last, fewer);
    AckOutcome(rules, y, last);
    var o, z := HandleAppendEntriesResponse(rules, y, Ack(y, last)), Acknowledged(y, last);
    forall f | f in fewer + {last} ensures Get(z.matchIndex, f) == |x.log| - 1 {
      assert Get(o.node.matchIndex, f) == |x.log| - 1;
    }
    HalfTheOthersCommit(rules.commitOwnTermOnly, z, fewer + {last});
    forall v | v in x.clusterNodes && v != x.id ensures AppendEntriesFor(o.node, v) in o.sent { Sends(o.node, v); }
  }

  lemma HearAll(rules: Rules, path: seq<Cluster>, n: NodeId, fs: set<NodeId>) returns (longer: seq<Cluster>)
    requires IsPath(rules, path) && Named(Last(path))
    requires OthersOf(Last(path).members, n, fs) && Answered(Last(path), n, fs)
    requires |fs| >= |Last(path).members| / 2 && |fs| > 0 && |Last(path).nodes[n].log| > 1
    requires var x := Last(path).nodes[n]; rules.commitOwnTermOnly ==> x.log[|x.log| - 1].term == x.currentTerm
    ensures GoesOn(rules, path, longer) && CommittedAll(Last(path), Last(longer), n, fs)
  {
    var x := Last(path).nodes[n];
    var fewer, last := OneLess(fs);
    var mid := HearSome(rules, path, n, fewer);
    longer := HearOne(rules, mid, Last(mid).nodes[n], last);
    LastAckOutcome(rules, x, Last(mid).nodes[n], last, fewer);
    UpdateTwice(Last(path).nodes, n, Last(mid).nodes[n], Last(longer).nodes[n]);
  }

  /** One whole round: fs take what leader n has sent, and n commits it. */
  ghost predicate Replicated(rules: Rules, s: Cluster, t: Cluster, n: NodeId, fs: set<NodeId>)
    requires n in s.nodes && Offered(s, s.nodes[n], fs)
  {
    && n in t.nodes && t.nodes.Keys == s.nodes.Keys
    && var x, y := s.nodes[n], t.nodes[n];
      && y.role == Leader && y.currentTerm == x.currentTerm && y.log == x.log && y.commitIndex == |x.log| - 1
      && (forall f {:trigger Get(y.nextIndex, f)} :: f in fs ==> Get(y.nextIndex, f) == |x.log|)
      && (forall v :: v in s.members && v != n ==> AppendEntriesFor(y, v) in t.net)
      && (forall f {:trigger t.nodes[f]} :: f in fs ==> Took(rules, x, s.nodes[f], t.nodes[f]))
      && (forall f {:trigger t.nodes[f]} {:trigger s.nodes[f]} :: f in s.nodes && f !in fs && f != n ==>
            t.nodes[f] == s.nodes[f])
  }

  lemma Replicate(rules: Rules, path: seq<Cluster>, n: NodeId, fs: set<NodeId>) returns (longer: seq<Cluster>)
    requires IsPath(rules, path) && Named(Last(path)) && OthersOf(Last(path).members, n, fs)
    requires n in Last(path).nodes && Offered(Last(path), Last(path).nodes[n], fs)
    requires |fs| == |Last(path).members| / 2 > 0
    requires var x := Last(path).nodes[n];
      && x.role == Leader && |x.log| > 1 && x.commitIndex < |x.log|
      && (rules.commitOwnTermOnly ==> x.log[|x.log| - 1].term == x.currentTerm)
    ensures GoesOn(rules, path, longer) && Replicated(rules, Last(path), Last(longer), n, fs)
  {
    var mid := TakeAll(rules, path, Last(path).nodes[n], fs);
    longer := HearAll(rules, mid, n, fs);
    ReplicatedThen(rules, Last(path), Last(mid), Last(longer), n, fs);
  }

  lemma ReplicatedThen(rules: Rules, s: Cluster, mid: Cluster, t: Cluster, n: NodeId, fs: set<NodeId>)
    requires n in s.nodes && n !in fs && Offered(s, s.nodes[n], fs) && TookAll(rules, s, mid, s.nodes[n], fs)
    requires CommittedAll(mid, t, n, fs) && mid.members == s.members
    ensures Replicated(rules, s, t, n, fs)
  {
  }

  // ---------------------------------------------------------------- being rejected

  /** f, in the leader's term, lacks the entry before those that x sends it. */
  predicate WillReject(x: NodeState, y: NodeState) {
    var msg := AppendEntriesFor(x, y.id);
    x.currentTerm == y.currentTerm && |y.log| > 0 && !Matches(y.log, msg.prevLogIndex, msg.prevLogTerm)
  }

  function BackedOff(x: NodeState, f: NodeId): NodeState {
    x.(nextIndex := x.nextIndex[f := 1])
  }

  /** f rejects the message of x, and x, having moved back from 2 to 1, sends another. */
  lemma RejectOne(rules: Rules, path: seq<Cluster>, x: NodeState, f: NodeId) returns (longer: seq<Cluster>)
    requires IsPath(rules, path) && Named(Last(path)) && x.id in Last(path).members && Last(path).nodes[x.id] == x
    requires x.role == Leader && f in Last(path).members && f != x.id && Get(x.nextIndex, f) == 2
    requires AppendEntriesFor(x, f) in Last(path).net && WillReject(x, Last(path).nodes[f])
    ensures GoesOn(rules, path, longer) && AppendEntriesFor(BackedOff(x, f), f) in Last(longer).net
    ensures Last(longer).nodes == Last(path).nodes[x.id := BackedOff(x, f)]
  {
    var y, msg := Last(path).nodes[f], AppendEntriesFor(x, f);
    var nack := AppendEntriesResponse(x.currentTerm, f, x.id, false, y.commitIndex);
    assert Act(rules, y, Receive(msg)) == Outcome(y, [nack]);
    var mid := Move(rules, path, Receive(msg));
    assert Last(mid).nodes == Last(path).nodes;
    assert Act(rules, x, Receive(nack)) == Outcome(BackedOff(x, f), [AppendEntriesFor(BackedOff(x, f), f)]);
    longer := Move(rules, mid, Receive(nack));
  }

  /** x moved back to 1 for all of fs. */
  ghost predicate MovedBack(x: NodeState, y: NodeState, fs: set<NodeId>) {
    && y == x.(nextIndex := y.nextIndex)
    && forall f {:trigger Get(y.nextIndex, f)} :: Get(y.nextIndex, f) == (if f in fs then 1 else Get(x.nextIndex, f))
  }

  ghost predicate Rejected(s: Cluster, n: NodeId, fs: set<NodeId>) {
    && n in s.nodes
    && var x := s.nodes[n];
      && x.role == Leader
      && forall f :: f in fs ==>
           f in s.nodes && Get(x.nextIndex, f) == 2 && AppendEntriesFor(x, f) in s.net && WillReject(x, s.nodes[f])
  }

  lemma SameMessage(x: NodeState, y: NodeState, fs: set<NodeId>, f: NodeId)
    requires MovedBack(x, y, fs) && f !in fs
    ensures AppendEntriesFor(y, f) == AppendEntriesFor(x, f)
  {
    assert Get(y.nextIndex, f) == Get(x.nextIndex, f);
  }

  lemma {:induction false} RejectAll(rules: Rules, path: seq<Cluster>, n: NodeId, fs: set<NodeId>)
      returns (longer: seq<Cluster>)
    requires IsPath(rules, path) && Named(Last(path))
    requires OthersOf(Last(path).members, n, fs) && Rejected(Last(path), n, fs)
    ensures GoesOn(rules, path, longer)
    ensures Last(longer).nodes == Last(path).nodes[n := Last(longer).nodes[n]]
    ensures MovedBack(Last(path).nodes[n], Last(longer).nodes[n], fs)
    ensures forall f :: f in fs ==> AppendEntriesFor(Last(longer).nodes[n], f) in Last(longer).net
    decreases |fs|
  {
    if |fs| == 0 {
      longer := path;
    } else {
      var fewer, last := OneLess(fs);
      var mid := RejectAll(rules, path, n, fewer);
      var x, y := Last(path).nodes[n], Last(mid).nodes[n];
      SameMessage(x, y, fewer, last);
      assert Get(y.nextIndex, last) == 2;
      longer := RejectOne(rules, mid, y, last);
      MovedOneMore(x, y, fewer, last);
      UpdateTwice(Last(path).nodes, n, y, BackedOff(y, last));
    }
  }

  lemma MovedOneMore(x: NodeState, y: NodeState, fewer: set<NodeId>, last: NodeId)
    requires MovedBack(x, y, fewer) && last !in fewer
    ensures MovedBack(x, BackedOff(y, last), fewer + {last})
    ensures forall f :: f in fewer ==> AppendEntriesFor(BackedOff(y, last), f) == AppendEntriesFor(y, f)
  {
    var z := BackedOff(y, last);
    forall f ensures Get(z.nextIndex, f) == if f in fewer + {last} then 1 else Get(x.nextIndex, f) {
      assert Get(y.nextIndex, f) == if f in fewer then 1 else Get(x.nextIndex, f);
    }
    forall f | f in fewer ensures AppendEntriesFor(z, f) == AppendEntriesFor(y, f) {
      assert Get(z.nextIndex, f) == Get(y.nextIndex, f);
    }
  }
}
