/** Building runs step by step, under any rules: elections and rounds of messages between one node
    and a list of others. */
module RaftPaths {
  import opened RaftTypes
  import opened RaftSteps
  import opened RaftCluster
  import opened RaftQuorums

  // ---------------------------------------------------------------- paths

  ghost predicate IsPath(rules: Rules, path: seq<Cluster>) {
    |path| > 0 && forall i {:trigger StepAt(rules, path, i)} :: 0 <= i < |path| - 1 ==> StepAt(rules, path, i)
  }

  ghost predicate StepAt(rules: Rules, path: seq<Cluster>, i: nat) {
    i + 1 < |path| && IsStep(rules, path[i], path[i + 1])
  }

  function Last(path: seq<Cluster>): Cluster
    requires |path| > 0
  {
    path[|path| - 1]
  }

  lemma Extend(rules: Rules, path: seq<Cluster>, a: Action) returns (longer: seq<Cluster>)
    requires IsPath(rules, path) && Enabled(Last(path), a)
    ensures IsPath(rules, longer) && longer[0] == path[0] && Last(longer) == Next(rules, Last(path), a)
  {
    longer := path + [Next(rules, Last(path), a)];
    forall i | 0 <= i < |longer| - 1 ensures StepAt(rules, longer, i) {
      if i < |path| - 1 {
        assert StepAt(rules, path, i);
      } else {
        assert IsStep(rules, Last(path), Next(rules, Last(path), a));
      }
    }
  }

  lemma UpdateTwice(nodes: map<NodeId, NodeState>, n: NodeId, x: NodeState, y: NodeState)
    ensures nodes[n := x][n := y] == nodes[n := y]
  {
  }

  lemma PathIsRun(rules: Rules, path: seq<Cluster>, members: seq<NodeId>)
    requires IsPath(rules, path) && path[0] == Init(members) && ValidMembers(members)
    ensures IsRun(rules, path)
  {
    forall i | 0 <= i < |path| - 1 ensures IsStep(rules, path[i], path[i + 1]) {
      assert StepAt(rules, path, i);
    }
  }

  /** Every node knows its name and its cluster. */
  ghost predicate Named(s: Cluster) {
    && ValidMembers(s.members) && s.nodes.Keys == Members(s.members)
    && forall n :: n in s.nodes ==>
         s.nodes[n].id == n && s.nodes[n].clusterNodes == s.members && |s.nodes[n].log| > 0
  }

  /** The path goes on from s, and messages stay. */
  ghost predicate GoesOn(rules: Rules, path: seq<Cluster>, longer: seq<Cluster>) {
    && IsPath(rules, path) && IsPath(rules, longer) && longer[0] == path[0]
    && Last(longer).members == Last(path).members && Last(path).net <= Last(longer).net
    && Named(Last(longer))
  }

  lemma Move(rules: Rules, path: seq<Cluster>, a: Action) returns (longer: seq<Cluster>)
    requires IsPath(rules, path) && Named(Last(path)) && Enabled(Last(path), a)
    requires var y := Act(rules, Last(path).nodes[Actor(a)], a).node;
      y.id == Actor(a) && y.clusterNodes == Last(path).members && |y.log| > 0
    ensures GoesOn(rules, path, longer)
    ensures var o := Act(rules, Last(path).nodes[Actor(a)], a);
      && Last(longer).nodes == Last(path).nodes[Actor(a) := o.node]
      && forall msg :: msg in o.sent ==> msg in Last(longer).net
  {
    longer := Extend(rules, path, a);
  }

  // ---------------------------------------------------------------- sets of other nodes

  ghost predicate OthersOf(members: seq<NodeId>, n: NodeId, vs: set<NodeId>) {
    n in members && n !in vs && vs <= Members(members)
  }

  lemma OneLess(vs: set<NodeId>) returns (fewer: set<NodeId>, last: NodeId)
    requires |vs| > 0
    ensures last in vs && fewer == vs - {last} && vs == fewer + {last} && |fewer| == |vs| - 1
  {
    last :| last in vs;
    fewer := vs - {last};
  }

  lemma Asks(x: NodeState, to: NodeId)
    requires to in x.clusterNodes && to != x.id
    ensures RequestVoteFor(x, to) in RequestVotesTo(x, x.clusterNodes)
  {
    BroadcastReaches(x.id, x.clusterNodes, (v: NodeId) => RequestVoteFor(x, v), RequestVoteFor(x, to));
  }

  lemma Sends(x: NodeState, to: NodeId)
    requires to in x.clusterNodes && to != x.id
    ensures AppendEntriesFor(x, to) in SendHeartbeats(x)
  {
    BroadcastReaches(x.id, x.clusterNodes, (v: NodeId) => AppendEntriesFor(x, v), AppendEntriesFor(x, to));
  }

  // ---------------------------------------------------------------- elections

  function Candidacy(x: NodeState): NodeState {
    x.(role := Candidate, currentTerm := x.currentTerm + 1, votedFor := x.id, votesReceived := 1, voters := {x.id})
  }

  function Ask(x: NodeState, to: NodeId): Message {
    RequestVote(x.currentTerm + 1, x.id, to, LastLogInfo(x.log).0, LastLogInfo(x.log).1)
  }

  lemma Campaign(rules: Rules, path: seq<Cluster>, n: NodeId) returns (longer: seq<Cluster>)
    requires IsPath(rules, path) && Named(Last(path)) && n in Last(path).members
    requires Last(path).nodes[n].role == Follower
    ensures GoesOn(rules, path, longer)
    ensures Last(longer).nodes == Last(path).nodes[n := Candidacy(Last(path).nodes[n])]
    ensures forall w :: w in Last(path).members && w != n ==> Ask(Last(path).nodes[n], w) in Last(longer).net
  {
    longer := Move(rules, path, Timeout(n));
    var x := Last(path).nodes[n];
    var y := x.(role := Candidate, currentTerm := x.currentTerm + 1, votedFor := x.id);
    forall w | w in Last(path).members && w != n ensures Ask(x, w) in Last(longer).net { Asks(y, w); }
  }

  function Voted(x: NodeState, term: nat, n: NodeId): NodeState {
    x.(currentTerm := term, votedFor := n, role := Follower)
  }

  /** The nodes once those of vs have voted for n. */
  ghost predicate VotedBy(s: Cluster, t: Cluster, term: nat, n: NodeId, vs: set<NodeId>) {
    && t.nodes.Keys == s.nodes.Keys
    && forall f {:trigger t.nodes[f]} {:trigger s.nodes[f]} :: f in s.nodes ==>
         t.nodes[f] == if f in vs then Voted(s.nodes[f], term, n) else s.nodes[f]
  }

  predicate WillVote(x: NodeState, y: NodeState) {
    y.currentTerm <= x.currentTerm && UpToDate(LastLogInfo(x.log).0, LastLogInfo(x.log).1, y.log)
  }

  /** The request of x has reached all of vs, who will grant it. */
  ghost predicate AskedOf(s: Cluster, x: NodeState, vs: set<NodeId>) {
    forall v :: v in vs ==> v in s.nodes && Ask(x, v) in s.net && WillVote(x, s.nodes[v])
  }

  lemma VoteOutcome(x: NodeState, y: NodeState)
    requires WillVote(x, y) && x.id != NO_NODE
    ensures HandleRequestVote(y, Ask(x, y.id))
         == Outcome(Voted(y, x.currentTerm + 1, x.id), [RequestVoteResponse(x.currentTerm + 1, y.id, x.id, true)])
  {
  }

  lemma GetVote(rules: Rules, path: seq<Cluster>, x: NodeState, v: NodeId) returns (longer: seq<Cluster>)
    requires IsPath(rules, path) && Named(Last(path)) && x.id in Last(path).members
    requires v in Last(path).nodes && Ask(x, v) in Last(path).net && WillVote(x, Last(path).nodes[v])
    ensures GoesOn(rules, path, longer)
    ensures Last(longer).nodes == Last(path).nodes[v := Voted(Last(path).nodes[v], x.currentTerm + 1, x.id)]
    ensures RequestVoteResponse(x.currentTerm + 1, v, x.id, true) in Last(longer).net
  {
    VoteOutcome(x, Last(path).nodes[v]);
    longer := Move(rules, path, Receive(Ask(x, v)));
  }

  /** The nodes vs answer the request of x, and grant their votes. */
  lemma {:induction false} GetVotes(rules: Rules, path: seq<Cluster>, x: NodeState, vs: set<NodeId>)
      returns (longer: seq<Cluster>)
    requires IsPath(rules, path) && Named(Last(path)) && OthersOf(Last(path).members, x.id, vs)
    requires AskedOf(Last(path), x, vs)
    ensures GoesOn(rules, path, longer) && VotedBy(Last(path), Last(longer), x.currentTerm + 1, x.id, vs)
    ensures forall v :: v in vs ==> RequestVoteResponse(x.currentTerm + 1, v, x.id, true) in Last(longer).net
    decreases |vs|
  {
    if |vs| == 0 {
      longer := path;
    } else {
      var fewer, last := OneLess(vs);
      var mid := GetVotes(rules, path, x, fewer);
      assert Last(mid).nodes[last] == Last(path).nodes[last];
      longer := GetVote(rules, mid, x, last);
    }
  }

  /** A candidate that has counted the votes of vs besides its own. */
  function Counting(x: NodeState, vs: set<NodeId>): NodeState {
    x.(votesReceived := 1 + |vs|, voters := {x.id} + vs)
  }

  function OneMore(x: NodeState, fewer: set<NodeId>, last: NodeId): Outcome {
    var y := Counting(x, fewer + {last});
    if 2 + |fewer| >= |x.clusterNodes| / 2 + 1 then BecomeLeader(y) else Outcome(y, [])
  }

  /** However votes are counted, those of distinct nodes elect once they are a majority. */
  lemma OneMoreVote(rules: Rules, x: NodeState, fewer: set<NodeId>, last: NodeId)
    requires OthersOf(x.clusterNodes, x.id, fewer + {last}) && last !in fewer
    requires NO_NODE !in x.clusterNodes && x.role == Candidate
    ensures OneMore(x, fewer, last)
         == HandleRequestVoteResponse(rules, Counting(x, fewer), RequestVoteResponse(x.currentTerm, last, x.id, true))
  {
    assert {x.id} + fewer + {last} == {x.id} + (fewer + {last});
    assert |{x.id} + (fewer + {last})| == 2 + |fewer|;
  }

  lemma CountVote(rules: Rules, path: seq<Cluster>, x: NodeState, fewer: set<NodeId>, last: NodeId)
      returns (longer: seq<Cluster>)
    requires IsPath(rules, path) && Named(Last(path)) && OthersOf(Last(path).members, x.id, fewer + {last})
    requires last !in fewer && x.role == Candidate
    requires x.id in Last(path).nodes && Last(path).nodes[x.id] == Counting(x, fewer)
    requires RequestVoteResponse(x.currentTerm, last, x.id, true) in Last(path).net
    ensures GoesOn(rules, path, longer)
    ensures Last(longer).nodes == Last(path).nodes[x.id := OneMore(x, fewer, last).node]
    ensures forall msg :: msg in OneMore(x, fewer, last).sent ==> msg in Last(longer).net
  {
    var msg := RequestVoteResponse(x.currentTerm, last, x.id, true);
    OneMoreVote(rules, x, fewer, last);
    assert Act(rules, Counting(x, fewer), Receive(msg)) == OneMore(x, fewer, last);
    longer := Move(rules, path, Receive(msg));
  }

  /** n counts the votes of vs, too few to win. */
  lemma {:induction false} CountVotes(rules: Rules, path: seq<Cluster>, n: NodeId, vs: set<NodeId>)
      returns (longer: seq<Cluster>)
    requires IsPath(rules, path) && Named(Last(path)) && OthersOf(Last(path).members, n, vs)
    requires |vs| < |Last(path).members| / 2 && HasVotes(Last(path), n, vs)
    ensures GoesOn(rules, path, longer)
    ensures Last(longer).nodes == Last(path).nodes[n := Counting(Last(path).nodes[n], vs)]
    decreases |vs|
  {
    var x := Last(path).nodes[n];
    if |vs| == 0 {
      longer := path;
      assert Counting(x, vs) == x;
    } else {
      var fewer, last := OneLess(vs);
      var mid := CountVotes(rules, path, n, fewer);
      longer := CountVote(rules, mid, x, fewer, last);
      UpdateTwice(Last(path).nodes, n, Counting(x, fewer), Counting(x, vs));
    }
  }

  /** n has counted its own vote, and those of vs are on their way. */
  ghost predicate HasVotes(s: Cluster, n: NodeId, vs: set<NodeId>) {
    && n in s.nodes
    && var x := s.nodes[n];
      && x.role == Candidate && x.votesReceived == 1 && x.voters == {n}
      && forall v :: v in vs ==> RequestVoteResponse(x.currentTerm, v, n, true) in s.net
  }

  /** What the votes of vs make of n. */
  ghost predicate Crowned(x: NodeState, y: NodeState, term: nat) {
    && y.role == Leader && y.currentTerm == term && y.log == x.log && y.commitIndex == x.commitIndex
    && y.id == x.id && y.clusterNodes == x.clusterNodes
    && forall v {:trigger Get(y.nextIndex, v)} {:trigger Get(y.matchIndex, v)} ::
         v in x.clusterNodes && v != x.id ==> Get(y.nextIndex, v) == |x.log| && Get(y.matchIndex, v) == 0
  }

  lemma LeaderCrowned(x: NodeState)
    ensures Crowned(x, BecomeLeader(x).node, x.currentTerm)
    ensures forall v :: v in x.clusterNodes && v != x.id ==>
              AppendEntriesFor(BecomeLeader(x).node, v) in BecomeLeader(x).sent
  {
    var y := BecomeLeader(x).node;
    forall v | v in x.clusterNodes && v != x.id
      ensures Get(y.nextIndex, v) == |x.log| && Get(y.matchIndex, v) == 0 && AppendEntriesFor(y, v) in SendHeartbeats(y)
    {
      ResetProgressValue(x.nextIndex, x.id, x.clusterNodes, |x.log|, v);
      ResetProgressValue(x.matchIndex, x.id, x.clusterNodes, 0, v);
      Sends(y, v);
    }
  }

  lemma Crown(rules: Rules, path: seq<Cluster>, n: NodeId, vs: set<NodeId>) returns (longer: seq<Cluster>)
    requires IsPath(rules, path) && Named(Last(path)) && OthersOf(Last(path).members, n, vs)
    requires |vs| == |Last(path).members| / 2 > 0 && HasVotes(Last(path), n, vs)
    ensures GoesOn(rules, path, longer)
    ensures Last(longer).nodes == Last(path).nodes[n := Last(longer).nodes[n]]
    ensures Crowned(Last(path).nodes[n], Last(longer).nodes[n], Last(path).nodes[n].currentTerm)
    ensures forall v :: v in Last(path).members && v != n ==>
              AppendEntriesFor(Last(longer).nodes[n], v) in Last(longer).net
  {
    var x := Last(path).nodes[n];
    var fewer, last := OneLess(vs);
    var mid := CountVotes(rules, path, n, fewer);
    longer := CountVote(rules, mid, x, fewer, last);
    LeaderCrowned(Counting(x, vs));
    UpdateTwice(Last(path).nodes, n, Counting(x, fewer), BecomeLeader(Counting(x, vs)).node);
  }

  /** n has run for the next term, and vs have voted for it. */
  ghost predicate Polled(s: Cluster, t: Cluster, n: NodeId, vs: set<NodeId>) {
    && n in s.nodes && t.nodes.Keys == s.nodes.Keys && HasVotes(t, n, vs)
    && t.nodes[n] == Candidacy(s.nodes[n])
    && (forall f {:trigger t.nodes[f]} {:trigger s.nodes[f]} :: f in s.nodes && f != n ==>
          t.nodes[f] == if f in vs then Voted(s.nodes[f], s.nodes[n].currentTerm + 1, n) else s.nodes[f])
    && (forall v :: v in s.members && v != n ==> Ask(s.nodes[n], v) in t.net)
  }

  lemma CampaignAsks(s: Cluster, mid: Cluster, n: NodeId, vs: set<NodeId>)
    requires Named(s) && OthersOf(s.members, n, vs) && mid.nodes == s.nodes[n := Candidacy(s.nodes[n])]
    requires forall v :: v in vs ==> WillVote(s.nodes[n], s.nodes[v])
    requires forall v :: v in s.members && v != n ==> Ask(s.nodes[n], v) in mid.net
    ensures AskedOf(mid, s.nodes[n], vs)
  {
    forall v | v in vs ensures v in mid.nodes && Ask(s.nodes[n], v) in mid.net && WillVote(s.nodes[n], mid.nodes[v]) {
      assert mid.nodes[v] == s.nodes[v];
    }
  }

  lemma OpenPoll(rules: Rules, path: seq<Cluster>, n: NodeId, vs: set<NodeId>) returns (longer: seq<Cluster>)
    requires IsPath(rules, path) && Named(Last(path)) && OthersOf(Last(path).members, n, vs)
    requires Last(path).nodes[n].role == Follower
    requires forall v :: v in vs ==> WillVote(Last(path).nodes[n], Last(path).nodes[v])
    ensures GoesOn(rules, path, longer) && AskedOf(Last(longer), Last(path).nodes[n], vs)
    ensures Last(longer).nodes == Last(path).nodes[n := Candidacy(Last(path).nodes[n])]
    ensures forall w :: w in Last(path).members && w != n ==> Ask(Last(path).nodes[n], w) in Last(longer).net
  {
    longer := Campaign(rules, path, n);
    CampaignAsks(Last(path), Last(longer), n, vs);
  }

  lemma Poll(rules: Rules, path: seq<Cluster>, n: NodeId, vs: set<NodeId>) returns (longer: seq<Cluster>)
    requires IsPath(rules, path) && Named(Last(path)) && OthersOf(Last(path).members, n, vs)
    requires Last(path).nodes[n].role == Follower
    requires forall v :: v in vs ==> WillVote(Last(path).nodes[n], Last(path).nodes[v])
    ensures GoesOn(rules, path, longer) && Polled(Last(path), Last(longer), n, vs)
  {
    var x := Last(path).nodes[n];
    var mid := OpenPoll(rules, path, n, vs);
    longer := GetVotes(rules, mid, x, vs);
    PolledThen(Last(path), Last(mid), Last(longer), x, vs);
  }

  lemma PolledThen(s: Cluster, mid: Cluster, t: Cluster, x: NodeState, vs: set<NodeId>)
    requires x.id in s.nodes && x.id !in vs && s.nodes[x.id] == x && mid.net <= t.net
    requires mid.nodes == s.nodes[x.id := Candidacy(x)] && VotedBy(mid, t, x.currentTerm + 1, x.id, vs)
    requires forall v :: v in vs ==> RequestVoteResponse(x.currentTerm + 1, v, x.id, true) in t.net
    requires forall v :: v in s.members && v != x.id ==> Ask(x, v) in mid.net
    ensures Polled(s, t, x.id, vs)
  {
  }

  /** n runs for the next term and wins it with the votes of vs. */
  ghost predicate Won(s: Cluster, t: Cluster, n: NodeId, vs: set<NodeId>) {
    && n in s.nodes && t.nodes.Keys == s.nodes.Keys
    && var term := s.nodes[n].currentTerm + 1;
      && Crowned(s.nodes[n], t.nodes[n], term)
      && (forall f {:trigger t.nodes[f]} {:trigger s.nodes[f]} :: f in s.nodes && f != n ==>
            t.nodes[f] == if f in vs then Voted(s.nodes[f], term, n) else s.nodes[f])
      && (forall v :: v in s.members && v != n ==>
            AppendEntriesFor(t.nodes[n], v) in t.net && Ask(s.nodes[n], v) in t.net)
  }

  lemma Elect(rules: Rules, path: seq<Cluster>, n: NodeId, vs: set<NodeId>) returns (longer: seq<Cluster>)
    requires IsPath(rules, path) && Named(Last(path)) && OthersOf(Last(path).members, n, vs)
    requires |vs| == |Last(path).members| / 2 > 0
    requires Last(path).nodes[n].role == Follower
    requires forall v :: v in vs ==> WillVote(Last(path).nodes[n], Last(path).nodes[v])
    ensures GoesOn(rules, path, longer) && Won(Last(path), Last(longer), n, vs)
  {
    var mid := Poll(rules, path, n, vs);
    longer := Crown(rules, mid, n, vs);
    WonThen(Last(path), Last(mid), Last(longer), n, vs);
  }

  lemma WonThen(s: Cluster, mid: Cluster, t: Cluster, n: NodeId, vs: set<NodeId>)
    requires Polled(s, mid, n, vs) && mid.net <= t.net && n in t.nodes
    requires t.nodes == mid.nodes[n := t.nodes[n]] && Crowned(mid.nodes[n], t.nodes[n], mid.nodes[n].currentTerm)
    requires forall v :: v in s.members && v != n ==> AppendEntriesFor(t.nodes[n], v) in t.net
    ensures Won(s, t, n, vs)
  {
  }

  /** f hears of a newer term from a candidate, and follows. */
  lemma Hear(rules: Rules, path: seq<Cluster>, msg: Message) returns (longer: seq<Cluster>)
    requires IsPath(rules, path) && Named(Last(path))
    requires msg.RequestVote? && msg in Last(path).net && msg.to in Last(path).nodes
    requires msg.term > Last(path).nodes[msg.to].currentTerm
    ensures GoesOn(rules, path, longer)
    ensures Last(longer).nodes == Last(path).nodes[msg.to := Last(longer).nodes[msg.to]]
    ensures var x, y := Last(path).nodes[msg.to], Last(longer).nodes[msg.to];
      y.role == Follower && y.currentTerm == msg.term && y.log == x.log && y.commitIndex == x.commitIndex
  {
    longer := Move(rules, path, Receive(msg));
  }

  lemma Write(rules: Rules, path: seq<Cluster>, n: NodeId, command: Command) returns (longer: seq<Cluster>)
    requires IsPath(rules, path) && Named(Last(path)) && n in Last(path).members && Last(path).nodes[n].role == Leader
    ensures GoesOn(rules, path, longer)
    ensures var x := Last(path).nodes[n];
      Last(longer).nodes == Last(path).nodes[n := x.(log := x.log + [LogEntry(x.currentTerm, |x.log|, command)])]
    ensures forall v :: v in Last(path).members && v != n ==>
              AppendEntriesFor(Last(longer).nodes[n], v) in Last(longer).net
  {
    longer := Move(rules, path, ClientPropose(n, command));
    var y := Last(longer).nodes[n];
    forall v | v in Last(path).members && v != n ensures AppendEntriesFor(y, v) in Last(longer).net { Sends(y, v); }
  }
}
