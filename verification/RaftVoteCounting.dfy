/** Counting votes with an integer, as the source does: whatever the other rules are, it keeps one
    leader a term in clusters of up to three nodes, and in no larger one. */
module RaftVoteCounting {
  import opened RaftTypes
  import opened RaftSteps
  import opened RaftCluster
  import opened RaftQuorums
  import opened RaftBallots
  import opened RaftAsWritten
  import opened RaftPaths

  /** The same rules, with every voter counted once. */
  function Counted(rules: Rules): Rules {
    rules.(countVotersOnce := true)
  }

  // ---------------------------------------------------------------- up to three nodes

  predicate FreshIfCandidate(x: NodeState) {
    x.role == Candidate ==> FreshCandidate(x)
  }

  ghost predicate CountersFresh(s: Cluster) {
    forall n {:trigger s.nodes[n]} :: n in s.nodes ==> FreshIfCandidate(s.nodes[n])
  }

  lemma FirstVoteDecides(rules: Rules, x: NodeState, msg: Message)
    requires msg.RequestVoteResponse? && FreshIfCandidate(x) && msg.from != x.id && |x.clusterNodes| <= 3
    ensures HandleRequestVoteResponse(rules, x, msg) == HandleRequestVoteResponse(Counted(rules), x, msg)
    ensures FreshIfCandidate(HandleRequestVoteResponse(rules, x, msg).node)
  {
    assert |{x.id} + {msg.from}| == 2;
  }

  lemma AppendEntriesKeepsFresh(rules: Rules, x: NodeState, msg: Message)
    requires msg.AppendEntries? && |x.log| > 0 && FreshIfCandidate(x)
    ensures FreshIfCandidate(HandleAppendEntries(rules, x, msg).node)
  {
    if msg.term >= x.currentTerm && Matches(x.log, msg.prevLogIndex, msg.prevLogTerm) {
      var z := AdoptTerm(x, msg.term).(log := Merge(rules, x.log, msg.prevLogIndex, msg.entries));
      MergeKeepsEntries(rules, x.log, msg.prevLogIndex, msg.entries);
      NotifyReadyOnlyQueues(z.(commitIndex := Min(msg.leaderCommit, |z.log| - 1)));
    }
  }

  lemma ResponseKeepsFresh(rules: Rules, x: NodeState, msg: Message)
    requires msg.AppendEntriesResponse? && FreshIfCandidate(x)
    ensures FreshIfCandidate(HandleAppendEntriesResponse(rules, x, msg).node)
  {
    var y := x.(matchIndex := x.matchIndex[msg.from := msg.matchIndex],
                nextIndex := x.nextIndex[msg.from := msg.matchIndex + 1]);
    CheckCommitBystands(rules, y);
  }

  /** In a small cluster the first vote decides, so a counter and a set of voters agree. */
  lemma SmallClusterAct(rules: Rules, x: NodeState, a: Action)
    requires FreshIfCandidate(x) && |x.log| > 0 && |x.clusterNodes| <= 3
    requires a.Receive? ==> a.msg.from != x.id
    ensures Act(rules, x, a) == Act(Counted(rules), x, a)
    ensures FreshIfCandidate(Act(rules, x, a).node)
  {
    if a.Receive? {
      match a.msg
      case RequestVote(_, _, _, _, _) =>
      case RequestVoteResponse(_, _, _, _) => FirstVoteDecides(rules, x, a.msg);
      case AppendEntries(_, _, _, _, _, _, _) => AppendEntriesKeepsFresh(rules, x, a.msg);
      case AppendEntriesResponse(_, _, _, _, _) => ResponseKeepsFresh(rules, x, a.msg);
    }
  }

  lemma SmallClusterStep(rules: Rules, s: Cluster, s': Cluster)
    requires VotesOk(s) && CountersFresh(s) && |s.members| <= 3 && IsStep(rules, s, s')
    ensures IsStep(Counted(rules), s, s') && VotesOk(s') && CountersFresh(s') && s'.members == s.members
  {
    var a :| Enabled(s, a) && s' == Next(rules, s, a);
    assert VoterOk(s, Actor(a));
    assert a.Receive? ==> LetterOk(s, a.msg);
    SmallClusterAct(rules, s.nodes[Actor(a)], a);
    StepKeepsVotes(Counted(rules), s, a);
  }

  /** With at most three nodes, a run that counts votes as the source does is a run that counts
      every voter once. */
  lemma {:induction false} SmallClusterSteps(rules: Rules, run: seq<Cluster>, i: nat)
    requires IsRun(rules, run) && |run[0].members| <= 3 && i < |run|
    ensures forall k :: 0 <= k < i ==> IsStep(Counted(rules), run[k], run[k + 1])
    ensures VotesOk(run[i]) && CountersFresh(run[i]) && run[i].members == run[0].members
  {
    if i == 0 {
      InitVotes(run[0].members);
    } else {
      SmallClusterSteps(rules, run, i - 1);
      assert IsStep(rules, run[i - 1], run[i - 1 + 1]);
      SmallClusterStep(rules, run[i - 1], run[i]);
    }
  }

  lemma SmallClusterSafe(rules: Rules, run: seq<Cluster>)
    requires IsRun(rules, run) && |run[0].members| <= 3
    ensures IsRun(Counted(rules), run) && OneLeaderPerTerm(run)
  {
    SmallClusterSteps(rules, run, |run| - 1);
    VotersDecideRun(Counted(rules), run);
  }

  lemma VotersDecideRun(rules: Rules, run: seq<Cluster>)
    requires rules.countVotersOnce && IsRun(rules, run)
    ensures OneLeaderPerTerm(run)
  {
    forall i, j, term, u, v | 0 <= i < |run| && 0 <= j < |run| && Leads(run[i], u, term) && Leads(run[j], v, term)
      ensures u == v
    {
      VotersDecide(rules, run, i, j, term, u, v);
    }
  }

  // ---------------------------------------------------------------- four nodes or more

  lemma {:induction false} SameDeliver(rules: Rules, x: NodeState, msg: Message, k: nat)
    requires msg.RequestVoteResponse? && !rules.countVotersOnce
    ensures Deliver(rules, x, msg, k) == Deliver(AS_WRITTEN, x, msg, k)
  {
    if k > 0 { SameDeliver(rules, x, msg, k - 1); }
  }

  lemma {:induction false} DeliverKeeps(rules: Rules, x: NodeState, msg: Message, k: nat)
    requires msg.RequestVoteResponse? && msg.term == x.currentTerm
    ensures var y := Deliver(rules, x, msg, k);
      y.currentTerm == x.currentTerm && y.id == x.id && y.clusterNodes == x.clusterNodes && y.log == x.log
  {
    if k > 0 { DeliverKeeps(rules, x, msg, k - 1); }
  }

  lemma {:induction false} DeliverOften(rules: Rules, path: seq<Cluster>, msg: Message, k: nat)
      returns (longer: seq<Cluster>)
    requires IsPath(rules, path) && Named(Last(path)) && msg in Last(path).net && msg.RequestVoteResponse?
    requires msg.to in Last(path).nodes && msg.term == Last(path).nodes[msg.to].currentTerm
    ensures GoesOn(rules, path, longer)
    ensures Last(longer).nodes == Last(path).nodes[msg.to := Deliver(rules, Last(path).nodes[msg.to], msg, k)]
  {
    if k == 0 {
      longer := path;
    } else {
      var x := Last(path).nodes[msg.to];
      var shorter := DeliverOften(rules, path, msg, k - 1);
      DeliverKeeps(rules, x, msg, k - 1);
      DeliverKeeps(rules, x, msg, k);
      longer := Move(rules, shorter, Receive(msg));
      UpdateTwice(Last(path).nodes, msg.to, Deliver(rules, x, msg, k - 1), Deliver(rules, x, msg, k));
    }
  }

  /** The delivery that reaches a majority makes x leader, on two nodes' votes. */
  lemma DeliveredCrown(rules: Rules, x: NodeState, msg: Message)
    requires !rules.countVotersOnce && FreshCandidate(x) && Grants(x, msg) && |x.clusterNodes| >= 4
    ensures Crowned(x, Deliver(rules, x, msg, |x.clusterNodes| / 2), x.currentTerm)
  {
    var k := |x.clusterNodes| / 2;
    var y := x.(votesReceived := k, voters := {x.id, msg.from});
    SameDeliver(rules, x, msg, k);
    OneVoterCountedOften(x, msg, k - 1);
    LastDelivery(x, y, msg, k);
    LeaderCrowned(y.(votesReceived := k + 1, voters := y.voters + {msg.from}));
    assert HandleRequestVoteResponse(AS_WRITTEN, y, msg).node
        == BecomeLeader(y.(votesReceived := k + 1, voters := y.voters + {msg.from})).node;
  }

  /** n, still in its initial state, runs for term 1; v votes for it; and that one vote elects it. */
  lemma OneVoteElects(rules: Rules, path: seq<Cluster>, n: NodeId, v: NodeId) returns (longer: seq<Cluster>)
    requires !rules.countVotersOnce && IsPath(rules, path) && Named(Last(path)) && |Last(path).members| >= 4
    requires n in Last(path).members && v in Last(path).members && n != v
    requires Last(path).nodes[n] == NewNode(n, Last(path).members)
    requires Last(path).nodes[v] == NewNode(v, Last(path).members)
    ensures GoesOn(rules, path, longer)
    ensures Last(longer).nodes.Keys == Last(path).nodes.Keys
    ensures Crowned(Last(path).nodes[n], Last(longer).nodes[n], 1)
    ensures Last(longer).nodes[v] == Voted(Last(path).nodes[v], 1, n)
    ensures forall f {:trigger Last(longer).nodes[f]} :: f in Last(path).nodes && f != n && f != v ==>
              Last(longer).nodes[f] == Last(path).nodes[f]
  {
    var mid := Poll(rules, path, n, {v});
    var x, msg, k := Last(mid).nodes[n], RequestVoteResponse(1, v, n, true), |Last(path).members| / 2;
    longer := DeliverOften(rules, mid, msg, k);
    DeliveredCrown(rules, x, msg);
  }

  /** In every cluster of at least four nodes, duplicated deliveries of two single votes make two
      nodes leaders of the same term. */
  lemma TwoLeaders(rules: Rules, members: seq<NodeId>) returns (run: seq<Cluster>)
    requires !rules.countVotersOnce && ValidMembers(members) && |members| >= 4
    ensures IsRun(rules, run) && run[0].members == members
    ensures Leads(Last(run), members[0], 1) && Leads(Last(run), members[2], 1) && members[0] != members[2]
  {
    run := [Init(members)];
    run := OneVoteElects(rules, run, members[0], members[1]);
    run := OneVoteElects(rules, run, members[2], members[3]);
    PathIsRun(rules, run, members);
  }

  /** One leader a term over every run: exactly when voters are counted once, or the cluster has at
      most three nodes. */
  lemma ElectionsSafeExactlyWhen(rules: Rules, members: seq<NodeId>)
    requires ValidMembers(members)
    ensures rules.countVotersOnce || |members| <= 3 <==>
      forall run: seq<Cluster> :: IsRun(rules, run) && run[0].members == members ==> OneLeaderPerTerm(run)
  {
    if rules.countVotersOnce || |members| <= 3 {
      forall run: seq<Cluster> | IsRun(rules, run) && run[0].members == members ensures OneLeaderPerTerm(run) {
        if rules.countVotersOnce { VotersDecideRun(rules, run); } else { SmallClusterSafe(rules, run); }
      }
    } else {
      var run := TwoLeaders(rules, members);
      assert !OneLeaderPerTerm(run);
    }
  }

  /** The code itself elects at most one leader a term exactly in clusters of at most three nodes. */
  lemma CounterSafeExactlyWhen(members: seq<NodeId>)
    requires ValidMembers(members)
    ensures |members| <= 3 <==>
      forall run: seq<Cluster> :: IsRun(AS_WRITTEN, run) && run[0].members == members ==> OneLeaderPerTerm(run)
  {
    ElectionsSafeExactlyWhen(AS_WRITTEN, members);
  }
}
