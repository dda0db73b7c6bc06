/** Split votes: a candidate that times out asks again in the term it has, so that a cluster whose nodes
    all stand in one term stays that way. */
module RaftSplitVotes {
  import opened RaftTypes
  import opened RaftSteps
  import opened RaftCluster
  import opened RaftQuorums
  import opened RaftPaths
  import opened RaftAnswers
  import opened RaftLetters
  import opened RaftBallots
  import opened RaftSafety

  // ---------------------------------------------------------------- what a split vote is

  /** Every node stands for election in the same term. */
  ghost predicate AllStand(s: Cluster, term: nat) {
    forall n :: n in s.nodes ==> s.nodes[n].role == Candidate && s.nodes[n].currentTerm == term
  }

  ghost predicate Stands(s: Cluster, n: NodeId, term: nat) {
    && n in s.nodes && s.nodes[n].role == Candidate
    && s.nodes[n].currentTerm == term && s.nodes[n].votedFor == n
  }

  /** The message is no vote of that term, and no later news. */
  ghost predicate Helpless(msg: Message, term: nat) {
    && msg.from != msg.to && msg.from != NO_NODE && msg.term <= term
    && !(msg.RequestVoteResponse? && msg.voteGranted && msg.term == term)
  }

  ghost predicate SplitAt(s: Cluster, term: nat) {
    && Named(s)
    && (forall n {:trigger Stands(s, n, term)} :: n in s.nodes ==> Stands(s, n, term))
    && (forall msg {:trigger Helpless(msg, term)} :: msg in s.net ==> Helpless(msg, term))
  }

  // ---------------------------------------------------------------- it stays

  /** A candidate's outcome when nothing it hears can help it. */
  ghost predicate StandsOn(x: NodeState, o: Outcome) {
    && Signs(x, o)
    && o.node.role == Candidate && o.node.currentTerm == x.currentTerm && o.node.votedFor == x.votedFor
    && forall msg :: msg in o.sent ==> Helpless(msg, x.currentTerm)
  }

  /** A candidate whose election times out asks again, in the term it has. */
  lemma RetryStaysInTerm(x: NodeState)
    requires x.role == Candidate && |x.log| > 0 && x.id != NO_NODE
    ensures var o := Tick(x);
      && o.node == x.(votesReceived := 1, voters := {x.id})
      && forall msg :: msg in o.sent <==>
           exists v :: v in x.clusterNodes && v != x.id && msg == RequestOf(x, x.currentTerm, v)
  {
    forall msg
      ensures msg in Tick(x).sent <==>
                exists v :: v in x.clusterNodes && v != x.id && msg == RequestOf(x, x.currentTerm, v)
    {
      var y := Tick(x).node;
      BroadcastReaches(x.id, x.clusterNodes, (v: NodeId) => RequestVoteFor(x, v), msg);
      assert forall v :: RequestVoteFor(x, v) == RequestOf(x, x.currentTerm, v);
    }
  }

  lemma TimeoutStandsOn(x: NodeState)
    requires x.role == Candidate && |x.log| > 0 && x.id != NO_NODE
    ensures StandsOn(x, Tick(x))
  {
    TickSigns(x);
    RetryStaysInTerm(x);
  }

  lemma DeliveryStandsOn(rules: Rules, x: NodeState, msg: Message)
    requires x.role == Candidate && |x.log| > 0 && x.id != NO_NODE && x.votedFor == x.id
    requires Helpless(msg, x.currentTerm) && msg.to == x.id
    ensures StandsOn(x, HandleMessage(rules, x, msg))
  {
    ActSigns(rules, x, Receive(msg));
    match msg
    case RequestVote(_, _, _, _, _) =>
    case RequestVoteResponse(_, _, _, _) =>
    case AppendEntries(_, _, _, _, _, _, _) => EntriesAcceptedExactlyWhen(rules, x, msg);
    case AppendEntriesResponse(_, _, _, _, _) =>
  }

  lemma StepStaysSplit(rules: Rules, s: Cluster, a: Action, term: nat)
    requires SplitAt(s, term) && Enabled(s, a)
    ensures SplitAt(Next(rules, s, a), term)
  {
    var n, t := Actor(a), Next(rules, s, a);
    var x := s.nodes[n];
    assert Stands(s, n, term);
    match a {
      case Timeout(_) => TimeoutStandsOn(x);
      case Receive(msg) => assert Helpless(msg, term); DeliveryStandsOn(rules, x, msg);
      case ClientPropose(_, _) =>
      case ApplyOne(_) =>
    }
    assert StandsOn(x, Act(rules, x, a));
    forall m | m in t.nodes ensures Stands(t, m, term) {
      if m != n { assert Stands(s, m, term); }
    }
    forall msg | msg in t.net ensures Helpless(msg, term) {
      if msg in s.net { assert Helpless(msg, term); }
    }
  }

  lemma PathStaysSplit(rules: Rules, path: seq<Cluster>, i: nat, term: nat)
    requires IsPath(rules, path) && i + 1 < |path| && SplitAt(path[i], term)
    ensures SplitAt(path[i + 1], term)
  {
    assert StepAt(rules, path, i);
    var a :| Enabled(path[i], a) && path[i + 1] == Next(rules, path[i], a);
    StepStaysSplit(rules, path[i], a, term);
  }

  lemma SplitHasNoLeader(s: Cluster, term: nat)
    requires SplitAt(s, term)
    ensures forall n, U :: !Leads(s, n, U)
  {
    forall n, U ensures !Leads(s, n, U) {
      if n in s.nodes { assert Stands(s, n, term); }
    }
  }

  /** Once the vote is split it is split for good, whatever is delivered and whoever times out: no node
      leads, in any term, ever again. */
  lemma {:induction false} SplitIsForever(rules: Rules, path: seq<Cluster>, i: nat, j: nat, term: nat)
    requires IsPath(rules, path) && i <= j < |path| && SplitAt(path[i], term)
    ensures SplitAt(path[j], term) && forall n, U :: !Leads(path[j], n, U)
    decreases j
  {
    if i < j {
      SplitIsForever(rules, path, i, j - 1, term);
      PathStaysSplit(rules, path, j - 1, term);
    }
    SplitHasNoLeader(path[j], term);
  }

  // ---------------------------------------------------------------- it can happen

  /** The nodes of vs have timed out, each at its first term, and none has heard another. */
  ghost predicate StoodUp(s: Cluster, vs: set<NodeId>) {
    && Named(s)
    && (forall n {:trigger Stands(s, n, 1)} :: n in vs ==> Stands(s, n, 1))
    && (forall n {:trigger s.nodes[n]} :: n in s.nodes && n !in vs ==> s.nodes[n] == NewNode(n, s.members))
    && (forall msg {:trigger Helpless(msg, 1)} :: msg in s.net ==> Helpless(msg, 1))
  }

  lemma OneMoreStands(rules: Rules, s: Cluster, vs: set<NodeId>, n: NodeId)
    requires StoodUp(s, vs) && n in s.nodes && n !in vs
    ensures StoodUp(Next(rules, s, Timeout(n)), vs + {n})
  {
    var x, t := s.nodes[n], Next(rules, s, Timeout(n));
    TickSigns(x);
    var y := x.(role := Candidate, currentTerm := 1, votedFor := n);
    RequestLetters(y);
    forall m | m in vs + {n} ensures Stands(t, m, 1) {
      if m != n { assert Stands(s, m, 1); }
    }
    forall msg | msg in t.net ensures Helpless(msg, 1) {
      if msg in s.net { assert Helpless(msg, 1); }
    }
  }

  lemma {:induction false} StandUp(rules: Rules, members: seq<NodeId>, vs: set<NodeId>) returns (path: seq<Cluster>)
    requires ValidMembers(members) && vs <= Members(members)
    ensures IsPath(rules, path) && path[0] == Init(members)
    ensures Last(path).members == members && StoodUp(Last(path), vs)
    decreases |vs|
  {
    if |vs| == 0 {
      path := [Init(members)];
    } else {
      var fewer, last := OneLess(vs);
      var shorter := StandUp(rules, members, fewer);
      path := Extend(rules, shorter, Timeout(last));
      OneMoreStands(rules, Last(shorter), fewer, last);
    }
  }

  /** Every cluster has a run that ends with its vote split, before it ever had a leader. */
  lemma EveryClusterCanSplit(rules: Rules, members: seq<NodeId>) returns (run: seq<Cluster>)
    requires ValidMembers(members)
    ensures IsRun(rules, run) && run[0].members == members && SplitAt(Last(run), 1)
  {
    run := StandUp(rules, members, Members(members));
    PathIsRun(rules, run, members);
    var s := Last(run);
    forall n | n in s.nodes ensures Stands(s, n, 1) {
    }
  }

  // ---------------------------------------------------------------- seeing it

  lemma StandingIsSplit(s: Cluster, term: nat)
    requires VotesOk(s) && LettersOk(s) && AllStand(s, term)
    ensures SplitAt(s, term)
  {
    forall n | n in s.nodes ensures Stands(s, n, term) {
      assert VoterOk(s, n);
      assert BallotFor(s, n, term, n);
      assert CastOk(s, n, term);
    }
    forall msg | msg in s.net ensures Helpless(msg, term) {
      assert Posted(s, msg) && LetterOk(s, msg) && VoterOk(s, msg.from);
    }
  }

  /** In a run that counts each voter once, nodes that all stand in one term have split their votes. */
  lemma AllStandIsSplit(rules: Rules, run: seq<Cluster>, i: nat, term: nat)
    requires rules.countVotersOnce && IsRun(rules, run) && i < |run| && AllStand(run[i], term)
    ensures SplitAt(run[i], term)
  {
    RunVotes(rules, run, i);
    RunLetters(rules, run, i);
    StandingIsSplit(run[i], term);
  }
}
