/** Counting votes and winning a term preserve the invariant. */
module RaftLeadership {
  import opened RaftTypes
  import opened RaftSteps
  import opened RaftCluster
  import opened RaftStability
  import opened RaftQuorums
  import opened RaftLogs
  import opened RaftInductive

  function CountVote(x: NodeState, from: NodeId): NodeState {
    x.(votesReceived := x.votesReceived + 1, voters := x.voters + {from})
  }

  lemma CountVoteLocal(s: Cluster, n: NodeId, v: NodeId)
    requires NodeOk(s, n) && s.nodes[n].role == Candidate && v in Members(s.members)
    requires BallotFor(s, v, s.nodes[n].currentTerm, n)
    ensures var o := Outcome(CountVote(s.nodes[n], v), []);
      QuietUpdate(s, o) && RoleOk(Update(s, o), n) && ProgressOk(Update(s, o), n) && ApplyOk(o.node)
  {
    var o := Outcome(CountVote(s.nodes[n], v), []);
    assert RecordBallot(s, o.node, o.sent) == s.ballots;
    assert Update(s, o).ballots == s.ballots;
    forall u | u in o.node.voters ensures BallotFor(Update(s, o), u, s.nodes[n].currentTerm, n) {
      assert BallotFor(s, u, s.nodes[n].currentTerm, n);
    }
  }

  lemma CountVoteInv(s: Cluster, n: NodeId, msg: Message)
    requires Inv(s) && n in s.nodes && msg in s.net && msg.RequestVoteResponse? && msg.to == n
    requires s.nodes[n].role == Candidate && msg.term == s.nodes[n].currentTerm && msg.voteGranted
    ensures Advances(s, Update(s, Outcome(CountVote(s.nodes[n], msg.from), [])))
  {
    assert NodeOk(s, n) && MsgOk(s, msg);
    CountVoteLocal(s, n, msg.from);
    QuietInv(s, Outcome(CountVote(s.nodes[n], msg.from), []));
  }

  // ---------------------------------------------------------------- winning

  /** A quorum of ballots for n in term T leaves no other winner of T. */
  lemma OneWinner(s: Cluster, n: NodeId, T: nat, q: set<NodeId>)
    requires Inv(s) && T in s.elections && Quorum(s.members, q)
    requires forall v :: v in q ==> BallotFor(s, v, T, n)
    ensures s.elections[T].leader == n
  {
    assert ElectionOk(s, T);
    var f := QuorumsMeet(s.members, q, s.elections[T].voters);
    assert BallotFor(s, f, T, n) && BallotFor(s, f, T, s.elections[T].leader);
  }

  /** A candidate that a quorum voted for has not won its term before. */
  lemma TermUndecided(s: Cluster, n: NodeId)
    requires Inv(s) && n in s.nodes && s.nodes[n].role == Candidate
    requires Quorum(s.members, s.nodes[n].voters)
    ensures s.nodes[n].currentTerm !in s.elections
  {
    assert NodeOk(s, n);
    if s.nodes[n].currentTerm in s.elections {
      OneWinner(s, n, s.nodes[n].currentTerm, s.nodes[n].voters);
    }
  }

  /** Leader completeness for a fresh winner: each earlier leader's entry is in the winner's log
      or is refused by the quorum that elected it. */
  lemma WinnerComplete(s: Cluster, n: NodeId, T: nat, m: nat)
    requires Inv(s) && Campaigning(s, n) && Quorum(s.members, s.nodes[n].voters)
    requires T < s.nodes[n].currentTerm && Eligible(s, T, m)
    ensures Holds(s.elections, s.nodes[n].log, T, m) || Blocked(s, T, m)
  {
    var U, q := s.nodes[n].currentTerm, s.nodes[n].voters;
    assert NodeOk(s, n);
    if f :| f in q && Acked(s, f, T, m) {
      assert BallotFor(s, f, U, n);
      assert BallotOk(s, f, U);
    } else {
      forall f | f in q ensures Refuses(s, f, T, m) {
        assert BallotFor(s, f, U, n);
        assert BallotOk(s, f, U);
      }
      assert RefusingSet(s, q, T, m);
    }
  }

  lemma WinHistory(s: Cluster, n: NodeId)
    requires n in s.nodes && s.nodes[n].id == n
    ensures var s' := Update(s, BecomeLeader(s.nodes[n])); var x := s.nodes[n];
      && s'.ballots == s.ballots && s'.acks == s.acks
      && s'.elections == s.elections[x.currentTerm := Election(n, x.voters, x.log)]
  {
    var x := s.nodes[n];
    var o := BecomeLeader(x);
    if |o.sent| == 1 {
      BroadcastReaches(n, x.clusterNodes, (to: NodeId) => AppendEntriesFor(o.node, to), o.sent[0]);
    }
  }

  lemma WinExt(s: Cluster, n: NodeId)
    requires Campaigning(s, n) && NodeOk(s, n)
    ensures var s' := Update(s, BecomeLeader(s.nodes[n])); var x := s.nodes[n];
      && s'.ballots == s.ballots && s'.acks == s.acks
      && s'.elections == s.elections[x.currentTerm := Election(n, x.voters, x.log)]
      && Ext(s, s', n)
  {
    var x := s.nodes[n];
    WinHistory(s, n);
    assert forall i :: 0 < i < |x.log| ==> x.log[i].term in s.elections;
  }

  lemma WinRole(s: Cluster, n: NodeId)
    requires Campaigning(s, n) && NodeOk(s, n)
    ensures var s' := Update(s, BecomeLeader(s.nodes[n]));
      RoleOk(s', n) && ProgressOk(s', n)
  {
    var x := s.nodes[n];
    var s' := Update(s, BecomeLeader(x));
    var y := s'.nodes[n];
    WinExt(s, n);
    forall f | f in s'.members && f != n
      ensures Get(y.nextIndex, f) == |y.log| && Get(y.matchIndex, f) == 0
    {
      ResetProgressValue(x.nextIndex, n, x.clusterNodes, |x.log|, f);
      ResetProgressValue(x.matchIndex, n, x.clusterNodes, 0, f);
    }
    assert BallotFor(s, n, x.currentTerm, n);
  }

  lemma WinNodeOk(s: Cluster, n: NodeId)
    requires Campaigning(s, n) && NodeOk(s, n)
    ensures NodeOk(Update(s, BecomeLeader(s.nodes[n])), n)
  {
    var x := s.nodes[n];
    var s' := Update(s, BecomeLeader(x));
    WinExt(s, n);
    WinRole(s, n);
    LogKeptNodeOk(s, s', n);
  }

  lemma WinElectionOk(s: Cluster, n: NodeId)
    requires Inv(s) && Campaigning(s, n) && Quorum(s.members, s.nodes[n].voters)
    ensures ElectionOk(Update(s, BecomeLeader(s.nodes[n])), s.nodes[n].currentTerm)
  {
    var x, U := s.nodes[n], s.nodes[n].currentTerm;
    var s' := Update(s, BecomeLeader(x));
    assert NodeOk(s, n);
    WinExt(s, n);
    GroundedStable(s, s', n, x.log);
    assert BallotOk(s, n, U);
    LeaderLogsFromInv(s);
    GroundedAscends(s.elections, x.log);
    forall v | v in x.voters ensures BallotFor(s', v, U, n) {
      assert BallotFor(s, v, U, n);
    }
    forall T: nat, m: nat | T < U && Eligible(s', T, m)
      ensures Holds(s'.elections, x.log, T, m) || Blocked(s', T, m)
    {
      assert Eligible(s, T, m);
      WinnerComplete(s, n, T, m);
      KeptOrBlockedStable(s, s', n, x.log, T, m);
    }
  }

  lemma LeaderMessagesOk(s: Cluster, o: Outcome)
    requires NodeOk(Update(s, o), o.node.id) && o.node.id != NO_NODE && o.node.role == Leader
    requires o.sent == SendHeartbeats(o.node)
    ensures forall msg :: msg in o.sent ==> MsgOk(Update(s, o), msg)
  {
    forall msg | msg in o.sent ensures MsgOk(Update(s, o), msg) {
      HeartbeatsOk(Update(s, o), o.node.id, msg);
    }
  }

  lemma WinInv(s: Cluster, n: NodeId)
    requires Inv(s) && n in s.nodes && s.nodes[n].role == Candidate
    requires |s.nodes[n].voters| >= |s.members| / 2 + 1
    ensures Advances(s, Update(s, BecomeLeader(s.nodes[n])))
  {
    assert NodeOk(s, n);
    TermUndecided(s, n);
    WinLocal(s, n);
    WinElectionOk(s, n);
    StepInv(s, Update(s, BecomeLeader(s.nodes[n])), n);
  }

  lemma WinLocal(s: Cluster, n: NodeId)
    requires Inv(s) && Campaigning(s, n)
    ensures var x, s' := s.nodes[n], Update(s, BecomeLeader(s.nodes[n]));
      && Ext(s, s', n) && NodeOk(s', n) && CommitKept(x, s'.nodes[n])
      && s'.ballots == s.ballots
      && s'.elections == s.elections[x.currentTerm := Election(n, x.voters, x.log)]
      && forall msg :: msg in s'.net ==> msg in s.net || MsgOk(s', msg)
  {
    assert NodeOk(s, n);
    WinExt(s, n);
    WinNodeOk(s, n);
    LeaderMessagesOk(s, BecomeLeader(s.nodes[n]));
  }

  lemma VoteGrantedInv(rules: Rules, s: Cluster, n: NodeId, msg: Message)
    requires Inv(s) && n in s.nodes && msg in s.net && msg.RequestVoteResponse? && msg.to == n
    requires s.nodes[n].role == Candidate && msg.term == s.nodes[n].currentTerm && msg.voteGranted
    requires rules.countVotersOnce
    ensures var y := CountVote(s.nodes[n], msg.from);
      Advances(s, Update(s, if Elected(rules, y) then BecomeLeader(y) else Outcome(y, [])))
  {
    CountVoteInv(s, n, msg);
    var y := CountVote(s.nodes[n], msg.from);
    if Elected(rules, y) {
      var t := Update(s, Outcome(y, []));
      assert MsgOk(s, msg) && NodeOk(s, n);
      CountVoteLocal(s, n, msg.from);
      SplitUpdate(s, y, BecomeLeader(y));
      WinInv(t, n);
      AdvancesTransitive(s, t, Update(t, BecomeLeader(y)));
    }
  }

  lemma RequestVoteResponseInv(rules: Rules, s: Cluster, n: NodeId, msg: Message)
    requires Inv(s) && n in s.nodes && msg in s.net && msg.RequestVoteResponse? && msg.to == n
    requires rules.countVotersOnce
    ensures Advances(s, Update(s, HandleRequestVoteResponse(rules, s.nodes[n], msg)))
  {
    var x := s.nodes[n];
    assert NodeOk(s, n) && MsgOk(s, msg);
    var o := HandleRequestVoteResponse(rules, x, msg);
    if x.role != Candidate || msg.term < x.currentTerm {
      SameRoleInv(s, o);
    } else if msg.term > x.currentTerm {
      NewTermInv(s, o);
    } else if !msg.voteGranted {
      SameRoleInv(s, o);
    } else {
      VoteGrantedInv(rules, s, n, msg);
    }
  }
}
