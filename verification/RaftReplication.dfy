/** Replication, commitment and application preserve the invariant. */
module RaftReplication {
  import opened RaftTypes
  import opened RaftSteps
  import opened RaftCluster
  import opened RaftStability
  import opened RaftQuorums
  import opened RaftLogs
  import opened RaftInductive
  import opened RaftLeadership

  // ---------------------------------------------------------------- handing over committed entries

  /** NotifyReady queues exactly the entries between lastApplied and commitIndex, in order. */
  lemma {:induction false} NotifyReadyMeaning(x: NodeState)
    requires x.lastApplied <= x.commitIndex < |x.log|
    requires forall i :: 0 <= i < |x.log| ==> x.log[i].index == i
    ensures NotifyReady(x) == x.(lastApplied := x.commitIndex,
                                 applyCh := x.applyCh + x.log[x.lastApplied + 1..x.commitIndex + 1])
    decreases x.commitIndex - x.lastApplied
  {
    if x.lastApplied < x.commitIndex {
      var i := x.lastApplied + 1;
      var y := x.(lastApplied := i, applyCh := x.applyCh + [x.log[i]]);
      NotifyReadyMeaning(y);
      assert x.log[i..x.commitIndex + 1] == [x.log[i]] + x.log[i + 1..x.commitIndex + 1];
      assert y.applyCh + x.log[i + 1..x.commitIndex + 1] == x.applyCh + x.log[i..x.commitIndex + 1];
    }
  }

  /** x with the entries up to k handed over. */
  function HandedOver(x: NodeState, k: nat): NodeState
    requires x.lastApplied <= k < |x.log|
  {
    x.(commitIndex := k, lastApplied := k, applyCh := x.applyCh + x.log[x.lastApplied + 1..k + 1])
  }

  lemma HandedOverOk(x: NodeState, k: nat)
    requires ApplyOk(x) && x.commitIndex <= k < |x.log|
    ensures ApplyOk(HandedOver(x, k))
  {
    var more := x.log[x.lastApplied + 1..k + 1];
    assert x.applied + (x.applyCh + more) == x.log[1..x.lastApplied + 1] + more;
    assert x.log[1..x.lastApplied + 1] + more == x.log[1..k + 1];
  }

  lemma NotifyReadyApplyOk(x: NodeState, k: nat)
    requires ApplyOk(x) && x.commitIndex <= k < |x.log|
    requires forall i :: 0 <= i < |x.log| ==> x.log[i].index == i
    ensures var y := NotifyReady(x.(commitIndex := k));
      && ApplyOk(y)
      && y == x.(commitIndex := k, lastApplied := k, applyCh := y.applyCh)
  {
    NotifyReadyMeaning(x.(commitIndex := k));
    HandedOverOk(x, k);
    assert NotifyReady(x.(commitIndex := k)) == HandedOver(x, k);
  }

  lemma ApplyOkSamePrefix(x: NodeState, y: NodeState)
    requires ApplyOk(x) && Agree(y.log, x.log, x.commitIndex + 1)
    requires y.commitIndex == x.commitIndex && y.lastApplied == x.lastApplied && y.applyCh == x.applyCh
    requires y.applied == x.applied && y.machine == x.machine
    ensures ApplyOk(y)
  {
    assert y.log[1..x.lastApplied + 1] == x.log[1..x.lastApplied + 1];
  }

  // ---------------------------------------------------------------- committed entries

  /** What is durable is not blocked: a quorum meets every half. */
  lemma DurableNotBlocked(s: Cluster, T: nat, m: nat)
    requires ValidMembers(s.members) && Durable(s, T, m)
    ensures !Blocked(s, T, m)
  {
    var q :| AckingQuorum(s, q, T, m);
    if r :| RefusingSet(s, r, T, m) {
      var f := QuorumMeetsHalf(s.members, q, r);
      assert false;
    }
  }

  /** A durable entry is in the log of the leader of every later term, and of its own. */
  lemma DurableInLaterLeaders(s: Cluster, T: nat, m: nat, U: nat)
    requires Inv(s) && Durable(s, T, m) && T <= U && U in s.elections
    ensures Holds(s.elections, s.elections[U].log, T, m)
  {
    if T < U {
      DurableNotBlocked(s, T, m);
      assert ElectionOk(s, U);
    }
  }

  /** What any log has committed by term U agrees with the log of the leader of U. */
  lemma CommittedInLeader(s: Cluster, log: Log, k: nat, bound: nat, U: nat)
    requires Inv(s) && CommittedUpTo(s, log, k, bound) && bound <= U && U in s.elections
    requires log[0] == SENTINEL
    ensures Agree(log, s.elections[U].log, k + 1)
  {
    assert ElectionOk(s, U);
    if k > 0 {
      var T, m :| CommitWitness(s, log, k, bound, T, m);
      DurableInLaterLeaders(s, T, m, U);
    }
  }

  // ---------------------------------------------------------------- taking over a leader's entries

  /** n, in term T, replaces its log by `log'`: it keeps all it shares with the leader of T, and
      what it changes it takes from that leader. */
  ghost predicate FollowsLeader(s: Cluster, n: NodeId, log': Log) {
    && n in s.nodes
    && var T := s.nodes[n].currentTerm;
       && T in s.elections
       && var log, leader := s.nodes[n].log, s.elections[T].log;
          && (forall k: nat :: Agree(log, leader, k) ==> Agree(log', log, k))
          && (log' == log || (|log'| <= |leader| && log' == leader[..|log'|]))
  }

  function TakeLog(x: NodeState, log': Log): Outcome {
    Outcome(x.(log := log'), [])
  }

  /** A leader's own log is never replaced. */
  lemma LeaderKeepsLog(s: Cluster, n: NodeId, log': Log)
    requires NodeOk(s, n) && FollowsLeader(s, n, log') && s.nodes[n].role == Leader
    ensures log' == s.nodes[n].log
  {
    var log := s.nodes[n].log;
    assert s.elections[s.nodes[n].currentTerm].log == log;
    assert Agree(log, log, |log|);
    assert Agree(log', log, |log|);
  }

  lemma TakeLogHistory(s: Cluster, n: NodeId, log': Log)
    requires NodeOk(s, n) && FollowsLeader(s, n, log')
    ensures HistoryKept(s, TakeLog(s.nodes[n], log'))
  {
    if s.nodes[n].role == Leader { LeaderKeepsLog(s, n, log'); }
    var o := TakeLog(s.nodes[n], log');
    assert RecordBallot(s, o.node, o.sent) == s.ballots;
    assert RecordElection(s, o.node) == s.elections;
  }

  lemma TakeLogExt(s: Cluster, s': Cluster, n: NodeId, log': Log)
    requires n in s.nodes && FollowsLeader(s, n, log') && s'.nodes == s.nodes[n := s.nodes[n].(log := log')]
    requires s' == s.(nodes := s'.nodes)
    ensures Ext(s, s', n)
  {
  }

  lemma TakeLogRole(s: Cluster, s': Cluster, n: NodeId, log': Log)
    requires NodeOk(s, n) && FollowsLeader(s, n, log') && s'.nodes == s.nodes[n := s.nodes[n].(log := log')]
    requires s' == s.(nodes := s'.nodes)
    ensures RoleOk(s', n) && ProgressOk(s', n)
  {
    if s.nodes[n].role == Leader {
      LeaderKeepsLog(s, n, log');
      assert s'.nodes == s.nodes;
    }
  }

  lemma PrefixLogOk(s: Cluster, leader: Log, p: nat, T: nat)
    requires LogOk(s.elections, leader, T) && 0 < p <= |leader|
    ensures LogOk(s.elections, leader[..p], T)
  {
    forall i | 0 < i < p
      ensures leader[..p][i].term in s.elections
           && Agree(leader[..p], s.elections[leader[..p][i].term].log, i + 1)
    {
      assert Agree(leader, s.elections[leader[i].term].log, i + 1);
    }
  }

  /** Following the leader of the current term loses nothing that was acknowledged to an earlier
      one, unless that is blocked. */
  lemma TakeLogAcked(s: Cluster, s': Cluster, n: NodeId, log': Log)
    requires NodeOk(s, n) && FollowsLeader(s, n, log')
    requires Complete(s, s.nodes[n].currentTerm)
    requires Ext(s, s', n) && s'.elections == s.elections && s'.acks == s.acks && s'.nodes[n].log == log'
    ensures KeepsAcked(s', n)
  {
    var x := s.nodes[n];
    var U := x.currentTerm;
    forall T: nat, m: nat | Eligible(s', T, m) && Acked(s', n, T, m)
      ensures Holds(s'.elections, log', T, m) || Blocked(s', T, m)
    {
      assert Acked(s, n, T, m);
      if Blocked(s, T, m) {
        BlockedStable(s, s', n, T, m);
      } else {
        assert Holds(s.elections, x.log, T, m);
        assert T <= U;
        assert Agree(x.log, s.elections[U].log, m + 1);
      }
    }
  }

  lemma TakeLogNodeOk(s: Cluster, s': Cluster, n: NodeId, log': Log)
    requires NodeOk(s, n) && FollowsLeader(s, n, log') && s'.nodes == s.nodes[n := s.nodes[n].(log := log')]
    requires s' == s.(nodes := s'.nodes)
    requires Complete(s, s.nodes[n].currentTerm)
    requires LogOk(s.elections, s.elections[s.nodes[n].currentTerm].log, s.nodes[n].currentTerm)
    requires Agree(log', s.nodes[n].log, s.nodes[n].commitIndex + 1)
    ensures NodeOk(s', n)
  {
    var x := s.nodes[n];
    TakeLogExt(s, s', n, log');
    TakeLogRole(s, s', n, log');
    TakeLogAcked(s, s', n, log');
    ApplyOkSamePrefix(x, s'.nodes[n]);
    CommittedStable(s, s', n, x.log, log', x.commitIndex, x.currentTerm, x.currentTerm);
    if log' != x.log { PrefixLogOk(s, s.elections[x.currentTerm].log, |log'|, x.currentTerm); }
    assert AckOk(s', n);
  }

  lemma TakeLogUpdate(s: Cluster, n: NodeId, log': Log)
    requires NodeOk(s, n) && FollowsLeader(s, n, log')
    ensures Update(s, TakeLog(s.nodes[n], log')) == s.(nodes := s.nodes[n := s.nodes[n].(log := log')])
  {
    TakeLogHistory(s, n, log');
    assert Update(s, TakeLog(s.nodes[n], log')).net == s.net;
  }

  lemma TakeLogInv(s: Cluster, n: NodeId, log': Log)
    requires Inv(s) && FollowsLeader(s, n, log')
    ensures Advances(s, Update(s, TakeLog(s.nodes[n], log')))
  {
    var x := s.nodes[n];
    assert NodeOk(s, n) && ElectionOk(s, x.currentTerm);
    CommittedInLeader(s, x.log, x.commitIndex, x.currentTerm, x.currentTerm);
    TakeLogUpdate(s, n, log');
    var s' := Update(s, TakeLog(x, log'));
    TakeLogExt(s, s', n, log');
    TakeLogNodeOk(s, s', n, log');
    StepInv(s, s', n);
  }

  // ---------------------------------------------------------------- acknowledging

  /** n acknowledges index `i` of its term's leader log, which it holds. */
  ghost predicate AckStep(s: Cluster, o: Outcome, i: nat) {
    && o.node.id in s.nodes
    && var x, y := s.nodes[o.node.id], o.node;
       && x.currentTerm in s.elections
       && Agree(x.log, s.elections[x.currentTerm].log, i + 1)
       && y == x.(commitIndex := y.commitIndex, lastApplied := y.lastApplied, applyCh := y.applyCh)
       && (|| o.sent == []
           || exists to :: to != x.id && o.sent == [AppendEntriesResponse(x.currentTerm, x.id, to, true, i)])
  }

  lemma AckHistory(s: Cluster, o: Outcome, i: nat)
    requires AckStep(s, o, i) && RoleOk(s, o.node.id)
    ensures var n, s', T := o.node.id, Update(s, o), s.nodes[o.node.id].currentTerm;
      && s'.elections == s.elections && s'.ballots == s.ballots
      && (forall b :: b in s.acks ==> b in s'.acks && s'.acks[b] >= s.acks[b])
      && (forall b :: b in s'.acks && b != (n, T) ==> b in s.acks && s'.acks[b] == s.acks[b])
      && ((n, T) in s'.acks ==> s'.acks[(n, T)] <= i || ((n, T) in s.acks && s'.acks[(n, T)] == s.acks[(n, T)]))
  {
    assert RecordBallot(s, o.node, o.sent) == s.ballots;
    assert RecordElection(s, o.node) == s.elections;
  }

  lemma AckExt(s: Cluster, o: Outcome, i: nat)
    requires AckStep(s, o, i) && RoleOk(s, o.node.id)
    ensures var n, s' := o.node.id, Update(s, o);
      && Ext(s, s', n)
      && s'.elections == s.elections && s'.ballots == s.ballots
      && (forall T: nat, m: nat :: Acked(s', n, T, m) ==> Acked(s, n, T, m) || (T == o.node.currentTerm && m <= i))
  {
    AckHistory(s, o, i);
  }

  lemma AckRole(s: Cluster, o: Outcome, i: nat)
    requires AckStep(s, o, i) && RoleOk(s, o.node.id) && ProgressOk(s, o.node.id) && AckOk(s, o.node.id)
    ensures var n, s' := o.node.id, Update(s, o);
      RoleOk(s', n) && ProgressOk(s', n) && AckOk(s', n)
  {
    AckHistory(s, o, i);
    var s' := Update(s, o);
    assert forall f, T, m :: Acked(s, f, T, m) ==> Acked(s', f, T, m);
  }

  lemma AckKeepsAcked(s: Cluster, s': Cluster, n: NodeId, i: nat)
    requires Ext(s, s', n) && KeepsAcked(s, n) && s'.elections == s.elections && s'.nodes[n].log == s.nodes[n].log
    requires s.nodes[n].currentTerm in s.elections
    requires Agree(s.nodes[n].log, s.elections[s.nodes[n].currentTerm].log, i + 1)
    requires forall T: nat, m: nat ::
               Acked(s', n, T, m) ==> Acked(s, n, T, m) || (T == s.nodes[n].currentTerm && m <= i)
    ensures KeepsAcked(s', n)
  {
    forall T: nat, m: nat | Eligible(s', T, m) && Acked(s', n, T, m)
      ensures Holds(s'.elections, s'.nodes[n].log, T, m) || Blocked(s', T, m)
    {
      if Acked(s, n, T, m) {
        KeptOrBlockedStable(s, s', n, s.nodes[n].log, T, m);
      }
    }
  }

  lemma AckNodeOk(s: Cluster, o: Outcome, i: nat)
    requires AckStep(s, o, i) && NodeOk(s, o.node.id) && ApplyOk(o.node)
    requires o.node.commitIndex == s.nodes[o.node.id].commitIndex
          || CommittedUpTo(Update(s, o), o.node.log, o.node.commitIndex, o.node.currentTerm)
    ensures NodeOk(Update(s, o), o.node.id)
  {
    var n, s' := o.node.id, Update(s, o);
    var x := s.nodes[n];
    AckExt(s, o, i);
    AckRole(s, o, i);
    AckKeepsAcked(s, s', n, i);
    GroundedStable(s, s', n, x.log);
    CommittedStable(s, s', n, x.log, x.log, x.commitIndex, x.currentTerm, x.currentTerm);
  }

  lemma AckMessagesOk(s: Cluster, o: Outcome, i: nat)
    requires AckStep(s, o, i) && RoleOk(s, o.node.id) && o.node.id != NO_NODE
    ensures forall msg :: msg in o.sent ==> MsgOk(Update(s, o), msg)
  {
    AckHistory(s, o, i);
  }

  lemma AckInv(s: Cluster, o: Outcome, i: nat)
    requires Inv(s) && AckStep(s, o, i) && ApplyOk(o.node)
    requires o.node.commitIndex >= s.nodes[o.node.id].commitIndex
    requires o.node.commitIndex == s.nodes[o.node.id].commitIndex
          || CommittedUpTo(Update(s, o), o.node.log, o.node.commitIndex, o.node.currentTerm)
    ensures Advances(s, Update(s, o))
  {
    assert NodeOk(s, o.node.id);
    AckExt(s, o, i);
    AckNodeOk(s, o, i);
    AckMessagesOk(s, o, i);
    StepInv(s, Update(s, o), o.node.id);
  }

  /** What HandleAppendEntries does once the message's term is the node's and the logs match. */
  function Accept(x: NodeState, merged: Log, msg: Message): Outcome
    requires msg.AppendEntries? && |merged| > 0
  {
    var z := FollowCommit(x.(log := merged), msg.leaderCommit);
    Outcome(z, AppendEntriesReply(z, msg.from, true, msg.prevLogIndex + |msg.entries|))
  }

  lemma AcceptMerges(s: Cluster, n: NodeId, msg: Message)
    requires Inv(s) && n in s.nodes && MsgOk(s, msg) && msg.AppendEntries? && msg.to == n
    requires msg.term == s.nodes[n].currentTerm
    requires Matches(s.nodes[n].log, msg.prevLogIndex, msg.prevLogTerm)
    ensures msg.prevLogIndex < |s.nodes[n].log|
    ensures var merged := AppendNew(s.nodes[n].log, msg.prevLogIndex, msg.entries);
      && FollowsLeader(s, n, merged)
      && Agree(merged, s.elections[msg.term].log, msg.prevLogIndex + |msg.entries| + 1)
  {
    assert NodeOk(s, n) && ElectionOk(s, msg.term);
    AppendNewMeaning(s.elections, s.nodes[n].log, s.elections[msg.term].log,
                     msg.prevLogIndex, msg.prevLogTerm, msg.entries);
  }

  lemma FollowCommitOk(x: NodeState, leaderCommit: nat)
    requires ApplyOk(x) && leaderCommit < |x.log|
    requires forall i :: 0 <= i < |x.log| ==> x.log[i].index == i
    ensures var z := FollowCommit(x, leaderCommit);
      && ApplyOk(z)
      && z == x.(commitIndex := z.commitIndex, lastApplied := z.lastApplied, applyCh := z.applyCh)
      && z.commitIndex == if leaderCommit > x.commitIndex then leaderCommit else x.commitIndex
  {
    if leaderCommit > x.commitIndex { NotifyReadyApplyOk(x, leaderCommit); }
  }

  lemma FollowCommitStep(s: Cluster, n: NodeId, msg: Message)
    requires NodeOk(s, n) && MsgOk(s, msg) && msg.AppendEntries? && msg.to == n && msg.term == s.nodes[n].currentTerm
    requires Agree(s.nodes[n].log, s.elections[msg.term].log, msg.prevLogIndex + |msg.entries| + 1)
    ensures var o := Accept(s.nodes[n], s.nodes[n].log, msg);
      && AckStep(s, o, msg.prevLogIndex + |msg.entries|) && ApplyOk(o.node)
      && o.node.id == n && o.node.log == s.nodes[n].log
      && o.node.currentTerm == s.nodes[n].currentTerm
      && (o.node.commitIndex == s.nodes[n].commitIndex || o.node.commitIndex == msg.leaderCommit)
      && o.node.commitIndex >= s.nodes[n].commitIndex
  {
    FollowCommitOk(s.nodes[n], msg.leaderCommit);
    AcceptAnswers(s.nodes[n], msg);
  }

  lemma AcceptAnswers(x: NodeState, msg: Message)
    requires msg.AppendEntries? && |x.log| > 0 && msg.from != NO_NODE
    requires FollowCommit(x, msg.leaderCommit).id == x.id
    requires FollowCommit(x, msg.leaderCommit).currentTerm == x.currentTerm
    ensures Accept(x, x.log, msg) == Outcome(FollowCommit(x, msg.leaderCommit),
              [AppendEntriesResponse(x.currentTerm, x.id, msg.from, true, msg.prevLogIndex + |msg.entries|)])
  {
  }

  lemma FollowCommitCommitted(s: Cluster, n: NodeId, msg: Message, o: Outcome)
    requires NodeOk(s, n) && MsgOk(s, msg) && msg.AppendEntries? && msg.to == n && msg.term == s.nodes[n].currentTerm
    requires Agree(s.nodes[n].log, s.elections[msg.term].log, msg.prevLogIndex + |msg.entries| + 1)
    requires AckStep(s, o, msg.prevLogIndex + |msg.entries|) && o.node.id == n
    requires o.node.commitIndex == s.nodes[n].commitIndex || o.node.commitIndex == msg.leaderCommit
    ensures o.node.commitIndex == s.nodes[n].commitIndex
         || CommittedUpTo(Update(s, o), o.node.log, o.node.commitIndex, o.node.currentTerm)
  {
    AckExt(s, o, msg.prevLogIndex + |msg.entries|);
    CommittedStable(s, Update(s, o), n, s.elections[msg.term].log, o.node.log, msg.leaderCommit, msg.term, msg.term);
  }

  lemma FollowCommitReady(s: Cluster, n: NodeId, msg: Message)
    requires NodeOk(s, n) && MsgOk(s, msg) && msg.AppendEntries? && msg.to == n && msg.term == s.nodes[n].currentTerm
    requires Agree(s.nodes[n].log, s.elections[msg.term].log, msg.prevLogIndex + |msg.entries| + 1)
    ensures var o := Accept(s.nodes[n], s.nodes[n].log, msg);
      && o.node.id == n && AckStep(s, o, msg.prevLogIndex + |msg.entries|) && ApplyOk(o.node)
      && o.node.commitIndex >= s.nodes[n].commitIndex
      && (o.node.commitIndex == s.nodes[n].commitIndex
          || CommittedUpTo(Update(s, o), o.node.log, o.node.commitIndex, o.node.currentTerm))
  {
    FollowCommitStep(s, n, msg);
    FollowCommitCommitted(s, n, msg, Accept(s.nodes[n], s.nodes[n].log, msg));
  }

  lemma FollowCommitInv(s: Cluster, n: NodeId, msg: Message)
    requires Inv(s) && n in s.nodes && MsgOk(s, msg) && msg.AppendEntries? && msg.to == n
    requires msg.term == s.nodes[n].currentTerm
    requires Agree(s.nodes[n].log, s.elections[msg.term].log, msg.prevLogIndex + |msg.entries| + 1)
    ensures Advances(s, Update(s, Accept(s.nodes[n], s.nodes[n].log, msg)))
  {
    assert NodeOk(s, n);
    FollowCommitReady(s, n, msg);
    AckInv(s, Accept(s.nodes[n], s.nodes[n].log, msg), msg.prevLogIndex + |msg.entries|);
  }

  lemma AcceptInv(s: Cluster, n: NodeId, msg: Message)
    requires Inv(s) && n in s.nodes && msg in s.net && msg.AppendEntries? && msg.to == n
    requires msg.term == s.nodes[n].currentTerm
    requires Matches(s.nodes[n].log, msg.prevLogIndex, msg.prevLogTerm)
    ensures msg.prevLogIndex < |s.nodes[n].log|
    ensures Advances(s, Update(s, Accept(s.nodes[n], AppendNew(s.nodes[n].log, msg.prevLogIndex, msg.entries), msg)))
  {
    assert MsgOk(s, msg) && NodeOk(s, n);
    AcceptMerges(s, n, msg);
    var merged := AppendNew(s.nodes[n].log, msg.prevLogIndex, msg.entries);
    var t := Update(s, TakeLog(s.nodes[n], merged));
    TakeLogInv(s, n, merged);
    TakeLogUpdate(s, n, merged);
    TakeLogExt(s, t, n, merged);
    MsgStable(s, t, n, msg);
    FollowCommitInv(t, n, msg);
    AcceptInTwo(s, n, merged, msg);
    AdvancesTransitive(s, t, Update(t, Accept(t.nodes[n], merged, msg)));
  }

  lemma AcceptInTwo(s: Cluster, n: NodeId, merged: Log, msg: Message)
    requires NodeOk(s, n) && FollowsLeader(s, n, merged) && msg.AppendEntries? && |merged| > 0
    ensures var t := Update(s, TakeLog(s.nodes[n], merged));
      Update(t, Accept(t.nodes[n], merged, msg)) == Update(s, Accept(s.nodes[n], merged, msg))
  {
    TakeLogHistory(s, n, merged);
    var x := s.nodes[n];
    var o := Accept(x, merged, msg);
    FollowCommitKeepsId(x.(log := merged), msg.leaderCommit);
    SplitUpdate(s, x.(log := merged), o);
  }

  lemma FollowCommitKeepsId(x: NodeState, leaderCommit: nat)
    requires |x.log| > 0
    ensures FollowCommit(x, leaderCommit).id == x.id
  {
    if leaderCommit > x.commitIndex {
      NotifyReadyOnlyQueues(x.(commitIndex := Min(leaderCommit, |x.log| - 1)));
    }
  }

  lemma RejectInv(s: Cluster, n: NodeId, to: NodeId)
    requires Inv(s) && n in s.nodes && to != n
    ensures var x := s.nodes[n];
      Advances(s, Update(s, Outcome(x, AppendEntriesReply(x, to, false, x.commitIndex))))
  {
    var x := s.nodes[n];
    assert NodeOk(s, n);
    SameRoleInv(s, Outcome(x, AppendEntriesReply(x, to, false, x.commitIndex)));
  }

  /** What HandleAppendEntries does once the message's term is adopted. */
  function Consider(x: NodeState, msg: Message): Outcome
    requires msg.AppendEntries? && |x.log| > 0
  {
    if !Matches(x.log, msg.prevLogIndex, msg.prevLogTerm) then
      Outcome(x, AppendEntriesReply(x, msg.from, false, x.commitIndex))
    else Accept(x, AppendNew(x.log, msg.prevLogIndex, msg.entries), msg)
  }

  lemma ConsiderInv(s: Cluster, n: NodeId, msg: Message)
    requires Inv(s) && n in s.nodes && msg in s.net && msg.AppendEntries? && msg.to == n && |s.nodes[n].log| > 0
    requires msg.term == s.nodes[n].currentTerm
    ensures Advances(s, Update(s, Consider(s.nodes[n], msg)))
    ensures Consider(s.nodes[n], msg).node.id == n
  {
    assert MsgOk(s, msg) && NodeOk(s, n);
    if !Matches(s.nodes[n].log, msg.prevLogIndex, msg.prevLogTerm) {
      RejectInv(s, n, msg.from);
    } else {
      AcceptInv(s, n, msg);
      var merged := AppendNew(s.nodes[n].log, msg.prevLogIndex, msg.entries);
      FollowCommitKeepsId(s.nodes[n].(log := merged), msg.leaderCommit);
    }
  }

  lemma AppendEntriesSplit(rules: Rules, s: Cluster, n: NodeId, msg: Message)
    requires NodeOk(s, n) && msg.AppendEntries? && msg.term >= s.nodes[n].currentTerm && |s.nodes[n].log| > 0
    requires rules.mergeFromFirstNew
    ensures var y := AdoptTerm(s.nodes[n], msg.term);
      Consider(y, msg).node.id == n ==>
        Update(s, HandleAppendEntries(rules, s.nodes[n], msg)) == Update(Update(s, Outcome(y, [])), Consider(y, msg))
  {
    var y := AdoptTerm(s.nodes[n], msg.term);
    AdoptTermHistory(s, n, msg.term);
    assert HandleAppendEntries(rules, s.nodes[n], msg) == Consider(y, msg);
    if Consider(y, msg).node.id == n { SplitUpdate(s, y, Consider(y, msg)); }
  }

  lemma AppendEntriesInv(rules: Rules, s: Cluster, n: NodeId, msg: Message)
    requires Inv(s) && n in s.nodes && msg in s.net && msg.AppendEntries? && msg.to == n && |s.nodes[n].log| > 0
    requires rules.mergeFromFirstNew
    ensures Advances(s, Update(s, HandleAppendEntries(rules, s.nodes[n], msg)))
  {
    assert MsgOk(s, msg);
    if msg.term < s.nodes[n].currentTerm {
      RejectInv(s, n, msg.from);
    } else {
      var y := AdoptTerm(s.nodes[n], msg.term);
      var t := Update(s, Outcome(y, []));
      AdoptTermInv(s, n, msg.term);
      assert t.nodes[n] == y && msg in t.net;
      ConsiderInv(t, n, msg);
      assert NodeOk(s, n);
      AppendEntriesSplit(rules, s, n, msg);
      AdvancesTransitive(s, t, Update(t, Consider(y, msg)));
    }
  }

  // ---------------------------------------------------------------- the leader's side

  ghost predicate ProgressStep(s: Cluster, o: Outcome) {
    && o.node.id in s.nodes
    && o.sent == []
    && var x, y := s.nodes[o.node.id], o.node;
       y == x.(nextIndex := y.nextIndex, matchIndex := y.matchIndex)
  }

  lemma ProgressQuiet(s: Cluster, o: Outcome)
    requires ProgressStep(s, o) && NodeOk(s, o.node.id)
    ensures QuietUpdate(s, o) && RoleOk(Update(s, o), o.node.id) && ApplyOk(o.node)
    ensures Update(s, o) == s.(nodes := s.nodes[o.node.id := o.node])
  {
    assert RecordBallot(s, o.node, o.sent) == s.ballots;
    assert RecordElection(s, o.node) == s.elections;
    assert Update(s, o).net == s.net;
  }

  function Acknowledge(x: NodeState, from: NodeId, i: nat): NodeState {
    x.(matchIndex := x.matchIndex[from := i], nextIndex := x.nextIndex[from := i + 1])
  }

  lemma AcknowledgeInv(s: Cluster, n: NodeId, msg: Message)
    requires Inv(s) && n in s.nodes && msg in s.net && msg.AppendEntriesResponse? && msg.to == n && msg.success
    requires s.nodes[n].role == Leader && msg.term == s.nodes[n].currentTerm
    ensures Advances(s, Update(s, Outcome(Acknowledge(s.nodes[n], msg.from, msg.matchIndex), [])))
  {
    var x := s.nodes[n];
    var o := Outcome(Acknowledge(x, msg.from, msg.matchIndex), []);
    assert NodeOk(s, n) && MsgOk(s, msg) && NodeOk(s, msg.from);
    ProgressQuiet(s, o);
    var s' := Update(s, o);
    assert s'.elections == s.elections && s'.acks == s.acks;
    assert Acked(s, msg.from, x.currentTerm, msg.matchIndex);
    forall f | f in s.members && f != n
      ensures 1 <= Get(o.node.nextIndex, f) <= |x.log|
      ensures Get(o.node.matchIndex, f) == 0 || Acked(s', f, x.currentTerm, Get(o.node.matchIndex, f))
    {
    }
    assert ProgressOk(s', n);
    QuietInv(s, o);
  }

  /** The greatest index below `end` that passes the test, or the old commitIndex. */
  lemma {:induction false} CommitTargetMeaning(ownTermOnly: bool, x: NodeState, end: nat)
    ensures var k := CommitTarget(ownTermOnly, x, end);
      && x.commitIndex <= k
      && (k > x.commitIndex ==> k < end && Committable(ownTermOnly, x, k))
      && (forall i :: k < i < end ==> !Committable(ownTermOnly, x, i))
  {
    if !(end <= x.commitIndex + 1) && !Committable(ownTermOnly, x, end - 1) {
      CommitTargetMeaning(ownTermOnly, x, end - 1);
    }
  }

  lemma {:induction false} ReplicasFall(self: NodeId, peers: seq<NodeId>, matchIndex: map<NodeId, nat>, i: nat, j: nat)
    requires i <= j
    ensures Replicas(self, peers, matchIndex, j) <= Replicas(self, peers, matchIndex, i)
  {
    if |peers| > 0 { ReplicasFall(self, peers[..|peers| - 1], matchIndex, i, j); }
  }

  /** Fewer nodes store a higher index, so the scan that goes on behind an index without a majority
      finds what a scan that stops there would: exactly the indices up to its result pass. */
  lemma MajorityUpToTarget(x: NodeState, i: nat)
    requires x.commitIndex < i
    ensures Committable(false, x, i) <==> i <= CommitTarget(false, x, |x.log|)
  {
    var k := CommitTarget(false, x, |x.log|);
    CommitTargetMeaning(false, x, |x.log|);
    if i <= k { ReplicasFall(x.id, x.clusterNodes, x.matchIndex, i, k); }
  }

  /** An index the leader may commit is durable. */
  lemma CommittableDurable(rules: Rules, s: Cluster, n: NodeId, i: nat)
    requires NodeOk(s, n) && ValidMembers(s.members) && s.nodes[n].role == Leader && CommitsSafely(rules, s.members)
    requires i > 0 && Committable(rules.commitOwnTermOnly, s.nodes[n], i)
    ensures Durable(s, s.nodes[n].currentTerm, i)
  {
    var x := s.nodes[n];
    var q := ReplicaSet(n, Members(s.members), x.matchIndex, i);
    ReplicasCounts(n, s.members, x.matchIndex, i);
    assert s.elections[x.currentTerm].log == x.log;
    forall f | f in q ensures Acked(s, f, x.currentTerm, i) {
      if f != n { assert Acked(s, f, x.currentTerm, Get(x.matchIndex, f)); }
    }
    assert q <= Members(s.members);
    assert AckingQuorum(s, q, x.currentTerm, i);
  }

  lemma CheckCommitOk(rules: Rules, s: Cluster, n: NodeId)
    requires NodeOk(s, n) && ValidMembers(s.members) && s.nodes[n].role == Leader && CommitsSafely(rules, s.members)
    ensures var x := s.nodes[n]; var z := CheckCommitIndex(rules, x);
      && ApplyOk(z)
      && z == x.(commitIndex := z.commitIndex, lastApplied := z.lastApplied, applyCh := z.applyCh)
      && z.commitIndex >= x.commitIndex
      && (z.commitIndex == x.commitIndex || CommittedUpTo(s, x.log, z.commitIndex, x.currentTerm))
  {
    var x := s.nodes[n];
    var k := CommitTarget(rules.commitOwnTermOnly, x, |x.log|);
    CommitTargetMeaning(rules.commitOwnTermOnly, x, |x.log|);
    if k > x.commitIndex {
      NotifyReadyApplyOk(x, k);
      CommittableDurable(rules, s, n, k);
      assert CommitWitness(s, x.log, k, x.currentTerm, x.currentTerm, k);
    }
  }

  lemma CheckCommitInv(rules: Rules, s: Cluster, n: NodeId)
    requires Inv(s) && n in s.nodes && s.nodes[n].role == Leader && CommitsSafely(rules, s.members)
    ensures var z := CheckCommitIndex(rules, s.nodes[n]);
      Advances(s, Update(s, Outcome(z, if z.commitIndex > 0 then SendHeartbeats(z) else [])))
  {
    var x := s.nodes[n];
    var z := CheckCommitIndex(rules, x);
    var o := Outcome(z, if z.commitIndex > 0 then SendHeartbeats(z) else []);
    assert NodeOk(s, n);
    CheckCommitOk(rules, s, n);
    HeartbeatsOnly(z);
    SameRoleQuiet(s, o);
    QuietExt(s, o);
    if z.commitIndex != x.commitIndex {
      CommittedStable(s, Update(s, o), n, x.log, z.log, z.commitIndex, x.currentTerm, x.currentTerm);
    }
    if NodeOk(Update(s, o), n) && z.commitIndex > 0 { LeaderMessagesOk(s, o); }
    SameRoleInv(s, o);
  }

  lemma HeartbeatsOnly(z: NodeState)
    ensures forall msg :: msg in SendHeartbeats(z) ==> msg.AppendEntries?
  {
    forall msg | msg in SendHeartbeats(z) ensures msg.AppendEntries? {
      BroadcastReaches(z.id, z.clusterNodes, (to: NodeId) => AppendEntriesFor(z, to), msg);
    }
  }

  lemma SuccessSplit(rules: Rules, s: Cluster, n: NodeId, msg: Message)
    requires NodeOk(s, n) && msg.AppendEntriesResponse? && msg.success && msg.from != NO_NODE
    requires s.nodes[n].role == Leader && msg.term == s.nodes[n].currentTerm
    ensures var y := Acknowledge(s.nodes[n], msg.from, msg.matchIndex);
      var z := CheckCommitIndex(rules, y);
      Update(s, HandleAppendEntriesResponse(rules, s.nodes[n], msg))
        == Update(Update(s, Outcome(y, [])), Outcome(z, if z.commitIndex > 0 then SendHeartbeats(z) else []))
  {
    var y := Acknowledge(s.nodes[n], msg.from, msg.matchIndex);
    ProgressQuiet(s, Outcome(y, []));
    CheckCommitKeepsId(rules, y);
    SplitUpdate(s, y, HandleAppendEntriesResponse(rules, s.nodes[n], msg));
  }

  lemma CheckCommitKeepsId(rules: Rules, x: NodeState)
    ensures CheckCommitIndex(rules, x).id == x.id
  {
    NotifyReadyOnlyQueues(x.(commitIndex := CommitTarget(rules.commitOwnTermOnly, x, |x.log|)));
  }

  lemma SuccessInv(rules: Rules, s: Cluster, n: NodeId, msg: Message)
    requires Inv(s) && n in s.nodes && msg in s.net && msg.AppendEntriesResponse? && msg.to == n && msg.success
    requires s.nodes[n].role == Leader && msg.term == s.nodes[n].currentTerm && msg.from != NO_NODE
    requires CommitsSafely(rules, s.members)
    ensures Advances(s, Update(s, HandleAppendEntriesResponse(rules, s.nodes[n], msg)))
  {
    var t := Update(s, Outcome(Acknowledge(s.nodes[n], msg.from, msg.matchIndex), []));
    assert NodeOk(s, n);
    AcknowledgeInv(s, n, msg);
    assert NodeOk(t, n);
    SuccessSplit(rules, s, n, msg);
    CheckCommitInv(rules, t, n);
    AdvancesTransitive(s, t, Update(s, HandleAppendEntriesResponse(rules, s.nodes[n], msg)));
  }

  /** A rejected follower's nextIndex moves back by one, never below 1. */
  function BackOff(x: NodeState, from: NodeId): NodeState {
    var next := Get(x.nextIndex, from);
    if next > 1 then x.(nextIndex := x.nextIndex[from := next - 1]) else x
  }

  lemma BackOffInv(s: Cluster, n: NodeId, from: NodeId)
    requires Inv(s) && n in s.nodes && s.nodes[n].role == Leader
    ensures Advances(s, Update(s, Outcome(BackOff(s.nodes[n], from), [])))
  {
    var x := s.nodes[n];
    var o := Outcome(BackOff(x, from), []);
    assert NodeOk(s, n);
    ProgressQuiet(s, o);
    assert Update(s, o).elections == s.elections && Update(s, o).acks == s.acks;
    assert ProgressOk(Update(s, o), n) by {
      assert forall f, T, m :: Acked(s, f, T, m) ==> Acked(Update(s, o), f, T, m);
    }
    QuietInv(s, o);
  }

  lemma ResendInv(s: Cluster, n: NodeId, to: NodeId)
    requires Inv(s) && n in s.nodes && s.nodes[n].role == Leader && to in s.members && to != n
    ensures Advances(s, Update(s, Outcome(s.nodes[n], [AppendEntriesFor(s.nodes[n], to)])))
  {
    var o := Outcome(s.nodes[n], [AppendEntriesFor(s.nodes[n], to)]);
    assert NodeOk(s, n);
    if NodeOk(Update(s, o), n) { AppendEntriesForOk(Update(s, o), n, to); }
    SameRoleInv(s, o);
  }

  lemma FailureInv(rules: Rules, s: Cluster, n: NodeId, msg: Message)
    requires Inv(s) && n in s.nodes && msg in s.net && msg.AppendEntriesResponse? && msg.to == n && !msg.success
    requires s.nodes[n].role == Leader && msg.term == s.nodes[n].currentTerm && msg.from != NO_NODE
    ensures Advances(s, Update(s, HandleAppendEntriesResponse(rules, s.nodes[n], msg)))
  {
    var y := BackOff(s.nodes[n], msg.from);
    var t := Update(s, Outcome(y, []));
    assert NodeOk(s, n) && MsgOk(s, msg);
    ProgressQuiet(s, Outcome(y, []));
    BackOffInv(s, n, msg.from);
    ResendInv(t, n, msg.from);
    SplitUpdate(s, y, HandleAppendEntriesResponse(rules, s.nodes[n], msg));
    AdvancesTransitive(s, t, Update(s, HandleAppendEntriesResponse(rules, s.nodes[n], msg)));
  }

  lemma IgnoreInv(s: Cluster, n: NodeId)
    requires Inv(s) && n in s.nodes
    ensures Advances(s, Update(s, Outcome(s.nodes[n], [])))
  {
    assert NodeOk(s, n);
    SameRoleInv(s, Outcome(s.nodes[n], []));
  }

  lemma StepDownInv(s: Cluster, n: NodeId, term: nat)
    requires Inv(s) && n in s.nodes && term > s.nodes[n].currentTerm
    ensures Advances(s, Update(s, Outcome(s.nodes[n].(currentTerm := term, role := Follower), [])))
  {
    assert NodeOk(s, n);
    NewTermInv(s, Outcome(s.nodes[n].(currentTerm := term, role := Follower), []));
  }

  lemma AppendEntriesResponseInv(rules: Rules, s: Cluster, n: NodeId, msg: Message)
    requires Inv(s) && n in s.nodes && msg in s.net && msg.AppendEntriesResponse? && msg.to == n
    requires CommitsSafely(rules, s.members)
    ensures Advances(s, Update(s, HandleAppendEntriesResponse(rules, s.nodes[n], msg)))
  {
    if msg.from == NO_NODE || s.nodes[n].role != Leader || msg.term < s.nodes[n].currentTerm {
      IgnoreInv(s, n);
    } else if msg.term > s.nodes[n].currentTerm {
      StepDownInv(s, n, msg.term);
    } else if msg.success {
      SuccessInv(rules, s, n, msg);
    } else {
      FailureInv(rules, s, n, msg);
    }
  }

  // ---------------------------------------------------------------- proposing

  lemma ProposeExt(s: Cluster, n: NodeId, command: Command)
    requires NodeOk(s, n) && s.nodes[n].role == Leader
    ensures var x := s.nodes[n]; var s' := Update(s, Propose(x, command));
      && s'.ballots == s.ballots && s'.acks == s.acks
      && s'.elections == s.elections[x.currentTerm := s.elections[x.currentTerm].(log := s'.nodes[n].log)]
      && Ext(s, s', n) && RoleOk(s', n)
  {
    var o := Propose(s.nodes[n], command);
    HeartbeatsOnly(o.node);
    assert |o.sent| == 1 ==> o.sent[0] in o.sent;
    assert BallotFor(s, n, s.nodes[n].currentTerm, n);
  }

  lemma ExtendLogOk(elections: map<nat, Election>, log: Log, entry: LogEntry, T: nat)
    requires LogOk(elections, log, T) && T in elections && elections[T].log == log + [entry]
    requires entry.term == T && entry.index == |log|
    ensures LogOk(elections, log + [entry], T)
  {
    var log' := log + [entry];
    forall i | 0 < i < |log'|
      ensures log'[i].term in elections && Agree(log', elections[log'[i].term].log, i + 1)
    {
      if i < |log| { assert Agree(log, elections[log[i].term].log, i + 1); }
    }
  }

  lemma ProposeLogOk(s: Cluster, n: NodeId, command: Command)
    requires NodeOk(s, n) && s.nodes[n].role == Leader
    ensures var s' := Update(s, Propose(s.nodes[n], command));
      LogOk(s'.elections, s'.nodes[n].log, s'.nodes[n].currentTerm)
  {
    var x := s.nodes[n];
    var s' := Update(s, Propose(x, command));
    ProposeExt(s, n, command);
    GroundedStable(s, s', n, x.log);
    ExtendLogOk(s'.elections, x.log, LogEntry(x.currentTerm, |x.log|, command), x.currentTerm);
  }

  lemma ProposeKeepsAcked(s: Cluster, s': Cluster, n: NodeId)
    requires Ext(s, s', n) && NodeOk(s, n) && s'.acks == s.acks
    requires s'.nodes[n].currentTerm in s'.elections && s'.elections[s'.nodes[n].currentTerm].log == s'.nodes[n].log
    requires Agree(s.nodes[n].log, s'.nodes[n].log, |s.nodes[n].log|)
    ensures KeepsAcked(s', n)
  {
    var log' := s'.nodes[n].log;
    forall T: nat, m: nat | Eligible(s', T, m) && Acked(s', n, T, m)
      ensures Holds(s'.elections, log', T, m) || Blocked(s', T, m)
    {
      if T != s'.nodes[n].currentTerm {
        assert s'.elections[T].log == s.elections[T].log;
        assert Acked(s, n, T, m);
        KeptOrBlockedStable(s, s', n, s.nodes[n].log, T, m);
      }
    }
  }

  lemma ProposeInv(s: Cluster, n: NodeId, command: Command)
    requires Inv(s) && n in s.nodes
    ensures Advances(s, Update(s, Propose(s.nodes[n], command)))
  {
    var x := s.nodes[n];
    var o := Propose(x, command);
    assert NodeOk(s, n);
    if x.role != Leader {
      SameRoleInv(s, o);
    } else {
      LeaderProposeInv(s, n, command);
    }
  }

  lemma ProposeReady(s: Cluster, n: NodeId, command: Command)
    requires NodeOk(s, n) && n != NO_NODE && s.nodes[n].role == Leader
    ensures var o := Propose(s.nodes[n], command); var s' := Update(s, o);
      && Ext(s, s', n) && NodeOk(s', n) && s'.ballots == s.ballots && CommitKept(s.nodes[n], s'.nodes[n])
      && s'.elections == s.elections[o.node.currentTerm := s.elections[o.node.currentTerm].(log := o.node.log)]
      && forall msg :: msg in o.sent ==> MsgOk(s', msg)
  {
    ProposeExt(s, n, command);
    ProposeNodeOk(s, n, command);
    LeaderMessagesOk(s, Propose(s.nodes[n], command));
  }

  lemma LeaderProposeInv(s: Cluster, n: NodeId, command: Command)
    requires Inv(s) && n in s.nodes && s.nodes[n].role == Leader
    ensures Advances(s, Update(s, Propose(s.nodes[n], command)))
  {
    assert NodeOk(s, n);
    ProposeReady(s, n, command);
    ProposeAscends(s, n, command);
    StepInv(s, Update(s, Propose(s.nodes[n], command)), n);
  }

  lemma ProposeAscends(s: Cluster, n: NodeId, command: Command)
    requires Inv(s) && n in s.nodes && s.nodes[n].role == Leader
    ensures TermsAscend(Propose(s.nodes[n], command).node.log)
  {
    assert NodeOk(s, n);
    LeaderLogsFromInv(s);
    GroundedAscends(s.elections, s.nodes[n].log);
  }

  lemma ProposeNodeOk(s: Cluster, n: NodeId, command: Command)
    requires NodeOk(s, n) && s.nodes[n].role == Leader
    ensures NodeOk(Update(s, Propose(s.nodes[n], command)), n)
  {
    var x := s.nodes[n];
    var s' := Update(s, Propose(x, command));
    ProposeExt(s, n, command);
    ProposeLogOk(s, n, command);
    ProposeKeepsAcked(s, s', n);
    CommittedStable(s, s', n, x.log, s'.nodes[n].log, x.commitIndex, x.currentTerm, x.currentTerm);
    ApplyOkSamePrefix(x, s'.nodes[n]);
    ProposeProgress(s, n, command);
    assert AckOk(s', n);
  }

  lemma ProposeProgress(s: Cluster, n: NodeId, command: Command)
    requires NodeOk(s, n) && s.nodes[n].role == Leader
    ensures ProgressOk(Update(s, Propose(s.nodes[n], command)), n)
  {
    ProposeExt(s, n, command);
    var s' := Update(s, Propose(s.nodes[n], command));
    assert forall f, T, m :: Acked(s, f, T, m) ==> Acked(s', f, T, m);
  }

  // ---------------------------------------------------------------- applying

  /** Taking the oldest queued entry applies exactly the next index. */
  lemma ApplyNextOk(x: NodeState)
    requires ApplyOk(x)
    ensures ApplyOk(ApplyNext(x).node)
  {
    if |x.applyCh| > 0 {
      var y := ApplyNext(x).node;
      assert y.applied + y.applyCh == x.applied + x.applyCh;
      assert y.applied[..|x.applied|] == x.applied;
    }
  }

  lemma ApplySameRole(s: Cluster, n: NodeId)
    requires n in s.nodes && s.nodes[n].id == n
    ensures var x, o := s.nodes[n], ApplyNext(s.nodes[n]);
      && SameRole(s, o) && o.node.id == n && o.sent == []
      && o.node.commitIndex == x.commitIndex && x.applied <= o.node.applied
  {
  }

  lemma ApplyInv(s: Cluster, n: NodeId)
    requires Inv(s) && n in s.nodes
    ensures Advances(s, Update(s, ApplyNext(s.nodes[n])))
  {
    assert NodeOk(s, n);
    ApplyNextOk(s.nodes[n]);
    ApplySameRole(s, n);
    SameRoleInv(s, ApplyNext(s.nodes[n]));
  }
}
