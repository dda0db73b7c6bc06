/** Every step of the repaired protocol preserves the invariant. */
module RaftInductive {
  import opened RaftTypes
  import opened RaftSteps
  import opened RaftCluster
  import opened RaftStability
  import opened RaftQuorums
  import opened RaftLogs

  // ---------------------------------------------------------------- messages

  lemma LeaderLogsFromInv(s: Cluster)
    requires Inv(s)
    ensures LeaderLogsOk(s.elections)
  {
    forall T | T in s.elections
      ensures T > 0 && LogOk(s.elections, s.elections[T].log, T) && TermsAscend(s.elections[T].log)
    {
      assert ElectionOk(s, T);
    }
  }

  /** A leader's replication message is a slice of its log up to the log's end, and does not
      announce more commits than it carries. */
  lemma AppendEntriesForOk(s: Cluster, n: NodeId, to: NodeId)
    requires NodeOk(s, n) && n != NO_NODE && s.nodes[n].role == Leader && to in s.members && to != n
    ensures MsgOk(s, AppendEntriesFor(s.nodes[n], to))
  {
    var x := s.nodes[n];
    var msg := AppendEntriesFor(x, to);
    assert s.elections[x.currentTerm].log == x.log;
    assert msg.prevLogIndex + |msg.entries| == |x.log| - 1;
    assert msg.entries == x.log[msg.prevLogIndex + 1..msg.prevLogIndex + 1 + |msg.entries|];
  }

  lemma HeartbeatsOk(s: Cluster, n: NodeId, msg: Message)
    requires NodeOk(s, n) && n != NO_NODE && s.nodes[n].role == Leader
    requires msg in SendHeartbeats(s.nodes[n])
    ensures MsgOk(s, msg)
  {
    var x := s.nodes[n];
    BroadcastReaches(x.id, x.clusterNodes, (to: NodeId) => AppendEntriesFor(x, to), msg);
    var to :| to in x.clusterNodes && to != x.id && msg == AppendEntriesFor(x, to);
    AppendEntriesForOk(s, n, to);
  }

  // ---------------------------------------------------------------- quiet updates

  /** The history does not record anything new. */
  ghost predicate HistoryKept(s: Cluster, o: Outcome) {
    && RecordBallot(s, o.node, o.sent) == s.ballots
    && RecordElection(s, o.node) == s.elections
    && RecordAck(s, o.node, o.sent) == s.acks
  }

  ghost predicate QuietUpdate(s: Cluster, o: Outcome) {
    && o.node.id in s.nodes
    && HistoryKept(s, o)
    && NodeAdvances(s, Update(s, o), o.node.id)
    && o.node.log == s.nodes[o.node.id].log
  }

  lemma QuietExt(s: Cluster, o: Outcome)
    requires QuietUpdate(s, o)
    ensures Ext(s, Update(s, o), o.node.id)
  {
  }

  /** n keeps its log, nobody acknowledges anything new, and no leader's log grows. */
  ghost predicate LogKept(s: Cluster, s': Cluster, n: NodeId) {
    && Ext(s, s', n)
   
    && s'.acks == s.acks
    && s'.nodes[n].log == s.nodes[n].log
    && (forall T :: T in s.elections ==> s'.elections[T].log == s.elections[T].log)
    && (forall T :: T in s'.elections && T !in s.elections ==> s'.elections[T].log == s'.nodes[n].log)
  }

  lemma LogKeptAcked(s: Cluster, s': Cluster, n: NodeId)
    requires LogKept(s, s', n) && KeepsAcked(s, n)
    ensures KeepsAcked(s', n)
  {
    forall T: nat, m: nat | Eligible(s', T, m) && Acked(s', n, T, m)
      ensures Holds(s'.elections, s'.nodes[n].log, T, m) || Blocked(s', T, m)
    {
      if T in s.elections {
        assert Acked(s, n, T, m);
        KeptOrBlockedStable(s, s', n, s.nodes[n].log, T, m);
      }
    }
  }

  /** Then only role, progress, commitIndex and the apply queue can matter to the node itself. */
  lemma LogKeptNodeOk(s: Cluster, s': Cluster, n: NodeId)
    requires LogKept(s, s', n) && NodeOk(s, n)
    requires RoleOk(s', n) && ProgressOk(s', n) && ApplyOk(s'.nodes[n])
    requires s'.nodes[n].commitIndex == s.nodes[n].commitIndex
          || CommittedUpTo(s', s'.nodes[n].log, s'.nodes[n].commitIndex, s'.nodes[n].currentTerm)
    ensures NodeOk(s', n)
  {
    var x, y := s.nodes[n], s'.nodes[n];
    LogKeptAcked(s, s', n);
    GroundedStable(s, s', n, x.log);
    CommittedStable(s, s', n, x.log, x.log, x.commitIndex, x.currentTerm, y.currentTerm);
    assert AckOk(s', n);
  }

  /** A step that keeps the log and the history only has to look after roles, progress,
      commitIndex, the apply queue and its own messages. */
  lemma QuietInv(s: Cluster, o: Outcome)
    requires Inv(s) && QuietUpdate(s, o)
    requires RoleOk(Update(s, o), o.node.id) && ProgressOk(Update(s, o), o.node.id) && ApplyOk(o.node)
    requires o.node.commitIndex >= s.nodes[o.node.id].commitIndex && s.nodes[o.node.id].applied <= o.node.applied
    requires o.node.commitIndex == s.nodes[o.node.id].commitIndex
          || CommittedUpTo(Update(s, o), o.node.log, o.node.commitIndex, o.node.currentTerm)
    requires NodeOk(Update(s, o), o.node.id) ==> forall msg :: msg in o.sent ==> MsgOk(Update(s, o), msg)
    ensures Advances(s, Update(s, o))
  {
    var n, s' := o.node.id, Update(s, o);
    assert NodeOk(s, n);
    QuietExt(s, o);
    LogKeptNodeOk(s, s', n);
    StepInv(s, s', n);
  }

  /** Term, vote, role, voters, log and progress stay as they are, and no vote is granted or
      entry acknowledged. */
  ghost predicate SameRole(s: Cluster, o: Outcome) {
    && o.node.id in s.nodes
    && (var x, y := s.nodes[o.node.id], o.node;
        && y.clusterNodes == x.clusterNodes && y.currentTerm == x.currentTerm && y.votedFor == x.votedFor
        && y.role == x.role && y.voters == x.voters && y.log == x.log
        && y.nextIndex == x.nextIndex && y.matchIndex == x.matchIndex)
    && (forall msg :: msg in o.sent && msg.RequestVoteResponse? ==> !msg.voteGranted)
    && (forall msg :: msg in o.sent && msg.AppendEntriesResponse? ==> !msg.success)
  }

  lemma SameRoleQuiet(s: Cluster, o: Outcome)
    requires SameRole(s, o) && NodeOk(s, o.node.id)
    ensures QuietUpdate(s, o)
    ensures RoleOk(Update(s, o), o.node.id) && ProgressOk(Update(s, o), o.node.id)
  {
    var n := o.node.id;
    assert |o.sent| == 1 ==> o.sent[0] in o.sent;
    assert RecordBallot(s, o.node, o.sent) == s.ballots;
    assert RecordElection(s, o.node) == s.elections;
    var s' := Update(s, o);
    assert forall f, T, m :: Acked(s, f, T, m) ==> Acked(s', f, T, m);
  }

  lemma SameRoleInv(s: Cluster, o: Outcome)
    requires Inv(s) && SameRole(s, o) && ApplyOk(o.node)
    requires o.node.commitIndex >= s.nodes[o.node.id].commitIndex && s.nodes[o.node.id].applied <= o.node.applied
    requires o.node.commitIndex == s.nodes[o.node.id].commitIndex
          || CommittedUpTo(Update(s, o), o.node.log, o.node.commitIndex, o.node.currentTerm)
    requires NodeOk(Update(s, o), o.node.id) ==> forall msg :: msg in o.sent ==> MsgOk(Update(s, o), msg)
    ensures Advances(s, Update(s, o))
  {
    assert NodeOk(s, o.node.id);
    SameRoleQuiet(s, o);
    QuietInv(s, o);
  }

  /** A node adopts a newer term as a follower, whatever becomes of its stale vote. */
  ghost predicate NewTerm(s: Cluster, o: Outcome) {
    && o.node.id in s.nodes
    && o.sent == []
    && var x, y := s.nodes[o.node.id], o.node;
       && y.clusterNodes == x.clusterNodes && y.currentTerm > x.currentTerm && y.role == Follower
       && y.log == x.log && y.commitIndex == x.commitIndex && y.applied == x.applied
  }

  lemma NewTermQuiet(s: Cluster, o: Outcome)
    requires NewTerm(s, o) && NodeOk(s, o.node.id)
    ensures QuietUpdate(s, o)
    ensures RoleOk(Update(s, o), o.node.id) && ProgressOk(Update(s, o), o.node.id)
  {
  }

  lemma NewTermInv(s: Cluster, o: Outcome)
    requires Inv(s) && NewTerm(s, o) && ApplyOk(o.node)
    ensures Advances(s, Update(s, o))
  {
    assert NodeOk(s, o.node.id);
    NewTermQuiet(s, o);
    QuietInv(s, o);
  }

  lemma AdoptTermHistory(s: Cluster, n: NodeId, term: nat)
    requires NodeOk(s, n)
    ensures HistoryKept(s, Outcome(AdoptTerm(s.nodes[n], term), []))
  {
    var o := Outcome(AdoptTerm(s.nodes[n], term), []);
    if term > s.nodes[n].currentTerm {
      NewTermQuiet(s, o);
    } else {
      SameRoleQuiet(s, o);
    }
  }

  lemma AdoptTermInv(s: Cluster, n: NodeId, term: nat)
    requires Inv(s) && n in s.nodes
    ensures s.nodes[n].id == n
    ensures Advances(s, Update(s, Outcome(AdoptTerm(s.nodes[n], term), [])))
  {
    assert NodeOk(s, n);
    var o := Outcome(AdoptTerm(s.nodes[n], term), []);
    if term > s.nodes[n].currentTerm {
      NewTermInv(s, o);
    } else {
      SameRoleInv(s, o);
    }
  }

  /** A step may be taken in two halves. */
  lemma SplitUpdate(s: Cluster, mid: NodeState, o: Outcome)
    requires HistoryKept(s, Outcome(mid, [])) && mid.id == o.node.id
    ensures Update(Update(s, Outcome(mid, [])), o) == Update(s, o)
  {
    var t := Update(s, Outcome(mid, []));
    assert t.net == s.net;
    assert t.nodes[o.node.id := o.node] == s.nodes[o.node.id := o.node];
  }

  /** A step of n whose only trace in the history is n's own ballot of term U. */
  lemma BallotStepInv(s: Cluster, s': Cluster, n: NodeId, U: nat, c: NodeId)
    requires Inv(s) && Ext(s, s', n) && NodeOk(s', n) && s'.elections == s.elections
    requires s'.ballots == s.ballots[(n, U) := c] && BallotOk(s', n, U)
    requires CommitKept(s.nodes[n], s'.nodes[n])
    requires forall msg :: msg in s'.net ==> msg in s.net || MsgOk(s', msg)
    ensures Advances(s, s')
  {
    StepInv(s, s', n);
  }

  // ---------------------------------------------------------------- elections

  lemma CampaignHistory(s: Cluster, n: NodeId)
    requires n in s.nodes && s.nodes[n].id == n
    ensures var s' := Update(s, BecomeCandidate(s.nodes[n]));
      && s'.elections == s.elections && s'.acks == s.acks
      && s'.ballots == s.ballots[(n, s.nodes[n].currentTerm + 1) := n]
  {
    var o := BecomeCandidate(s.nodes[n]);
    var y := s.nodes[n].(role := Candidate, currentTerm := s.nodes[n].currentTerm + 1, votedFor := n);
    if |o.sent| == 1 {
      BroadcastReaches(n, y.clusterNodes, (to: NodeId) => RequestVoteFor(y, to), o.sent[0]);
    }
  }

  lemma CampaignExt(s: Cluster, n: NodeId)
    requires n in s.nodes && s.nodes[n].id == n
    requires (n, s.nodes[n].currentTerm + 1) !in s.ballots
    ensures var s' := Update(s, BecomeCandidate(s.nodes[n]));
      Ext(s, s', n)
  {
    CampaignHistory(s, n);
  }

  lemma CampaignRole(s: Cluster, n: NodeId)
    requires n in s.nodes && RoleOk(s, n)
    ensures var s' := Update(s, BecomeCandidate(s.nodes[n]));
      RoleOk(s', n) && ProgressOk(s', n)
  {
    CampaignHistory(s, n);
    var s' := Update(s, BecomeCandidate(s.nodes[n]));
    assert forall v :: v in s'.nodes[n].voters ==> v == n;
  }

  /** A candidate's request tells its term and the end of its log. */
  lemma RequestOk(s: Cluster, n: NodeId, to: NodeId)
    requires NodeOk(s, n) && n != NO_NODE && to != n && s.nodes[n].currentTerm > 0
    ensures MsgOk(s, RequestVoteFor(s.nodes[n], to))
  {
  }

  lemma CampaignMessagesOk(s: Cluster, n: NodeId)
    requires n in s.nodes && NodeOk(Update(s, BecomeCandidate(s.nodes[n])), n) && n != NO_NODE && s.nodes[n].id == n
    ensures forall msg :: msg in BecomeCandidate(s.nodes[n]).sent ==> MsgOk(Update(s, BecomeCandidate(s.nodes[n])), msg)
  {
    var o := BecomeCandidate(s.nodes[n]);
    var y := s.nodes[n].(role := Candidate, currentTerm := s.nodes[n].currentTerm + 1, votedFor := n);
    forall msg | msg in o.sent ensures MsgOk(Update(s, o), msg) {
      var to := RequestReaches(y, msg);
      assert RequestVoteFor(y, to) == RequestVoteFor(o.node, to);
      RequestOk(Update(s, o), n, to);
    }
  }

  lemma NoFutureBallot(s: Cluster, n: NodeId, U: nat)
    requires Inv(s) && n in s.nodes && U > s.nodes[n].currentTerm
    ensures (n, U) !in s.ballots
  {
    assert (n, U) in s.ballots ==> BallotOk(s, n, U);
  }

  lemma CampaignNodeOk(s: Cluster, n: NodeId)
    requires NodeOk(s, n) && n != NO_NODE && (n, s.nodes[n].currentTerm + 1) !in s.ballots
    ensures var s' := Update(s, BecomeCandidate(s.nodes[n]));
      && Ext(s, s', n)
      && NodeOk(s', n) && BallotOk(s', n, s.nodes[n].currentTerm + 1)
  {
    var s' := Update(s, BecomeCandidate(s.nodes[n]));
    CampaignExt(s, n);
    CampaignRole(s, n);
    CampaignHistory(s, n);
    LogKeptNodeOk(s, s', n);
    OwnBallotOk(s', n, s.nodes[n].currentTerm + 1);
  }

  lemma CampaignInv(s: Cluster, n: NodeId)
    requires Inv(s) && n in s.nodes && s.nodes[n].role == Follower
    ensures Advances(s, Update(s, BecomeCandidate(s.nodes[n])))
  {
    assert NodeOk(s, n);
    NoFutureBallot(s, n, s.nodes[n].currentTerm + 1);
    CampaignNodeOk(s, n);
    CampaignHistory(s, n);
    CampaignMessagesOk(s, n);
    BallotStepInv(s, Update(s, BecomeCandidate(s.nodes[n])), n, s.nodes[n].currentTerm + 1, n);
  }

  /** A candidate's own ballot is covered by its own log. */
  lemma OwnBallotOk(s: Cluster, n: NodeId, U: nat)
    requires NodeOk(s, n) && n != NO_NODE && BallotFor(s, n, U, n)
    requires 0 < U == s.nodes[n].currentTerm && s.nodes[n].votedFor == n
    ensures BallotOk(s, n, U)
  {
  }

  lemma RetryLocal(s: Cluster, n: NodeId)
    requires NodeOk(s, n) && s.nodes[n].role == Candidate
    ensures var o := StartElection(s.nodes[n]);
      QuietUpdate(s, o) && RoleOk(Update(s, o), n) && ProgressOk(Update(s, o), n) && ApplyOk(o.node)
  {
    var x := s.nodes[n];
    var o := StartElection(x);
    if |o.sent| == 1 {
      BroadcastReaches(n, x.clusterNodes, (to: NodeId) => RequestVoteFor(x, to), o.sent[0]);
    }
    assert forall v :: v in o.node.voters ==> v == n;
  }

  lemma RetryMessagesOk(s: Cluster, n: NodeId)
    requires n in s.nodes && s.nodes[n].id == n && n != NO_NODE && s.nodes[n].currentTerm > 0
    requires NodeOk(Update(s, StartElection(s.nodes[n])), n)
    ensures forall msg :: msg in StartElection(s.nodes[n]).sent ==> MsgOk(Update(s, StartElection(s.nodes[n])), msg)
  {
    var x := s.nodes[n];
    var o := StartElection(x);
    forall msg | msg in o.sent ensures MsgOk(Update(s, o), msg) {
      BroadcastReaches(n, x.clusterNodes, (to: NodeId) => RequestVoteFor(x, to), msg);
    }
  }

  lemma RetryInv(s: Cluster, n: NodeId)
    requires Inv(s) && n in s.nodes && s.nodes[n].role == Candidate
    ensures Advances(s, Update(s, StartElection(s.nodes[n])))
  {
    assert NodeOk(s, n);
    assert BallotOk(s, n, s.nodes[n].currentTerm);
    RetryLocal(s, n);
    if NodeOk(Update(s, StartElection(s.nodes[n])), n) { RetryMessagesOk(s, n); }
    QuietInv(s, StartElection(s.nodes[n]));
  }

  /** When v grants its vote to an up-to-date campaigner, the campaigner's log holds everything v
      has acknowledged, or that is blocked. */
  lemma GrantCovers(s: Cluster, v: NodeId, msg: Message)
    requires Inv(s) && v in s.nodes && msg in s.net && msg.RequestVote? && msg.to == v
    requires UpToDate(msg.lastLogIndex, msg.lastLogTerm, s.nodes[v].log)
    requires msg.from in s.nodes && Campaigning(s, msg.from) && s.nodes[msg.from].currentTerm == msg.term
    ensures CandidateCovers(s, msg.from, v, msg.term)
  {
    var c, U := msg.from, msg.term;
    assert MsgOk(s, msg) && NodeOk(s, v) && NodeOk(s, c);
    LeaderLogsFromInv(s);
    forall T: nat, m: nat | T < U && Eligible(s, T, m) && Acked(s, v, T, m)
      ensures Holds(s.elections, s.nodes[c].log, T, m) || Blocked(s, T, m)
    {
      if |s.members| <= 2 {
        OwnLogCovers(s, c, T, m);
      } else if !Blocked(s, T, m) {
        forall t | T < t < U && t in s.elections ensures Complete(s, t) {
          assert ElectionOk(s, t);
        }
        GroundedAscends(s.elections, s.nodes[v].log);
        UpToDateHolds(s, s.nodes[c].log, s.nodes[v].log, U, T, m);
      }
    }
  }

  /** One of two nodes is half of them: what it has not acknowledged by a later term is blocked. */
  lemma OwnLogCovers(s: Cluster, c: NodeId, T: nat, m: nat)
    requires NodeOk(s, c) && Eligible(s, T, m) && T < s.nodes[c].currentTerm && |s.members| <= 2
    ensures Holds(s.elections, s.nodes[c].log, T, m) || Blocked(s, T, m)
  {
    if !Acked(s, c, T, m) {
      assert Refuses(s, c, T, m);
      assert RefusingSet(s, {c}, T, m);
    }
  }

  function Grant(x: NodeState, c: NodeId): Outcome {
    Outcome(x.(votedFor := c), RequestVoteReply(x, c, true))
  }

  /** v may vote for c in its current term. */
  ghost predicate MayGrant(s: Cluster, v: NodeId, c: NodeId) {
    && NodeOk(s, v) && c != NO_NODE && c != v
    && (s.nodes[v].votedFor == NO_NODE || s.nodes[v].votedFor == c)
    && ((v, s.nodes[v].currentTerm) in s.ballots ==>
          s.nodes[v].votedFor == s.ballots[(v, s.nodes[v].currentTerm)] != NO_NODE)
  }

  lemma GrantHistory(s: Cluster, v: NodeId, c: NodeId)
    requires MayGrant(s, v, c)
    ensures var s' := Update(s, Grant(s.nodes[v], c));
      && s'.elections == s.elections && s'.acks == s.acks
      && s'.ballots == s.ballots[(v, s.nodes[v].currentTerm) := c]
  {
    var s' := Update(s, Grant(s.nodes[v], c));
    assert s'.ballots == s.ballots[(v, s.nodes[v].currentTerm) := c];
    assert s'.elections == s.elections;
  }

  lemma GrantLocal(s: Cluster, v: NodeId, c: NodeId)
    requires MayGrant(s, v, c)
    ensures var s' := Update(s, Grant(s.nodes[v], c));
      && Ext(s, s', v)
  {
    GrantHistory(s, v, c);
  }

  lemma GrantRole(s: Cluster, v: NodeId, c: NodeId)
    requires MayGrant(s, v, c)
    ensures var s' := Update(s, Grant(s.nodes[v], c));
      RoleOk(s', v) && ProgressOk(s', v) && ApplyOk(s'.nodes[v])
  {
    GrantHistory(s, v, c);
  }

  lemma GrantNodeOk(s: Cluster, v: NodeId, c: NodeId)
    requires MayGrant(s, v, c)
    ensures var s' := Update(s, Grant(s.nodes[v], c));
      && Ext(s, s', v)
      && s'.elections == s.elections && s'.acks == s.acks
      && s'.ballots == s.ballots[(v, s.nodes[v].currentTerm) := c]
      && NodeOk(s', v) && CommitKept(s.nodes[v], s'.nodes[v])
      && forall msg :: msg in s'.net ==>
           msg in s.net || msg == RequestVoteResponse(s.nodes[v].currentTerm, v, c, true)
  {
    GrantHistory(s, v, c);
    GrantLocal(s, v, c);
    GrantRole(s, v, c);
    LogKeptNodeOk(s, Update(s, Grant(s.nodes[v], c)), v);
  }

  lemma GrantBallotOk(s: Cluster, v: NodeId, msg: Message)
    requires Inv(s) && v in s.nodes && msg in s.net && msg.RequestVote? && msg.to == v
    requires msg.term == s.nodes[v].currentTerm
    requires UpToDate(msg.lastLogIndex, msg.lastLogTerm, s.nodes[v].log)
    requires var s' := Update(s, Grant(s.nodes[v], msg.from));
      Ext(s, s', v) && s'.elections == s.elections && s'.acks == s.acks
      && s'.ballots == s.ballots[(v, msg.term) := msg.from]
    ensures BallotOk(Update(s, Grant(s.nodes[v], msg.from)), v, msg.term)
  {
    var c, U := msg.from, msg.term;
    assert MsgOk(s, msg) && NodeOk(s, v);
    var s' := Update(s, Grant(s.nodes[v], c));
    if Campaigning(s, c) && s.nodes[c].currentTerm == U {
      GrantCovers(s, v, msg);
      CoversAfter(s, s', v, c, v, U);
    }
  }

  lemma CurrentBallot(s: Cluster, v: NodeId, msg: Message)
    requires Inv(s) && v in s.nodes && msg in s.net && msg.RequestVote? && msg.to == v
    requires s.nodes[v].votedFor == NO_NODE || s.nodes[v].votedFor == msg.from
    ensures MayGrant(s, v, msg.from)
  {
    assert MsgOk(s, msg) && NodeOk(s, v);
    if (v, s.nodes[v].currentTerm) in s.ballots { assert BallotOk(s, v, s.nodes[v].currentTerm); }
  }

  lemma GrantInv(s: Cluster, v: NodeId, msg: Message)
    requires Inv(s) && v in s.nodes && msg in s.net && msg.RequestVote? && msg.to == v
    requires msg.term == s.nodes[v].currentTerm
    requires s.nodes[v].votedFor == NO_NODE || s.nodes[v].votedFor == msg.from
    requires UpToDate(msg.lastLogIndex, msg.lastLogTerm, s.nodes[v].log)
    ensures Advances(s, Update(s, Grant(s.nodes[v], msg.from)))
  {
    CurrentBallot(s, v, msg);
    GrantNodeOk(s, v, msg.from);
    GrantBallotOk(s, v, msg);
    BallotStepInv(s, Update(s, Grant(s.nodes[v], msg.from)), v, msg.term, msg.from);
  }

  lemma CoversAfter(s: Cluster, s': Cluster, n: NodeId, c: NodeId, f: NodeId, U: nat)
    requires Ext(s, s', n) && c in s.nodes && CandidateCovers(s, c, f, U)
    requires s'.elections == s.elections && s'.acks == s.acks && s'.nodes[c].log == s.nodes[c].log
    ensures CandidateCovers(s', c, f, U)
  {
    forall T: nat, m: nat | T < U && Eligible(s', T, m) && Acked(s', f, T, m)
      ensures Holds(s'.elections, s'.nodes[c].log, T, m) || Blocked(s', T, m)
    {
      assert Acked(s, f, T, m);
      KeptOrBlockedStable(s, s', n, s.nodes[c].log, T, m);
    }
  }

  lemma DenyInv(s: Cluster, n: NodeId, to: NodeId)
    requires Inv(s) && n in s.nodes && to != n
    ensures Advances(s, Update(s, Outcome(s.nodes[n], RequestVoteReply(s.nodes[n], to, false))))
  {
    assert NodeOk(s, n);
    SameRoleInv(s, Outcome(s.nodes[n], RequestVoteReply(s.nodes[n], to, false)));
  }

  lemma RequestVoteInv(s: Cluster, n: NodeId, msg: Message)
    requires Inv(s) && n in s.nodes && msg in s.net && msg.RequestVote? && msg.to == n
    ensures Advances(s, Update(s, HandleRequestVote(s.nodes[n], msg)))
  {
    var x := s.nodes[n];
    var o := HandleRequestVote(x, msg);
    assert MsgOk(s, msg);
    if msg.term < x.currentTerm {
      DenyInv(s, n, msg.from);
    } else {
      var y := AdoptTerm(x, msg.term);
      var t := Update(s, Outcome(y, []));
      AdoptTermInv(s, n, msg.term);
      assert NodeOk(s, n);
      AdoptTermHistory(s, n, msg.term);
      SplitUpdate(s, y, o);
      assert t.nodes[n] == y && msg in t.net;
      if (y.votedFor == NO_NODE || y.votedFor == msg.from) && UpToDate(msg.lastLogIndex, msg.lastLogTerm, y.log) {
        GrantInv(t, n, msg);
      } else {
        DenyInv(t, n, msg.from);
      }
      AdvancesTransitive(s, t, Update(t, o));
    }
  }
}
