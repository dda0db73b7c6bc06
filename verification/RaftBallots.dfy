/** Votes alone: what every step keeps of them whatever becomes of the logs, so that counting each
    voter once elects one leader a term however entries are merged and committed. */
module RaftBallots {
  import opened RaftTypes
  import opened RaftSteps
  import opened RaftCluster
  import opened RaftQuorums

  // ---------------------------------------------------------------- the invariant of votes

  ghost predicate VoterOk(s: Cluster, n: NodeId) {
    && n in s.nodes
    && var x := s.nodes[n];
      && x.id == n && n in s.members && n != NO_NODE && x.clusterNodes == s.members
      && (x.role != Follower ==> BallotFor(s, n, x.currentTerm, n))
      && (x.role == Candidate ==>
            x.voters <= Members(s.members) && forall v :: v in x.voters ==> BallotFor(s, v, x.currentTerm, n))
      && (x.role == Leader ==> WonBy(s, x.currentTerm, n, x.voters))
  }

  ghost predicate WonBy(s: Cluster, T: nat, n: NodeId, voters: set<NodeId>) {
    T in s.elections && s.elections[T].leader == n && s.elections[T].voters == voters
  }

  /** The ballot is still its caster's vote, or of an earlier term. */
  ghost predicate CastOk(s: Cluster, f: NodeId, U: nat)
    requires (f, U) in s.ballots
  {
    && f in s.nodes && s.ballots[(f, U)] != NO_NODE
    && (U < s.nodes[f].currentTerm || (U == s.nodes[f].currentTerm && s.nodes[f].votedFor == s.ballots[(f, U)]))
  }

  ghost predicate WinnerOk(s: Cluster, U: nat)
    requires U in s.elections
  {
    var e := s.elections[U];
    Quorum(s.members, e.voters) && forall v :: v in e.voters ==> BallotFor(s, v, U, e.leader)
  }

  ghost predicate LetterOk(s: Cluster, msg: Message) {
    && msg.from in s.nodes && msg.from != msg.to
    && (msg.RequestVoteResponse? && msg.voteGranted ==> BallotFor(s, msg.from, msg.term, msg.to))
  }

  ghost predicate VotesOk(s: Cluster) {
    && ValidMembers(s.members)
    && (forall n {:trigger VoterOk(s, n)} :: n in s.nodes ==> VoterOk(s, n))
    && (forall f, U {:trigger CastOk(s, f, U)} :: (f, U) in s.ballots ==> CastOk(s, f, U))
    && (forall U {:trigger WinnerOk(s, U)} :: U in s.elections ==> WinnerOk(s, U))
    && (forall msg {:trigger LetterOk(s, msg)} :: msg in s.net ==> LetterOk(s, msg))
  }

  /** A term's winner stays its winner. */
  ghost predicate SameWinners(s: Cluster, s': Cluster) {
    forall T :: T in s.elections ==> T in s'.elections && s'.elections[T].leader == s.elections[T].leader
  }

  // ---------------------------------------------------------------- one step

  /** n's outcome casts at most one new ballot, its own vote of its current term. */
  ghost predicate CastsOne(s: Cluster, s': Cluster, n: NodeId)
    requires n in s.nodes && n in s'.nodes
  {
    var y := s'.nodes[n];
    && (forall b :: b in s.ballots ==> b in s'.ballots && s'.ballots[b] == s.ballots[b])
    && (forall b :: b in s'.ballots && b !in s.ballots ==>
          b == (n, y.currentTerm) && s'.ballots[b] == y.votedFor && y.votedFor != NO_NODE)
  }

  ghost predicate VoteKept(x: NodeState, y: NodeState) {
    && x.currentTerm <= y.currentTerm
    && (x.currentTerm == y.currentTerm ==> x.votedFor == NO_NODE || y.votedFor == x.votedFor)
  }

  /** What a step has to establish itself. */
  lemma VoteStep(s: Cluster, o: Outcome)
    requires VotesOk(s) && o.node.id in s.nodes
    requires VoteKept(s.nodes[o.node.id], o.node)
    requires CastsOne(s, Update(s, o), o.node.id) && VoterOk(Update(s, o), o.node.id)
    requires o.node.role == Leader ==>
               && WinnerOk(Update(s, o), o.node.currentTerm)
               && (o.node.currentTerm in s.elections ==> s.elections[o.node.currentTerm].leader == o.node.id)
    requires forall msg :: msg in o.sent ==> LetterOk(Update(s, o), msg)
    ensures VotesOk(Update(s, o)) && SameWinners(s, Update(s, o))
  {
    var s', n := Update(s, o), o.node.id;
    forall f | f in s'.nodes ensures VoterOk(s', f) {
      if f != n { assert VoterOk(s, f); OtherVoterOk(s, o, f); }
    }
    forall f, U | (f, U) in s'.ballots ensures CastOk(s', f, U) {
      if (f, U) in s.ballots { assert CastOk(s, f, U); }
    }
    forall U | U in s'.elections ensures WinnerOk(s', U) {
      if U in s.elections && !(o.node.role == Leader && U == o.node.currentTerm) { assert WinnerOk(s, U); }
    }
    forall msg | msg in s'.net ensures LetterOk(s', msg) {
      if msg in s.net { assert LetterOk(s, msg); }
    }
  }

  lemma OtherVoterOk(s: Cluster, o: Outcome, f: NodeId)
    requires o.node.id in s.nodes && f in s.nodes && f != o.node.id && VoterOk(s, f)
    requires CastsOne(s, Update(s, o), o.node.id)
    requires o.node.role == Leader && o.node.currentTerm in s.elections ==>
               s.elections[o.node.currentTerm].leader == o.node.id
    ensures VoterOk(Update(s, o), f)
  {
  }

  // ---------------------------------------------------------------- steps that leave votes alone

  /** Term, vote, role and voters stay, or the node follows a newer term; no vote is granted. */
  ghost predicate Bystander(x: NodeState, o: Outcome) {
    && o.node.id == x.id && o.node.clusterNodes == x.clusterNodes
    && ((o.node.currentTerm == x.currentTerm && o.node.votedFor == x.votedFor && o.node.role == x.role
         && o.node.voters == x.voters)
        || (o.node.currentTerm > x.currentTerm && o.node.role == Follower))
    && (forall msg :: msg in o.sent ==>
          && msg.from == x.id && msg.to != x.id
          && !(msg.RequestVoteResponse? && msg.voteGranted))
  }

  lemma BystanderOk(s: Cluster, n: NodeId, o: Outcome)
    requires VotesOk(s) && n in s.nodes && Bystander(s.nodes[n], o)
    ensures VotesOk(Update(s, o)) && SameWinners(s, Update(s, o))
  {
    assert VoterOk(s, n);
    assert |o.sent| == 1 ==> o.sent[0] in o.sent;
    var s', x := Update(s, o), s.nodes[n];
    assert s'.ballots == s.ballots;
    if o.node.role == Leader {
      assert WinnerOk(s, x.currentTerm);
      assert s'.elections[x.currentTerm].voters == s.elections[x.currentTerm].voters;
    }
    VoteStep(s, o);
  }

  lemma BroadcastLetters(self: NodeId, peers: seq<NodeId>, message: NodeId -> Message, msg: Message)
    requires forall to :: message(to).from == self && message(to).to == to
    requires msg in Broadcast(self, peers, message)
    ensures msg.from == self && msg.to != self && exists to :: msg == message(to)
  {
    BroadcastReaches(self, peers, message, msg);
  }

  lemma HeartbeatLetters(x: NodeState)
    ensures forall msg :: msg in SendHeartbeats(x) ==> msg.AppendEntries? && msg.from == x.id && msg.to != x.id
  {
    forall msg | msg in SendHeartbeats(x) ensures msg.AppendEntries? && msg.from == x.id && msg.to != x.id {
      BroadcastLetters(x.id, x.clusterNodes, (to: NodeId) => AppendEntriesFor(x, to), msg);
    }
  }

  lemma RequestLetters(x: NodeState)
    ensures forall msg :: msg in RequestVotesTo(x, x.clusterNodes) ==>
              msg.RequestVote? && msg.from == x.id && msg.to != x.id
  {
    forall msg | msg in RequestVotesTo(x, x.clusterNodes)
      ensures msg.RequestVote? && msg.from == x.id && msg.to != x.id
    {
      BroadcastLetters(x.id, x.clusterNodes, (to: NodeId) => RequestVoteFor(x, to), msg);
    }
  }

  lemma FollowCommitBystands(x: NodeState, leaderCommit: nat)
    requires |x.log| > 0
    ensures var y := FollowCommit(x, leaderCommit);
      && y.id == x.id && y.clusterNodes == x.clusterNodes && y.currentTerm == x.currentTerm && y.votedFor == x.votedFor
      && y.role == x.role && y.voters == x.voters
  {
    NotifyReadyOnlyQueues(x.(commitIndex := Min(leaderCommit, |x.log| - 1)));
  }

  lemma AppendEntriesBystands(rules: Rules, x: NodeState, msg: Message)
    requires msg.AppendEntries? && |x.log| > 0 && msg.from != x.id
    ensures Bystander(x, HandleAppendEntries(rules, x, msg))
  {
    if msg.term >= x.currentTerm && Matches(x.log, msg.prevLogIndex, msg.prevLogTerm) {
      var z := AdoptTerm(x, msg.term).(log := Merge(rules, x.log, msg.prevLogIndex, msg.entries));
      MergeKeepsEntries(rules, x.log, msg.prevLogIndex, msg.entries);
      FollowCommitBystands(z, msg.leaderCommit);
    }
  }

  lemma CheckCommitBystands(rules: Rules, x: NodeState)
    ensures var y := CheckCommitIndex(rules, x);
      && y.id == x.id && y.clusterNodes == x.clusterNodes && y.currentTerm == x.currentTerm && y.votedFor == x.votedFor
      && y.role == x.role && y.voters == x.voters && y.votesReceived == x.votesReceived
  {
    NotifyReadyOnlyQueues(x.(commitIndex := CommitTarget(rules.commitOwnTermOnly, x, |x.log|)));
  }

  lemma ResponseBystands(rules: Rules, x: NodeState, msg: Message)
    requires msg.AppendEntriesResponse? && msg.from != x.id
    ensures Bystander(x, HandleAppendEntriesResponse(rules, x, msg))
  {
    var y := x.(matchIndex := x.matchIndex[msg.from := msg.matchIndex],
                nextIndex := x.nextIndex[msg.from := msg.matchIndex + 1]);
    CheckCommitBystands(rules, y);
    HeartbeatLetters(CheckCommitIndex(rules, y));
  }

  lemma ProposeBystands(x: NodeState, command: Command)
    ensures Bystander(x, Propose(x, command))
  {
    HeartbeatLetters(x.(log := x.log + [LogEntry(x.currentTerm, |x.log|, command)]));
  }

  // ---------------------------------------------------------------- candidates

  /** n campaigns in a new term, or again in its own. */
  lemma CampaignVotes(s: Cluster, n: NodeId)
    requires VotesOk(s) && n in s.nodes && s.nodes[n].role != Leader
    ensures VotesOk(Update(s, Tick(s.nodes[n]))) && SameWinners(s, Update(s, Tick(s.nodes[n])))
  {
    var x, o := s.nodes[n], Tick(s.nodes[n]);
    assert VoterOk(s, n);
    assert forall U :: (n, U) in s.ballots ==> CastOk(s, n, U);
    RequestLetters(o.node.(votesReceived := x.votesReceived, voters := x.voters));
    VoteStep(s, o);
  }

  // ---------------------------------------------------------------- voters

  lemma RequestVoteVotes(s: Cluster, msg: Message)
    requires VotesOk(s) && msg.RequestVote? && msg in s.net && msg.to in s.nodes
    ensures VotesOk(Update(s, HandleRequestVote(s.nodes[msg.to], msg)))
    ensures SameWinners(s, Update(s, HandleRequestVote(s.nodes[msg.to], msg)))
  {
    var x, o := s.nodes[msg.to], HandleRequestVote(s.nodes[msg.to], msg);
    assert VoterOk(s, msg.to) && LetterOk(s, msg) && VoterOk(s, msg.from);
    if o.sent == [RequestVoteResponse(o.node.currentTerm, x.id, msg.from, true)] {
      GrantVotes(s, msg);
    } else {
      BystanderOk(s, msg.to, o);
    }
  }

  lemma GrantVotes(s: Cluster, msg: Message)
    requires VotesOk(s) && msg.RequestVote? && msg in s.net && msg.to in s.nodes
    requires var o := HandleRequestVote(s.nodes[msg.to], msg);
      o.sent == [RequestVoteResponse(o.node.currentTerm, msg.to, msg.from, true)]
    ensures VotesOk(Update(s, HandleRequestVote(s.nodes[msg.to], msg)))
    ensures SameWinners(s, Update(s, HandleRequestVote(s.nodes[msg.to], msg)))
  {
    var x, o := s.nodes[msg.to], HandleRequestVote(s.nodes[msg.to], msg);
    assert VoterOk(s, msg.to) && LetterOk(s, msg) && VoterOk(s, msg.from);
    assert forall U :: (msg.to, U) in s.ballots ==> CastOk(s, msg.to, U);
    VoteStep(s, o);
  }

  // ---------------------------------------------------------------- counting

  /** A quorum of ballots for n leaves no other winner of the term. */
  lemma NoOtherWinner(s: Cluster, T: nat, n: NodeId, q: set<NodeId>)
    requires VotesOk(s) && Quorum(s.members, q) && (forall v :: v in q ==> BallotFor(s, v, T, n)) && T in s.elections
    ensures s.elections[T].leader == n
  {
    assert WinnerOk(s, T);
    var f := QuorumsMeet(s.members, q, s.elections[T].voters);
    assert BallotFor(s, f, T, n) && BallotFor(s, f, T, s.elections[T].leader);
  }

  lemma CountedVotes(rules: Rules, s: Cluster, msg: Message)
    requires rules.countVotersOnce && VotesOk(s) && msg.RequestVoteResponse? && msg in s.net && msg.to in s.nodes
    ensures VotesOk(Update(s, HandleRequestVoteResponse(rules, s.nodes[msg.to], msg)))
    ensures SameWinners(s, Update(s, HandleRequestVoteResponse(rules, s.nodes[msg.to], msg)))
  {
    var n, x, o := msg.to, s.nodes[msg.to], HandleRequestVoteResponse(rules, s.nodes[msg.to], msg);
    assert VoterOk(s, n) && LetterOk(s, msg) && VoterOk(s, msg.from);
    if x.role == Candidate && msg.term == x.currentTerm && msg.voteGranted {
      var voters := x.voters + {msg.from};
      assert forall v :: v in voters ==> BallotFor(s, v, x.currentTerm, n);
      if o.node.role == Leader {
        assert Quorum(s.members, voters);
        if x.currentTerm in s.elections { NoOtherWinner(s, x.currentTerm, n, voters); }
        HeartbeatLetters(o.node);
      }
      VoteStep(s, o);
    } else {
      BystanderOk(s, n, o);
    }
  }

  // ---------------------------------------------------------------- every step, every run

  lemma StepKeepsVotes(rules: Rules, s: Cluster, a: Action)
    requires rules.countVotersOnce && VotesOk(s) && Enabled(s, a)
    ensures VotesOk(Next(rules, s, a)) && SameWinners(s, Next(rules, s, a))
  {
    var n := Actor(a);
    assert VoterOk(s, n);
    match a
    case Timeout(_) =>
      if s.nodes[n].role == Leader {
        HeartbeatLetters(s.nodes[n]);
        BystanderOk(s, n, Tick(s.nodes[n]));
      } else {
        CampaignVotes(s, n);
      }
    case Receive(msg) => DeliveryKeepsVotes(rules, s, msg);
    case ClientPropose(_, command) =>
      ProposeBystands(s.nodes[n], command);
      BystanderOk(s, n, Propose(s.nodes[n], command));
    case ApplyOne(_) => BystanderOk(s, n, ApplyNext(s.nodes[n]));
  }

  lemma DeliveryKeepsVotes(rules: Rules, s: Cluster, msg: Message)
    requires rules.countVotersOnce && VotesOk(s) && msg in s.net && msg.to in s.nodes && |s.nodes[msg.to].log| > 0
    ensures VotesOk(Update(s, HandleMessage(rules, s.nodes[msg.to], msg)))
    ensures SameWinners(s, Update(s, HandleMessage(rules, s.nodes[msg.to], msg)))
  {
    var x := s.nodes[msg.to];
    assert VoterOk(s, msg.to) && LetterOk(s, msg);
    match msg
    case RequestVote(_, _, _, _, _) => RequestVoteVotes(s, msg);
    case RequestVoteResponse(_, _, _, _) => CountedVotes(rules, s, msg);
    case AppendEntries(_, _, _, _, _, _, _) =>
      AppendEntriesBystands(rules, x, msg);
      BystanderOk(s, msg.to, HandleAppendEntries(rules, x, msg));
    case AppendEntriesResponse(_, _, _, _, _) =>
      ResponseBystands(rules, x, msg);
      BystanderOk(s, msg.to, HandleAppendEntriesResponse(rules, x, msg));
  }

  lemma InitVotes(members: seq<NodeId>)
    requires ValidMembers(members)
    ensures VotesOk(Init(members))
  {
    var s := Init(members);
    forall n | n in s.nodes ensures VoterOk(s, n) {
    }
  }

  lemma {:induction false} RunVotes(rules: Rules, run: seq<Cluster>, i: nat)
    requires rules.countVotersOnce && IsRun(rules, run) && i < |run|
    ensures VotesOk(run[i])
  {
    if i == 0 {
      InitVotes(run[0].members);
    } else {
      RunVotes(rules, run, i - 1);
      assert IsStep(rules, run[i - 1], run[i - 1 + 1]);
      var a :| Enabled(run[i - 1], a) && run[i] == Next(rules, run[i - 1], a);
      StepKeepsVotes(rules, run[i - 1], a);
    }
  }

  lemma StepKeepsWinners(rules: Rules, run: seq<Cluster>, i: nat)
    requires rules.countVotersOnce && IsRun(rules, run) && i + 1 < |run|
    ensures SameWinners(run[i], run[i + 1])
  {
    RunVotes(rules, run, i);
    assert IsStep(rules, run[i], run[i + 1]);
    var a :| Enabled(run[i], a) && run[i + 1] == Next(rules, run[i], a);
    StepKeepsVotes(rules, run[i], a);
  }

  lemma {:induction false} RunWinners(rules: Rules, run: seq<Cluster>, i: nat, j: nat)
    requires rules.countVotersOnce && IsRun(rules, run) && i <= j < |run|
    ensures SameWinners(run[i], run[j])
    decreases j
  {
    if i < j {
      RunWinners(rules, run, i, j - 1);
      StepKeepsWinners(rules, run, j - 1);
    }
  }

  /** Election safety: however entries are merged and committed, if voters are counted once then at
      most one node is ever leader in a term. */
  lemma VotersDecide(rules: Rules, run: seq<Cluster>, i: nat, j: nat, term: nat, u: NodeId, v: NodeId)
    requires rules.countVotersOnce && IsRun(rules, run) && i < |run| && j < |run|
    requires Leads(run[i], u, term) && Leads(run[j], v, term)
    ensures u == v
  {
    if j < i {
      VotersDecide(rules, run, j, i, term, v, u);
    } else {
      RunVotes(rules, run, i);
      RunVotes(rules, run, j);
      RunWinners(rules, run, i, j);
      assert VoterOk(run[i], u) && VoterOk(run[j], v);
    }
  }
}
