/** Every message bears its sender's name and a term its sender has reached, under any rules. */
module RaftLetters {
  import opened RaftTypes
  import opened RaftSteps
  import opened RaftCluster
  import opened RaftQuorums
  import opened RaftBallots
  import opened RaftPaths
  import opened RaftAnswers

  ghost predicate Posted(s: Cluster, msg: Message) {
    && msg.from in s.nodes && msg.from != NO_NODE && msg.from != msg.to
    && msg.term <= s.nodes[msg.from].currentTerm
  }

  ghost predicate LettersOk(s: Cluster) {
    Named(s) && forall msg {:trigger Posted(s, msg)} :: msg in s.net ==> Posted(s, msg)
  }

  /** A node signs what it sends, in the term it is in then, and never goes back. */
  ghost predicate Signs(x: NodeState, o: Outcome) {
    && o.node.id == x.id && o.node.clusterNodes == x.clusterNodes && |o.node.log| > 0
    && x.currentTerm <= o.node.currentTerm
    && forall msg :: msg in o.sent ==> msg.from == x.id && msg.to != x.id && msg.term == o.node.currentTerm
  }

  lemma HeartbeatsSigned(x: NodeState)
    ensures forall msg :: msg in SendHeartbeats(x) ==> msg.from == x.id && msg.to != x.id && msg.term == x.currentTerm
  {
    forall msg | msg in SendHeartbeats(x)
      ensures msg.from == x.id && msg.to != x.id && msg.term == x.currentTerm
    {
      BroadcastReaches(x.id, x.clusterNodes, (to: NodeId) => AppendEntriesFor(x, to), msg);
    }
  }

  lemma RequestsSigned(x: NodeState)
    ensures forall msg :: msg in RequestVotesTo(x, x.clusterNodes) ==>
              msg.from == x.id && msg.to != x.id && msg.term == x.currentTerm
  {
    forall msg | msg in RequestVotesTo(x, x.clusterNodes)
      ensures msg.from == x.id && msg.to != x.id && msg.term == x.currentTerm
    {
      BroadcastReaches(x.id, x.clusterNodes, (to: NodeId) => RequestVoteFor(x, to), msg);
    }
  }

  lemma TickSigns(x: NodeState)
    requires |x.log| > 0
    ensures Signs(x, Tick(x))
  {
    var y := Tick(x).node;
    RequestsSigned(y.(votesReceived := x.votesReceived, voters := x.voters));
    HeartbeatsSigned(x);
  }

  lemma VoteSigns(rules: Rules, x: NodeState, msg: Message)
    requires |x.log| > 0 && msg.from != x.id && msg.RequestVoteResponse?
    ensures Signs(x, HandleRequestVoteResponse(rules, x, msg))
  {
    HeartbeatsSigned(HandleRequestVoteResponse(rules, x, msg).node);
  }

  lemma EntriesSign(rules: Rules, x: NodeState, msg: Message)
    requires |x.log| > 0 && msg.from != x.id && msg.AppendEntries?
    ensures Signs(x, HandleAppendEntries(rules, x, msg))
  {
    if msg.term >= x.currentTerm && Matches(x.log, msg.prevLogIndex, msg.prevLogTerm) {
      var y := AdoptTerm(x, msg.term).(log := Merge(rules, x.log, msg.prevLogIndex, msg.entries));
      MergeKeepsEntries(rules, x.log, msg.prevLogIndex, msg.entries);
      NotifyReadyOnlyQueues(y.(commitIndex := Min(msg.leaderCommit, |y.log| - 1)));
    }
  }

  lemma AcksSign(rules: Rules, x: NodeState, msg: Message)
    requires |x.log| > 0 && msg.from != x.id && msg.AppendEntriesResponse?
    ensures Signs(x, HandleAppendEntriesResponse(rules, x, msg))
  {
    var y := x.(matchIndex := x.matchIndex[msg.from := msg.matchIndex],
                nextIndex := x.nextIndex[msg.from := msg.matchIndex + 1]);
    NotifyReadyOnlyQueues(y.(commitIndex := CommitTarget(rules.commitOwnTermOnly, y, |y.log|)));
    HeartbeatsSigned(CheckCommitIndex(rules, y));
  }

  lemma ActSigns(rules: Rules, x: NodeState, a: Action)
    requires |x.log| > 0 && (a.Receive? ==> a.msg.from != x.id)
    ensures Signs(x, Act(rules, x, a))
  {
    match a
    case Timeout(_) => TickSigns(x);
    case Receive(RequestVote(_, _, _, _, _)) =>
    case Receive(RequestVoteResponse(_, _, _, _)) => VoteSigns(rules, x, a.msg);
    case Receive(AppendEntries(_, _, _, _, _, _, _)) => EntriesSign(rules, x, a.msg);
    case Receive(AppendEntriesResponse(_, _, _, _, _)) => AcksSign(rules, x, a.msg);
    case ClientPropose(_, command) => HeartbeatsSigned(Propose(x, command).node);
    case ApplyOne(_) =>
  }

  lemma StepKeepsLetters(rules: Rules, s: Cluster, a: Action)
    requires LettersOk(s) && Enabled(s, a)
    ensures LettersOk(Next(rules, s, a)) && Next(rules, s, a).members == s.members
    ensures Signs(s.nodes[Actor(a)], Act(rules, s.nodes[Actor(a)], a))
  {
    var n, t := Actor(a), Next(rules, s, a);
    if a.Receive? { assert Posted(s, a.msg); }
    ActSigns(rules, s.nodes[n], a);
    forall msg | msg in t.net ensures Posted(t, msg) {
      if msg in s.net { assert Posted(s, msg); }
    }
  }

  lemma InitLetters(members: seq<NodeId>)
    requires ValidMembers(members)
    ensures LettersOk(Init(members))
  {
  }

  lemma {:induction false} RunLetters(rules: Rules, run: seq<Cluster>, i: nat)
    requires IsRun(rules, run) && i < |run|
    ensures LettersOk(run[i]) && run[i].members == run[0].members
  {
    if i == 0 {
      InitLetters(run[0].members);
    } else {
      RunLetters(rules, run, i - 1);
      assert IsStep(rules, run[i - 1], run[i - 1 + 1]);
      var a :| Enabled(run[i - 1], a) && run[i] == Next(rules, run[i - 1], a);
      StepKeepsLetters(rules, run[i - 1], a);
    }
  }

  /** In every run, under any rules: when a message of a newer term reaches a leader, the leader follows
      it into that term, exactly if the message is not an answer to an old request for votes. */
  lemma LeaderFollowsNewerTermExactlyWhen(rules: Rules, run: seq<Cluster>, i: nat, msg: Message, term: nat)
    requires IsRun(rules, run) && i < |run| && msg in run[i].net && Leads(run[i], msg.to, term) && msg.term > term
    ensures |run[i].nodes[msg.to].log| > 0
    ensures var t := Next(rules, run[i], Receive(msg));
      && msg.to in t.nodes
      && (t.nodes[msg.to].currentTerm == msg.term && t.nodes[msg.to].role == Follower <==> !msg.RequestVoteResponse?)
      && (msg.RequestVoteResponse? ==> t.nodes == run[i].nodes)
  {
    RunLetters(rules, run, i);
    assert Posted(run[i], msg);
    NewerTermAdoptedExactlyWhen(rules, run[i].nodes[msg.to], msg);
    StepKeepsLetters(rules, run[i], Receive(msg));
  }
}
