/** When a node must grant a vote, accept entries or step down, told by the fields of the node and of
    the message. */
module RaftAnswers {
  import opened RaftTypes
  import opened RaftSteps
  import opened RaftCluster
  import opened RaftQuorums
  import opened RaftBallots

  // ---------------------------------------------------------------- votes

  /** A vote is granted exactly when it is free and the candidate's log is at least as recent: it ends in
      a later term, or in the same term no earlier. A newer term is adopted in any case. */
  lemma VoteGrantedExactlyWhen(x: NodeState, msg: Message)
    requires msg.RequestVote? && |x.log| > 0 && msg.from != NO_NODE && msg.term >= x.currentTerm
    ensures var o, last := HandleRequestVote(x, msg), x.log[|x.log| - 1];
      var free := msg.term > x.currentTerm || x.votedFor == NO_NODE || x.votedFor == msg.from;
      var recent := msg.lastLogTerm > last.term || (msg.lastLogTerm == last.term && msg.lastLogIndex >= last.index);
      && o.sent == [RequestVoteResponse(msg.term, x.id, msg.from, free && recent)]
      && o.node.currentTerm == msg.term
      && o.node.votedFor == (if free && recent then msg.from
                             else if msg.term > x.currentTerm then NO_NODE else x.votedFor)
      && o.node.role == (if msg.term > x.currentTerm then Follower else x.role)
      && o.node == x.(currentTerm := o.node.currentTerm, votedFor := o.node.votedFor, role := o.node.role)
  {
  }

  /** A stale request is refused, and changes nothing. */
  lemma StaleVoteRefused(x: NodeState, msg: Message)
    requires msg.RequestVote? && msg.from != NO_NODE && msg.term < x.currentTerm
    ensures HandleRequestVote(x, msg) == Outcome(x, [RequestVoteResponse(x.currentTerm, x.id, msg.from, false)])
  {
  }

  /** The request for a vote that a node's log stands behind. */
  function RequestOf(x: NodeState, term: nat, to: NodeId): Message
    requires |x.log| > 0
  {
    var last := x.log[|x.log| - 1];
    RequestVote(term, x.id, to, last.index, last.term)
  }

  predicate Grants(x: NodeState, msg: Message)
    requires msg.RequestVote?
  {
    HandleRequestVote(x, msg).sent == [RequestVoteResponse(msg.term, x.id, msg.from, true)]
  }

  /** Of any two nodes, in a newer term, one at least votes for the other: no two logs are each too old
      for the other. */
  lemma OneOfTwoGrants(x: NodeState, y: NodeState, term: nat)
    requires |x.log| > 0 && |y.log| > 0 && x.id != NO_NODE && y.id != NO_NODE
    requires term > x.currentTerm && term > y.currentTerm
    ensures Grants(y, RequestOf(x, term, y.id)) || Grants(x, RequestOf(y, term, x.id))
  {
    VoteGrantedExactlyWhen(y, RequestOf(x, term, y.id));
    VoteGrantedExactlyWhen(x, RequestOf(y, term, x.id));
  }

  /** And a vote that goes round three logs goes straight: recency orders them. */
  lemma GrantsChain(x: NodeState, y: NodeState, z: NodeState, term: nat)
    requires |x.log| > 0 && |y.log| > 0 && |z.log| > 0 && x.id != NO_NODE && y.id != NO_NODE
    requires term > y.currentTerm && term > z.currentTerm
    requires Grants(y, RequestOf(x, term, y.id)) && Grants(z, RequestOf(y, term, z.id))
    ensures Grants(z, RequestOf(x, term, z.id))
  {
    VoteGrantedExactlyWhen(y, RequestOf(x, term, y.id));
    VoteGrantedExactlyWhen(z, RequestOf(y, term, z.id));
    VoteGrantedExactlyWhen(z, RequestOf(x, term, z.id));
  }

  // ---------------------------------------------------------------- entries

  /** Entries are acknowledged exactly when their term is not stale and the entry before them is there
      with its term; otherwise the log stays. A newer term is adopted in any case. */
  lemma EntriesAcceptedExactlyWhen(rules: Rules, x: NodeState, msg: Message)
    requires msg.AppendEntries? && |x.log| > 0 && msg.from != NO_NODE
    ensures var o, prev := HandleAppendEntries(rules, x, msg), msg.prevLogIndex;
      var term := if msg.term > x.currentTerm then msg.term else x.currentTerm;
      var accepted := && msg.term >= x.currentTerm
                      && (prev == 0 || (prev < |x.log| && x.log[prev].term == msg.prevLogTerm));
      && (accepted ==> o.sent == [AppendEntriesResponse(term, x.id, msg.from, true, prev + |msg.entries|)])
      && (!accepted ==>
            && o.sent == [AppendEntriesResponse(term, x.id, msg.from, false, x.commitIndex)]
            && o.node.log == x.log && o.node.commitIndex == x.commitIndex)
      && o.node.currentTerm == term
      && o.node.role == (if msg.term > x.currentTerm then Follower else x.role)
      && o.node.votedFor == (if msg.term > x.currentTerm then NO_NODE else x.votedFor)
  {
    if msg.term >= x.currentTerm && Matches(x.log, msg.prevLogIndex, msg.prevLogTerm) {
      var y := AdoptTerm(x, msg.term).(log := Merge(rules, x.log, msg.prevLogIndex, msg.entries));
      MergeKeepsEntries(rules, x.log, msg.prevLogIndex, msg.entries);
      NotifyReadyOnlyQueues(y.(commitIndex := Min(msg.leaderCommit, |y.log| - 1)));
    }
  }

  // ---------------------------------------------------------------- stepping down

  /** A leader that hears of a newer term from a follower steps down into it, and says nothing. */
  lemma LeaderStepsDown(rules: Rules, x: NodeState, msg: Message)
    requires msg.AppendEntriesResponse? && msg.from != NO_NODE && x.role == Leader && msg.term > x.currentTerm
    ensures var o := HandleAppendEntriesResponse(rules, x, msg);
      && o.node.role == Follower && o.node.currentTerm == msg.term && o.sent == []
      && o.node.votedFor == x.votedFor && o.node.log == x.log && o.node.commitIndex == x.commitIndex
  {
  }

  /** So does a candidate that hears of it from a voter. */
  lemma CandidateStepsDown(rules: Rules, x: NodeState, msg: Message)
    requires msg.RequestVoteResponse? && msg.from != NO_NODE && x.role == Candidate && msg.term > x.currentTerm
    ensures var o := HandleRequestVoteResponse(rules, x, msg);
      && o.node.role == Follower && o.node.currentTerm == msg.term && o.sent == []
      && o.node.votedFor == x.votedFor && o.node.log == x.log && o.node.commitIndex == x.commitIndex
  {
  }

  /** The answers that the source ignores, whatever their term: votes unless the node runs, and answers to
      entries unless it leads. */
  predicate Ignored(x: NodeState, msg: Message) {
    || (msg.from == NO_NODE && (msg.RequestVoteResponse? || msg.AppendEntriesResponse?))
    || (msg.RequestVoteResponse? && x.role != Candidate)
    || (msg.AppendEntriesResponse? && x.role != Leader)
  }

  lemma CommitKeepsTerm(rules: Rules, x: NodeState)
    ensures CheckCommitIndex(rules, x).currentTerm == x.currentTerm
  {
    CheckCommitBystands(rules, x);
  }

  /** A message of a newer term takes its receiver into that term as a follower, exactly if it is not one
      of the answers the source ignores. */
  lemma NewerTermAdoptedExactlyWhen(rules: Rules, x: NodeState, msg: Message)
    requires |x.log| > 0 && msg.term > x.currentTerm
    ensures var y := HandleMessage(rules, x, msg).node;
      && (y.currentTerm == msg.term <==> !Ignored(x, msg))
      && (!Ignored(x, msg) ==> y.role == Follower)
  {
    match msg
    case RequestVote(_, _, _, _, _) =>
    case RequestVoteResponse(_, _, _, _) =>
    case AppendEntries(_, _, _, _, _, _, _) => NewerEntriesAdopted(rules, x, msg);
    case AppendEntriesResponse(_, _, _, _, _) =>
  }

  lemma NewerEntriesAdopted(rules: Rules, x: NodeState, msg: Message)
    requires |x.log| > 0 && msg.AppendEntries? && msg.term > x.currentTerm
    ensures var y := HandleAppendEntries(rules, x, msg).node; y.currentTerm == msg.term && y.role == Follower
  {
    if Matches(x.log, msg.prevLogIndex, msg.prevLogTerm) {
      var y := AdoptTerm(x, msg.term).(log := Merge(rules, x.log, msg.prevLogIndex, msg.entries));
      MergeKeepsEntries(rules, x.log, msg.prevLogIndex, msg.entries);
      NotifyReadyOnlyQueues(y.(commitIndex := Min(msg.leaderCommit, |y.log| - 1)));
    }
  }
}
