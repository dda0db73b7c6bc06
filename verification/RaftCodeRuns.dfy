/** Runs of the code itself: exactly which of its steps are the protocol's, and what a run made of
    such steps guarantees. */
module RaftCodeRuns {
  import opened RaftTypes
  import opened RaftSteps
  import opened RaftCluster
  import opened RaftAsWritten
  import opened RaftVoteCounting
  import opened RaftSafety
  import opened RaftNecessity

  // ---------------------------------------------------------------- one step

  /** The merge cannot go wrong: the message is rejected, or brings only news. */
  predicate MergeGuard(x: NodeState, msg: Message)
    requires msg.AppendEntries?
  {
    || msg.term < x.currentTerm || !Matches(x.log, msg.prevLogIndex, msg.prevLogTerm)
    || BringsOnlyNews(x.log, msg.prevLogIndex, msg.entries)
  }

  /** The commit test cannot go wrong: it is not reached, or finds no index, or one of the current
      term. */
  predicate CommitGuard(x: NodeState, msg: Message)
    requires msg.AppendEntriesResponse?
  {
    || msg.from == NO_NODE || x.role != Leader || msg.term != x.currentTerm || !msg.success
    || var y := x.(matchIndex := x.matchIndex[msg.from := msg.matchIndex],
                   nextIndex := x.nextIndex[msg.from := msg.matchIndex + 1]);
       var k := CommitTarget(false, y, |x.log|);
       k == x.commitIndex || (k < |x.log| && x.log[k].term == x.currentTerm)
  }

  /** The vote count cannot go wrong: the vote is not counted, or counter and voters decide alike. */
  predicate VoteGuard(x: NodeState, msg: Message)
    requires msg.RequestVoteResponse?
  {
    || msg.from == NO_NODE || x.role != Candidate || msg.term != x.currentTerm || !msg.voteGranted
    || TestsAgree(x, msg.from)
  }

  predicate Guard(x: NodeState, a: Action) {
    match a
    case Receive(AppendEntries(_, _, _, _, _, _, _)) => MergeGuard(x, a.msg)
    case Receive(AppendEntriesResponse(_, _, _, _, _)) => CommitGuard(x, a.msg)
    case Receive(RequestVoteResponse(_, _, _, _)) => VoteGuard(x, a.msg)
    case _ => true
  }

  lemma CommitGuardExactlyWhen(x: NodeState, msg: Message)
    requires msg.AppendEntriesResponse?
    ensures HandleAppendEntriesResponse(AS_WRITTEN, x, msg) == HandleAppendEntriesResponse(REPAIRED, x, msg)
      <==> CommitGuard(x, msg)
  {
    if msg.from != NO_NODE && x.role == Leader && msg.term == x.currentTerm && msg.success {
      HandleAppendEntriesResponseExactlyWhen(x, msg);
    }
  }

  /** A step of the code is a step of the protocol exactly when its guard holds. */
  lemma ActExactlyWhen(x: NodeState, a: Action)
    requires |x.log| > 0
    ensures Act(AS_WRITTEN, x, a) == Act(REPAIRED, x, a) <==> Guard(x, a)
  {
    if a.Receive? {
      match a.msg
      case RequestVote(_, _, _, _, _) =>
      case RequestVoteResponse(_, _, _, _) => HandleRequestVoteResponseExactlyWhen(x, a.msg);
      case AppendEntries(_, _, _, _, _, _, _) => HandleAppendEntriesExactlyWhen(x, a.msg);
      case AppendEntriesResponse(_, _, _, _, _) => CommitGuardExactlyWhen(x, a.msg);
    }
  }

  // ---------------------------------------------------------------- whole runs

  /** A step of the code whose guard holds. */
  ghost predicate IsGuardedStep(s: Cluster, s': Cluster) {
    exists a :: Enabled(s, a) && Guard(s.nodes[Actor(a)], a) && s' == Next(AS_WRITTEN, s, a)
  }

  ghost predicate IsGuardedRun(run: seq<Cluster>) {
    && IsRun(AS_WRITTEN, run)
    && forall i :: 0 <= i < |run| - 1 ==> IsGuardedStep(run[i], run[i + 1])
  }

  lemma GuardedStepIsRepaired(s: Cluster, s': Cluster)
    requires IsGuardedStep(s, s')
    ensures IsStep(REPAIRED, s, s')
  {
    var a :| Enabled(s, a) && Guard(s.nodes[Actor(a)], a) && s' == Next(AS_WRITTEN, s, a);
    ActExactlyWhen(s.nodes[Actor(a)], a);
    assert s' == Next(REPAIRED, s, a);
  }

  /** A run of the code in which every step meets its guard is a run of the protocol, in a cluster of
      any size: all the guarantees of RaftSafety are guarantees of it. */
  lemma GuardedRunIsSound(run: seq<Cluster>)
    requires IsGuardedRun(run)
    ensures IsSoundRun(REPAIRED, run) && OneLeaderPerTerm(run) && CommittedAlike(run)
  {
    forall i | 0 <= i < |run| - 1 ensures IsStep(REPAIRED, run[i], run[i + 1]) {
      assert IsGuardedStep(run[i], run[i + 1]);
      GuardedStepIsRepaired(run[i], run[i + 1]);
    }
    VotersDecideRun(REPAIRED, run);
    SoundCommitsAlike(REPAIRED, run);
  }

  // ---------------------------------------------------------------- steps outside the guards

  ghost predicate LeavesProtocol(s: Cluster, s': Cluster) {
    exists a :: Enabled(s, a) && !Guard(s.nodes[Actor(a)], a) && s' == Next(AS_WRITTEN, s, a)
  }

  lemma UnguardedLeaves(s: Cluster, s': Cluster)
    requires IsStep(AS_WRITTEN, s, s') && !IsGuardedStep(s, s')
    ensures LeavesProtocol(s, s')
  {
    var a :| Enabled(s, a) && s' == Next(AS_WRITTEN, s, a);
    assert !Guard(s.nodes[Actor(a)], a);
  }

  lemma UnguardedStep(run: seq<Cluster>) returns (i: nat)
    requires IsRun(AS_WRITTEN, run) && !IsGuardedRun(run)
    ensures i + 1 < |run| && IsStep(AS_WRITTEN, run[i], run[i + 1]) && !IsGuardedStep(run[i], run[i + 1])
  {
    i :| i < |run| - 1 && !IsGuardedStep(run[i], run[i + 1]);
  }

  /** So every run of the code in which two nodes lead one term, or commit differently, has taken a
      step that fails its guard. */
  lemma FailureLeavesProtocol(run: seq<Cluster>) returns (i: nat)
    requires IsRun(AS_WRITTEN, run) && !(OneLeaderPerTerm(run) && CommittedAlike(run))
    ensures i + 1 < |run| && LeavesProtocol(run[i], run[i + 1])
  {
    assert !IsGuardedRun(run) by {
      if IsGuardedRun(run) { GuardedRunIsSound(run); }
    }
    i := UnguardedStep(run);
    UnguardedLeaves(run[i], run[i + 1]);
  }
}
