/** Repairing a lagging follower: the leader's nextIndex moves back until the logs match. */
module RaftBackOff {
  import opened RaftTypes
  import opened RaftSteps
  import opened RaftCluster
  import opened RaftLogs
  import opened RaftReplication

  /** x leads, y is a different node no term ahead of it, and both logs are grounded. */
  ghost predicate CanSync(elections: map<nat, Election>, x: NodeState, y: NodeState) {
    && x.role == Leader && y.currentTerm <= x.currentTerm
    && x.id != NO_NODE && y.id != NO_NODE
    && 1 <= Get(x.nextIndex, y.id) <= |x.log|
    && Grounded(elections, x.log) && Grounded(elections, y.log)
    && |y.log| > 0 && x.log[0] == y.log[0] == SENTINEL
  }

  /** The leader sends, the follower answers, the leader handles the answer. */
  function Round(x: NodeState, y: NodeState): (NodeState, NodeState, bool)
    requires |y.log| > 0
  {
    var o := HandleAppendEntries(REPAIRED, y, AppendEntriesFor(x, y.id));
    if |o.sent| == 1 && o.sent[0].AppendEntriesResponse? then
      (HandleAppendEntriesResponse(REPAIRED, x, o.sent[0]).node, o.node, o.sent[0].success)
    else (x, o.node, false)
  }

  lemma AppendEntriesForSlice(elections: map<nat, Election>, x: NodeState, y: NodeState)
    requires CanSync(elections, x, y)
    ensures var msg := AppendEntriesFor(x, y.id);
      && SliceOf(x.log, msg.prevLogIndex, msg.prevLogTerm, msg.entries)
      && msg.prevLogIndex + |msg.entries| + 1 == |x.log|
      && msg.prevLogIndex == Get(x.nextIndex, y.id) - 1
  {
  }

  /** An accepted round leaves the follower with all of the leader's log. */
  lemma AcceptedRound(elections: map<nat, Election>, x: NodeState, y: NodeState)
    requires CanSync(elections, x, y)
    requires var msg := AppendEntriesFor(x, y.id); Matches(y.log, msg.prevLogIndex, msg.prevLogTerm)
    ensures Round(x, y).2 && Agree(Round(x, y).1.log, x.log, |x.log|)
  {
    var msg := AppendEntriesFor(x, y.id);
    var z := AdoptTerm(y, x.currentTerm);
    AppendEntriesForSlice(elections, x, y);
    AppendNewMeaning(elections, z.log, x.log, msg.prevLogIndex, msg.prevLogTerm, msg.entries);
    FollowCommitKeepsLog(z.(log := AppendNew(z.log, msg.prevLogIndex, msg.entries)), msg.leaderCommit);
  }

  /** A rejected round moves nextIndex back by one and leaves the follower's log alone; with
      nextIndex 1 no round is rejected. */
  lemma RejectedRound(elections: map<nat, Election>, x: NodeState, y: NodeState)
    requires CanSync(elections, x, y)
    requires var msg := AppendEntriesFor(x, y.id); !Matches(y.log, msg.prevLogIndex, msg.prevLogTerm)
    ensures Get(x.nextIndex, y.id) > 1
    ensures Round(x, y) == (x.(nextIndex := x.nextIndex[y.id := Get(x.nextIndex, y.id) - 1]),
                            AdoptTerm(y, x.currentTerm), false)
    ensures CanSync(elections, Round(x, y).0, Round(x, y).1)
    ensures Get(Round(x, y).0.nextIndex, Round(x, y).1.id) == Get(x.nextIndex, y.id) - 1
  {
    AppendEntriesForSlice(elections, x, y);
  }

  lemma FollowCommitKeepsLog(x: NodeState, leaderCommit: nat)
    requires |x.log| > 0
    ensures FollowCommit(x, leaderCommit).log == x.log
  {
    if leaderCommit > x.commitIndex {
      NotifyReadyOnlyQueues(x.(commitIndex := Min(leaderCommit, |x.log| - 1)));
    }
  }

  /** Either the round is accepted and the follower is in step, or the next one starts closer. */
  lemma RoundMeaning(elections: map<nat, Election>, x: NodeState, y: NodeState)
    requires CanSync(elections, x, y)
    ensures var r := Round(x, y);
      && (r.2 ==> Agree(r.1.log, x.log, |x.log|))
      && (!r.2 ==> CanSync(elections, r.0, r.1) && r.0.log == x.log
                   && Get(r.0.nextIndex, r.1.id) == Get(x.nextIndex, y.id) - 1)
  {
    var msg := AppendEntriesFor(x, y.id);
    if Matches(y.log, msg.prevLogIndex, msg.prevLogTerm) {
      AcceptedRound(elections, x, y);
    } else {
      RejectedRound(elections, x, y);
    }
  }

  /** An exchange between leader and follower: rejected rounds, then an accepted one. */
  ghost predicate IsExchange(rounds: seq<(NodeState, NodeState)>) {
    && |rounds| > 0
    && (forall i :: 0 <= i < |rounds| ==> |rounds[i].1.log| > 0)
    && (forall i :: 0 <= i < |rounds| - 1 ==> RejectedInto(rounds[i], rounds[i + 1]))
    && Round(rounds[|rounds| - 1].0, rounds[|rounds| - 1].1).2
  }

  ghost predicate RejectedInto(before: (NodeState, NodeState), after: (NodeState, NodeState))
    requires |before.1.log| > 0
  {
    Round(before.0, before.1) == (after.0, after.1, false)
  }

  lemma RejectedThenExchange(first: (NodeState, NodeState), rest: seq<(NodeState, NodeState)>)
    requires |first.1.log| > 0 && IsExchange(rest) && RejectedInto(first, rest[0])
    ensures IsExchange([first] + rest)
  {
    var rounds := [first] + rest;
    forall i | 0 <= i < |rounds| - 1 ensures RejectedInto(rounds[i], rounds[i + 1]) {
      if i > 0 { assert RejectedInto(rest[i - 1], rest[i - 1 + 1]); }
    }
  }

  /** The back-off terminates: from any leader and follower that can sync, at most nextIndex - 1
      rounds are rejected, and the accepted one leaves the follower with all of the leader's log. */
  lemma {:induction false} BackOffTerminates(elections: map<nat, Election>, x: NodeState, y: NodeState)
      returns (rounds: seq<(NodeState, NodeState)>)
    requires CanSync(elections, x, y)
    ensures IsExchange(rounds) && rounds[0] == (x, y) && |rounds| <= Get(x.nextIndex, y.id)
    ensures var last := rounds[|rounds| - 1];
      last.0.log == x.log && Agree(Round(last.0, last.1).1.log, x.log, |x.log|)
    decreases Get(x.nextIndex, y.id)
  {
    RoundMeaning(elections, x, y);
    var r := Round(x, y);
    if r.2 {
      rounds := [(x, y)];
    } else {
      var rest := BackOffTerminates(elections, r.0, r.1);
      rounds := [(x, y)] + rest;
      RejectedThenExchange((x, y), rest);
    }
  }

  /** In a reachable state of the cluster every leader can bring every node not ahead of it into
      step. */
  lemma LeaderCanSync(s: Cluster, n: NodeId, f: NodeId)
    requires Inv(s) && n in s.nodes && f in s.nodes && n != f && s.nodes[n].role == Leader
    requires s.nodes[f].currentTerm <= s.nodes[n].currentTerm
    ensures CanSync(s.elections, s.nodes[n], s.nodes[f])
  {
    assert NodeOk(s, n) && NodeOk(s, f);
  }
}
