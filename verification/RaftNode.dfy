/** The Raft node as an object: handlers that change its fields and put messages on the wire. */
module RaftNode {
  import opened RaftTypes
  import opened RaftSteps
  import opened StateMachine

  class Node {
    const rules: Rules
    const id: NodeId
    const clusterNodes: seq<NodeId>
    const stateMachine: SimpleStateMachine
    var currentTerm: nat
    var votedFor: NodeId
    var role: Role
    var log: Log
    var commitIndex: nat
    var lastApplied: nat
    var nextIndex: map<NodeId, nat>
    var matchIndex: map<NodeId, nat>
    var votesReceived: nat
    var voters: set<NodeId>
    var applyCh: seq<LogEntry>
    var outbox: seq<Message>   // everything handed to the transport

    ghost function State(): NodeState
      reads this, stateMachine
    {
      NodeState(id, clusterNodes, currentTerm, votedFor, role, log, commitIndex, lastApplied, nextIndex, matchIndex,
                votesReceived, voters, applyCh, stateMachine.applied, stateMachine.State())
    }

    /** This call took the node from x to what o says and sent what o says. */
    twostate predicate Did(o: Outcome)
      reads this, stateMachine
    {
      State() == o.node && outbox == old(outbox) + o.sent
    }

    constructor (rules: Rules, id: NodeId, clusterNodes: seq<NodeId>, stateMachine: SimpleStateMachine)
      ensures this.rules == rules && this.stateMachine == stateMachine
      ensures outbox == []
      ensures State() == RaftSteps.NewNode(id, clusterNodes).(machine := stateMachine.State(),
                                                              applied := stateMachine.applied)
    {
      this.rules, this.id, this.clusterNodes, this.stateMachine := rules, id, clusterNodes, stateMachine;
      currentTerm, votedFor, role := 0, NO_NODE, Follower;
      log := [SENTINEL];
      commitIndex, lastApplied := 0, 0;
      nextIndex, matchIndex := map[], map[];
      votesReceived, voters := 0, {};
      applyCh, outbox := [], [];
    }

    method Send(msg: Message)
      modifies this`outbox
      ensures outbox == old(outbox) + [msg]
    {
      outbox := outbox + [msg];
    }

    // -------------------------------------------------------------- elections

    method Tick()
      modifies this
      ensures Did(RaftSteps.Tick(old(State())))
    {
      match role
      case Follower => BecomeCandidate();
      case Candidate => StartElection();
      case Leader => SendHeartbeats();
    }

    method BecomeCandidate()
      modifies this
      ensures Did(RaftSteps.BecomeCandidate(old(State())))
    {
      role := Candidate;
      currentTerm := currentTerm + 1;
      votedFor := id;
      StartElection();
    }

    method StartElection()
      modifies this`votesReceived, this`voters, this`outbox
      ensures Did(RaftSteps.StartElection(old(State())))
    {
      ghost var x := State();
      var (lastLogIndex, lastLogTerm) := LastLogInfo(log);
      votesReceived, voters := 1, {id};
      for i := 0 to |clusterNodes|
        invariant State() == x.(votesReceived := 1, voters := {x.id})
        invariant outbox == old(outbox) + RequestVotesTo(x, clusterNodes[..i])
      {
        assert clusterNodes[..i + 1][..i] == clusterNodes[..i];
        if clusterNodes[i] != id {
          Send(RequestVote(currentTerm, id, clusterNodes[i], lastLogIndex, lastLogTerm));
        }
      }
      assert clusterNodes[..|clusterNodes|] == clusterNodes;
    }

    method SendRequestVoteResponse(to: NodeId, voteGranted: bool)
      modifies this`outbox
      ensures outbox == old(outbox) + RequestVoteReply(State(), to, voteGranted)
    {
      if to != NO_NODE { Send(RequestVoteResponse(currentTerm, id, to, voteGranted)); }
    }

    method HandleRequestVote(msg: Message)
      requires msg.RequestVote?
      modifies this
      ensures Did(RaftSteps.HandleRequestVote(old(State()), msg))
    {
      if msg.term < currentTerm {
        SendRequestVoteResponse(msg.from, false);
        return;
      }
      if msg.term > currentTerm {
        currentTerm, votedFor, role := msg.term, NO_NODE, Follower;
      }
      var voteGranted := false;
      if votedFor == NO_NODE || votedFor == msg.from {
        var (lastLogIndex, lastLogTerm) := LastLogInfo(log);
        if msg.lastLogTerm > lastLogTerm || (msg.lastLogTerm == lastLogTerm && msg.lastLogIndex >= lastLogIndex) {
          voteGranted := true;
          votedFor := msg.from;
        }
      }
      SendRequestVoteResponse(msg.from, voteGranted);
    }

    method HandleRequestVoteResponse(msg: Message)
      requires msg.RequestVoteResponse?
      modifies this
      ensures Did(RaftSteps.HandleRequestVoteResponse(rules, old(State()), msg))
    {
      if msg.from == NO_NODE || role != Candidate || msg.term < currentTerm { return; }
      if msg.term > currentTerm {
        currentTerm, role := msg.term, Follower;
        return;
      }
      if msg.voteGranted {
        votesReceived, voters := votesReceived + 1, voters + {msg.from};
        var votes := if rules.countVotersOnce then |voters| else votesReceived;
        if votes >= |clusterNodes| / 2 + 1 { BecomeLeader(); }
      }
    }

    method BecomeLeader()
      modifies this
      ensures Did(RaftSteps.BecomeLeader(old(State())))
    {
      ghost var x := State();
      role := Leader;
      for i := 0 to |clusterNodes|
        invariant State() == x.(role := Leader,
                                nextIndex := ResetProgress(x.nextIndex, id, clusterNodes[..i], |x.log|),
                                matchIndex := ResetProgress(x.matchIndex, id, clusterNodes[..i], 0))
        invariant outbox == old(outbox)
      {
        assert clusterNodes[..i + 1][..i] == clusterNodes[..i];
        if clusterNodes[i] != id {
          nextIndex := nextIndex[clusterNodes[i] := |log|];
          matchIndex := matchIndex[clusterNodes[i] := 0];
        }
      }
      assert clusterNodes[..|clusterNodes|] == clusterNodes;
      SendHeartbeats();
    }

    // -------------------------------------------------------------- replication

    method SendAppendEntries(to: NodeId)
      modifies this`outbox
      ensures outbox == old(outbox) + [AppendEntriesFor(State(), to)]
    {
      var next := Get(nextIndex, to);
      var prevLogIndex := if next == 0 then MAX_UINT64 else next - 1;
      var prevLogTerm := 0;
      if 0 < prevLogIndex < |log| { prevLogTerm := log[prevLogIndex].term; }
      var entries := [];
      if next < |log| { entries := log[next..]; }
      Send(AppendEntries(currentTerm, id, to, prevLogIndex, prevLogTerm, entries, commitIndex));
    }

    method SendHeartbeats()
      modifies this`outbox
      ensures outbox == old(outbox) + RaftSteps.SendHeartbeats(State())
    {
      ghost var x := State();
      for i := 0 to |clusterNodes|
        invariant State() == x
        invariant outbox == old(outbox) + AppendEntriesTo(x, clusterNodes[..i])
      {
        assert clusterNodes[..i + 1][..i] == clusterNodes[..i];
        if clusterNodes[i] != id { SendAppendEntries(clusterNodes[i]); }
      }
      assert clusterNodes[..|clusterNodes|] == clusterNodes;
    }

    method SendAppendEntriesResponse(to: NodeId, success: bool, index: nat)
      modifies this`outbox
      ensures outbox == old(outbox) + AppendEntriesReply(State(), to, success, index)
    {
      if to != NO_NODE { Send(AppendEntriesResponse(currentTerm, id, to, success, index)); }
    }

    method HandleAppendEntries(msg: Message)
      requires msg.AppendEntries? && |log| > 0
      modifies this
      ensures Did(RaftSteps.HandleAppendEntries(rules, old(State()), msg))
    {
      if msg.term < currentTerm {
        SendAppendEntriesResponse(msg.from, false, commitIndex);
        return;
      }
      if msg.term > currentTerm {
        currentTerm, votedFor, role := msg.term, NO_NODE, Follower;
      }
      if msg.prevLogIndex > 0 {
        if msg.prevLogIndex >= |log| || log[msg.prevLogIndex].term != msg.prevLogTerm {
          SendAppendEntriesResponse(msg.from, false, commitIndex);
          return;
        }
      }
      AcceptEntries(msg);
    }

    /** The part of HandleAppendEntries behind the consistency check. */
    method AcceptEntries(msg: Message)
      requires msg.AppendEntries? && msg.prevLogIndex < |log|
      modifies this
      ensures |Merge(rules, old(log), msg.prevLogIndex, msg.entries)| > 0
      ensures var x := old(State());
        var merged := Merge(rules, x.log, msg.prevLogIndex, msg.entries);
        var z := RaftSteps.FollowCommit(x.(log := merged), msg.leaderCommit);
        Did(Outcome(z, AppendEntriesReply(z, msg.from, true, msg.prevLogIndex + |msg.entries|)))
    {
      MergeKeepsEntries(rules, log, msg.prevLogIndex, msg.entries);
      if rules.mergeFromFirstNew {
        MergeNew(msg.prevLogIndex, msg.entries);
      } else {
        MergeAll(msg.prevLogIndex, msg.entries);
      }
      FollowCommit(msg.leaderCommit);
      SendAppendEntriesResponse(msg.from, true, msg.prevLogIndex + |msg.entries|);
    }

    method FollowCommit(leaderCommit: nat)
      requires |log| > 0
      modifies this`commitIndex, this`lastApplied, this`applyCh
      ensures State() == RaftSteps.FollowCommit(old(State()), leaderCommit)
    {
      if leaderCommit > commitIndex {
        commitIndex := Min(leaderCommit, |log| - 1);
        NotifyReady();
      }
    }

    /** As the source has it: cut at the first conflict, then append all entries. */
    method MergeAll(prev: nat, entries: seq<LogEntry>)
      requires prev < |log|
      modifies this`log
      ensures log == AppendAll(old(log), prev, entries)
    {
      if |entries| > 0 {
        var i := 0;
        while i < |entries|
          invariant i <= |entries|
          invariant log == old(log)
          invariant FirstConflict(log, prev, entries, 0) == FirstConflict(log, prev, entries, i)
        {
          var index := prev + 1 + i;
          if index < |log| && log[index].term != entries[i].term {
            log := log[..index];
            break;
          }
          i := i + 1;
        }
        ghost var kept := log;
        for k := 0 to |entries|
          invariant log == kept + entries[..k]
        {
          assert entries[..k + 1] == entries[..k] + [entries[k]];
          log := log + [entries[k]];
        }
        assert entries[..|entries|] == entries;
      }
    }

    /** The repair: skip what the log already holds, then cut and append the rest. */
    method MergeNew(prev: nat, entries: seq<LogEntry>)
      requires prev < |log|
      modifies this`log
      ensures log == AppendNew(old(log), prev, entries)
    {
      var i := 0;
      while i < |entries| && prev + 1 + i < |log| && log[prev + 1 + i].term == entries[i].term
        invariant i <= |entries| && prev + 1 + i <= |log|
        invariant FirstNew(log, prev, entries, 0) == FirstNew(log, prev, entries, i)
      {
        i := i + 1;
      }
      if i < |entries| {
        log := log[..prev + 1 + i];
        ghost var kept := log;
        for k := i to |entries|
          invariant log == kept + entries[i..k]
        {
          assert entries[i..k + 1] == entries[i..k] + [entries[k]];
          log := log + [entries[k]];
        }
      }
    }

    method NotifyReady()
      modifies this`lastApplied, this`applyCh
      ensures State() == RaftSteps.NotifyReady(old(State()))
    {
      while lastApplied < commitIndex
        invariant RaftSteps.NotifyReady(State()) == RaftSteps.NotifyReady(old(State()))
        decreases commitIndex - lastApplied
      {
        lastApplied := lastApplied + 1;
        if lastApplied < |log| {
          var entry := log[lastApplied];
          if entry.index == 0 { continue; }
          applyCh := applyCh + [entry];
        }
      }
    }

    method HandleAppendEntriesResponse(msg: Message)
      requires msg.AppendEntriesResponse?
      modifies this
      ensures Did(RaftSteps.HandleAppendEntriesResponse(rules, old(State()), msg))
    {
      if msg.from == NO_NODE || role != Leader || msg.term < currentTerm { return; }
      if msg.term > currentTerm {
        currentTerm, role := msg.term, Follower;
        return;
      }
      if msg.success {
        matchIndex := matchIndex[msg.from := msg.matchIndex];
        nextIndex := nextIndex[msg.from := msg.matchIndex + 1];
        CheckCommitIndex();
        if commitIndex > 0 { SendHeartbeats(); }
      } else {
        if Get(nextIndex, msg.from) > 1 {
          nextIndex := nextIndex[msg.from := Get(nextIndex, msg.from) - 1];
        }
        SendAppendEntries(msg.from);
      }
    }

    method CheckCommitIndex()
      modifies this`commitIndex, this`lastApplied, this`applyCh
      ensures State() == RaftSteps.CheckCommitIndex(rules, old(State()))
    {
      ghost var x := State();
      var maxCommitIndex := commitIndex;
      var i := commitIndex + 1;
      while i < |log|
        invariant State() == x
        invariant maxCommitIndex == CommitTarget(rules.commitOwnTermOnly, x, i)
        invariant i > commitIndex && (i <= |log| || i == commitIndex + 1)
      {
        var count := CountReplicas(i);
        if count > |clusterNodes| / 2 && (rules.commitOwnTermOnly ==> log[i].term == currentTerm) {
          maxCommitIndex := i;
        }
        i := i + 1;
      }
      assert |log| <= commitIndex + 1 ==> CommitTarget(rules.commitOwnTermOnly, x, |log|) == commitIndex;
      if maxCommitIndex > commitIndex {
        commitIndex := maxCommitIndex;
        NotifyReady();
      }
    }

    method CountReplicas(i: nat) returns (count: nat)
      ensures count == Replicas(id, clusterNodes, matchIndex, i)
    {
      count := 1;
      for k := 0 to |clusterNodes|
        invariant count == Replicas(id, clusterNodes[..k], matchIndex, i)
      {
        assert clusterNodes[..k + 1][..k] == clusterNodes[..k];
        if clusterNodes[k] != id && Get(matchIndex, clusterNodes[k]) >= i { count := count + 1; }
      }
      assert clusterNodes[..|clusterNodes|] == clusterNodes;
    }

    // -------------------------------------------------------------- clients and the state machine

    method Propose(command: Command) returns (ok: bool)
      modifies this
      ensures Did(RaftSteps.Propose(old(State()), command))
      ensures ok == (old(role) == Leader)
    {
      if role != Leader { return false; }
      log := log + [LogEntry(currentTerm, |log|, command)];
      SendHeartbeats();
      return true;
    }

    /** One turn of the apply loop, the only consumer of the channel in this model. */
    method ApplyNext()
      modifies this, stateMachine
      ensures Did(RaftSteps.ApplyNext(old(State())))
    {
      if |applyCh| > 0 {
        var entry := applyCh[0];
        applyCh := applyCh[1..];
        var _ := stateMachine.Apply(entry);
      }
    }

    /** Delivery of one message from the transport. */
    method ProcessMessage(msg: Message)
      requires |log| > 0
      modifies this
      ensures Did(RaftSteps.HandleMessage(rules, old(State()), msg))
    {
      match msg
      case RequestVote(_, _, _, _, _) => HandleRequestVote(msg);
      case RequestVoteResponse(_, _, _, _) => HandleRequestVoteResponse(msg);
      case AppendEntries(_, _, _, _, _, _, _) => HandleAppendEntries(msg);
      case AppendEntriesResponse(_, _, _, _, _) => HandleAppendEntriesResponse(msg);
    }
  }
}
