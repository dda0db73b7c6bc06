/** The three departures of the source from the protocol: exactly when each of them changes the
    outcome of a step, and inputs on which it does. */
module RaftAsWritten {
  import opened RaftTypes
  import opened RaftSteps

  // ---------------------------------------------------------------- appending everything

  /** The message brings nothing the log already holds. */
  predicate BringsOnlyNews(log: Log, prev: nat, entries: seq<LogEntry>) {
    |entries| == 0 || prev + 1 >= |log| || log[prev + 1].term != entries[0].term
  }

  ghost predicate Indexed(log: Log) {
    forall i :: 0 <= i < |log| ==> log[i].index == i
  }

  /** If the first entry is there already, nothing is cut at or below it. */
  lemma {:induction false} ConflictsAfter(log: Log, prev: nat, entries: seq<LogEntry>, i: nat)
    requires i <= |entries| && prev + 1 + i <= |log|
    ensures var c, r := FirstConflict(log, prev, entries, i), FirstNew(log, prev, entries, i);
      r <= c && (c < |entries| ==> r == c)
    decreases |entries| - i
  {
    if i < |entries| && prev + 1 + i < |log| && log[prev + 1 + i].term == entries[i].term {
      ConflictsAfter(log, prev, entries, i + 1);
    } else if i < |entries| && prev + 1 + i == |log| {
      NoConflictBeyond(log, prev, entries, i);
    }
  }

  lemma {:induction false} NoConflictBeyond(log: Log, prev: nat, entries: seq<LogEntry>, i: nat)
    requires i <= |entries| && prev + 1 + i >= |log|
    ensures FirstConflict(log, prev, entries, i) == |entries|
    decreases |entries| - i
  {
    if i < |entries| { NoConflictBeyond(log, prev, entries, i + 1); }
  }

  /** The source's merge is the protocol's exactly when the message brings only news. */
  lemma AppendAllExactlyWhen(log: Log, prev: nat, entries: seq<LogEntry>)
    requires prev < |log|
    ensures AppendAll(log, prev, entries) == AppendNew(log, prev, entries) <==> BringsOnlyNews(log, prev, entries)
  {
    ConflictsAfter(log, prev, entries, 0);
    if BringsOnlyNews(log, prev, entries) {
      if |entries| > 0 && prev + 1 == |log| { assert log[..prev + 1] == log; }
    } else {
      var c, r := FirstConflict(log, prev, entries, 0), FirstNew(log, prev, entries, 0);
      assert c >= 1 && r >= 1;
      assert |AppendNew(log, prev, entries)| < |AppendAll(log, prev, entries)|;
    }
  }

  /** The source's merge keeps every entry at its own index exactly when the message brings only
      news. */
  lemma AppendAllIndexed(log: Log, prev: nat, entries: seq<LogEntry>)
    requires prev < |log| && Indexed(log)
    requires forall k :: 0 <= k < |entries| ==> entries[k].index == prev + 1 + k
    ensures Indexed(AppendAll(log, prev, entries)) <==> BringsOnlyNews(log, prev, entries)
  {
    ConflictsAfter(log, prev, entries, 0);
    var merged := AppendAll(log, prev, entries);
    if BringsOnlyNews(log, prev, entries) {
      if |entries| > 0 && prev + 1 == |log| { assert log[..prev + 1] == log; }
    } else {
      var c := FirstConflict(log, prev, entries, 0);
      var at := if c < |entries| then prev + 1 + c else |log|;
      assert merged[at] == entries[0];
    }
  }

  /** Delivering the same message twice duplicates its entry. */
  lemma RedeliveryDuplicates(command: Command)
    ensures var entry := LogEntry(1, 1, command);
      var msg := AppendEntries(1, 1, 2, 0, 0, [entry], 0);
      var once := HandleAppendEntries(AS_WRITTEN, NewNode(2, [1, 2, 3]), msg).node;
      |once.log| > 0
      && once.log == [SENTINEL, entry]
      && HandleAppendEntries(AS_WRITTEN, once, msg).node.log == [SENTINEL, entry, entry]
  {
    var entry := LogEntry(1, 1, command);
    assert FirstConflict([SENTINEL], 0, [entry], 0) == 1;
    assert FirstConflict([SENTINEL, entry], 0, [entry], 0) == FirstConflict([SENTINEL, entry], 0, [entry], 1);
  }

  // ---------------------------------------------------------------- counting votes with an integer

  /** What a candidate makes of the same response delivered k times. */
  function Deliver(rules: Rules, x: NodeState, msg: Message, k: nat): NodeState
    requires msg.RequestVoteResponse?
  {
    if k == 0 then x else HandleRequestVoteResponse(rules, Deliver(rules, x, msg, k - 1), msg).node
  }

  predicate Grants(x: NodeState, msg: Message) {
    msg.RequestVoteResponse? && msg.voteGranted && msg.term == x.currentTerm && msg.from != NO_NODE && msg.from != x.id
  }

  /** A candidate that has counted only its own vote. */
  predicate FreshCandidate(x: NodeState) {
    x.role == Candidate && x.votesReceived == 1 && x.voters == {x.id}
  }

  lemma {:induction false} OneVoterCountedOften(x: NodeState, msg: Message, k: nat)
    requires FreshCandidate(x) && Grants(x, msg) && k < |x.clusterNodes| / 2
    ensures var y := Deliver(AS_WRITTEN, x, msg, k);
      y == x.(votesReceived := 1 + k, voters := if k == 0 then {x.id} else {x.id, msg.from})
  {
    if k > 0 {
      OneVoterCountedOften(x, msg, k - 1);
      assert {x.id} + {msg.from} == {x.id, msg.from};
      assert {x.id, msg.from} + {msg.from} == {x.id, msg.from};
    }
  }

  lemma LastDelivery(x: NodeState, y: NodeState, msg: Message, k: nat)
    requires msg.RequestVoteResponse? && k > 0 && Deliver(AS_WRITTEN, x, msg, k - 1) == y
    ensures Deliver(AS_WRITTEN, x, msg, k) == HandleRequestVoteResponse(AS_WRITTEN, y, msg).node
  {
  }

  lemma SecondVoterElects(x: NodeState, msg: Message)
    requires x.role == Candidate && Grants(x, msg) && x.voters == {x.id, msg.from}
    requires x.votesReceived == |x.clusterNodes| / 2
    ensures var y := HandleRequestVoteResponse(AS_WRITTEN, x, msg).node;
      y.role == Leader && y.voters == {x.id, msg.from} && |y.voters| == 2
  {
    assert {x.id, msg.from} + {msg.from} == {x.id, msg.from};
  }

  /** In every cluster of four or more, one voter's response delivered often enough elects a
      candidate that only two nodes voted for. */
  lemma TwoVotersElect(x: NodeState, msg: Message)
    requires FreshCandidate(x) && Grants(x, msg) && |x.clusterNodes| >= 4
    ensures var y := Deliver(AS_WRITTEN, x, msg, |x.clusterNodes| / 2);
      y.role == Leader && y.voters == {x.id, msg.from} && |y.voters| < |x.clusterNodes| / 2 + 1
  {
    var k := |x.clusterNodes| / 2;
    var y := x.(votesReceived := k, voters := {x.id, msg.from});
    OneVoterCountedOften(x, msg, k - 1);
    LastDelivery(x, y, msg, k);
    SecondVoterElects(y, msg);
  }

  /** The counter elects exactly when distinct voters would, if and only if no quorum needs more
      than one vote besides the candidate's own: in clusters of at most three. */
  lemma CounterDecidesAsVoters(x: NodeState, msg: Message)
    requires FreshCandidate(x) && Grants(x, msg)
    ensures |x.clusterNodes| <= 3 <==>
      forall k: nat :: Deliver(AS_WRITTEN, x, msg, k).role == Deliver(REPAIRED, x, msg, k).role
  {
    if |x.clusterNodes| <= 3 {
      forall k: nat ensures Deliver(AS_WRITTEN, x, msg, k).role == Deliver(REPAIRED, x, msg, k).role {
        SmallClusterDelivers(x, msg, k);
      }
    } else {
      TwoVotersElect(x, msg);
      TwoVotersDoNot(x, msg, |x.clusterNodes| / 2);
    }
  }

  lemma {:induction false} SmallClusterDelivers(x: NodeState, msg: Message, k: nat)
    requires FreshCandidate(x) && Grants(x, msg) && |x.clusterNodes| <= 3
    ensures var y := Deliver(AS_WRITTEN, x, msg, k);
      y == Deliver(REPAIRED, x, msg, k) && (if k == 0 then y == x else y.role == Leader)
  {
    if k > 0 {
      SmallClusterDelivers(x, msg, k - 1);
      assert |{x.id} + {msg.from}| == 2;
    }
  }

  lemma {:induction false} TwoVotersDoNot(x: NodeState, msg: Message, k: nat)
    requires FreshCandidate(x) && Grants(x, msg) && |x.clusterNodes| >= 4
    ensures var y := Deliver(REPAIRED, x, msg, k);
      y == x.(votesReceived := 1 + k, voters := if k == 0 then {x.id} else {x.id, msg.from})
  {
    if k > 0 {
      TwoVotersDoNot(x, msg, k - 1);
      assert {x.id} + {msg.from} == {x.id, msg.from};
      assert {x.id, msg.from} + {msg.from} == {x.id, msg.from};
      assert |{x.id, msg.from}| == 2;
    }
  }

  // ---------------------------------------------------------------- committing entries of any term

  lemma {:induction false} TargetsCompare(x: NodeState, end: nat)
    ensures CommitTarget(true, x, end) <= CommitTarget(false, x, end)
    ensures var k := CommitTarget(true, x, end); k == x.commitIndex || x.commitIndex < k < end
    ensures var k := CommitTarget(false, x, end);
      && (k > x.commitIndex ==> Committable(false, x, k))
      && (CommitTarget(true, x, end) == k <==> k == x.commitIndex || Committable(true, x, k))
  {
    if end > x.commitIndex + 1 && !Committable(true, x, end - 1) {
      TargetsCompare(x, end - 1);
    }
  }

  /** The source commits what the protocol commits exactly when the highest index it finds on a
      majority carries the current term, or it finds none. */
  lemma CommitExactlyWhen(x: NodeState)
    ensures var k := CommitTarget(false, x, |x.log|);
      CommitTarget(true, x, |x.log|) == k <==>
        k == x.commitIndex || (k < |x.log| && x.log[k].term == x.currentTerm)
  {
    TargetsCompare(x, |x.log|);
  }

  // ---------------------------------------------------------------- two consumers of one channel

  /** The entries the state machine sees when entry i of the channel is taken by the apply loop
      (`byLoop[i]`) or by the main loop, whose applyEntry drops what lastApplied already covers. */
  function Seen(ch: seq<LogEntry>, byLoop: seq<bool>, lastApplied: nat): seq<LogEntry>
    requires |byLoop| == |ch|
  {
    if |ch| == 0 then []
    else
      (if byLoop[0] || ch[0].index > lastApplied then [ch[0]] else [])
      + Seen(ch[1..], byLoop[1..], lastApplied)
  }

  /** notifyReady moves lastApplied past an entry before queueing it, so the state machine sees
      every queued entry exactly when the main loop takes none. */
  lemma {:induction false} SeenExactlyWhen(ch: seq<LogEntry>, byLoop: seq<bool>, lastApplied: nat)
    requires |byLoop| == |ch|
    requires forall i :: 0 <= i < |ch| ==> ch[i].index <= lastApplied
    ensures |Seen(ch, byLoop, lastApplied)| <= |ch|
    ensures Seen(ch, byLoop, lastApplied) == ch <==> forall i :: 0 <= i < |ch| ==> byLoop[i]
  {
    if |ch| > 0 {
      SeenExactlyWhen(ch[1..], byLoop[1..], lastApplied);
      var rest := Seen(ch[1..], byLoop[1..], lastApplied);
      if byLoop[0] {
        assert [ch[0]] + rest == ch <==> rest == ch[1..];
        assert (forall i :: 0 <= i < |ch| ==> byLoop[i]) <==> forall i :: 0 <= i < |ch[1..]| ==> byLoop[1..][i] by {
          if forall i :: 0 <= i < |ch[1..]| ==> byLoop[1..][i] {
            forall i | 0 <= i < |ch| ensures byLoop[i] {
              if i > 0 { assert byLoop[1..][i - 1]; }
            }
          }
        }
      }
    }
  }

  // ---------------------------------------------------------------- whole steps

  lemma AcceptedLog(rules: Rules, x: NodeState, msg: Message)
    requires msg.AppendEntries? && msg.term >= x.currentTerm && |x.log| > 0
    requires Matches(x.log, msg.prevLogIndex, msg.prevLogTerm)
    ensures HandleAppendEntries(rules, x, msg).node.log == Merge(rules, x.log, msg.prevLogIndex, msg.entries)
  {
    var y := AdoptTerm(x, msg.term).(log := Merge(rules, x.log, msg.prevLogIndex, msg.entries));
    MergeKeepsEntries(rules, x.log, msg.prevLogIndex, msg.entries);
    NotifyReadyOnlyQueues(y.(commitIndex := Min(msg.leaderCommit, |y.log| - 1)));
  }

  /** AppendEntries is handled as the protocol has it exactly when it is rejected or brings only
      news. */
  lemma HandleAppendEntriesExactlyWhen(x: NodeState, msg: Message)
    requires msg.AppendEntries? && |x.log| > 0
    ensures HandleAppendEntries(AS_WRITTEN, x, msg) == HandleAppendEntries(REPAIRED, x, msg) <==>
      msg.term < x.currentTerm || !Matches(x.log, msg.prevLogIndex, msg.prevLogTerm)
      || BringsOnlyNews(x.log, msg.prevLogIndex, msg.entries)
  {
    if msg.term >= x.currentTerm && Matches(x.log, msg.prevLogIndex, msg.prevLogTerm) {
      AppendAllExactlyWhen(x.log, msg.prevLogIndex, msg.entries);
      AcceptedLog(AS_WRITTEN, x, msg);
      AcceptedLog(REPAIRED, x, msg);
    }
  }

  /** A success response is handled as the protocol has it exactly when the commit test finds no
      index, or one of the current term. */
  lemma HandleAppendEntriesResponseExactlyWhen(x: NodeState, msg: Message)
    requires msg.AppendEntriesResponse? && msg.success && msg.from != NO_NODE
    requires x.role == Leader && msg.term == x.currentTerm
    ensures var y := x.(matchIndex := x.matchIndex[msg.from := msg.matchIndex],
                        nextIndex := x.nextIndex[msg.from := msg.matchIndex + 1]);
      var k := CommitTarget(false, y, |x.log|);
      HandleAppendEntriesResponse(AS_WRITTEN, x, msg) == HandleAppendEntriesResponse(REPAIRED, x, msg) <==>
        k == x.commitIndex || (k < |x.log| && x.log[k].term == x.currentTerm)
  {
    var y := x.(matchIndex := x.matchIndex[msg.from := msg.matchIndex],
                nextIndex := x.nextIndex[msg.from := msg.matchIndex + 1]);
    CommitExactlyWhen(y);
    TargetsCompare(y, |x.log|);
    NotifyReadyOnlyQueues(y.(commitIndex := CommitTarget(false, y, |x.log|)));
    NotifyReadyOnlyQueues(y.(commitIndex := CommitTarget(true, y, |x.log|)));
  }

  /** With one more vote, the counter and the set of voters decide alike. */
  predicate TestsAgree(x: NodeState, from: NodeId) {
    var needed := |x.clusterNodes| / 2 + 1;
    x.votesReceived + 1 >= needed <==> |x.voters + {from}| >= needed
  }

  /** A vote is handled as the protocol has it exactly when it is not counted, or the counter and the
      voters decide alike. */
  lemma HandleRequestVoteResponseExactlyWhen(x: NodeState, msg: Message)
    requires msg.RequestVoteResponse?
    ensures HandleRequestVoteResponse(AS_WRITTEN, x, msg) == HandleRequestVoteResponse(REPAIRED, x, msg) <==>
      msg.from == NO_NODE || x.role != Candidate || msg.term != x.currentTerm || !msg.voteGranted
      || TestsAgree(x, msg.from)
  {
    var y := x.(votesReceived := x.votesReceived + 1, voters := x.voters + {msg.from});
    assert BecomeLeader(y).node.role == Leader && y.role == x.role;
  }

  /** While every vote counted was a new voter's, they decide alike unless a voter is counted again
      just when one vote is missing. */
  lemma TestsAgreeExactlyWhen(x: NodeState, from: NodeId)
    requires x.votesReceived == |x.voters|
    ensures TestsAgree(x, from) <==> from !in x.voters || x.votesReceived != |x.clusterNodes| / 2
  {
    if from in x.voters {
      assert x.voters + {from} == x.voters;
    } else {
      assert |x.voters + {from}| == |x.voters| + 1;
    }
  }
}
