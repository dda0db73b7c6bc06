/** What each handler of a Raft node computes, as functions from a node state to the next
    node state and the messages sent. */
module RaftSteps {
  import opened RaftTypes

  datatype Outcome = Outcome(node: NodeState, sent: seq<Message>)

  const MAX_UINT64: nat := 0xFFFF_FFFF_FFFF_FFFF

  function NewNode(id: NodeId, clusterNodes: seq<NodeId>): NodeState {
    NodeState(id, clusterNodes, 0, NO_NODE, Follower, [SENTINEL], 0, 0, map[], map[], 0, {}, [], [], EMPTY_MACHINE)
  }

  // Reading an absent key of a Go map yields zero.
  function Get(m: map<NodeId, nat>, n: NodeId): nat {
    if n in m then m[n] else 0
  }

  function Min(a: nat, b: nat): nat {
    if a < b then a else b
  }

  function LastLogInfo(log: Log): (nat, nat) {
    if |log| == 0 then (0, 0) else (log[|log| - 1].index, log[|log| - 1].term)
  }

  /** One message to every cluster node but this one, in the order of the configuration. */
  function Broadcast(self: NodeId, peers: seq<NodeId>, message: NodeId -> Message): seq<Message> {
    if |peers| == 0 then []
    else
      var to := peers[|peers| - 1];
      Broadcast(self, peers[..|peers| - 1], message) + if to == self then [] else [message(to)]
  }

  // ---------------------------------------------------------------- elections

  function RequestVoteFor(x: NodeState, to: NodeId): Message {
    var (lastLogIndex, lastLogTerm) := LastLogInfo(x.log);
    RequestVote(x.currentTerm, x.id, to, lastLogIndex, lastLogTerm)
  }

  function StartElection(x: NodeState): Outcome {
    Outcome(x.(votesReceived := 1, voters := {x.id}), RequestVotesTo(x, x.clusterNodes))
  }

  function RequestVotesTo(x: NodeState, peers: seq<NodeId>): seq<Message> {
    Broadcast(x.id, peers, (to: NodeId) => RequestVoteFor(x, to))
  }

  function BecomeCandidate(x: NodeState): Outcome {
    StartElection(x.(role := Candidate, currentTerm := x.currentTerm + 1, votedFor := x.id))
  }

  function RequestVoteReply(x: NodeState, to: NodeId, granted: bool): seq<Message> {
    if to == NO_NODE then [] else [RequestVoteResponse(x.currentTerm, x.id, to, granted)]
  }

  // A message of a newer term turns any node into a follower of that term.
  function AdoptTerm(x: NodeState, term: nat): NodeState {
    if term > x.currentTerm then x.(currentTerm := term, votedFor := NO_NODE, role := Follower) else x
  }

  predicate UpToDate(lastLogIndex: nat, lastLogTerm: nat, log: Log) {
    var (index, term) := LastLogInfo(log);
    lastLogTerm > term || (lastLogTerm == term && lastLogIndex >= index)
  }

  function HandleRequestVote(x: NodeState, msg: Message): Outcome
    requires msg.RequestVote?
  {
    if msg.term < x.currentTerm then
      Outcome(x, RequestVoteReply(x, msg.from, false))
    else
      var y := AdoptTerm(x, msg.term);
      if (y.votedFor == NO_NODE || y.votedFor == msg.from) && UpToDate(msg.lastLogIndex, msg.lastLogTerm, y.log) then
        Outcome(y.(votedFor := msg.from), RequestVoteReply(y, msg.from, true))
      else
        Outcome(y, RequestVoteReply(y, msg.from, false))
  }

  function ResetProgress(m: map<NodeId, nat>, self: NodeId, peers: seq<NodeId>, value: nat): map<NodeId, nat> {
    if |peers| == 0 then m
    else
      var to := peers[|peers| - 1];
      var rest := ResetProgress(m, self, peers[..|peers| - 1], value);
      if to == self then rest else rest[to := value]
  }

  function BecomeLeader(x: NodeState): Outcome {
    var y := x.(role := Leader,
                nextIndex := ResetProgress(x.nextIndex, x.id, x.clusterNodes, |x.log|),
                matchIndex := ResetProgress(x.matchIndex, x.id, x.clusterNodes, 0));
    Outcome(y, SendHeartbeats(y))
  }

  predicate Elected(rules: Rules, x: NodeState) {
    var needed := |x.clusterNodes| / 2 + 1;
    if rules.countVotersOnce then |x.voters| >= needed else x.votesReceived >= needed
  }

  function HandleRequestVoteResponse(rules: Rules, x: NodeState, msg: Message): Outcome
    requires msg.RequestVoteResponse?
  {
    if msg.from == NO_NODE || x.role != Candidate || msg.term < x.currentTerm then
      Outcome(x, [])
    else if msg.term > x.currentTerm then
      Outcome(x.(currentTerm := msg.term, role := Follower), [])
    else if !msg.voteGranted then
      Outcome(x, [])
    else
      var y := x.(votesReceived := x.votesReceived + 1, voters := x.voters + {msg.from});
      if Elected(rules, y) then BecomeLeader(y) else Outcome(y, [])
  }

  // ---------------------------------------------------------------- replication

  function AppendEntriesFor(x: NodeState, to: NodeId): Message {
    var nextIndex := Get(x.nextIndex, to);
    var prevLogIndex := if nextIndex == 0 then MAX_UINT64 else nextIndex - 1;
    var prevLogTerm := if 0 < prevLogIndex < |x.log| then x.log[prevLogIndex].term else 0;
    var entries := if nextIndex < |x.log| then x.log[nextIndex..] else [];
    AppendEntries(x.currentTerm, x.id, to, prevLogIndex, prevLogTerm, entries, x.commitIndex)
  }

  function AppendEntriesTo(x: NodeState, peers: seq<NodeId>): seq<Message> {
    Broadcast(x.id, peers, (to: NodeId) => AppendEntriesFor(x, to))
  }

  function SendHeartbeats(x: NodeState): seq<Message> {
    AppendEntriesTo(x, x.clusterNodes)
  }

  function AppendEntriesReply(x: NodeState, to: NodeId, success: bool, matchIndex: nat): seq<Message> {
    if to == NO_NODE then [] else [AppendEntriesResponse(x.currentTerm, x.id, to, success, matchIndex)]
  }

  /** Position in `entries`, from i on, of the first entry whose term contradicts the log. */
  function FirstConflict(log: Log, prev: nat, entries: seq<LogEntry>, i: nat): (r: nat)
    requires i <= |entries|
    ensures i <= r <= |entries|
    ensures r < |entries| ==> prev + 1 + r < |log|
    decreases |entries| - i
  {
    if i == |entries| then i
    else if prev + 1 + i < |log| && log[prev + 1 + i].term != entries[i].term then i
    else FirstConflict(log, prev, entries, i + 1)
  }

  /** The source's merge: cut the log at the first conflict, then append every entry. */
  function AppendAll(log: Log, prev: nat, entries: seq<LogEntry>): Log {
    if |entries| == 0 then log
    else
      var i := FirstConflict(log, prev, entries, 0);
      (if i < |entries| then log[..prev + 1 + i] else log) + entries
  }

  /** Position in `entries`, from i on, of the first entry the log lacks or contradicts. */
  function FirstNew(log: Log, prev: nat, entries: seq<LogEntry>, i: nat): (r: nat)
    requires i <= |entries| && prev + 1 + i <= |log|
    ensures i <= r <= |entries|
    ensures prev + 1 + r <= |log|
    decreases |entries| - i
  {
    if i == |entries| || prev + 1 + i == |log| || log[prev + 1 + i].term != entries[i].term then i
    else FirstNew(log, prev, entries, i + 1)
  }

  /** The protocol's merge: cut the log and append from the first new entry only. */
  function AppendNew(log: Log, prev: nat, entries: seq<LogEntry>): Log
    requires prev < |log|
  {
    var i := FirstNew(log, prev, entries, 0);
    if i == |entries| then log else log[..prev + 1 + i] + entries[i..]
  }

  function Merge(rules: Rules, log: Log, prev: nat, entries: seq<LogEntry>): Log
    requires prev < |log|
  {
    if rules.mergeFromFirstNew then AppendNew(log, prev, entries) else AppendAll(log, prev, entries)
  }

  predicate Matches(log: Log, prev: nat, prevTerm: nat) {
    prev == 0 || (prev < |log| && log[prev].term == prevTerm)
  }

  /** Hands every committed entry above lastApplied to the apply channel. */
  function NotifyReady(x: NodeState): NodeState
    decreases x.commitIndex - x.lastApplied
  {
    if x.lastApplied >= x.commitIndex then x
    else
      var i := x.lastApplied + 1;
      var y := x.(lastApplied := i);
      NotifyReady(if i < |x.log| && x.log[i].index != 0 then y.(applyCh := x.applyCh + [x.log[i]]) else y)
  }

  lemma {:induction false} NotifyReadyOnlyQueues(x: NodeState)
    ensures NotifyReady(x) == x.(lastApplied := NotifyReady(x).lastApplied, applyCh := NotifyReady(x).applyCh)
    decreases x.commitIndex - x.lastApplied
  {
    if x.lastApplied < x.commitIndex {
      var i := x.lastApplied + 1;
      var y := x.(lastApplied := i);
      NotifyReadyOnlyQueues(if i < |x.log| && x.log[i].index != 0 then y.(applyCh := x.applyCh + [x.log[i]]) else y);
    }
  }

  function FollowCommit(x: NodeState, leaderCommit: nat): NodeState
    requires |x.log| > 0
  {
    if leaderCommit > x.commitIndex then
      NotifyReady(x.(commitIndex := Min(leaderCommit, |x.log| - 1)))
    else x
  }

  function HandleAppendEntries(rules: Rules, x: NodeState, msg: Message): Outcome
    requires msg.AppendEntries? && |x.log| > 0
  {
    if msg.term < x.currentTerm then
      Outcome(x, AppendEntriesReply(x, msg.from, false, x.commitIndex))
    else
      var y := AdoptTerm(x, msg.term);
      if !Matches(y.log, msg.prevLogIndex, msg.prevLogTerm) then
        Outcome(y, AppendEntriesReply(y, msg.from, false, y.commitIndex))
      else
        var merged := Merge(rules, y.log, msg.prevLogIndex, msg.entries);
        MergeKeepsEntries(rules, y.log, msg.prevLogIndex, msg.entries);
        var z := FollowCommit(y.(log := merged), msg.leaderCommit);
        Outcome(z, AppendEntriesReply(z, msg.from, true, msg.prevLogIndex + |msg.entries|))
  }

  lemma MergeKeepsEntries(rules: Rules, log: Log, prev: nat, entries: seq<LogEntry>)
    requires prev < |log|
    ensures |Merge(rules, log, prev, entries)| > prev
  {
  }

  /** Replicas of index i as the leader sees them, itself included. */
  function Replicas(self: NodeId, peers: seq<NodeId>, matchIndex: map<NodeId, nat>, i: nat): nat {
    if |peers| == 0 then 1
    else
      var p := peers[|peers| - 1];
      Replicas(self, peers[..|peers| - 1], matchIndex, i) + if p != self && Get(matchIndex, p) >= i then 1 else 0
  }

  predicate Committable(ownTermOnly: bool, x: NodeState, i: nat) {
    && i < |x.log|
    && Replicas(x.id, x.clusterNodes, x.matchIndex, i) > |x.clusterNodes| / 2
    && (ownTermOnly ==> x.log[i].term == x.currentTerm)
  }

  /** Greatest committable index below `end`, or the current commitIndex. */
  function CommitTarget(ownTermOnly: bool, x: NodeState, end: nat): nat {
    if end <= x.commitIndex + 1 then x.commitIndex
    else if Committable(ownTermOnly, x, end - 1) then end - 1
    else CommitTarget(ownTermOnly, x, end - 1)
  }

  function CheckCommitIndex(rules: Rules, x: NodeState): NodeState {
    var target := CommitTarget(rules.commitOwnTermOnly, x, |x.log|);
    if target > x.commitIndex then NotifyReady(x.(commitIndex := target)) else x
  }

  function HandleAppendEntriesResponse(rules: Rules, x: NodeState, msg: Message): Outcome
    requires msg.AppendEntriesResponse?
  {
    if msg.from == NO_NODE || x.role != Leader || msg.term < x.currentTerm then
      Outcome(x, [])
    else if msg.term > x.currentTerm then
      Outcome(x.(currentTerm := msg.term, role := Follower), [])
    else if msg.success then
      var y := x.(matchIndex := x.matchIndex[msg.from := msg.matchIndex],
                  nextIndex := x.nextIndex[msg.from := msg.matchIndex + 1]);
      var z := CheckCommitIndex(rules, y);
      Outcome(z, if z.commitIndex > 0 then SendHeartbeats(z) else [])
    else
      var next := Get(x.nextIndex, msg.from);
      var y := if next > 1 then x.(nextIndex := x.nextIndex[msg.from := next - 1]) else x;
      Outcome(y, [AppendEntriesFor(y, msg.from)])
  }

  // ---------------------------------------------------------------- local events

  function Tick(x: NodeState): Outcome {
    match x.role
    case Follower => BecomeCandidate(x)
    case Candidate => StartElection(x)
    case Leader => Outcome(x, SendHeartbeats(x))
  }

  function Propose(x: NodeState, command: Command): Outcome {
    if x.role != Leader then Outcome(x, [])
    else
      var y := x.(log := x.log + [LogEntry(x.currentTerm, |x.log|, command)]);
      Outcome(y, SendHeartbeats(y))
  }

  function ApplyEntry(m: Machine, entry: LogEntry): Machine {
    if entry.index == 0 then m
    else
      match entry.command.kind
      case CommandPut =>
        Machine(m.data[entry.command.key := entry.command.value], m.terms[entry.command.key := entry.term])
      case CommandDelete => Machine(m.data - {entry.command.key}, m.terms - {entry.command.key})
      case CommandGet => m
      case CommandUnknown => m
  }

  /** The apply loop takes the oldest entry off the channel. */
  function ApplyNext(x: NodeState): Outcome {
    if |x.applyCh| == 0 then Outcome(x, [])
    else
      var entry := x.applyCh[0];
      var machine := ApplyEntry(x.machine, entry);
      Outcome(x.(applyCh := x.applyCh[1..], applied := x.applied + [entry], machine := machine), [])
  }

  function HandleMessage(rules: Rules, x: NodeState, msg: Message): Outcome
    requires |x.log| > 0
  {
    match msg
    case RequestVote(_, _, _, _, _) => HandleRequestVote(x, msg)
    case RequestVoteResponse(_, _, _, _) => HandleRequestVoteResponse(rules, x, msg)
    case AppendEntries(_, _, _, _, _, _, _) => HandleAppendEntries(rules, x, msg)
    case AppendEntriesResponse(_, _, _, _, _) => HandleAppendEntriesResponse(rules, x, msg)
  }
}
