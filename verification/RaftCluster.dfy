/** A cluster of Raft nodes joined by a network that may lose, reorder and duplicate messages,
    together with the inductive invariant of its runs. */
module RaftCluster {
  import opened RaftTypes
  import opened RaftSteps
  import opened StateMachine

  datatype Election = Election(leader: NodeId, voters: set<NodeId>, log: Log)

  /** `net` only grows: a message may be delivered any number of times, at any time, or never.
      The last three fields are history: who voted for whom in which term, who won each term and
      what the winner's log has grown to in it, and the highest index each node has acknowledged
      in each term. No step reads them. */
  datatype Cluster = Cluster(
    members: seq<NodeId>,
    nodes: map<NodeId, NodeState>,
    net: set<Message>,
    ballots: map<(NodeId, nat), NodeId>,
    elections: map<nat, Election>,
    acks: map<(NodeId, nat), nat>)

  datatype Action =
    | Timeout(n: NodeId)
    | Receive(msg: Message)
    | ClientPropose(n: NodeId, command: Command)
    | ApplyOne(n: NodeId)

  predicate ValidMembers(members: seq<NodeId>) {
    && |members| > 0
    && NO_NODE !in members
    && forall i, j :: 0 <= i < j < |members| ==> members[i] != members[j]
  }

  function Members(members: seq<NodeId>): set<NodeId> {
    set n | n in members
  }

  function Init(members: seq<NodeId>): Cluster {
    Cluster(members, map n | n in members :: NewNode(n, members), {}, map[], map[], map[])
  }

  // ---------------------------------------------------------------- steps

  function RecordBallot(s: Cluster, x: NodeState, sent: seq<Message>): map<(NodeId, nat), NodeId> {
    if x.role == Candidate then s.ballots[(x.id, x.currentTerm) := x.id]
    else if |sent| == 1 && sent[0].RequestVoteResponse? && sent[0].voteGranted then
      s.ballots[(x.id, x.currentTerm) := sent[0].to]
    else s.ballots
  }

  function RecordElection(s: Cluster, x: NodeState): map<nat, Election> {
    if x.role == Leader then s.elections[x.currentTerm := Election(x.id, x.voters, x.log)] else s.elections
  }

  function RecordAck(s: Cluster, x: NodeState, sent: seq<Message>): map<(NodeId, nat), nat> {
    if |sent| == 1 && sent[0].AppendEntriesResponse? && sent[0].success then
      var key := (x.id, x.currentTerm);
      var known := if key in s.acks then s.acks[key] else 0;
      s.acks[key := if known < sent[0].matchIndex then sent[0].matchIndex else known]
    else s.acks
  }

  function Update(s: Cluster, o: Outcome): Cluster {
    Cluster(s.members, s.nodes[o.node.id := o.node], s.net + (set m | m in o.sent),
            RecordBallot(s, o.node, o.sent), RecordElection(s, o.node), RecordAck(s, o.node, o.sent))
  }

  function Actor(a: Action): NodeId {
    match a
    case Timeout(n) => n
    case Receive(msg) => msg.to
    case ClientPropose(n, _) => n
    case ApplyOne(n) => n
  }

  predicate Enabled(s: Cluster, a: Action) {
    && Actor(a) in s.nodes
    && |s.nodes[Actor(a)].log| > 0
    && (a.Receive? ==> a.msg in s.net)
  }

  function Act(rules: Rules, x: NodeState, a: Action): Outcome
    requires |x.log| > 0
  {
    match a
    case Timeout(_) => Tick(x)
    case Receive(msg) => HandleMessage(rules, x, msg)
    case ClientPropose(_, command) => Propose(x, command)
    case ApplyOne(_) => ApplyNext(x)
  }

  function Next(rules: Rules, s: Cluster, a: Action): Cluster
    requires Enabled(s, a)
  {
    Update(s, Act(rules, s.nodes[Actor(a)], a))
  }

  /** The rules, in clusters as large as each departure allows, that keep every guarantee of Raft. */
  predicate Sound(rules: Rules, members: seq<NodeId>) {
    || |members| == 1
    || (&& rules.mergeFromFirstNew
        && (rules.countVotersOnce || |members| <= 3)
        && CommitsSafely(rules, members))
  }

  predicate CommitsSafely(rules: Rules, members: seq<NodeId>) {
    rules.commitOwnTermOnly || |members| <= 2
  }

  /** `run` lists the successive states of a cluster from its start. */
  ghost predicate IsRun(rules: Rules, run: seq<Cluster>) {
    && |run| > 0
    && ValidMembers(run[0].members)
    && run[0] == Init(run[0].members)
    && forall i :: 0 <= i < |run| - 1 ==> IsStep(rules, run[i], run[i + 1])
  }

  ghost predicate IsStep(rules: Rules, s: Cluster, s': Cluster) {
    exists a :: Enabled(s, a) && s' == Next(rules, s, a)
  }

  ghost predicate Leads(s: Cluster, n: NodeId, term: nat) {
    n in s.nodes && s.nodes[n].role == Leader && s.nodes[n].currentTerm == term
  }

  /** Election safety, over all times of a run. */
  ghost predicate OneLeaderPerTerm(run: seq<Cluster>) {
    forall i, j, term, u, v ::
      0 <= i < |run| && 0 <= j < |run| && Leads(run[i], u, term) && Leads(run[j], v, term) ==> u == v
  }

  // ---------------------------------------------------------------- vocabulary of the invariant

  ghost predicate Quorum(members: seq<NodeId>, q: set<NodeId>) {
    q <= Members(members) && |q| > |members| / 2
  }

  /** The first k entries of the two logs exist and coincide. */
  ghost predicate Agree(a: Log, b: Log, k: nat) {
    && k <= |a| && k <= |b|
    && forall i {:trigger a[i]} {:trigger b[i]} :: 0 <= i < k ==> a[i] == b[i]
  }

  /** Every entry was created by the winner of its term, and everything before it is that
      winner's log. */
  ghost predicate Grounded(elections: map<nat, Election>, log: Log) {
    forall i :: 0 < i < |log| ==>
      log[i].term in elections && Agree(log, elections[log[i].term].log, i + 1)
  }

  ghost predicate WellFormedLog(log: Log) {
    && |log| > 0
    && log[0] == SENTINEL
    && forall i :: 0 <= i < |log| ==> log[i].index == i
  }

  /** Terms never decrease along the log. */
  ghost predicate TermsAscend(log: Log) {
    forall i, j :: 0 <= i < j < |log| ==> log[i].term <= log[j].term
  }

  ghost predicate LogOk(elections: map<nat, Election>, log: Log, bound: nat) {
    && WellFormedLog(log)
    && Grounded(elections, log)
    && forall i :: 0 <= i < |log| ==> log[i].term <= bound
  }

  /** Index m of term T's leader log holds an entry that its replicas decide in T: one that leader
      created itself or, where its replicas are all the nodes there are, any. */
  ghost predicate Eligible(s: Cluster, T: nat, m: nat) {
    && T in s.elections && 0 < m < |s.elections[T].log|
    && (s.elections[T].log[m].term == T || |s.members| <= 2)
  }

  ghost predicate Holds(elections: map<nat, Election>, log: Log, T: nat, m: nat)
    requires T in elections
  {
    Agree(log, elections[T].log, m + 1)
  }

  /** f stores term T's leader log up to index m, as far as messages of that term tell. */
  ghost predicate Acked(s: Cluster, f: NodeId, T: nat, m: nat) {
    T in s.elections && (f == s.elections[T].leader || ((f, T) in s.acks && s.acks[(f, T)] >= m))
  }

  ghost predicate Refuses(s: Cluster, f: NodeId, T: nat, m: nat) {
    f in s.nodes && s.nodes[f].currentTerm > T && !Acked(s, f, T, m)
  }

  /** No quorum can acknowledge index m in term T any more. */
  ghost predicate Blocked(s: Cluster, T: nat, m: nat) {
    exists q :: RefusingSet(s, q, T, m)
  }

  /** Half of the nodes refuse: the others are no quorum. */
  ghost predicate RefusingSet(s: Cluster, q: set<NodeId>, T: nat, m: nat) {
    q <= Members(s.members) && 2 * |q| >= |s.members| && forall f :: f in q ==> Refuses(s, f, T, m)
  }

  ghost predicate Durable(s: Cluster, T: nat, m: nat) {
    && Eligible(s, T, m)
    && exists q :: AckingQuorum(s, q, T, m)
  }

  ghost predicate AckingQuorum(s: Cluster, q: set<NodeId>, T: nat, m: nat) {
    Quorum(s.members, q) && forall f :: f in q ==> Acked(s, f, T, m)
  }

  /** `log` is committed up to index k by an entry of a term no later than `bound`. */
  ghost predicate CommittedUpTo(s: Cluster, log: Log, k: nat, bound: nat) {
    k < |log| && (k == 0 || exists T, m :: CommitWitness(s, log, k, bound, T, m))
  }

  ghost predicate CommitWitness(s: Cluster, log: Log, k: nat, bound: nat, T: nat, m: nat) {
    T <= bound && k <= m && Durable(s, T, m) && Agree(log, s.elections[T].log, k + 1)
  }

  ghost predicate Campaigning(s: Cluster, n: NodeId) {
    n in s.nodes && s.nodes[n].role == Candidate && s.nodes[n].currentTerm !in s.elections
  }

  // ---------------------------------------------------------------- the invariant

  ghost predicate BallotFor(s: Cluster, f: NodeId, T: nat, c: NodeId) {
    (f, T) in s.ballots && s.ballots[(f, T)] == c
  }

  ghost predicate RoleOk(s: Cluster, n: NodeId)
    requires n in s.nodes
  {
    var x := s.nodes[n];
    && x.id == n && n in s.members && x.clusterNodes == s.members
    && (x.role != Follower ==> BallotFor(s, n, x.currentTerm, n))
    && (x.role == Leader ==>
          && x.currentTerm in s.elections
          && s.elections[x.currentTerm].leader == n
          && s.elections[x.currentTerm].voters == x.voters)
    && (x.role == Candidate ==>
          x.voters <= Members(s.members) && forall v :: v in x.voters ==> BallotFor(s, v, x.currentTerm, n))
    && (forall T :: T in s.elections && s.elections[T].leader == n ==>
          T < x.currentTerm || (T == x.currentTerm && x.role == Leader && x.log == s.elections[T].log))
  }

  ghost predicate AckOk(s: Cluster, n: NodeId)
    requires n in s.nodes
  {
    forall T :: (n, T) in s.acks ==>
      T <= s.nodes[n].currentTerm && T in s.elections && s.acks[(n, T)] < |s.elections[T].log|
  }

  ghost predicate KeepsAcked(s: Cluster, n: NodeId)
    requires n in s.nodes
  {
    forall T, m :: Eligible(s, T, m) && Acked(s, n, T, m) ==>
      Holds(s.elections, s.nodes[n].log, T, m) || Blocked(s, T, m)
  }

  ghost predicate ProgressOk(s: Cluster, n: NodeId)
    requires n in s.nodes
  {
    var x := s.nodes[n];
    x.role == Leader ==> forall f :: f in s.members && f != n ==>
      && 1 <= Get(x.nextIndex, f) <= |x.log|
      && (Get(x.matchIndex, f) == 0 || Acked(s, f, x.currentTerm, Get(x.matchIndex, f)))
  }

  /** What was given to the state machine and what waits for it are the committed entries, each once
      and in order. */
  ghost predicate ApplyOk(x: NodeState) {
    && x.lastApplied == x.commitIndex < |x.log|
    && x.applied + x.applyCh == x.log[1..x.commitIndex + 1]
    && x.machine == ApplyAll(EMPTY_MACHINE, x.applied)
  }

  ghost predicate NodeOk(s: Cluster, n: NodeId) {
    && n in s.nodes
    && RoleOk(s, n)
    && LogOk(s.elections, s.nodes[n].log, s.nodes[n].currentTerm)
    && AckOk(s, n)
    && KeepsAcked(s, n)
    && ProgressOk(s, n)
    && CommittedUpTo(s, s.nodes[n].log, s.nodes[n].commitIndex, s.nodes[n].currentTerm)
    && ApplyOk(s.nodes[n])
  }

  /** The ballot f cast in term U: still its vote, and unless U has been decided the candidate's
      log holds everything f had acknowledged before. */
  ghost predicate BallotOk(s: Cluster, f: NodeId, U: nat)
    requires (f, U) in s.ballots
  {
    var c := s.ballots[(f, U)];
    && f in s.nodes && c in s.nodes && c != NO_NODE
    && 0 < U <= s.nodes[c].currentTerm
    && (U < s.nodes[f].currentTerm || (U == s.nodes[f].currentTerm && s.nodes[f].votedFor == c))
    && (Campaigning(s, c) && s.nodes[c].currentTerm == U ==> CandidateCovers(s, c, f, U))
  }

  ghost predicate CandidateCovers(s: Cluster, c: NodeId, f: NodeId, U: nat)
    requires c in s.nodes
  {
    forall T: nat, m: nat :: T < U && Eligible(s, T, m) && Acked(s, f, T, m) ==>
      Holds(s.elections, s.nodes[c].log, T, m) || Blocked(s, T, m)
  }

  /** Leader completeness in inductive form. */
  ghost predicate Complete(s: Cluster, U: nat)
    requires U in s.elections
  {
    forall T: nat, m: nat :: T < U && Eligible(s, T, m) ==>
      Holds(s.elections, s.elections[U].log, T, m) || Blocked(s, T, m)
  }

  ghost predicate ElectionOk(s: Cluster, U: nat)
    requires U in s.elections
  {
    var e := s.elections[U];
    && U > 0
    && e.leader in s.nodes
    && Quorum(s.members, e.voters)
    && (forall v :: v in e.voters ==> BallotFor(s, v, U, e.leader))
    && LogOk(s.elections, e.log, U) && TermsAscend(e.log)
    && Complete(s, U)
  }

  ghost predicate MsgOk(s: Cluster, msg: Message) {
    && msg.from in s.nodes && msg.from != NO_NODE && msg.from != msg.to
    && match msg
       case RequestVote(term, from, _, index, lastTerm) =>
         && 0 < term <= s.nodes[from].currentTerm
         && (Campaigning(s, from) && s.nodes[from].currentTerm == term ==>
               LastLogInfo(s.nodes[from].log) == (index, lastTerm))
       case RequestVoteResponse(term, from, to, granted) =>
         granted ==> BallotFor(s, from, term, to)
       case AppendEntries(term, from, _, prev, prevTerm, entries, leaderCommit) =>
         && term in s.elections && s.elections[term].leader == from
         && SliceOf(s.elections[term].log, prev, prevTerm, entries)
         && leaderCommit <= prev + |entries|
         && CommittedUpTo(s, s.elections[term].log, leaderCommit, term)
       case AppendEntriesResponse(term, from, to, success, matchIndex) =>
         success ==> (from, term) in s.acks && matchIndex <= s.acks[(from, term)]
  }

  ghost predicate SliceOf(log: Log, prev: nat, prevTerm: nat, entries: seq<LogEntry>) {
    && prev + |entries| < |log|
    && log[prev].term == prevTerm
    && entries == log[prev + 1..prev + 1 + |entries|]
  }

  ghost predicate Inv(s: Cluster) {
    && ValidMembers(s.members)
    && s.nodes.Keys == Members(s.members)
    && (forall n {:trigger NodeOk(s, n)} :: n in s.nodes ==> NodeOk(s, n))
    && (forall f, U {:trigger BallotOk(s, f, U)} :: (f, U) in s.ballots ==> BallotOk(s, f, U))
    && (forall U {:trigger ElectionOk(s, U)} :: U in s.elections ==> ElectionOk(s, U))
    && (forall msg {:trigger MsgOk(s, msg)} :: msg in s.net ==> MsgOk(s, msg))
  }
}
