/** The guarantees of Raft, over every run of the protocol and of every departure from it that the
    size of the cluster makes harmless. */
module RaftSafety {
  import opened RaftTypes
  import opened RaftSteps
  import opened StateMachine
  import opened RaftCluster
  import opened RaftBallots
  import opened RaftVoteCounting
  import opened RaftStability
  import opened RaftLogs
  import opened RaftInductive
  import opened RaftLeadership
  import opened RaftReplication

  // ---------------------------------------------------------------- the invariant holds in every run

  lemma InitInv(members: seq<NodeId>)
    requires ValidMembers(members)
    ensures Inv(Init(members))
  {
    var s := Init(members);
    forall n | n in s.nodes ensures NodeOk(s, n) {
    }
  }

  /** The rules under which every step keeps the invariant. */
  predicate Plain(rules: Rules, members: seq<NodeId>) {
    rules.mergeFromFirstNew && rules.countVotersOnce && CommitsSafely(rules, members)
  }

  lemma StepKeepsInv(rules: Rules, s: Cluster, a: Action)
    requires Inv(s) && Enabled(s, a) && Plain(rules, s.members)
    ensures Advances(s, Next(rules, s, a))
  {
    match a
    case Timeout(n) => TimeoutInv(s, n);
    case Receive(msg) => ReceiveInv(rules, s, msg);
    case ClientPropose(n, command) => ProposeInv(s, n, command);
    case ApplyOne(n) => ApplyInv(s, n);
  }

  lemma TimeoutInv(s: Cluster, n: NodeId)
    requires Inv(s) && n in s.nodes
    ensures Advances(s, Update(s, Tick(s.nodes[n])))
  {
    match s.nodes[n].role
    case Follower => CampaignInv(s, n);
    case Candidate => RetryInv(s, n);
    case Leader => HeartbeatInv(s, n);
  }

  lemma HeartbeatInv(s: Cluster, n: NodeId)
    requires Inv(s) && n in s.nodes && s.nodes[n].role == Leader
    ensures Advances(s, Update(s, Outcome(s.nodes[n], SendHeartbeats(s.nodes[n]))))
  {
    var o := Outcome(s.nodes[n], SendHeartbeats(s.nodes[n]));
    assert NodeOk(s, n);
    HeartbeatsOnly(s.nodes[n]);
    if NodeOk(Update(s, o), n) { LeaderMessagesOk(s, o); }
    SameRoleInv(s, o);
  }

  lemma ReceiveInv(rules: Rules, s: Cluster, msg: Message)
    requires Inv(s) && msg in s.net && msg.to in s.nodes && |s.nodes[msg.to].log| > 0 && Plain(rules, s.members)
    ensures Advances(s, Update(s, HandleMessage(rules, s.nodes[msg.to], msg)))
  {
    match msg
    case RequestVote(_, _, _, _, _) => RequestVoteInv(s, msg.to, msg);
    case RequestVoteResponse(_, _, _, _) => RequestVoteResponseInv(rules, s, msg.to, msg);
    case AppendEntries(_, _, _, _, _, _, _) => AppendEntriesInv(rules, s, msg.to, msg);
    case AppendEntriesResponse(_, _, _, _, _) => AppendEntriesResponseInv(rules, s, msg.to, msg);
  }

  lemma {:induction false} PlainRunInv(rules: Rules, run: seq<Cluster>, i: nat)
    requires IsRun(rules, run) && Plain(rules, run[0].members) && i < |run|
    ensures Inv(run[i]) && run[i].members == run[0].members
  {
    if i == 0 {
      InitInv(run[0].members);
    } else {
      PlainRunInv(rules, run, i - 1);
      assert IsStep(rules, run[i - 1], run[i - 1 + 1]);
      var a :| Enabled(run[i - 1], a) && run[i] == Next(rules, run[i - 1], a);
      StepKeepsInv(rules, run[i - 1], a);
    }
  }

  // ---------------------------------------------------------------- which rules are sound

  /** A run of a cluster of any size under rules whose departures that size makes harmless. */
  ghost predicate IsSoundRun(rules: Rules, run: seq<Cluster>) {
    IsRun(rules, run) && Sound(rules, run[0].members)
  }

  /** Nobody to talk to. */
  ghost predicate Alone(s: Cluster) {
    && s.net == {} && |s.members| == 1
    && forall n {:trigger s.nodes[n]} :: n in s.nodes ==> s.nodes[n].id == n && s.nodes[n].clusterNodes == [n]
  }

  lemma AloneStep(rules: Rules, s: Cluster, s': Cluster)
    requires Alone(s) && IsStep(rules, s, s')
    ensures Alone(s') && s'.members == s.members && IsStep(REPAIRED, s, s')
  {
    var a :| Enabled(s, a) && s' == Next(rules, s, a);
    AloneAct(rules, s.nodes[Actor(a)], a);
    assert s' == Next(REPAIRED, s, a);
  }

  lemma AloneAct(rules: Rules, x: NodeState, a: Action)
    requires x.clusterNodes == [x.id] && |x.log| > 0 && !a.Receive?
    ensures var o := Act(rules, x, a);
      o == Act(REPAIRED, x, a) && o.sent == [] && o.node.id == x.id && o.node.clusterNodes == x.clusterNodes
  {
    AloneIsSilent(Act(rules, x, a).node);
    AloneIsSilent(Act(rules, x, a).node.(votesReceived := x.votesReceived, voters := x.voters));
  }

  lemma AloneIsSilent(x: NodeState)
    requires x.clusterNodes == [x.id]
    ensures SendHeartbeats(x) == [] && RequestVotesTo(x, x.clusterNodes) == []
  {
    ToNobody(x.id, (to: NodeId) => AppendEntriesFor(x, to));
    ToNobody(x.id, (to: NodeId) => RequestVoteFor(x, to));
  }

  lemma ToNobody(self: NodeId, message: NodeId -> Message)
    ensures Broadcast(self, [self], message) == []
  {
    assert Broadcast(self, [self][..0], message) == [];
  }

  lemma InitAlone(members: seq<NodeId>)
    requires |members| == 1
    ensures Alone(Init(members))
  {
    forall n | n in members ensures members == [n] {
    }
  }

  lemma {:induction false} AloneRun(rules: Rules, run: seq<Cluster>, i: nat)
    requires IsRun(rules, run) && |run[0].members| == 1 && i < |run|
    ensures Alone(run[i])
    ensures forall k :: 0 <= k < i ==> IsStep(REPAIRED, run[k], run[k + 1])
  {
    if i == 0 {
      InitAlone(run[0].members);
    } else {
      AloneRun(rules, run, i - 1);
      assert IsStep(rules, run[i - 1], run[i - 1 + 1]);
      AloneStep(rules, run[i - 1], run[i]);
    }
  }

  /** Under sound rules every run is one that the invariant governs: a lone node hears no message,
      and in a cluster of at most three the first vote decides. */
  lemma SoundIsPlain(rules: Rules, run: seq<Cluster>) returns (plain: Rules)
    requires IsSoundRun(rules, run)
    ensures IsRun(plain, run) && Plain(plain, run[0].members)
  {
    if |run[0].members| == 1 {
      AloneRun(rules, run, |run| - 1);
      plain := REPAIRED;
    } else if rules.countVotersOnce {
      plain := rules;
    } else {
      SmallClusterSafe(rules, run);
      plain := Counted(rules);
    }
  }

  lemma RunInv(rules: Rules, run: seq<Cluster>, i: nat)
    requires IsSoundRun(rules, run) && i < |run|
    ensures Inv(run[i])
  {
    var plain := SoundIsPlain(rules, run);
    PlainRunInv(plain, run, i);
  }

  lemma StepIsLater(rules: Rules, run: seq<Cluster>, i: nat)
    requires IsSoundRun(rules, run) && i + 1 < |run|
    ensures Later(run[i], run[i + 1])
  {
    var plain := SoundIsPlain(rules, run);
    PlainRunInv(plain, run, i);
    assert IsStep(plain, run[i], run[i + 1]);
    var a :| Enabled(run[i], a) && run[i + 1] == Next(plain, run[i], a);
    StepKeepsInv(plain, run[i], a);
  }

  lemma NowIsLater(rules: Rules, run: seq<Cluster>, i: nat)
    requires IsSoundRun(rules, run) && i < |run|
    ensures Later(run[i], run[i])
  {
    RunInv(rules, run, i);
    var s := run[i];
    forall n | n in s.nodes ensures CommitKept(s.nodes[n], s.nodes[n]) {
      assert NodeOk(s, n);
    }
  }

  lemma LaterByStep(rules: Rules, run: seq<Cluster>, i: nat, j: nat)
    requires IsSoundRun(rules, run) && i < |run| && j + 1 < |run| && Later(run[i], run[j])
    ensures Later(run[i], run[j + 1])
  {
    StepIsLater(rules, run, j);
    LaterTransitive(run[i], run[j], run[j + 1]);
  }

  lemma {:induction false} RunIsLater(rules: Rules, run: seq<Cluster>, i: nat, j: nat)
    requires IsSoundRun(rules, run) && i <= j < |run|
    ensures Later(run[i], run[j])
    decreases j
  {
    if i < j {
      RunIsLater(rules, run, i, j - 1);
      LaterByStep(rules, run, i, j - 1);
    } else {
      NowIsLater(rules, run, i);
    }
  }

  /** What holds of the past holds of the future. */
  lemma RunLater(rules: Rules, run: seq<Cluster>, i: nat, j: nat)
    requires IsSoundRun(rules, run) && i <= j < |run|
    ensures Inv(run[i]) && Inv(run[j]) && Later(run[i], run[j])
  {
    RunInv(rules, run, i);
    RunInv(rules, run, j);
    RunIsLater(rules, run, i, j);
  }

  // ---------------------------------------------------------------- the five guarantees

  /** Election safety: at most one node is ever leader in a term. */
  lemma ElectionSafety(rules: Rules, run: seq<Cluster>, i: nat, j: nat, term: nat, u: NodeId, v: NodeId)
    requires IsSoundRun(rules, run) && i < |run| && j < |run|
    requires Leads(run[i], u, term) && Leads(run[j], v, term)
    ensures u == v
  {
    var plain := SoundIsPlain(rules, run);
    VotersDecide(plain, run, i, j, term, u, v);
  }

  /** Leader append-only: between two moments of a node's leadership of a term, its log has only
      been extended. */
  lemma LeaderAppendOnly(rules: Rules, run: seq<Cluster>, i: nat, j: nat, term: nat, u: NodeId)
    requires IsSoundRun(rules, run) && i <= j < |run|
    requires Leads(run[i], u, term) && Leads(run[j], u, term)
    ensures run[i].nodes[u].log <= run[j].nodes[u].log
  {
    RunLater(rules, run, i, j);
    assert NodeOk(run[i], u) && NodeOk(run[j], u);
    LeaderLogGrows(run[i], run[j], term, u);
  }

  lemma LeaderLogGrows(s: Cluster, t: Cluster, term: nat, u: NodeId)
    requires Later(s, t) && NodeOk(s, u) && NodeOk(t, u) && Leads(s, u, term) && Leads(t, u, term)
    ensures s.nodes[u].log <= t.nodes[u].log
  {
  }

  /** Log matching, across nodes and across time: logs that hold the same term at an index are
      identical up to it; indices are positions and terms never decrease. */
  lemma LogMatching(rules: Rules, run: seq<Cluster>, i: nat, j: nat, u: NodeId, v: NodeId, k: nat)
    requires IsSoundRun(rules, run) && i <= j < |run| && u in run[i].nodes && v in run[j].nodes
    requires k < |run[i].nodes[u].log| && k < |run[j].nodes[v].log|
    requires run[i].nodes[u].log[k].term == run[j].nodes[v].log[k].term
    ensures Agree(run[i].nodes[u].log, run[j].nodes[v].log, k + 1)
    ensures WellFormedLog(run[i].nodes[u].log) && TermsAscend(run[i].nodes[u].log)
  {
    RunLater(rules, run, i, j);
    LeaderLogsFromInv(run[i]);
    assert NodeOk(run[i], u) && NodeOk(run[j], v);
    GroundedAscends(run[i].elections, run[i].nodes[u].log);
    LaterLogsMatch(run[i], run[j], u, v, k);
  }

  lemma LaterLogsMatch(s: Cluster, t: Cluster, u: NodeId, v: NodeId, k: nat)
    requires Later(s, t) && NodeOk(s, u) && NodeOk(t, v)
    requires k < |s.nodes[u].log| && k < |t.nodes[v].log| && s.nodes[u].log[k].term == t.nodes[v].log[k].term
    ensures Agree(s.nodes[u].log, t.nodes[v].log, k + 1)
  {
    var a, b := s.nodes[u].log, t.nodes[v].log;
    if k > 0 {
      var T := a[k].term;
      assert Agree(a, s.elections[T].log, k + 1);
      assert Agree(s.elections[T].log, t.elections[T].log, |s.elections[T].log|);
      assert Agree(b, t.elections[T].log, k + 1);
    }
  }

  /** A commitment made at one time is in the log of the leader of any term from then on. */
  lemma CommitmentInLeader(rules: Rules, run: seq<Cluster>, i: nat, j: nat, u: NodeId, U: nat)
    requires IsSoundRun(rules, run) && i <= j < |run| && u in run[i].nodes
    requires U in run[j].elections && run[i].nodes[u].currentTerm <= U
    ensures Inv(run[i]) && Inv(run[j])
    ensures Agree(run[i].nodes[u].log, run[j].elections[U].log, run[i].nodes[u].commitIndex + 1)
  {
    RunLater(rules, run, i, j);
    var s, t, x := run[i], run[j], run[i].nodes[u];
    assert NodeOk(s, u);
    CommittedLater(s, t, x.log, x.commitIndex, x.currentTerm);
    CommittedInLeader(t, x.log, x.commitIndex, x.currentTerm, U);
  }

  lemma CommittedLater(s: Cluster, t: Cluster, log: Log, k: nat, bound: nat)
    requires Later(s, t) && CommittedUpTo(s, log, k, bound)
    ensures CommittedUpTo(t, log, k, bound)
  {
    if k > 0 {
      var T, m :| CommitWitness(s, log, k, bound, T, m);
      var q :| AckingQuorum(s, q, T, m);
      assert AckingQuorum(t, q, T, m);
      assert CommitWitness(t, log, k, bound, T, m);
    }
  }

  /** Leader completeness: an entry that a quorum has stored in its own term T, which is when it is
      committed, is from then on in the log of every leader of T or a later term. */
  lemma LeaderCompleteness(rules: Rules, run: seq<Cluster>, i: nat, j: nat, T: nat, m: nat, v: NodeId, U: nat)
    requires IsSoundRun(rules, run) && i <= j < |run|
    requires Durable(run[i], T, m) && T <= U && Leads(run[j], v, U)
    ensures Agree(run[j].nodes[v].log, run[i].elections[T].log, m + 1)
  {
    RunLater(rules, run, i, j);
    DurableInLeaders(run[i], run[j], T, m, v, U);
  }

  lemma DurableInLeaders(s: Cluster, t: Cluster, T: nat, m: nat, v: NodeId, U: nat)
    requires Later(s, t) && Inv(t) && Durable(s, T, m) && T <= U && Leads(t, v, U)
    ensures Agree(t.nodes[v].log, s.elections[T].log, m + 1)
  {
    assert NodeOk(t, v);
    LeaderLogRecorded(t, v, U);
    DurableLater(s, t, T, m);
    DurableInLaterLeaders(t, T, m, U);
    HeldBefore(s, t, t.nodes[v].log, T, m);
  }

  lemma HeldBefore(s: Cluster, t: Cluster, log: Log, T: nat, m: nat)
    requires Later(s, t) && T in s.elections && m < |s.elections[T].log| && T in t.elections
    requires Holds(t.elections, log, T, m)
    ensures Agree(log, s.elections[T].log, m + 1)
  {
  }

  lemma LeaderLogRecorded(s: Cluster, v: NodeId, U: nat)
    requires NodeOk(s, v) && Leads(s, v, U)
    ensures U in s.elections && s.elections[U].log == s.nodes[v].log
  {
  }

  lemma DurableLater(s: Cluster, t: Cluster, T: nat, m: nat)
    requires Later(s, t) && Durable(s, T, m)
    ensures Durable(t, T, m)
  {
    var q :| AckingQuorum(s, q, T, m);
    assert AckingQuorum(t, q, T, m);
  }

  /** Every commit is such an entry and what lies below it: what a node has committed agrees with the
      log of the leader of some term T up to an entry that is durable in T. */
  lemma CommittedIsDurable(rules: Rules, run: seq<Cluster>, i: nat, u: NodeId) returns (T: nat, m: nat)
    requires IsSoundRun(rules, run) && i < |run| && u in run[i].nodes && run[i].nodes[u].commitIndex > 0
    ensures var x := run[i].nodes[u];
      && T <= x.currentTerm && x.commitIndex <= m && Durable(run[i], T, m)
      && Agree(x.log, run[i].elections[T].log, x.commitIndex + 1)
  {
    RunInv(rules, run, i);
    assert NodeOk(run[i], u);
    var x := run[i].nodes[u];
    T, m :| CommitWitness(run[i], x.log, x.commitIndex, x.currentTerm, T, m);
  }

  /** In particular whatever any node has committed is in the log of every node that leads the
      node's term or a later one, then or later. */
  lemma CommittedInLaterLeaders(rules: Rules, run: seq<Cluster>, i: nat, j: nat, u: NodeId, v: NodeId, term: nat)
    requires IsSoundRun(rules, run) && i <= j < |run| && u in run[i].nodes
    requires Leads(run[j], v, term) && run[i].nodes[u].currentTerm <= term
    ensures Agree(run[j].nodes[v].log, run[i].nodes[u].log, run[i].nodes[u].commitIndex + 1)
  {
    RunInv(rules, run, j);
    assert NodeOk(run[j], v);
    CommitmentInLeader(rules, run, i, j, u, term);
  }

  /** What two logs have committed at one time they have committed alike. */
  lemma CommitmentsAgree(s: Cluster, a: Log, k: nat, bound: nat, b: Log, l: nat, bound': nat)
    requires Inv(s) && CommittedUpTo(s, a, k, bound) && CommittedUpTo(s, b, l, bound') && k <= l
    requires a[0] == SENTINEL && b[0] == SENTINEL
    ensures Agree(a, b, k + 1)
  {
    if k > 0 {
      var T, m :| CommitWitness(s, a, k, bound, T, m);
      var U, m' :| CommitWitness(s, b, l, bound', U, m');
      assert ElectionOk(s, T) && ElectionOk(s, U);
      if T <= U {
        DurableInLaterLeaders(s, T, m, U);
      } else {
        DurableInLaterLeaders(s, U, m', T);
      }
    }
  }

  /** What a node has committed at one time is committed for good. */
  lemma RunCommitted(rules: Rules, run: seq<Cluster>, i: nat, j: nat, u: NodeId)
    requires IsSoundRun(rules, run) && i <= j < |run| && u in run[i].nodes
    ensures Inv(run[j])
    ensures var x := run[i].nodes[u];
      CommittedUpTo(run[j], x.log, x.commitIndex, x.currentTerm) && x.log[0] == SENTINEL
  {
    RunLater(rules, run, i, j);
    var x := run[i].nodes[u];
    assert NodeOk(run[i], u);
    CommittedLater(run[i], run[j], x.log, x.commitIndex, x.currentTerm);
  }

  /** Committed logs never disagree: for any two nodes at any two times, the shorter committed
      prefix is a prefix of the longer one. */
  lemma CommittedPrefixes(rules: Rules, run: seq<Cluster>, i: nat, j: nat, u: NodeId, v: NodeId, k: nat)
    requires IsSoundRun(rules, run) && i <= j < |run| && u in run[i].nodes && v in run[j].nodes
    requires k <= run[i].nodes[u].commitIndex && k <= run[j].nodes[v].commitIndex
    ensures Agree(run[i].nodes[u].log, run[j].nodes[v].log, k + 1)
  {
    RunCommitted(rules, run, i, j, u);
    RunCommitted(rules, run, j, j, v);
    var x, y := run[i].nodes[u], run[j].nodes[v];
    if x.commitIndex <= y.commitIndex {
      CommitmentsAgree(run[j], x.log, x.commitIndex, x.currentTerm, y.log, y.commitIndex, y.currentTerm);
    } else {
      CommitmentsAgree(run[j], y.log, y.commitIndex, y.currentTerm, x.log, x.commitIndex, x.currentTerm);
    }
  }

  /** The entries a node has given to its state machine, and those it has queued for it, are its
      committed entries: each of them once, in index order. The machine is what those given make. */
  lemma AppliedOnceInOrder(rules: Rules, run: seq<Cluster>, i: nat, u: NodeId)
    requires IsSoundRun(rules, run) && i < |run| && u in run[i].nodes
    ensures var x := run[i].nodes[u];
      && x.commitIndex < |x.log| && x.applied + x.applyCh == x.log[1..x.commitIndex + 1]
      && (forall k :: 0 <= k < |x.applied| ==> x.applied[k] == x.log[k + 1] && x.applied[k].index == k + 1)
      && x.machine == ApplyAll(EMPTY_MACHINE, x.applied)
  {
    RunInv(rules, run, i);
    assert NodeOk(run[i], u);
    var x := run[i].nodes[u];
    assert forall k :: 0 <= k < |x.applied| ==> (x.applied + x.applyCh)[k] == x.applied[k];
  }

  /** An applied entry is never taken back, and none is ever applied again. */
  lemma AppliedOnlyGrows(rules: Rules, run: seq<Cluster>, i: nat, j: nat, u: NodeId)
    requires IsSoundRun(rules, run) && i <= j < |run| && u in run[i].nodes
    ensures u in run[j].nodes && run[i].nodes[u].applied <= run[j].nodes[u].applied
  {
    RunLater(rules, run, i, j);
    assert CommitKept(run[i].nodes[u], run[j].nodes[u]);
  }

  /** State machine safety: of the entries that any two nodes have applied by any two times, one list
      is a prefix of the other; nodes that have applied equally many hold the same data and terms. */
  lemma StateMachineSafety(rules: Rules, run: seq<Cluster>, i: nat, j: nat, u: NodeId, v: NodeId)
    requires IsSoundRun(rules, run) && i <= j < |run| && u in run[i].nodes && v in run[j].nodes
    ensures var x, y := run[i].nodes[u], run[j].nodes[v];
      && (x.applied <= y.applied || y.applied <= x.applied)
      && (|x.applied| == |y.applied| ==> x.machine == y.machine)
  {
    AppliedOnceInOrder(rules, run, i, u);
    AppliedOnceInOrder(rules, run, j, v);
    var x, y := run[i].nodes[u], run[j].nodes[v];
    var k := if |x.applied| <= |y.applied| then |x.applied| else |y.applied|;
    CommittedPrefixes(rules, run, i, j, u, v, k);
    assert x.applied[..k] == y.applied[..k];
    assert |x.applied| == |y.applied| ==> x.applied[..k] == x.applied && y.applied[..k] == y.applied;
  }

  /** Commit indices never go back, and a committed entry is never changed or removed. */
  lemma CommitsAreForever(rules: Rules, run: seq<Cluster>, i: nat, j: nat, u: NodeId)
    requires IsSoundRun(rules, run) && i <= j < |run| && u in run[i].nodes
    ensures u in run[j].nodes
    ensures run[i].nodes[u].commitIndex <= run[j].nodes[u].commitIndex < |run[j].nodes[u].log|
    ensures Agree(run[j].nodes[u].log, run[i].nodes[u].log, run[i].nodes[u].commitIndex + 1)
  {
    RunLater(rules, run, i, j);
    assert NodeOk(run[i], u) && NodeOk(run[j], u);
    assert CommitKept(run[i].nodes[u], run[j].nodes[u]);
  }

  /** Every replication message ever sent is a contiguous slice of its term's leader log that
      starts behind a present index, ends at or beyond the commit index it announces, and
      announces only what is committed. */
  lemma MessagesAnnounceWhatTheyCarry(rules: Rules, run: seq<Cluster>, i: nat, msg: Message)
    requires IsSoundRun(rules, run) && i < |run| && msg in run[i].net && msg.AppendEntries?
    ensures msg.leaderCommit <= msg.prevLogIndex + |msg.entries|
    ensures msg.term in run[i].elections && run[i].elections[msg.term].leader == msg.from
    ensures SliceOf(run[i].elections[msg.term].log, msg.prevLogIndex, msg.prevLogTerm, msg.entries)
  {
    RunInv(rules, run, i);
    assert MsgOk(run[i], msg);
  }

  /** A leader's view of its followers stays within its log. */
  lemma NextIndexInRange(rules: Rules, run: seq<Cluster>, i: nat, n: NodeId, f: NodeId, term: nat)
    requires IsSoundRun(rules, run) && i < |run| && Leads(run[i], n, term)
    requires f in run[i].members && f != n
    ensures 1 <= Get(run[i].nodes[n].nextIndex, f) <= |run[i].nodes[n].log|
    ensures Get(run[i].nodes[n].matchIndex, f) < |run[i].nodes[n].log|
  {
    RunInv(rules, run, i);
    assert NodeOk(run[i], n) && NodeOk(run[i], f);
  }
}
