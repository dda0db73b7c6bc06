/** A step of one node leaves the invariant of everything else standing. */
module RaftStability {
  import opened RaftTypes
  import opened RaftSteps
  import opened RaftCluster

  ghost predicate BallotsExtend(s: Cluster, s': Cluster, n: NodeId) {
    && (forall b :: b in s.ballots ==> b in s'.ballots && s'.ballots[b] == s.ballots[b])
    && (forall b :: b in s'.ballots && b.0 != n ==> b in s.ballots)
  }

  ghost predicate AcksExtend(s: Cluster, s': Cluster, n: NodeId)
    requires n in s.nodes
  {
    && (forall b :: b in s.acks ==> b in s'.acks && s'.acks[b] >= s.acks[b])
    && (forall b :: b in s'.acks && (b.0 != n || b.1 < s.nodes[n].currentTerm) ==>
          b in s.acks && s'.acks[b] == s.acks[b])
  }

  /** Only n may win a term, and only the log of the term n leads throughout may grow. */
  ghost predicate ElectionsExtend(s: Cluster, s': Cluster, n: NodeId)
    requires n in s.nodes && n in s'.nodes
  {
    && (forall T :: T in s.elections ==>
          && T in s'.elections
          && s'.elections[T].leader == s.elections[T].leader
          && s'.elections[T].voters == s.elections[T].voters
          && Agree(s.elections[T].log, s'.elections[T].log, |s.elections[T].log|)
          && (s'.elections[T].log == s.elections[T].log
              || (s.elections[T].leader == n && s.nodes[n].currentTerm == T == s'.nodes[n].currentTerm)))
    && (forall T :: T in s'.elections && T !in s.elections ==>
          s'.elections[T].leader == n && T == s'.nodes[n].currentTerm)
  }

  ghost predicate NodeAdvances(s: Cluster, s': Cluster, n: NodeId)
    requires n in s.nodes && n in s'.nodes
  {
    var x, y := s.nodes[n], s'.nodes[n];
    && x.currentTerm <= y.currentTerm
    && (x.currentTerm == y.currentTerm ==> y.votedFor == x.votedFor || x.votedFor == NO_NODE)
    && (Campaigning(s', n) ==>
          x.currentTerm < y.currentTerm || (x.role == Candidate && y.log == x.log))
  }

  /** s' is s after a step of n. */
  ghost predicate Ext(s: Cluster, s': Cluster, n: NodeId) {
    && n in s.nodes
    && s'.members == s.members
    && s'.nodes.Keys == s.nodes.Keys
    && (forall f :: f in s.nodes && f != n ==> s'.nodes[f] == s.nodes[f])
    && BallotsExtend(s, s', n)
    && AcksExtend(s, s', n)
    && ElectionsExtend(s, s', n)
    && NodeAdvances(s, s', n)
  }

  // ---------------------------------------------------------------- logs

  lemma GroundedStable(s: Cluster, s': Cluster, n: NodeId, log: Log)
    requires Ext(s, s', n) && Grounded(s.elections, log)
    ensures Grounded(s'.elections, log)
  {
    forall i | 0 < i < |log|
      ensures log[i].term in s'.elections && Agree(log, s'.elections[log[i].term].log, i + 1)
    {
      var T := log[i].term;
      assert T in s.elections && Agree(log, s.elections[T].log, i + 1);
    }
  }

  lemma EligibleStable(s: Cluster, s': Cluster, n: NodeId, T: nat, m: nat)
    requires Ext(s, s', n) && Eligible(s, T, m)
    ensures Eligible(s', T, m)
  {
  }

  lemma HoldsStable(s: Cluster, s': Cluster, n: NodeId, log: Log, T: nat, m: nat)
    requires Ext(s, s', n) && T in s.elections && Holds(s.elections, log, T, m)
    ensures Holds(s'.elections, log, T, m)
  {
  }

  // ---------------------------------------------------------------- acknowledgements

  lemma AckedStable(s: Cluster, s': Cluster, n: NodeId, f: NodeId, T: nat, m: nat)
    requires Ext(s, s', n) && Acked(s, f, T, m)
    ensures Acked(s', f, T, m)
  {
  }

  lemma RefusesStable(s: Cluster, s': Cluster, n: NodeId, f: NodeId, T: nat, m: nat)
    requires Ext(s, s', n) && T in s.elections && Refuses(s, f, T, m)
    ensures Refuses(s', f, T, m)
  {
  }

  lemma BlockedStable(s: Cluster, s': Cluster, n: NodeId, T: nat, m: nat)
    requires Ext(s, s', n) && T in s.elections && Blocked(s, T, m)
    ensures Blocked(s', T, m)
  {
    var q :| RefusingSet(s, q, T, m);
    forall f | f in q ensures Refuses(s', f, T, m) {
      RefusesStable(s, s', n, f, T, m);
    }
    assert RefusingSet(s', q, T, m);
  }

  lemma DurableStable(s: Cluster, s': Cluster, n: NodeId, T: nat, m: nat)
    requires Ext(s, s', n) && Durable(s, T, m)
    ensures Durable(s', T, m)
  {
    var q :| AckingQuorum(s, q, T, m);
    forall f | f in q ensures Acked(s', f, T, m) {
      AckedStable(s, s', n, f, T, m);
    }
    assert AckingQuorum(s', q, T, m);
    EligibleStable(s, s', n, T, m);
  }

  lemma CommittedStable(s: Cluster, s': Cluster, n: NodeId, log: Log, log': Log, k: nat, bound: nat, bound': nat)
    requires Ext(s, s', n) && CommittedUpTo(s, log, k, bound)
    requires bound <= bound' && Agree(log, log', k + 1)
    ensures CommittedUpTo(s', log', k, bound')
  {
    if k > 0 {
      var T, m :| CommitWitness(s, log, k, bound, T, m);
      DurableStable(s, s', n, T, m);
      assert CommitWitness(s', log', k, bound', T, m);
    }
  }

  // ---------------------------------------------------------------- entries a step created

  /** An index that term T's leader has only just filled is acknowledged by nobody else. */
  lemma FreshIndexUnacked(s: Cluster, s': Cluster, n: NodeId, f: NodeId, T: nat, m: nat)
    requires Ext(s, s', n) && f in s.nodes && f != n && AckOk(s, f)
    requires T in s.elections ==> m >= |s.elections[T].log|
    requires T in s'.elections && |s'.elections[T].log| > m
    ensures !Acked(s', f, T, m)
  {
  }

  /** If a later term has been won already, what an old term's leader has only now is blocked. */
  lemma FreshIndexBlocked(s: Cluster, s': Cluster, n: NodeId, T: nat, m: nat, U: nat)
    requires Ext(s, s', n) && Inv(s) && T < U && U in s.elections
    requires (T in s.elections ==> m >= |s.elections[T].log|) && Eligible(s', T, m)
    ensures Blocked(s', T, m)
  {
    var q := s.elections[U].voters;
    assert ElectionOk(s, U);
    forall f | f in q ensures Refuses(s', f, T, m) {
      assert BallotFor(s, f, U, s.elections[U].leader);
      assert BallotOk(s, f, U) && NodeOk(s, f);
      FreshIndexUnacked(s, s', n, f, T, m);
    }
    assert RefusingSet(s', q, T, m);
  }

  // ---------------------------------------------------------------- stability of the invariant

  lemma KeepsAckedStable(s: Cluster, s': Cluster, n: NodeId, f: NodeId)
    requires Ext(s, s', n) && f in s.nodes && f != n && AckOk(s, f) && KeepsAcked(s, f)
    ensures KeepsAcked(s', f)
  {
    forall T: nat, m: nat | Eligible(s', T, m) && Acked(s', f, T, m)
      ensures Holds(s'.elections, s'.nodes[f].log, T, m) || Blocked(s', T, m)
    {
      if T !in s.elections || m >= |s.elections[T].log| {
        FreshIndexUnacked(s, s', n, f, T, m);
      } else {
        KeptOrBlockedStable(s, s', n, s.nodes[f].log, T, m);
      }
    }
  }

  lemma KeptOrBlockedStable(s: Cluster, s': Cluster, n: NodeId, log: Log, T: nat, m: nat)
    requires Ext(s, s', n) && T in s.elections && m < |s.elections[T].log| && Eligible(s', T, m)
    requires Eligible(s, T, m) ==> Holds(s.elections, log, T, m) || Blocked(s, T, m)
    ensures Holds(s'.elections, log, T, m) || Blocked(s', T, m)
  {
    assert Eligible(s, T, m);
    if Blocked(s, T, m) {
      BlockedStable(s, s', n, T, m);
    } else {
      HoldsStable(s, s', n, log, T, m);
    }
  }

  lemma RoleStable(s: Cluster, s': Cluster, n: NodeId, f: NodeId)
    requires Ext(s, s', n) && f in s.nodes && f != n && RoleOk(s, f)
    ensures RoleOk(s', f)
  {
    var x := s.nodes[f];
    forall v | x.role == Candidate && v in x.voters ensures BallotFor(s', v, x.currentTerm, f) {
      assert BallotFor(s, v, x.currentTerm, f);
    }
  }

  lemma ProgressStable(s: Cluster, s': Cluster, n: NodeId, f: NodeId)
    requires Ext(s, s', n) && f in s.nodes && f != n && ProgressOk(s, f)
    ensures ProgressOk(s', f)
  {
    var x := s.nodes[f];
    forall g | x.role == Leader && g in s.members && g != f && Acked(s, g, x.currentTerm, Get(x.matchIndex, g))
      ensures Acked(s', g, x.currentTerm, Get(x.matchIndex, g))
    {
      AckedStable(s, s', n, g, x.currentTerm, Get(x.matchIndex, g));
    }
  }

  lemma AckOkStable(s: Cluster, s': Cluster, n: NodeId, f: NodeId)
    requires Ext(s, s', n) && f in s.nodes && f != n && AckOk(s, f)
    ensures AckOk(s', f)
  {
    forall T | (f, T) in s'.acks
      ensures T <= s'.nodes[f].currentTerm && T in s'.elections && s'.acks[(f, T)] < |s'.elections[T].log|
    {
      assert (f, T) in s.acks;
    }
  }

  lemma NodeStable(s: Cluster, s': Cluster, n: NodeId, f: NodeId)
    requires Ext(s, s', n) && f != n && NodeOk(s, f)
    ensures NodeOk(s', f)
  {
    var x := s.nodes[f];
    RoleStable(s, s', n, f);
    GroundedStable(s, s', n, x.log);
    AckOkStable(s, s', n, f);
    KeepsAckedStable(s, s', n, f);
    ProgressStable(s, s', n, f);
    CommittedStable(s, s', n, x.log, x.log, x.commitIndex, x.currentTerm, x.currentTerm);
  }

  lemma ElectionStable(s: Cluster, s': Cluster, n: NodeId, U: nat)
    requires Ext(s, s', n) && Inv(s) && U in s.elections
    requires LogOk(s'.elections, s'.elections[U].log, U) && TermsAscend(s'.elections[U].log)
    ensures ElectionOk(s', U)
  {
    assert ElectionOk(s, U);
    CompleteStable(s, s', n, U);
    forall v | v in s'.elections[U].voters ensures BallotFor(s', v, U, s'.elections[U].leader) {
      assert BallotFor(s, v, U, s.elections[U].leader);
    }
  }

  lemma CompleteStable(s: Cluster, s': Cluster, n: NodeId, U: nat)
    requires Ext(s, s', n) && Inv(s) && U in s.elections
    ensures Complete(s', U)
  {
    assert ElectionOk(s, U);
    forall T: nat, m: nat | T < U && Eligible(s', T, m)
      ensures Holds(s'.elections, s'.elections[U].log, T, m) || Blocked(s', T, m)
    {
      if T !in s.elections || m >= |s.elections[T].log| {
        FreshIndexBlocked(s, s', n, T, m, U);
      } else {
        KeptOrBlockedStable(s, s', n, s.elections[U].log, T, m);
      }
    }
  }

  lemma BallotStable(s: Cluster, s': Cluster, n: NodeId, f: NodeId, U: nat)
    requires Ext(s, s', n) && (f, U) in s.ballots && BallotOk(s, f, U) && AckOk(s, f)
    ensures BallotOk(s', f, U)
  {
    var c := s.ballots[(f, U)];
    if Campaigning(s', c) && s'.nodes[c].currentTerm == U {
      CandidateTermKept(s, s', n, f, U);
      CandidateCoversStable(s, s', n, f, U);
    }
  }

  /** A candidate that somebody already voted for was a candidate of that term before the step. */
  lemma CandidateTermKept(s: Cluster, s': Cluster, n: NodeId, f: NodeId, U: nat)
    requires Ext(s, s', n) && (f, U) in s.ballots && BallotOk(s, f, U)
    requires Campaigning(s', s.ballots[(f, U)]) && s'.nodes[s.ballots[(f, U)]].currentTerm == U
    ensures Campaigning(s, s.ballots[(f, U)]) && s.nodes[s.ballots[(f, U)]].currentTerm == U
    ensures s'.nodes[s.ballots[(f, U)]].log == s.nodes[s.ballots[(f, U)]].log
  {
  }

  lemma CandidateCoversStable(s: Cluster, s': Cluster, n: NodeId, f: NodeId, U: nat)
    requires Ext(s, s', n) && (f, U) in s.ballots && BallotOk(s, f, U) && AckOk(s, f)
    requires s'.nodes[s.ballots[(f, U)]].log == s.nodes[s.ballots[(f, U)]].log
    requires CandidateCovers(s, s.ballots[(f, U)], f, U)
    ensures CandidateCovers(s', s.ballots[(f, U)], f, U)
  {
    var c := s.ballots[(f, U)];
    forall T: nat, m: nat | T < U && Eligible(s', T, m) && Acked(s', f, T, m)
      ensures Holds(s'.elections, s'.nodes[c].log, T, m) || Blocked(s', T, m)
    {
      if T !in s.elections || m >= |s.elections[T].log| {
        if f != n { FreshIndexUnacked(s, s', n, f, T, m); }
      } else {
        assert Acked(s, f, T, m);
        KeptOrBlockedStable(s, s', n, s.nodes[c].log, T, m);
      }
    }
  }

  lemma MsgStable(s: Cluster, s': Cluster, n: NodeId, msg: Message)
    requires Ext(s, s', n) && MsgOk(s, msg)
    ensures MsgOk(s', msg)
  {
    if msg.AppendEntries? {
      AppendEntriesStable(s, s', n, msg);
    }
  }

  lemma AppendEntriesStable(s: Cluster, s': Cluster, n: NodeId, msg: Message)
    requires Ext(s, s', n) && MsgOk(s, msg) && msg.AppendEntries?
    ensures MsgOk(s', msg)
  {
    var a, b := s.elections[msg.term].log, s'.elections[msg.term].log;
    assert msg.entries == b[msg.prevLogIndex + 1..msg.prevLogIndex + 1 + |msg.entries|];
    CommittedStable(s, s', n, a, b, msg.leaderCommit, msg.term, msg.term);
  }

  // ---------------------------------------------------------------- what no step undoes

  /** Committed entries stay committed, and stay what they are; applied ones stay applied. */
  ghost predicate CommitKept(x: NodeState, y: NodeState) {
    x.commitIndex <= y.commitIndex && Agree(x.log, y.log, x.commitIndex + 1) && x.applied <= y.applied
  }

  /** s' comes after s: terms and commits only advance, a term's winner stays its winner, and
      its log in that term only grows. */
  ghost predicate Later(s: Cluster, s': Cluster) {
    && s'.members == s.members
    && s'.nodes.Keys == s.nodes.Keys
    && (forall n :: n in s.nodes ==> s.nodes[n].currentTerm <= s'.nodes[n].currentTerm)
    && (forall n :: n in s.nodes ==> CommitKept(s.nodes[n], s'.nodes[n]))
    && (forall T :: T in s.elections ==>
          && T in s'.elections
          && s'.elections[T].leader == s.elections[T].leader
          && Agree(s.elections[T].log, s'.elections[T].log, |s.elections[T].log|))
    && (forall b :: b in s.acks ==> b in s'.acks && s'.acks[b] >= s.acks[b])
  }

  lemma LaterTransitive(s: Cluster, t: Cluster, s': Cluster)
    requires Later(s, t) && Later(t, s')
    ensures Later(s, s')
  {
    forall n | n in s.nodes ensures CommitKept(s.nodes[n], s'.nodes[n]) {
      assert CommitKept(s.nodes[n], t.nodes[n]) && CommitKept(t.nodes[n], s'.nodes[n]);
    }
  }

  ghost predicate Advances(s: Cluster, s': Cluster) {
    Inv(s') && Later(s, s')
  }

  lemma AdvancesTransitive(s: Cluster, t: Cluster, s': Cluster)
    requires Advances(s, t) && Advances(t, s')
    ensures Advances(s, s')
  {
    LaterTransitive(s, t, s');
  }

  lemma ExtLater(s: Cluster, s': Cluster, n: NodeId)
    requires Inv(s) && Ext(s, s', n) && CommitKept(s.nodes[n], s'.nodes[n])
    ensures Later(s, s')
  {
    forall f | f in s.nodes ensures CommitKept(s.nodes[f], s'.nodes[f]) {
      assert NodeOk(s, f);
    }
  }

  // ---------------------------------------------------------------- one step

  /** What a step of n has to establish itself; stability gives the rest. */
  lemma StepInv(s: Cluster, s': Cluster, n: NodeId)
    requires Inv(s) && Ext(s, s', n) && NodeOk(s', n)
    requires CommitKept(s.nodes[n], s'.nodes[n])
    requires forall msg :: msg in s'.net ==> msg in s.net || MsgOk(s', msg)
    requires forall f, U :: (f, U) in s'.ballots ==> (f, U) in s.ballots || BallotOk(s', f, U)
    requires forall U :: U in s'.elections ==>
               if U !in s.elections then ElectionOk(s', U)
               else
                 || s'.elections[U].log == s.elections[U].log
                 || (LogOk(s'.elections, s'.elections[U].log, U) && TermsAscend(s'.elections[U].log))
    ensures Advances(s, s')
  {
    AllNodesStable(s, s', n);
    AllBallotsStable(s, s', n);
    AllElectionsStable(s, s', n);
    AllMessagesStable(s, s', n);
    ExtLater(s, s', n);
  }

  lemma AllNodesStable(s: Cluster, s': Cluster, n: NodeId)
    requires Inv(s) && Ext(s, s', n) && NodeOk(s', n)
    ensures forall f {:trigger NodeOk(s', f)} :: f in s'.nodes ==> NodeOk(s', f)
  {
    forall f | f in s'.nodes ensures NodeOk(s', f) {
      if f != n { assert NodeOk(s, f); NodeStable(s, s', n, f); }
    }
  }

  lemma AllBallotsStable(s: Cluster, s': Cluster, n: NodeId)
    requires Inv(s) && Ext(s, s', n)
    requires forall f, U :: (f, U) in s'.ballots ==> (f, U) in s.ballots || BallotOk(s', f, U)
    ensures forall f, U {:trigger BallotOk(s', f, U)} :: (f, U) in s'.ballots ==> BallotOk(s', f, U)
  {
    forall f, U | (f, U) in s'.ballots ensures BallotOk(s', f, U) {
      if (f, U) in s.ballots { OldBallotStable(s, s', n, f, U); }
    }
  }

  lemma AllElectionsStable(s: Cluster, s': Cluster, n: NodeId)
    requires Inv(s) && Ext(s, s', n)
    requires forall U :: U in s'.elections ==>
               if U !in s.elections then ElectionOk(s', U)
               else
                 || s'.elections[U].log == s.elections[U].log
                 || (LogOk(s'.elections, s'.elections[U].log, U) && TermsAscend(s'.elections[U].log))
    ensures forall U {:trigger ElectionOk(s', U)} :: U in s'.elections ==> ElectionOk(s', U)
  {
    forall U | U in s'.elections ensures ElectionOk(s', U) {
      if U in s.elections { OldElectionStable(s, s', n, U); }
    }
  }

  lemma AllMessagesStable(s: Cluster, s': Cluster, n: NodeId)
    requires Inv(s) && Ext(s, s', n)
    requires forall msg :: msg in s'.net ==> msg in s.net || MsgOk(s', msg)
    ensures forall msg {:trigger MsgOk(s', msg)} :: msg in s'.net ==> MsgOk(s', msg)
  {
    forall msg | msg in s'.net ensures MsgOk(s', msg) {
      if msg in s.net { assert MsgOk(s, msg); MsgStable(s, s', n, msg); }
    }
  }

  lemma OldBallotStable(s: Cluster, s': Cluster, n: NodeId, f: NodeId, U: nat)
    requires Inv(s) && Ext(s, s', n) && (f, U) in s.ballots
    ensures BallotOk(s', f, U)
  {
    assert BallotOk(s, f, U) && NodeOk(s, f);
    BallotStable(s, s', n, f, U);
  }

  lemma OldElectionStable(s: Cluster, s': Cluster, n: NodeId, U: nat)
    requires Inv(s) && Ext(s, s', n) && U in s.elections
    requires s'.elections[U].log == s.elections[U].log
          || (LogOk(s'.elections, s'.elections[U].log, U) && TermsAscend(s'.elections[U].log))
    ensures ElectionOk(s', U)
  {
    assert ElectionOk(s, U);
    if s'.elections[U].log == s.elections[U].log { GroundedStable(s, s', n, s.elections[U].log); }
    ElectionStable(s, s', n, U);
  }
}
