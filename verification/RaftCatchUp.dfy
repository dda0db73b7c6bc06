/** How a leader brings every other node into step, however far its log has drifted: it moves back, they
    take its log, it commits it and they hear so. */
module RaftCatchUp {
  import opened RaftTypes
  import opened RaftSteps
  import opened RaftCluster
  import opened RaftQuorums
  import opened RaftLogs
  import opened RaftInductive
  import opened RaftPaths
  import opened RaftRounds
  import opened RaftBackOff
  import opened RaftElectable

  // ---------------------------------------------------------------- two logs

  /** x and y can sync, and the log of x ends in the term it leads, the last that y has seen. */
  ghost predicate CanCatchUp(elections: map<nat, Election>, x: NodeState, y: NodeState) {
    && CanSync(elections, x, y)
    && x.currentTerm in elections && elections[x.currentTerm].log == x.log
    && x.log[|x.log| - 1].term == x.currentTerm
    && forall i :: 0 <= i < |y.log| ==> y.log[i].term <= x.currentTerm
  }

  /** A log that goes on where a leader's ends, in that leader's own term, goes on in a later term. */
  lemma GoesOnLater(elections: map<nat, Election>, log: Log, term: nat)
    requires LeaderLogsOk(elections) && Grounded(elections, log) && term in elections
    requires var l := elections[term].log; 0 < |l| < |log| && Agree(log, l, |l|) && l[|l| - 1].term == term
    ensures log[|elections[term].log|].term > term
  {
    var k := |elections[term].log|;
    var later := elections[log[k].term].log;
    assert Agree(log, later, k + 1);
    assert LogOk(elections, later, log[k].term);
    assert later[k - 1] == log[k - 1];
  }

  /** So nobody's log goes on where the last leader's ends. */
  lemma NothingBeyond(elections: map<nat, Election>, x: NodeState, y: NodeState)
    requires LeaderLogsOk(elections) && CanCatchUp(elections, x, y) && Agree(y.log, x.log, |x.log|)
    ensures y.log == x.log
  {
    if |y.log| > |x.log| { GoesOnLater(elections, y.log, x.currentTerm); }
  }

  /** What a follower takes leaves it with the leader's log, no more and no less. */
  lemma TakenIsWhole(rules: Rules, elections: map<nat, Election>, x: NodeState, y: NodeState)
    requires rules.mergeFromFirstNew && LeaderLogsOk(elections) && CanCatchUp(elections, x, y) && WillTake(x, y)
    ensures Taken(rules, x, y) == x.log
  {
    var msg := AppendEntriesFor(x, y.id);
    AppendEntriesForSlice(elections, x, y);
    AppendNewMeaning(elections, y.log, x.log, msg.prevLogIndex, msg.prevLogTerm, msg.entries);
    if AppendNew(y.log, msg.prevLogIndex, msg.entries) == y.log {
      NothingBeyond(elections, x, y);
    } else {
      assert x.log[..|x.log|] == x.log;
    }
  }

  // ---------------------------------------------------------------- one follower

  /** x with its nextIndex for f one lower. */
  function Backed(x: NodeState, f: NodeId): NodeState
    requires Get(x.nextIndex, f) > 0
  {
    x.(nextIndex := x.nextIndex[f := Get(x.nextIndex, f) - 1])
  }

  lemma BacksOff(rules: Rules, x: NodeState, f: NodeId, hint: nat)
    requires x.role == Leader && f != NO_NODE && Get(x.nextIndex, f) > 1
    ensures HandleAppendEntriesResponse(rules, x, AppendEntriesResponse(x.currentTerm, f, x.id, false, hint))
         == Outcome(Backed(x, f), [AppendEntriesFor(Backed(x, f), f)])
  {
  }

  lemma StillCanCatchUp(elections: map<nat, Election>, x: NodeState, y: NodeState)
    requires CanCatchUp(elections, x, y) && Get(x.nextIndex, y.id) > 1
    ensures CanCatchUp(elections, Backed(x, y.id), AdoptTerm(y, x.currentTerm))
  {
  }

  lemma RejectOutcome(rules: Rules, elections: map<nat, Election>, x: NodeState, y: NodeState)
    requires CanCatchUp(elections, x, y) && !WillTake(x, y)
    ensures Get(x.nextIndex, y.id) > 1
    ensures var z := AdoptTerm(y, x.currentTerm);
      var nack := AppendEntriesResponse(x.currentTerm, y.id, x.id, false, y.commitIndex);
      && HandleAppendEntries(rules, y, AppendEntriesFor(x, y.id)) == Outcome(z, [nack])
      && HandleAppendEntriesResponse(rules, x, nack)
      == Outcome(Backed(x, y.id), [AppendEntriesFor(Backed(x, y.id), y.id)])
      && CanCatchUp(elections, Backed(x, y.id), z)
  {
    BacksOff(rules, x, y.id, y.commitIndex);
    StillCanCatchUp(elections, x, y);
  }

  /** y is x but for its progress with fs. */
  ghost predicate SameBut(x: NodeState, y: NodeState, fs: set<NodeId>) {
    && y == x.(nextIndex := y.nextIndex)
    && forall f {:trigger Get(y.nextIndex, f)} {:trigger Get(x.nextIndex, f)} :: f !in fs ==>
         Get(y.nextIndex, f) == Get(x.nextIndex, f)
  }

  /** Leader n has fs in step: they have its log and its term, and have said so. */
  ghost predicate InStep(s: Cluster, t: Cluster, n: NodeId, fs: set<NodeId>) {
    && n in s.nodes && t.nodes.Keys == s.nodes.Keys && SameBut(s.nodes[n], t.nodes[n], fs)
    && (forall f {:trigger Caught(s.nodes[n], t, f)} :: f in fs ==> Caught(s.nodes[n], t, f))
    && (forall f {:trigger t.nodes[f]} {:trigger s.nodes[f]} :: f in s.nodes && f !in fs && f != n ==>
          t.nodes[f] == s.nodes[f])
  }

  ghost predicate Caught(x: NodeState, t: Cluster, f: NodeId) {
    && f in t.nodes && t.nodes[f].log == x.log && t.nodes[f].currentTerm == x.currentTerm
    && |x.log| > 0 && Ack(x, f) in t.net
  }

  /** f waits for what leader n has sent it. */
  ghost predicate Waits(s: Cluster, elections: map<nat, Election>, n: NodeId, f: NodeId) {
    && n in s.nodes && f in s.nodes && f != n && s.nodes[f].id == f
    && CanCatchUp(elections, s.nodes[n], s.nodes[f]) && AppendEntriesFor(s.nodes[n], f) in s.net
  }

  /** f rejects what n has sent it, and n, one step back, sends more. */
  lemma StepBack(rules: Rules, path: seq<Cluster>, elections: map<nat, Election>, n: NodeId, f: NodeId)
      returns (longer: seq<Cluster>)
    requires IsPath(rules, path) && Named(Last(path)) && Waits(Last(path), elections, n, f)
    requires !WillTake(Last(path).nodes[n], Last(path).nodes[f])
    ensures Get(Last(path).nodes[n].nextIndex, f) > 1
    ensures GoesOn(rules, path, longer) && Waits(Last(longer), elections, n, f)
    ensures var x, y := Last(path).nodes[n], Last(path).nodes[f];
      Last(longer).nodes == Last(path).nodes[f := AdoptTerm(y, x.currentTerm)][n := Backed(x, f)]
  {
    var x, y := Last(path).nodes[n], Last(path).nodes[f];
    RejectOutcome(rules, elections, x, y);
    var msg := AppendEntriesFor(x, f);
    var nack := AppendEntriesResponse(x.currentTerm, f, n, false, y.commitIndex);
    assert Act(rules, y, Receive(msg)) == Outcome(AdoptTerm(y, x.currentTerm), [nack]);
    var mid := Move(rules, path, Receive(msg));
    assert Last(mid).nodes[n] == x;
    assert nack in Last(mid).net by { assert nack in [nack]; }
    assert Act(rules, x, Receive(nack)) == Outcome(Backed(x, f), [AppendEntriesFor(Backed(x, f), f)]);
    longer := Move(rules, mid, Receive(nack));
    assert AppendEntriesFor(Backed(x, f), f) in [AppendEntriesFor(Backed(x, f), f)];
  }

  /** However many times f rejects, in the end it takes the leader's log. */
  lemma {:induction false} CatchUpOne(rules: Rules, path: seq<Cluster>, elections: map<nat, Election>, n: NodeId,
                                      f: NodeId)
      returns (longer: seq<Cluster>)
    requires rules.mergeFromFirstNew && LeaderLogsOk(elections)
    requires IsPath(rules, path) && Named(Last(path)) && Waits(Last(path), elections, n, f)
    ensures GoesOn(rules, path, longer) && InStep(Last(path), Last(longer), n, {f})
    decreases Get(Last(path).nodes[n].nextIndex, f)
  {
    var x, y := Last(path).nodes[n], Last(path).nodes[f];
    if WillTake(x, y) {
      TakenIsWhole(rules, elections, x, y);
      longer := TakeOne(rules, path, x, f);
    } else {
      var mid := StepBack(rules, path, elections, n, f);
      longer := CatchUpOne(rules, mid, elections, n, f);
      BackedInStep(Last(path), Last(mid), Last(longer), n, f);
    }
  }

  lemma BackedInStep(s: Cluster, mid: Cluster, t: Cluster, n: NodeId, f: NodeId)
    requires n in s.nodes && f in s.nodes && f != n && Get(s.nodes[n].nextIndex, f) > 0 && InStep(mid, t, n, {f})
    requires mid.nodes == s.nodes[f := AdoptTerm(s.nodes[f], s.nodes[n].currentTerm)][n := Backed(s.nodes[n], f)]
    ensures InStep(s, t, n, {f})
  {
    var x, y, z := s.nodes[n], mid.nodes[n], t.nodes[n];
    forall g | g !in {f} ensures Get(z.nextIndex, g) == Get(x.nextIndex, g) {
      assert Get(z.nextIndex, g) == Get(y.nextIndex, g);
    }
    assert Caught(y, t, f);
  }

  // ---------------------------------------------------------------- all followers

  ghost predicate AllWait(s: Cluster, elections: map<nat, Election>, n: NodeId, fs: set<NodeId>) {
    forall f {:trigger Waits(s, elections, n, f)} :: f in fs ==> Waits(s, elections, n, f)
  }

  lemma StillWaits(s: Cluster, t: Cluster, elections: map<nat, Election>, n: NodeId, f: NodeId, fewer: set<NodeId>)
    requires Waits(s, elections, n, f) && InStep(s, t, n, fewer) && f !in fewer && s.net <= t.net
    ensures Waits(t, elections, n, f)
  {
    assert t.nodes[f] == s.nodes[f];
    assert Get(t.nodes[n].nextIndex, f) == Get(s.nodes[n].nextIndex, f);
  }

  lemma InStepOneMore(s: Cluster, mid: Cluster, t: Cluster, n: NodeId, fewer: set<NodeId>, last: NodeId)
    requires InStep(s, mid, n, fewer) && InStep(mid, t, n, {last}) && n !in fewer && n != last && last !in fewer
    requires mid.net <= t.net && last in s.nodes
    ensures InStep(s, t, n, fewer + {last})
  {
    var x, y, z := s.nodes[n], mid.nodes[n], t.nodes[n];
    forall g | g !in fewer + {last} ensures Get(z.nextIndex, g) == Get(x.nextIndex, g) {
      assert Get(z.nextIndex, g) == Get(y.nextIndex, g);
    }
    forall f | f in fewer + {last} ensures Caught(x, t, f) {
      if f != last {
        assert Caught(x, mid, f);
        assert t.nodes[f] == mid.nodes[f];
      } else {
        assert Caught(y, t, f);
      }
    }
    forall f | f in s.nodes && f !in fewer + {last} && f != n ensures t.nodes[f] == s.nodes[f] {
      assert mid.nodes[f] == s.nodes[f];
    }
  }

  lemma {:induction false} CatchUpAll(rules: Rules, path: seq<Cluster>, elections: map<nat, Election>, n: NodeId,
                                      fs: set<NodeId>)
      returns (longer: seq<Cluster>)
    requires rules.mergeFromFirstNew && LeaderLogsOk(elections)
    requires IsPath(rules, path) && Named(Last(path))
    requires OthersOf(Last(path).members, n, fs) && AllWait(Last(path), elections, n, fs)
    ensures GoesOn(rules, path, longer) && InStep(Last(path), Last(longer), n, fs)
    decreases |fs|
  {
    if |fs| == 0 {
      longer := path;
    } else {
      var fewer, last := OneLess(fs);
      var mid := CatchUpAll(rules, path, elections, n, fewer);
      assert Waits(Last(path), elections, n, last);
      StillWaits(Last(path), Last(mid), elections, n, last, fewer);
      longer := CatchUpOne(rules, mid, elections, n, last);
      InStepOneMore(Last(path), Last(mid), Last(longer), n, fewer, last);
    }
  }

  // ---------------------------------------------------------------- committing, and saying so

  /** All nodes have the log and the term of leader n, and have committed all of it. */
  ghost predicate Level(s: Cluster, n: NodeId) {
    && n in s.nodes && s.nodes[n].role == Leader
    && forall f {:trigger s.nodes[f]} :: f in s.nodes ==>
         && s.nodes[f].log == s.nodes[n].log && s.nodes[f].currentTerm == s.nodes[n].currentTerm
         && s.nodes[f].commitIndex >= |s.nodes[n].log| - 1
  }

  lemma InStepAnswered(s: Cluster, t: Cluster, n: NodeId, fs: set<NodeId>)
    requires InStep(s, t, n, fs) && s.nodes[n].role == Leader && s.nodes[n].commitIndex < |s.nodes[n].log|
    ensures Answered(t, n, fs)
  {
    var x := t.nodes[n];
    forall f | f in fs ensures Ack(x, f) in t.net {
      assert Caught(s.nodes[n], t, f);
    }
  }

  /** What the leader announces once all are in step finds them ready. */
  lemma AnnouncementTaken(rules: Rules, x: NodeState, y: NodeState)
    requires |x.log| > 1 && y.log == x.log && y.currentTerm == x.currentTerm && Get(x.nextIndex, y.id) == |x.log|
    requires x.commitIndex == |x.log| - 1
    ensures WillTake(x, y) && Taken(rules, x, y) == x.log
    ensures forall z :: Took(rules, x, y, z) ==>
              z.log == x.log && z.currentTerm == x.currentTerm && z.commitIndex >= |x.log| - 1
  {
  }

  lemma CommittedOffered(rules: Rules, s: Cluster, mid: Cluster, t: Cluster, n: NodeId, fs: set<NodeId>)
    requires Named(s) && Named(t) && OthersOf(s.members, n, fs) && t.members == mid.members == s.members
    requires InStep(s, mid, n, fs) && CommittedAll(mid, t, n, fs) && |s.nodes[n].log| > 1
    ensures Offered(t, t.nodes[n], fs)
    ensures forall f :: f in fs ==> Taken(rules, t.nodes[n], t.nodes[f]) == t.nodes[n].log
  {
    var x := t.nodes[n];
    forall f | f in fs
      ensures f in t.nodes && AppendEntriesFor(x, f) in t.net
      ensures WillTake(x, t.nodes[f]) && Taken(rules, x, t.nodes[f]) == x.log
    {
      assert Caught(s.nodes[n], mid, f);
      assert Get(x.nextIndex, f) == |x.log|;
      AnnouncementTaken(rules, x, t.nodes[f]);
    }
  }

  lemma AnnouncedLevel(rules: Rules, s: Cluster, t: Cluster, n: NodeId, fs: set<NodeId>)
    requires Named(s) && n in s.nodes && fs == s.nodes.Keys - {n} && s.nodes[n].role == Leader
    requires |s.nodes[n].log| > 1 && s.nodes[n].commitIndex == |s.nodes[n].log| - 1
    requires Offered(s, s.nodes[n], fs) && TookAll(rules, s, t, s.nodes[n], fs)
    requires forall f :: f in fs ==> Taken(rules, s.nodes[n], s.nodes[f]) == s.nodes[n].log
    ensures Level(t, n) && t.nodes[n] == s.nodes[n]
  {
    var x := s.nodes[n];
    forall f | f in t.nodes
      ensures t.nodes[f].log == x.log && t.nodes[f].currentTerm == x.currentTerm
      ensures t.nodes[f].commitIndex >= |x.log| - 1
    {
      if f != n { assert Took(rules, x, s.nodes[f], t.nodes[f]); }
    }
  }

  /** The others of fs, all in step with leader n, hear that it has committed its log. */
  lemma Announce(rules: Rules, path: seq<Cluster>, s: Cluster, mid: Cluster, n: NodeId, fs: set<NodeId>)
      returns (longer: seq<Cluster>)
    requires IsPath(rules, path) && Named(Last(path)) && Named(s) && Last(path).members == mid.members == s.members
    requires OthersOf(s.members, n, fs) && fs == s.nodes.Keys - {n} && |s.nodes[n].log| > 1
    requires InStep(s, mid, n, fs) && CommittedAll(mid, Last(path), n, fs)
    ensures GoesOn(rules, path, longer) && Level(Last(longer), n) && Last(longer).nodes[n] == Last(path).nodes[n]
  {
    CommittedOffered(rules, s, mid, Last(path), n, fs);
    longer := TakeAll(rules, path, Last(path).nodes[n], fs);
    AnnouncedLevel(rules, Last(path), Last(longer), n, fs);
  }

  lemma OpensWait(s: Cluster, n: NodeId, command: Command, f: NodeId)
    requires NodeOk(s, n) && NodeOk(s, f) && f != n && n != NO_NODE && f != NO_NODE && Opens(s, n, command)
    ensures Waits(s, s.elections, n, f)
  {
    assert s.nodes[f].currentTerm <= s.nodes[n].currentTerm;
    assert AppendEntriesFor(s.nodes[n], f) in s.net;
  }

  lemma AllOpen(s: Cluster, n: NodeId, command: Command) returns (fs: set<NodeId>)
    requires Inv(s) && Opens(s, n, command)
    ensures Named(s) && fs == s.nodes.Keys - {n} && OthersOf(s.members, n, fs) && |fs| == |s.members| - 1
    ensures AllWait(s, s.elections, n, fs) && s.nodes[n].commitIndex < |s.nodes[n].log|
  {
    fs := s.nodes.Keys - {n};
    MembersSize(s.members);
    assert NodeOk(s, n);
    forall f | f in fs ensures Waits(s, s.elections, n, f) {
      assert NodeOk(s, f);
      OpensWait(s, n, command, f);
    }
    forall f | f in s.nodes ensures s.nodes[f].id == f && s.nodes[f].clusterNodes == s.members && |s.nodes[f].log| > 0 {
      assert NodeOk(s, f);
    }
  }

  /** From where n leads with a new entry to where all have that entry and have committed it. */
  lemma SettleAll(rules: Rules, path: seq<Cluster>, n: NodeId, command: Command) returns (longer: seq<Cluster>)
    requires rules.mergeFromFirstNew && IsPath(rules, path) && Inv(Last(path)) && |Last(path).members| >= 2
    requires Opens(Last(path), n, command)
    ensures GoesOn(rules, path, longer) && Level(Last(longer), n)
    ensures Last(longer).nodes[n].log == Last(path).nodes[n].log
    ensures Last(longer).nodes[n].currentTerm == Last(path).nodes[n].currentTerm
  {
    var s := Last(path);
    var fs := AllOpen(s, n, command);
    LeaderLogsFromInv(s);
    var synced := CatchUpAll(rules, path, s.elections, n, fs);
    InStepAnswered(s, Last(synced), n, fs);
    var committed := HearAll(rules, synced, n, fs);
    longer := Announce(rules, committed, s, Last(synced), n, fs);
  }
}
