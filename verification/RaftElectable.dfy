/** How a cluster finds a leader: unless all its nodes stand in one term, some node can be brought to
    lead, with a command of its own. */
module RaftElectable {
  import opened RaftTypes
  import opened RaftSteps
  import opened RaftCluster
  import opened RaftQuorums
  import opened RaftPaths
  import opened RaftRounds
  import opened RaftAnswers
  import opened RaftLetters
  import opened RaftSplitVotes

  // ---------------------------------------------------------------- choosing from a set

  lemma {:induction false} PickSome(ns: set<NodeId>, k: nat) returns (vs: set<NodeId>)
    requires k <= |ns|
    ensures vs <= ns && |vs| == k
  {
    if k == |ns| {
      vs := ns;
    } else {
      var n :| n in ns;
      vs := PickSome(ns - {n}, k);
    }
  }

  lemma {:induction false} HighestTerm(s: Cluster, ns: set<NodeId>) returns (h: NodeId)
    requires ns != {} && ns <= s.nodes.Keys
    ensures h in ns && forall f :: f in ns ==> s.nodes[f].currentTerm <= s.nodes[h].currentTerm
    decreases |ns|
  {
    var n :| n in ns;
    h := n;
    if ns != {n} {
      var rest := HighestTerm(s, ns - {n});
      if s.nodes[rest].currentTerm > s.nodes[n].currentTerm { h := rest; }
    }
  }

  /** A log is as recent as another if its node can get the other's vote. */
  predicate Recent(a: Log, b: Log) {
    UpToDate(LastLogInfo(a).0, LastLogInfo(a).1, b)
  }

  lemma {:induction false} MostRecentLog(s: Cluster, ns: set<NodeId>) returns (n: NodeId)
    requires ns != {} && ns <= s.nodes.Keys
    ensures n in ns && forall f :: f in ns ==> Recent(s.nodes[n].log, s.nodes[f].log)
    decreases |ns|
  {
    var one :| one in ns;
    n := one;
    if ns != {one} {
      var rest := MostRecentLog(s, ns - {one});
      if !Recent(s.nodes[one].log, s.nodes[rest].log) { n := rest; }
    }
  }

  // ---------------------------------------------------------------- a follower in the highest term

  ghost predicate Foremost(s: Cluster, g: NodeId) {
    && g in s.nodes && s.nodes[g].role == Follower
    && forall f :: f in s.nodes ==> s.nodes[f].currentTerm <= s.nodes[g].currentTerm
  }

  /** A node that leads or stands tells every other node of its term whenever it times out. */
  lemma TickTells(x: NodeState, to: NodeId) returns (msg: Message)
    requires x.role != Follower && to in x.clusterNodes && to != x.id
    ensures msg in Tick(x).sent && msg.to == to && msg.term == x.currentTerm && (msg.RequestVote? || msg.AppendEntries?)
    ensures Tick(x).node.currentTerm == x.currentTerm
  {
    if x.role == Candidate {
      msg := RequestVoteFor(Tick(x).node, to);
      Asks(Tick(x).node.(votesReceived := x.votesReceived, voters := x.voters), to);
    } else {
      msg := AppendEntriesFor(x, to);
      Sends(x, to);
    }
  }

  lemma Follows(rules: Rules, x: NodeState, msg: Message)
    requires |x.log| > 0 && msg.term > x.currentTerm && (msg.RequestVote? || msg.AppendEntries?) && msg.from != x.id
    ensures var y := HandleMessage(rules, x, msg).node;
      && y.id == x.id && y.clusterNodes == x.clusterNodes && |y.log| > 0
      && y.role == Follower && y.currentTerm == msg.term
  {
    ActSigns(rules, x, Receive(msg));
    NewerTermAdoptedExactlyWhen(rules, x, msg);
  }

  lemma TickNamed(x: NodeState)
    requires |x.log| > 0
    ensures Tick(x).node.id == x.id && Tick(x).node.clusterNodes == x.clusterNodes && Tick(x).node.log == x.log
  {
  }

  lemma RousedForemost(s: Cluster, t: Cluster, h: NodeId, m: NodeId, x: NodeState, y: NodeState)
    requires h in s.nodes && m in s.nodes && t.nodes == s.nodes[h := x][m := y]
    requires x.currentTerm == y.currentTerm == s.nodes[h].currentTerm && y.role == Follower
    requires forall f :: f in s.nodes ==> s.nodes[f].currentTerm <= s.nodes[h].currentTerm
    ensures Foremost(t, m)
  {
  }

  /** h, in the highest term, times out, and m, in a lower one, hears of it. */
  lemma Rouse(rules: Rules, path: seq<Cluster>, h: NodeId, m: NodeId) returns (longer: seq<Cluster>)
    requires IsPath(rules, path) && LettersOk(Last(path)) && h in Last(path).nodes && m in Last(path).nodes
    requires Last(path).nodes[h].role != Follower
    requires Last(path).nodes[m].currentTerm < Last(path).nodes[h].currentTerm
    requires forall f :: f in Last(path).nodes ==> Last(path).nodes[f].currentTerm <= Last(path).nodes[h].currentTerm
    ensures GoesOn(rules, path, longer) && Foremost(Last(longer), m)
    ensures Last(longer).nodes[m].currentTerm == Last(path).nodes[h].currentTerm
  {
    var s := Last(path);
    var x, y := s.nodes[h], s.nodes[m];
    var msg := TickTells(x, m);
    TickNamed(x);
    TickSigns(x);
    var mid := Move(rules, path, Timeout(h));
    Follows(rules, y, msg);
    assert Last(mid).nodes[m] == y;
    longer := Move(rules, mid, Receive(msg));
    RousedForemost(s, Last(longer), h, m, Tick(x).node, HandleMessage(rules, y, msg).node);
  }

  /** Where a node leads, a voter of its own follows it or has moved on. */
  lemma LeaderHasFollower(s: Cluster, l: NodeId) returns (v: NodeId)
    requires Inv(s) && l in s.nodes && s.nodes[l].role == Leader && |s.members| >= 2
    ensures v in s.nodes && (s.nodes[v].role == Follower || s.nodes[v].currentTerm != s.nodes[l].currentTerm)
  {
    var term := s.nodes[l].currentTerm;
    assert NodeOk(s, l);
    assert ElectionOk(s, term);
    var voters := s.elections[term].voters;
    if voters <= {l} { SubsetSize(voters, {l}); assert false; }
    v :| v in voters && v != l;
    assert BallotFor(s, v, term, l) && BallotOk(s, v, term);
    assert NodeOk(s, v);
  }

  /** No node of s is in a later term. */
  ghost predicate AtLeast(s: Cluster, term: nat) {
    forall f :: f in s.nodes ==> s.nodes[f].currentTerm <= term
  }

  lemma FollowerAhead(rules: Rules, path: seq<Cluster>) returns (longer: seq<Cluster>, g: NodeId)
    requires IsPath(rules, path) && Inv(Last(path)) && LettersOk(Last(path)) && |Last(path).members| >= 2
    requires !exists term :: AllStand(Last(path), term)
    ensures GoesOn(rules, path, longer) && Foremost(Last(longer), g)
    ensures AtLeast(Last(path), Last(longer).nodes[g].currentTerm)
  {
    var s := Last(path);
    assert s.members[0] in s.nodes;
    var h := HighestTerm(s, s.nodes.Keys);
    var term := s.nodes[h].currentTerm;
    if f :| f in s.nodes && s.nodes[f].currentTerm == term && s.nodes[f].role == Follower {
      longer, g := path, f;
    } else if m :| m in s.nodes && s.nodes[m].currentTerm < term {
      longer := Rouse(rules, path, h, m);
      g := m;
    } else {
      assert !AllStand(s, term);
      var l :| l in s.nodes && s.nodes[l].role == Leader;
      var v := LeaderHasFollower(s, l);
      assert false;
    }
  }

  // ---------------------------------------------------------------- and the most recent log

  ghost predicate Electable(s: Cluster, n: NodeId) {
    Foremost(s, n) && forall f :: f in s.nodes ==> Recent(s.nodes[n].log, s.nodes[f].log)
  }

  /** n, whose log is most recent, follows g into the highest term. */
  lemma StepForward(rules: Rules, path: seq<Cluster>, g: NodeId, n: NodeId) returns (longer: seq<Cluster>)
    requires IsPath(rules, path) && Named(Last(path)) && Foremost(Last(path), g) && n in Last(path).nodes && n != g
    requires forall f :: f in Last(path).nodes ==> Recent(Last(path).nodes[n].log, Last(path).nodes[f].log)
    ensures GoesOn(rules, path, longer) && Electable(Last(longer), n)
    ensures Last(path).nodes[g].currentTerm <= Last(longer).nodes[n].currentTerm
  {
    var s := Last(path);
    var mid := Campaign(rules, path, g);
    var msg := Ask(s.nodes[g], n);
    assert Last(mid).nodes[n] == s.nodes[n];
    longer := Hear(rules, mid, msg);
    SteppedForward(s, Last(longer), g, n, Candidacy(s.nodes[g]), Last(longer).nodes[n]);
  }

  lemma SteppedForward(s: Cluster, t: Cluster, g: NodeId, n: NodeId, x: NodeState, y: NodeState)
    requires Foremost(s, g) && n in s.nodes && n != g && t.nodes == s.nodes[g := x][n := y]
    requires x.log == s.nodes[g].log && y.log == s.nodes[n].log && y.role == Follower
    requires x.currentTerm == y.currentTerm == s.nodes[g].currentTerm + 1
    requires forall f :: f in s.nodes ==> Recent(s.nodes[n].log, s.nodes[f].log)
    ensures Electable(t, n)
  {
    forall f | f in t.nodes ensures Recent(t.nodes[n].log, t.nodes[f].log) {
      assert Recent(s.nodes[n].log, s.nodes[f].log);
    }
  }

  lemma FrontRunner(rules: Rules, path: seq<Cluster>, g: NodeId) returns (longer: seq<Cluster>, n: NodeId)
    requires IsPath(rules, path) && Named(Last(path)) && Foremost(Last(path), g)
    ensures GoesOn(rules, path, longer) && Electable(Last(longer), n)
    ensures Last(path).nodes[g].currentTerm <= Last(longer).nodes[n].currentTerm
  {
    n := MostRecentLog(Last(path), Last(path).nodes.Keys);
    if n == g {
      longer := path;
    } else {
      longer := StepForward(rules, path, g, n);
    }
  }

  // ---------------------------------------------------------------- leading

  /** n leads the highest term, its log ends in an entry of that term, and all others have been sent it. */
  ghost predicate Opens(s: Cluster, n: NodeId, command: Command) {
    && n in s.nodes && s.nodes[n].role == Leader
    && var x := s.nodes[n];
      && (forall f :: f in s.nodes ==> s.nodes[f].currentTerm <= x.currentTerm)
      && |x.log| > 1 && x.log[|x.log| - 1] == LogEntry(x.currentTerm, |x.log| - 1, command)
      && forall v :: v in s.members && v != n ==> AppendEntriesFor(x, v) in s.net
  }

  lemma ElectableOpens(rules: Rules, path: seq<Cluster>, n: NodeId, command: Command) returns (longer: seq<Cluster>)
    requires IsPath(rules, path) && Named(Last(path)) && Electable(Last(path), n) && |Last(path).members| >= 2
    ensures GoesOn(rules, path, longer) && Opens(Last(longer), n, command)
    ensures Last(path).nodes[n].currentTerm < Last(longer).nodes[n].currentTerm
  {
    var vs := HalfWillVote(Last(path), n);
    longer := LeadAndWrite(rules, path, n, vs, command);
    WroteOpens(Last(path), Last(longer), n, vs, command);
  }

  lemma HalfWillVote(s: Cluster, n: NodeId) returns (vs: set<NodeId>)
    requires Named(s) && Electable(s, n)
    ensures OthersOf(s.members, n, vs) && |vs| == |s.members| / 2
    ensures forall v :: v in vs ==> WillVote(s.nodes[n], s.nodes[v])
  {
    MembersSize(s.members);
    var others := Members(s.members) - {n};
    assert |others| == |s.members| - 1;
    vs := PickSome(others, |s.members| / 2);
    forall v | v in vs ensures WillVote(s.nodes[n], s.nodes[v]) {
      assert Recent(s.nodes[n].log, s.nodes[v].log);
    }
  }

  lemma WroteOpens(s: Cluster, t: Cluster, n: NodeId, vs: set<NodeId>, command: Command)
    requires Named(s) && Foremost(s, n) && Wrote(s, t, n, vs, command) && t.members == s.members
    ensures Opens(t, n, command) && s.nodes[n].currentTerm < t.nodes[n].currentTerm
  {
  }

  /** From any reachable state in which not all nodes stand in one term, some node can be brought to lead. */
  lemma LeaderCanEmerge(rules: Rules, path: seq<Cluster>, command: Command) returns (longer: seq<Cluster>, n: NodeId)
    requires IsPath(rules, path) && Inv(Last(path)) && LettersOk(Last(path)) && |Last(path).members| >= 2
    requires !exists term :: AllStand(Last(path), term)
    ensures GoesOn(rules, path, longer) && Opens(Last(longer), n, command)
    ensures forall f :: f in Last(path).nodes ==>
              Last(path).nodes[f].currentTerm < Last(longer).nodes[n].currentTerm
  {
    var ahead, g := FollowerAhead(rules, path);
    var ready, m := FrontRunner(rules, ahead, g);
    longer := ElectableOpens(rules, ready, m, command);
    n := m;
  }
}
