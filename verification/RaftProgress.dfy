/** Progress: when a cluster can still write a command, commit it and apply it everywhere. */
module RaftProgress {
  import opened RaftTypes
  import opened RaftSteps
  import opened StateMachine
  import opened RaftCluster
  import opened RaftBallots
  import opened RaftPaths
  import opened RaftLetters
  import opened RaftSafety
  import opened RaftSplitVotes
  import opened RaftElectable
  import opened RaftCatchUp

  // ---------------------------------------------------------------- emptying the apply queues

  ghost predicate Drained(x: NodeState, y: NodeState) {
    y == x.(applyCh := [], applied := x.applied + x.applyCh, machine := y.machine)
  }

  lemma {:induction false} DrainOne(rules: Rules, path: seq<Cluster>, f: NodeId) returns (longer: seq<Cluster>)
    requires IsPath(rules, path) && Named(Last(path)) && f in Last(path).nodes
    ensures GoesOn(rules, path, longer) && Drained(Last(path).nodes[f], Last(longer).nodes[f])
    ensures Last(longer).nodes == Last(path).nodes[f := Last(longer).nodes[f]]
    decreases |Last(path).nodes[f].applyCh|
  {
    var x := Last(path).nodes[f];
    if |x.applyCh| == 0 {
      longer := path;
    } else {
      var mid := Move(rules, path, ApplyOne(f));
      longer := DrainOne(rules, mid, f);
      assert x.applied + [x.applyCh[0]] + x.applyCh[1..] == x.applied + x.applyCh;
      UpdateTwice(Last(path).nodes, f, Last(mid).nodes[f], Last(longer).nodes[f]);
    }
  }

  ghost predicate AllDrained(s: Cluster, t: Cluster, fs: set<NodeId>) {
    && t.nodes.Keys == s.nodes.Keys
    && (forall f {:trigger t.nodes[f]} :: f in s.nodes && f in fs ==> Drained(s.nodes[f], t.nodes[f]))
    && (forall f {:trigger t.nodes[f]} :: f in s.nodes && f !in fs ==> t.nodes[f] == s.nodes[f])
  }

  lemma {:induction false} DrainAll(rules: Rules, path: seq<Cluster>, fs: set<NodeId>) returns (longer: seq<Cluster>)
    requires IsPath(rules, path) && Named(Last(path)) && fs <= Last(path).nodes.Keys
    ensures GoesOn(rules, path, longer) && AllDrained(Last(path), Last(longer), fs)
    decreases |fs|
  {
    if |fs| == 0 {
      longer := path;
    } else {
      var fewer, last := OneLess(fs);
      var mid := DrainAll(rules, path, fewer);
      longer := DrainOne(rules, mid, last);
      assert Last(mid).nodes[last] == Last(path).nodes[last];
    }
  }

  // ---------------------------------------------------------------- what it is to serve a command

  /** y has the log of x and its term, and has committed and applied all of it. */
  ghost predicate Done(y: NodeState, x: NodeState) {
    && y.currentTerm == x.currentTerm && y.log == x.log && |x.log| > 0
    && y.commitIndex == |x.log| - 1 && y.applied == x.log[1..]
    && y.machine == ApplyAll(EMPTY_MACHINE, x.log[1..])
  }

  /** n leads a term later than any of s, and its log ends in the command. */
  ghost predicate WroteSince(s: Cluster, t: Cluster, n: NodeId, command: Command) {
    && n in t.nodes && t.nodes[n].role == Leader
    && var x := t.nodes[n];
      && (forall f :: f in s.nodes ==> s.nodes[f].currentTerm < x.currentTerm)
      && |x.log| > 1 && x.log[|x.log| - 1] == LogEntry(x.currentTerm, |x.log| - 1, command)
  }

  /** And every node has applied it. */
  ghost predicate ServedBy(s: Cluster, t: Cluster, n: NodeId, command: Command) {
    WroteSince(s, t, n, command) && forall f {:trigger t.nodes[f]} :: f in t.nodes ==> Done(t.nodes[f], t.nodes[n])
  }

  ghost predicate Serves(rules: Rules, path: seq<Cluster>, command: Command) {
    IsPath(rules, path) && exists n :: ServedBy(path[0], Last(path), n, command)
  }

  /** From s the cluster can go on so that the command is served. */
  ghost predicate CanServe(rules: Rules, s: Cluster, command: Command) {
    exists path :: |path| > 0 && path[0] == s && Serves(rules, path, command)
  }

  // ---------------------------------------------------------------- runs that go on

  lemma RunIsPath(rules: Rules, run: seq<Cluster>)
    requires IsRun(rules, run)
    ensures IsPath(rules, run)
  {
    forall i | 0 <= i < |run| - 1 ensures StepAt(rules, run, i) {
      assert IsStep(rules, run[i], run[i + 1]);
    }
  }

  /** A run and a path from its end make a run. */
  lemma Join(rules: Rules, run: seq<Cluster>, path: seq<Cluster>) returns (longer: seq<Cluster>)
    requires IsRun(rules, run) && IsPath(rules, path) && path[0] == Last(run)
    ensures IsRun(rules, longer) && run <= longer && Last(longer) == Last(path) && longer[0] == run[0]
  {
    longer := run + path[1..];
    forall i | 0 <= i < |longer| - 1 ensures IsStep(rules, longer[i], longer[i + 1]) {
      if i < |run| - 1 {
        assert IsStep(rules, run[i], run[i + 1]);
      } else {
        assert StepAt(rules, path, i - (|run| - 1));
      }
    }
  }

  lemma InvAhead(rules: Rules, run: seq<Cluster>, path: seq<Cluster>)
    requires IsSoundRun(rules, run) && IsPath(rules, path) && path[0] == Last(run)
    ensures Inv(Last(path)) && LettersOk(Last(path)) && Last(path).members == run[0].members
  {
    var longer := Join(rules, run, path);
    RunInv(rules, longer, |longer| - 1);
    RunLetters(rules, longer, |longer| - 1);
  }

  // ---------------------------------------------------------------- progress

  lemma DrainedDone(s: Cluster, t: Cluster, n: NodeId)
    requires Level(s, n) && AllDrained(s, t, s.nodes.Keys) && Inv(t)
    ensures n in t.nodes && forall f :: f in t.nodes ==> Done(t.nodes[f], t.nodes[n])
  {
    forall f | f in t.nodes ensures Done(t.nodes[f], t.nodes[n]) {
      assert NodeOk(t, f) && Drained(s.nodes[f], t.nodes[f]) && Drained(s.nodes[n], t.nodes[n]);
    }
  }

  lemma LevelServed(s: Cluster, level: Cluster, t: Cluster, n: NodeId, command: Command)
    requires WroteSince(s, level, n, command) && Level(level, n)
    requires AllDrained(level, t, level.nodes.Keys) && Inv(t)
    ensures ServedBy(s, t, n, command)
  {
    DrainedDone(level, t, n);
    assert Drained(level.nodes[n], t.nodes[n]);
  }

  /** Some node comes to lead, and all come level with it. */
  lemma Rally(rules: Rules, run: seq<Cluster>, command: Command) returns (path: seq<Cluster>, n: NodeId)
    requires IsSoundRun(rules, run) && |run[0].members| >= 2
    requires !exists term :: AllStand(Last(run), term)
    ensures IsPath(rules, path) && path[0] == Last(run) && Named(Last(path))
    ensures WroteSince(Last(run), Last(path), n, command) && Level(Last(path), n)
  {
    InvAhead(rules, run, [Last(run)]);
    var led, m := LeaderCanEmerge(rules, [Last(run)], command);
    n := m;
    InvAhead(rules, run, led);
    path := SettleAll(rules, led, n, command);
  }

  /** From any state of a sound run in which not all nodes stand in one term, the cluster can go on to
      elect a leader that writes any given command, and to have every node commit and apply it. */
  lemma ProgressPossible(rules: Rules, run: seq<Cluster>, command: Command) returns (path: seq<Cluster>)
    requires IsSoundRun(rules, run) && |run[0].members| >= 2
    requires !exists term :: AllStand(Last(run), term)
    ensures |path| > 0 && path[0] == Last(run) && Serves(rules, path, command)
  {
    var level, n := Rally(rules, run, command);
    path := DrainAll(rules, level, Last(level).nodes.Keys);
    InvAhead(rules, run, path);
    LevelServed(Last(run), Last(level), Last(path), n, command);
  }

  // ---------------------------------------------------------------- and when it is not

  ghost predicate NobodyLeads(s: Cluster) {
    forall n, term :: !Leads(s, n, term)
  }

  lemma LoneStep(rules: Rules, s: Cluster, s': Cluster)
    requires Alone(s) && NobodyLeads(s) && IsStep(rules, s, s')
    ensures NobodyLeads(s')
  {
    var a :| Enabled(s, a) && s' == Next(rules, s, a);
    var x := s.nodes[Actor(a)];
    assert !Leads(s, Actor(a), x.currentTerm);
    forall n, term ensures !Leads(s', n, term) {
      assert !Leads(s, n, term);
    }
  }

  lemma {:induction false} LoneNeverLeads(rules: Rules, run: seq<Cluster>, i: nat)
    requires IsRun(rules, run) && |run[0].members| == 1 && i < |run|
    ensures NobodyLeads(run[i])
  {
    if i > 0 {
      LoneNeverLeads(rules, run, i - 1);
      AloneRun(rules, run, i - 1);
      assert IsStep(rules, run[i - 1], run[i - 1 + 1]);
      LoneStep(rules, run[i - 1], run[i]);
    }
  }

  lemma StandingNeverServes(rules: Rules, run: seq<Cluster>, path: seq<Cluster>, term: nat)
    requires IsSoundRun(rules, run) && AllStand(Last(run), term) && IsPath(rules, path) && path[0] == Last(run)
    ensures NobodyLeads(Last(path))
  {
    var plain := SoundIsPlain(rules, run);
    AllStandIsSplit(plain, run, |run| - 1, term);
    SplitIsForever(rules, path, 0, |path| - 1, term);
  }

  lemma LoneNeverServes(rules: Rules, run: seq<Cluster>, path: seq<Cluster>)
    requires IsRun(rules, run) && |run[0].members| == 1 && IsPath(rules, path) && path[0] == Last(run)
    ensures NobodyLeads(Last(path))
  {
    var longer := Join(rules, run, path);
    LoneNeverLeads(rules, longer, |longer| - 1);
  }

  lemma ServedMeansLed(rules: Rules, path: seq<Cluster>, command: Command)
    requires Serves(rules, path, command)
    ensures !NobodyLeads(Last(path))
  {
    var n :| ServedBy(path[0], Last(path), n, command);
    assert Leads(Last(path), n, Last(path).nodes[n].currentTerm);
  }

  /** The cluster can still serve a command exactly when it has a second node and its nodes do not all
      stand for election in one term. */
  lemma ServesExactlyWhen(rules: Rules, run: seq<Cluster>, command: Command)
    requires IsSoundRun(rules, run)
    ensures CanServe(rules, Last(run), command) <==>
              |run[0].members| >= 2 && !exists term :: AllStand(Last(run), term)
  {
    if |run[0].members| >= 2 && !exists term :: AllStand(Last(run), term) {
      var path := ProgressPossible(rules, run, command);
    } else if CanServe(rules, Last(run), command) {
      var path :| |path| > 0 && path[0] == Last(run) && Serves(rules, path, command);
      ServedMeansLed(rules, path, command);
      if term :| AllStand(Last(run), term) {
        StandingNeverServes(rules, run, path, term);
      } else {
        LoneNeverServes(rules, run, path);
      }
    }
  }
}
