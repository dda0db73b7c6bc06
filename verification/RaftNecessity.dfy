/** Every departure from the protocol loses committed entries in clusters that are too large for it,
    whatever the other rules are: the sound rules are exactly those that never do. */
module RaftNecessity {
  import opened RaftTypes
  import opened RaftSteps
  import opened RaftCluster
  import opened RaftQuorums
  import opened RaftPaths
  import opened RaftRounds
  import opened RaftVoteCounting
  import opened RaftSafety

  /** Two nodes consider different entries committed at the same index. */
  ghost predicate Diverged(s: Cluster, u: NodeId, v: NodeId, k: nat) {
    && u in s.nodes && v in s.nodes
    && k <= s.nodes[u].commitIndex && k < |s.nodes[u].log|
    && k <= s.nodes[v].commitIndex && k < |s.nodes[v].log|
    && s.nodes[u].log[k] != s.nodes[v].log[k]
  }

  /** q of the nodes, from position lo on. */
  function Voters(members: seq<NodeId>, lo: nat, q: nat): set<NodeId>
    requires lo + q <= |members|
  {
    Members(members[lo..lo + q])
  }

  lemma VotersAre(members: seq<NodeId>, lo: nat, q: nat)
    requires ValidMembers(members) && lo + q <= |members|
    ensures var vs := Voters(members, lo, q);
      && |vs| == q && vs <= Members(members)
      && (forall k :: 0 <= k < lo ==> members[k] !in vs)
      && (q > 0 ==> members[lo] in vs)
  {
    MembersSize(members[lo..lo + q]);
    if q > 0 { assert members[lo] == members[lo..lo + q][0]; }
  }

  lemma InitNamed(members: seq<NodeId>)
    requires ValidMembers(members)
    ensures Named(Init(members))
    ensures forall n :: n in members ==> n in Init(members).nodes && Init(members).nodes[n] == NewNode(n, members)
  {
  }

  // ---------------------------------------------------------------- a first entry, in term 1

  ghost predicate NoneBeyondTermOne(s: Cluster) {
    forall f {:trigger s.nodes[f]} :: f in s.nodes ==> s.nodes[f].currentTerm <= 1
  }

  /** n leads term 1 and has sent its first entry to everybody. */
  ghost predicate FirstEntry(s: Cluster, n: NodeId, command: Command) {
    && n in s.nodes
    && var x := s.nodes[n];
      && x.role == Leader && x.currentTerm == 1 && x.commitIndex == 0
      && x.log == [SENTINEL, LogEntry(1, 1, command)]
      && forall v {:trigger Get(x.nextIndex, v)} {:trigger AppendEntriesFor(x, v)} ::
           v in s.members && v != n ==> Get(x.nextIndex, v) == 1 && AppendEntriesFor(x, v) in s.net
  }

  /** The nodes outside ns are as they were. */
  ghost predicate OnlyMoved(s: Cluster, t: Cluster, ns: set<NodeId>) {
    && t.nodes.Keys == s.nodes.Keys && t.members == s.members && s.net <= t.net
    && forall f {:trigger t.nodes[f]} {:trigger s.nodes[f]} :: f in s.nodes && f !in ns ==> t.nodes[f] == s.nodes[f]
  }

  /** A fresh leader of term 1 writes its first entry. */
  lemma WriteFirst(rules: Rules, path: seq<Cluster>, n: NodeId, command: Command) returns (longer: seq<Cluster>)
    requires IsPath(rules, path) && Named(Last(path)) && n in Last(path).members && NoneBeyondTermOne(Last(path))
    requires Crowned(NewNode(n, Last(path).members), Last(path).nodes[n], 1)
    ensures GoesOn(rules, path, longer) && NoneBeyondTermOne(Last(longer))
    ensures FirstEntry(Last(longer), n, command) && OnlyMoved(Last(path), Last(longer), {n})
  {
    longer := Write(rules, path, n, command);
    WrittenFirst(Last(path), Last(longer), n, command);
  }

  lemma WrittenFirst(s: Cluster, t: Cluster, n: NodeId, command: Command)
    requires Named(s) && n in s.nodes && Crowned(NewNode(n, s.members), s.nodes[n], 1) && t.members == s.members
    requires var x := s.nodes[n]; t.nodes == s.nodes[n := x.(log := x.log + [LogEntry(1, |x.log|, command)])]
    requires forall v :: v in s.members && v != n ==> AppendEntriesFor(t.nodes[n], v) in t.net
    ensures FirstEntry(t, n, command)
  {
    var x, y := s.nodes[n], t.nodes[n];
    forall v | v in s.members && v != n ensures Get(y.nextIndex, v) == 1 {
      assert Get(x.nextIndex, v) == 1;
    }
  }

  lemma FirstOffered(s: Cluster, n: NodeId, vs: set<NodeId>, command: Command)
    requires Named(s) && OthersOf(s.members, n, vs) && NoneBeyondTermOne(s) && FirstEntry(s, n, command)
    ensures Offered(s, s.nodes[n], vs)
  {
    var x := s.nodes[n];
    forall f | f in vs ensures f in s.nodes && AppendEntriesFor(x, f) in s.net && WillTake(x, s.nodes[f]) {
      assert Get(x.nextIndex, f) == 1;
    }
  }

  /** It commits that entry once vs have answered, whatever their logs hold. */
  lemma CommitFirst(rules: Rules, path: seq<Cluster>, n: NodeId, vs: set<NodeId>, command: Command)
      returns (longer: seq<Cluster>)
    requires IsPath(rules, path) && Named(Last(path)) && NoneBeyondTermOne(Last(path))
    requires FirstEntry(Last(path), n, command)
    requires OthersOf(Last(path).members, n, vs) && |vs| == |Last(path).members| / 2 > 0
    ensures GoesOn(rules, path, longer) && NoneBeyondTermOne(Last(longer))
    ensures OnlyMoved(Last(path), Last(longer), vs + {n}) && n in Last(longer).nodes
    ensures Last(longer).nodes[n].log == [SENTINEL, LogEntry(1, 1, command)] && Last(longer).nodes[n].commitIndex == 1
  {
    FirstOffered(Last(path), n, vs, command);
    longer := Replicate(rules, path, n, vs);
    ReplicatedFirst(rules, Last(path), Last(longer), n, vs);
  }

  lemma ReplicatedFirst(rules: Rules, s: Cluster, t: Cluster, n: NodeId, vs: set<NodeId>)
    requires n in s.nodes && s.nodes[n].currentTerm == 1 && Offered(s, s.nodes[n], vs)
    requires Replicated(rules, s, t, n, vs) && NoneBeyondTermOne(s)
    ensures NoneBeyondTermOne(t)
  {
    forall f | f in t.nodes ensures t.nodes[f].currentTerm <= 1 {
      if f in vs { assert Took(rules, s.nodes[n], s.nodes[f], t.nodes[f]); }
    }
  }

  // ---------------------------------------------------------------- counting a voter more than once

  /** The first and the third node lead term 1, each on the vote of its successor alone. */
  lemma TwoElected(rules: Rules, members: seq<NodeId>) returns (run: seq<Cluster>)
    requires !rules.countVotersOnce && ValidMembers(members) && |members| >= 4
    ensures IsPath(rules, run) && run[0] == Init(members) && Last(run).members == members && Named(Last(run))
    ensures NoneBeyondTermOne(Last(run))
    ensures Crowned(NewNode(members[0], members), Last(run).nodes[members[0]], 1)
    ensures Crowned(NewNode(members[2], members), Last(run).nodes[members[2]], 1)
  {
    InitNamed(members);
    run := [Init(members)];
    run := OneVoteElects(rules, run, members[0], members[1]);
    run := OneVoteElects(rules, run, members[2], members[3]);
  }

  /** Each of the two has written a command. */
  lemma TwoWriters(rules: Rules, members: seq<NodeId>, one: Command, two: Command) returns (run: seq<Cluster>)
    requires !rules.countVotersOnce && ValidMembers(members) && |members| >= 4
    ensures IsPath(rules, run) && run[0] == Init(members) && Last(run).members == members && Named(Last(run))
    ensures NoneBeyondTermOne(Last(run))
    ensures FirstEntry(Last(run), members[0], one) && FirstEntry(Last(run), members[2], two)
  {
    run := TwoElected(rules, members);
    var mid := WriteFirst(rules, run, members[0], one);
    run := WriteFirst(rules, mid, members[2], two);
    assert Last(run).nodes[members[0]] == Last(mid).nodes[members[0]];
  }

  lemma OthersOfTwo(members: seq<NodeId>) returns (vs: set<NodeId>)
    requires ValidMembers(members) && |members| >= 4
    ensures OthersOf(members, members[0], vs) && OthersOf(members, members[2], vs) && |vs| == |members| / 2
  {
    VotersAre(members, 3, |members| / 2 - 1);
    vs := {members[1]} + Voters(members, 3, |members| / 2 - 1);
  }

  /** Two nodes that lead the same term, on one vote each, commit their own first entries: a follower
      that holds an entry of that term acknowledges the other. */
  lemma CountingTwiceDiverges(rules: Rules, members: seq<NodeId>, one: Command, two: Command)
      returns (run: seq<Cluster>)
    requires !rules.countVotersOnce && ValidMembers(members) && |members| >= 4 && one != two
    ensures IsRun(rules, run) && run[0] == Init(members) && Diverged(Last(run), members[0], members[2], 1)
  {
    var a, c := members[0], members[2];
    var vs := OthersOfTwo(members);
    var start := TwoWriters(rules, members, one, two);
    var mid := CommitFirst(rules, start, a, vs, one);
    assert Last(mid).nodes[c] == Last(start).nodes[c];
    run := CommitFirst(rules, mid, c, vs, two);
    assert Last(run).nodes[a] == Last(mid).nodes[a];
    PathIsRun(rules, run, members);
  }

  // ---------------------------------------------------------------- appending entries again

  /** All entries go to the end of a log that none of them contradicts. */
  lemma AppendsAtEnd(rules: Rules, log: Log, prev: nat, entry: LogEntry)
    requires !rules.mergeFromFirstNew && prev + 1 <= |log|
    requires prev + 1 == |log| || log[prev + 1].term == entry.term
    ensures Merge(rules, log, prev, [entry]) == log + [entry]
  {
    assert FirstConflict(log, prev, [entry], 0) == FirstConflict(log, prev, [entry], 1);
  }

  /** n leads term 1 with a log of one or two entries of that term, of which vs lack the last. */
  ghost predicate SendsLast(s: Cluster, n: NodeId, vs: set<NodeId>) {
    && n in s.nodes
    && var x := s.nodes[n];
      && x.role == Leader && x.currentTerm == 1 && |x.log| >= 2 && x.commitIndex == |x.log| - 2
      && x.log[|x.log| - 1].term == 1
      && forall f {:trigger Get(x.nextIndex, f)} {:trigger AppendEntriesFor(x, f)} ::
           f in vs ==> Get(x.nextIndex, f) == |x.log| - 1 && AppendEntriesFor(x, f) in s.net
  }

  /** Their logs match the leader's up to there, and hold nothing of another term beyond. */
  ghost predicate CanAppend(x: NodeState, y: NodeState) {
    && y.currentTerm == 1 && |x.log| >= 2 && |y.log| >= |x.log| - 1 && y.commitIndex <= x.commitIndex
    && y.log[|x.log| - 2].term == x.log[|x.log| - 2].term
    && (|y.log| >= |x.log| ==> y.log[|x.log| - 1].term == 1)
  }

  lemma LastTaken(rules: Rules, x: NodeState, y: NodeState)
    requires !rules.mergeFromFirstNew && x.currentTerm == 1 && CanAppend(x, y) && x.commitIndex == |x.log| - 2
    requires Get(x.nextIndex, y.id) == |x.log| - 1 && x.log[|x.log| - 1].term == 1
    ensures WillTake(x, y) && Taken(rules, x, y) == y.log + [x.log[|x.log| - 1]]
    ensures forall z :: Took(rules, x, y, z) ==> z.commitIndex == |x.log| - 2
  {
    assert x.log[|x.log| - 1..] == [x.log[|x.log| - 1]];
    AppendsAtEnd(rules, y.log, |x.log| - 2, x.log[|x.log| - 1]);
  }

  /** The leader's last entry goes to the end of every log, and is committed. */
  ghost predicate LastAppended(s: Cluster, t: Cluster, n: NodeId, vs: set<NodeId>)
    requires n in s.nodes && |s.nodes[n].log| > 0
  {
    && n in t.nodes && t.nodes.Keys == s.nodes.Keys && t.members == s.members
    && var x, y := s.nodes[n], t.nodes[n];
      && y.role == Leader && y.currentTerm == 1 && y.log == x.log && y.commitIndex == |x.log| - 1
      && (forall f {:trigger Get(y.nextIndex, f)} {:trigger AppendEntriesFor(y, f)} :: f in vs ==>
            Get(y.nextIndex, f) == |x.log| && AppendEntriesFor(y, f) in t.net)
      && (forall f {:trigger t.nodes[f]} {:trigger s.nodes[f]} :: f in vs && f in s.nodes ==>
            && t.nodes[f].log == s.nodes[f].log + [x.log[|x.log| - 1]]
            && t.nodes[f].currentTerm == 1 && t.nodes[f].commitIndex == |x.log| - 2)
  }

  lemma AppendLast(rules: Rules, path: seq<Cluster>, n: NodeId, vs: set<NodeId>) returns (longer: seq<Cluster>)
    requires !rules.mergeFromFirstNew && IsPath(rules, path) && Named(Last(path))
    requires OthersOf(Last(path).members, n, vs) && |vs| == |Last(path).members| / 2 > 0
    requires SendsLast(Last(path), n, vs) && forall f :: f in vs ==> CanAppend(Last(path).nodes[n], Last(path).nodes[f])
    ensures GoesOn(rules, path, longer) && LastAppended(Last(path), Last(longer), n, vs)
  {
    LastOffered(rules, Last(path), n, vs);
    longer := Replicate(rules, path, n, vs);
    LastReplicated(rules, Last(path), Last(longer), n, vs);
  }

  lemma LastOffered(rules: Rules, s: Cluster, n: NodeId, vs: set<NodeId>)
    requires !rules.mergeFromFirstNew && Named(s) && OthersOf(s.members, n, vs) && SendsLast(s, n, vs)
    requires forall f :: f in vs ==> CanAppend(s.nodes[n], s.nodes[f])
    ensures Offered(s, s.nodes[n], vs)
  {
    var x := s.nodes[n];
    forall f | f in vs ensures f in s.nodes && AppendEntriesFor(x, f) in s.net && WillTake(x, s.nodes[f]) {
      assert Get(x.nextIndex, f) == |x.log| - 1;
      LastTaken(rules, x, s.nodes[f]);
    }
  }

  lemma LastReplicated(rules: Rules, s: Cluster, t: Cluster, n: NodeId, vs: set<NodeId>)
    requires !rules.mergeFromFirstNew && Named(s) && OthersOf(s.members, n, vs) && SendsLast(s, n, vs)
    requires forall f :: f in vs ==> CanAppend(s.nodes[n], s.nodes[f])
    requires Offered(s, s.nodes[n], vs) && Replicated(rules, s, t, n, vs) && t.members == s.members
    ensures LastAppended(s, t, n, vs)
  {
    var x := s.nodes[n];
    forall f | f in vs
      ensures t.nodes[f].log == s.nodes[f].log + [x.log[|x.log| - 1]]
      ensures t.nodes[f].currentTerm == 1 && t.nodes[f].commitIndex == |x.log| - 2
    {
      assert Took(rules, x, s.nodes[f], t.nodes[f]);
      assert Get(x.nextIndex, f) == |x.log| - 1;
      LastTaken(rules, x, s.nodes[f]);
    }
  }

  /** The first node leads term 1 and has written a command; vs have voted for it. */
  lemma FirstSent(rules: Rules, members: seq<NodeId>, vs: set<NodeId>, command: Command) returns (run: seq<Cluster>)
    requires ValidMembers(members) && OthersOf(members, members[0], vs) && |vs| == |members| / 2 > 0
    ensures IsPath(rules, run) && run[0] == Init(members) && Last(run).members == members && Named(Last(run))
    ensures SendsLast(Last(run), members[0], vs)
    ensures Last(run).nodes[members[0]].log == [SENTINEL, LogEntry(1, 1, command)]
    ensures forall f :: f in vs ==>
              && f in Last(run).nodes && Last(run).nodes[f] == Voted(NewNode(f, members), 1, members[0])
              && CanAppend(Last(run).nodes[members[0]], Last(run).nodes[f])
  {
    InitNamed(members);
    run := LeadAndWrite(rules, [Init(members)], members[0], vs, command);
    var x := Last(run).nodes[members[0]];
    forall f | f in vs ensures Get(x.nextIndex, f) == 1 && AppendEntriesFor(x, f) in Last(run).net {
    }
  }

  /** b has stored the entry once already, and will store it again with the rest of vs. */
  lemma TakeEarly(rules: Rules, path: seq<Cluster>, n: NodeId, b: NodeId, vs: set<NodeId>, command: Command)
      returns (longer: seq<Cluster>)
    requires !rules.mergeFromFirstNew && IsPath(rules, path) && Named(Last(path)) && OthersOf(Last(path).members, n, vs)
    requires b in vs && SendsLast(Last(path), n, vs) && Last(path).nodes[n].log == [SENTINEL, LogEntry(1, 1, command)]
    requires forall f :: f in vs ==>
               && Last(path).nodes[f].log == [SENTINEL] && CanAppend(Last(path).nodes[n], Last(path).nodes[f])
    ensures GoesOn(rules, path, longer) && SendsLast(Last(longer), n, vs)
    ensures Last(longer).nodes[n] == Last(path).nodes[n]
    ensures forall f {:trigger Last(longer).nodes[f]} :: f in vs ==>
              && f in Last(longer).nodes && CanAppend(Last(path).nodes[n], Last(longer).nodes[f])
              && Last(longer).nodes[f].log == if f == b then [SENTINEL, LogEntry(1, 1, command)] else [SENTINEL]
  {
    var x, y := Last(path).nodes[n], Last(path).nodes[b];
    assert Get(x.nextIndex, b) == 1;
    LastTaken(rules, x, y);
    longer := TakeOne(rules, path, x, b);
    TookEarly(rules, Last(path), Last(longer), n, b, vs, LogEntry(1, 1, command));
  }

  lemma TookEarly(rules: Rules, s: Cluster, t: Cluster, n: NodeId, b: NodeId, vs: set<NodeId>, first: LogEntry)
    requires n in s.nodes && b in s.nodes && b in t.nodes && t.nodes == s.nodes[b := t.nodes[b]] && b != n
    requires s.nodes[n].log == [SENTINEL, first] && first.term == 1 && s.nodes[n].currentTerm == 1
    requires s.nodes[n].commitIndex == 0
    requires forall f :: f in vs ==>
               f in s.nodes && s.nodes[f].log == [SENTINEL] && CanAppend(s.nodes[n], s.nodes[f])
    requires WillTake(s.nodes[n], s.nodes[b]) && Took(rules, s.nodes[n], s.nodes[b], t.nodes[b])
    requires Taken(rules, s.nodes[n], s.nodes[b]) == [SENTINEL, first] && b in vs
    ensures forall f {:trigger t.nodes[f]} :: f in vs ==>
              && f in t.nodes && CanAppend(s.nodes[n], t.nodes[f])
              && t.nodes[f].log == if f == b then [SENTINEL, first] else [SENTINEL]
  {
    forall f | f in vs
      ensures f in t.nodes && CanAppend(s.nodes[n], t.nodes[f])
      ensures t.nodes[f].log == if f == b then [SENTINEL, first] else [SENTINEL]
    {
      assert CanAppend(s.nodes[n], s.nodes[f]);
    }
  }

  /** The leader writes another command. */
  lemma WriteNext(rules: Rules, path: seq<Cluster>, n: NodeId, vs: set<NodeId>, command: Command)
      returns (longer: seq<Cluster>)
    requires IsPath(rules, path) && Named(Last(path)) && OthersOf(Last(path).members, n, vs)
    requires var x := Last(path).nodes[n];
      && x.role == Leader && x.currentTerm == 1 && x.commitIndex == |x.log| - 1
      && forall f :: f in vs ==> Get(x.nextIndex, f) == |x.log|
    ensures GoesOn(rules, path, longer) && SendsLast(Last(longer), n, vs)
    ensures var x := Last(path).nodes[n]; Last(longer).nodes[n].log == x.log + [LogEntry(1, |x.log|, command)]
    ensures forall f {:trigger Last(longer).nodes[f]} :: f in vs ==>
              f in Last(longer).nodes && Last(longer).nodes[f] == Last(path).nodes[f]
  {
    longer := Write(rules, path, n, command);
    var x, y := Last(path).nodes[n], Last(longer).nodes[n];
    forall f | f in vs ensures Get(y.nextIndex, f) == |y.log| - 1 && AppendEntriesFor(y, f) in Last(longer).net {
      assert Get(x.nextIndex, f) == |x.log|;
    }
  }

  /** The leader has committed its first entry, which b holds twice and the rest of vs once. */
  ghost predicate Duplicated(s: Cluster, n: NodeId, b: NodeId, vs: set<NodeId>, first: LogEntry) {
    && n in s.nodes
    && (var x := s.nodes[n];
        && x.role == Leader && x.currentTerm == 1 && x.log == [SENTINEL, first] && x.commitIndex == 1
        && forall f {:trigger Get(x.nextIndex, f)} :: f in vs ==> Get(x.nextIndex, f) == 2)
    && forall f {:trigger s.nodes[f]} :: f in vs ==>
         && f in s.nodes && s.nodes[f].currentTerm == 1 && s.nodes[f].commitIndex == 0
         && s.nodes[f].log == if f == b then [SENTINEL, first, first] else [SENTINEL, first]
  }

  lemma Duplicate(rules: Rules, members: seq<NodeId>, vs: set<NodeId>, one: Command) returns (run: seq<Cluster>)
    requires !rules.mergeFromFirstNew && ValidMembers(members) && |members| >= 2
    requires OthersOf(members, members[0], vs) && |vs| == |members| / 2 && members[1] in vs
    ensures IsPath(rules, run) && run[0] == Init(members) && Last(run).members == members && Named(Last(run))
    ensures Duplicated(Last(run), members[0], members[1], vs, LogEntry(1, 1, one))
  {
    var start := FirstSent(rules, members, vs, one);
    var mid := TakeEarly(rules, start, members[0], members[1], vs, one);
    run := AppendLast(rules, mid, members[0], vs);
    AppendedTwice(Last(mid), Last(run), members[0], members[1], vs, LogEntry(1, 1, one));
  }

  lemma AppendedTwice(s: Cluster, t: Cluster, n: NodeId, b: NodeId, vs: set<NodeId>, first: LogEntry)
    requires n in s.nodes && s.nodes[n].log == [SENTINEL, first] && LastAppended(s, t, n, vs)
    requires forall f :: f in vs ==>
               f in s.nodes && s.nodes[f].log == if f == b then [SENTINEL, first] else [SENTINEL]
    ensures Duplicated(t, n, b, vs, first)
  {
    forall f | f in vs
      ensures f in t.nodes && t.nodes[f].log == if f == b then [SENTINEL, first, first] else [SENTINEL, first]
    {
      assert t.nodes[f].log == s.nodes[f].log + [first];
    }
  }

  /** The leader has committed both entries, and b, whose log holds the first one twice, the first. */
  ghost predicate Misplaced(s: Cluster, a: NodeId, b: NodeId, first: LogEntry, next: LogEntry) {
    && a in s.nodes && b in s.nodes
    && var x, y := s.nodes[a], s.nodes[b];
      && x.log == [SENTINEL, first, next] && x.commitIndex == 2 && x.currentTerm == 1
      && Get(x.nextIndex, b) == 3 && AppendEntriesFor(x, b) in s.net
      && y.log == [SENTINEL, first, first, next] && y.commitIndex == 1 && y.currentTerm == 1
  }

  lemma NextCanAppend(
    s: Cluster, t: Cluster, n: NodeId, b: NodeId, vs: set<NodeId>, first: LogEntry, two: Command)
    requires first.term == 1 && Duplicated(s, n, b, vs, first) && n in t.nodes && SendsLast(t, n, vs)
    requires t.nodes[n].log == [SENTINEL, first, LogEntry(1, 2, two)]
    requires forall f :: f in vs ==> f in s.nodes && f in t.nodes && t.nodes[f] == s.nodes[f]
    ensures forall f :: f in vs ==> CanAppend(t.nodes[n], t.nodes[f])
  {
    forall f | f in vs ensures CanAppend(t.nodes[n], t.nodes[f]) {
      assert t.nodes[f] == s.nodes[f];
    }
  }

  lemma Misplace(rules: Rules, path: seq<Cluster>, n: NodeId, b: NodeId, vs: set<NodeId>, first: LogEntry, two: Command)
      returns (longer: seq<Cluster>)
    requires !rules.mergeFromFirstNew && IsPath(rules, path) && Named(Last(path))
    requires OthersOf(Last(path).members, n, vs) && |vs| == |Last(path).members| / 2 > 0 && b in vs
    requires first.term == 1 && Duplicated(Last(path), n, b, vs, first)
    ensures GoesOn(rules, path, longer) && Misplaced(Last(longer), n, b, first, LogEntry(1, 2, two))
  {
    var mid := WriteNext(rules, path, n, vs, two);
    NextCanAppend(Last(path), Last(mid), n, b, vs, first, two);
    longer := AppendLast(rules, mid, n, vs);
    assert Last(mid).nodes[b] == Last(path).nodes[b];
    assert Get(Last(longer).nodes[n].nextIndex, b) == 3;
  }

  /** If a redelivered message appends its entries again, then in every cluster of more than one node
      two nodes can commit different entries, carrying any two commands, at index 2. */
  lemma AppendingAllDiverges(rules: Rules, members: seq<NodeId>, one: Command, two: Command) returns (run: seq<Cluster>)
    requires !rules.mergeFromFirstNew && ValidMembers(members) && |members| >= 2
    ensures IsRun(rules, run) && run[0] == Init(members) && Diverged(Last(run), members[0], members[1], 2)
    ensures Last(run).nodes[members[0]].log[2].command == two && Last(run).nodes[members[1]].log[2].command == one
  {
    var a, b := members[0], members[1];
    VotersAre(members, 1, |members| / 2);
    var vs := Voters(members, 1, |members| / 2);
    run := Duplicate(rules, members, vs, one);
    run := Misplace(rules, run, a, b, vs, LogEntry(1, 1, one), two);
    var x, y := Last(run).nodes[a], Last(run).nodes[b];
    assert x.log[3..] == [];
    assert AppendEntriesFor(x, b) == AppendEntries(1, a, b, 2, 1, [], 2);
    run := TakeOne(rules, run, x, b);
    PathIsRun(rules, run, members);
  }

  // ---------------------------------------------------------------- committing an earlier term's entry

  /** Leader n holds one entry, which vs lack or hold another one for. */
  ghost predicate Behind(s: Cluster, n: NodeId, vs: set<NodeId>, entry: LogEntry) {
    && n in s.nodes
    && var x := s.nodes[n];
      && x.role == Leader && x.log == [SENTINEL, entry] && x.commitIndex == 0
      && (forall f {:trigger Get(x.nextIndex, f)} {:trigger AppendEntriesFor(x, f)} :: f in vs ==>
            Get(x.nextIndex, f) == 2 && AppendEntriesFor(x, f) in s.net)
      && forall f :: f in vs ==> f in s.nodes && s.nodes[f].currentTerm == x.currentTerm && Lacks(s.nodes[f].log, entry)
  }

  predicate Lacks(log: Log, entry: LogEntry) {
    1 <= |log| <= 2 && log[0] == SENTINEL && (|log| == 2 ==> log[1].term != entry.term)
  }

  lemma MergeReplaces(rules: Rules, log: Log, entry: LogEntry)
    requires Lacks(log, entry)
    ensures Merge(rules, log, 0, [entry]) == [SENTINEL, entry]
  {
    if |log| == 1 {
      assert FirstConflict(log, 0, [entry], 0) == 1 && FirstNew(log, 0, [entry], 0) == 0;
      assert log == [SENTINEL];
    } else {
      assert FirstConflict(log, 0, [entry], 0) == 0 && FirstNew(log, 0, [entry], 0) == 0;
    }
    assert log[..1] == [SENTINEL] && [entry][0..] == [entry];
  }

  lemma BehindRejects(s: Cluster, n: NodeId, vs: set<NodeId>, entry: LogEntry)
    requires Named(s) && Behind(s, n, vs, entry)
    ensures Rejected(s, n, vs)
  {
    var x := s.nodes[n];
    forall f | f in vs
      ensures f in s.nodes && Get(x.nextIndex, f) == 2 && AppendEntriesFor(x, f) in s.net && WillReject(x, s.nodes[f])
    {
      assert Get(x.nextIndex, f) == 2;
    }
  }

  /** Its message rejected, the leader sends its entry, which all of vs will take. */
  lemma BehindOffered(rules: Rules, s: Cluster, t: Cluster, n: NodeId, vs: set<NodeId>, entry: LogEntry)
    requires Named(s) && OthersOf(s.members, n, vs) && Behind(s, n, vs, entry)
    requires n in t.nodes && t.nodes == s.nodes[n := t.nodes[n]] && MovedBack(s.nodes[n], t.nodes[n], vs)
    requires forall f :: f in vs ==> AppendEntriesFor(t.nodes[n], f) in t.net
    ensures Offered(t, t.nodes[n], vs)
    ensures forall f :: f in vs ==> Taken(rules, t.nodes[n], t.nodes[f]) == [SENTINEL, entry]
  {
    var x := t.nodes[n];
    forall f | f in vs
      ensures f in t.nodes && AppendEntriesFor(x, f) in t.net && WillTake(x, t.nodes[f])
      ensures Taken(rules, x, t.nodes[f]) == [SENTINEL, entry]
    {
      assert t.nodes[f] == s.nodes[f];
      assert Get(x.nextIndex, f) == 1;
      assert x.log[1..] == [entry];
      MergeReplaces(rules, t.nodes[f].log, entry);
    }
  }

  /** Now vs hold the entry, and n has committed it. */
  ghost predicate CaughtUp(s: Cluster, t: Cluster, n: NodeId, vs: set<NodeId>, entry: LogEntry) {
    && n in s.nodes && n in t.nodes && OnlyMoved(s, t, vs + {n})
    && t.nodes[n].log == [SENTINEL, entry] && t.nodes[n].commitIndex == 1
    && t.nodes[n].currentTerm == s.nodes[n].currentTerm
    && forall f {:trigger t.nodes[f]} :: f in vs ==>
         f in t.nodes && t.nodes[f].log == [SENTINEL, entry] && t.nodes[f].currentTerm == s.nodes[n].currentTerm
  }

  lemma CatchUp(rules: Rules, path: seq<Cluster>, n: NodeId, vs: set<NodeId>, entry: LogEntry)
      returns (longer: seq<Cluster>)
    requires !rules.commitOwnTermOnly && IsPath(rules, path) && Named(Last(path))
    requires OthersOf(Last(path).members, n, vs) && |vs| == |Last(path).members| / 2 > 0
    requires Behind(Last(path), n, vs, entry)
    ensures GoesOn(rules, path, longer) && CaughtUp(Last(path), Last(longer), n, vs, entry)
  {
    BehindRejects(Last(path), n, vs, entry);
    var mid := RejectAll(rules, path, n, vs);
    BehindOffered(rules, Last(path), Last(mid), n, vs, entry);
    longer := Replicate(rules, mid, n, vs);
    CaughtUpThen(rules, Last(path), Last(mid), Last(longer), n, vs, entry);
  }

  lemma CaughtUpThen(rules: Rules, s: Cluster, mid: Cluster, t: Cluster, n: NodeId, vs: set<NodeId>, entry: LogEntry)
    requires n in s.nodes && n in mid.nodes && n !in vs && mid.nodes == s.nodes[n := mid.nodes[n]]
    requires mid.nodes[n].log == [SENTINEL, entry] && mid.nodes[n].currentTerm == s.nodes[n].currentTerm
    requires Offered(mid, mid.nodes[n], vs) && Replicated(rules, mid, t, n, vs)
    requires forall f :: f in vs ==> Taken(rules, mid.nodes[n], mid.nodes[f]) == [SENTINEL, entry]
    requires s.members == mid.members == t.members && s.net <= mid.net <= t.net
    ensures CaughtUp(s, t, n, vs, entry)
  {
    forall f | f in vs
      ensures f in t.nodes && t.nodes[f].log == [SENTINEL, entry] && t.nodes[f].currentTerm == s.nodes[n].currentTerm
    {
      assert Took(rules, mid.nodes[n], mid.nodes[f], t.nodes[f]);
    }
  }

  /** n may run for the next term: its log is `mine`, that of vs is `theirs`, and nobody, w included,
      is ahead of it. */
  ghost predicate Standing(s: Cluster, n: NodeId, w: NodeId, vs: set<NodeId>, term: nat, mine: Log, theirs: Log) {
    && n in s.nodes && w in s.nodes && w in s.members && w != n && w !in vs
    && s.nodes[n].role == Follower && s.nodes[n].currentTerm == term && s.nodes[n].log == mine
    && s.nodes[w].currentTerm <= term
    && forall f :: f in vs ==> f in s.nodes && s.nodes[f].currentTerm <= term && s.nodes[f].log == theirs
  }

  lemma StandingVotes(s: Cluster, n: NodeId, w: NodeId, vs: set<NodeId>, term: nat, mine: Log, theirs: Log)
    requires Standing(s, n, w, vs, term, mine, theirs) && vs <= s.nodes.Keys
    requires UpToDate(LastLogInfo(mine).0, LastLogInfo(mine).1, theirs)
    ensures forall v :: v in vs ==> WillVote(s.nodes[n], s.nodes[v])
  {
    forall v | v in vs ensures WillVote(s.nodes[n], s.nodes[v]) {
      assert s.nodes[v].log == theirs;
    }
  }

  /** w has heard of n's term, and may run for the next. */
  ghost predicate Turned(s: Cluster, t: Cluster, n: NodeId, w: NodeId) {
    && n in s.nodes && n in t.nodes && w in s.nodes && w in t.nodes
    && t.nodes[n].currentTerm == s.nodes[n].currentTerm + 1
    && t.nodes[w].commitIndex == s.nodes[w].commitIndex
  }

  lemma WroteVotes(s: Cluster, t: Cluster, n: NodeId, vs: set<NodeId>, command: Command)
    requires Wrote(s, t, n, vs, command) && n !in vs && vs <= s.nodes.Keys
    ensures forall f :: f in vs ==> VotedIn(s, t, f, s.nodes[n].currentTerm + 1, n)
    ensures forall w :: w in s.nodes && w !in vs && w != n ==> w in t.nodes && t.nodes[w] == s.nodes[w]
  {
  }

  lemma WrittenStays(s: Cluster, mid: Cluster, t: Cluster, n: NodeId, w: NodeId, vs: set<NodeId>, command: Command)
    requires Wrote(s, mid, n, vs, command) && s.nodes[n].log == [SENTINEL] && w != n
    requires w in t.nodes && t.nodes == mid.nodes[w := t.nodes[w]]
    ensures n in t.nodes && t.nodes[n].commitIndex == s.nodes[n].commitIndex
    ensures t.nodes[n].log == [SENTINEL, LogEntry(s.nodes[n].currentTerm + 1, 1, command)]
  {
  }

  /** n leads the next term and writes a command. */
  lemma WriteInTurn(rules: Rules, path: seq<Cluster>, n: NodeId, w: NodeId, vs: set<NodeId>, term: nat,
                    command: Command)
      returns (longer: seq<Cluster>)
    requires IsPath(rules, path) && Named(Last(path))
    requires OthersOf(Last(path).members, n, vs) && |vs| == |Last(path).members| / 2 > 0
    requires Standing(Last(path), n, w, vs, term, [SENTINEL], [SENTINEL])
    ensures GoesOn(rules, path, longer) && Turned(Last(path), Last(longer), n, w)
    ensures Standing(Last(longer), w, n, vs, term + 1, Last(path).nodes[w].log, [SENTINEL])
    ensures Last(longer).nodes[n].log == [SENTINEL, LogEntry(term + 1, 1, command)]
    ensures Last(longer).nodes[n].commitIndex == Last(path).nodes[n].commitIndex
  {
    StandingVotes(Last(path), n, w, vs, term, [SENTINEL], [SENTINEL]);
    var mid := LeadAndWrite(rules, path, n, vs, command);
    WroteVotes(Last(path), Last(mid), n, vs, command);
    longer := TurnTo(rules, mid, Last(path), n, w, vs, term, [SENTINEL], [SENTINEL]);
    WrittenStays(Last(path), Last(mid), Last(longer), n, w, vs, command);
  }

  ghost predicate VotedIn(s: Cluster, t: Cluster, f: NodeId, term: nat, n: NodeId) {
    f in s.nodes && f in t.nodes && t.nodes[f] == Voted(s.nodes[f], term, n)
  }

  /** w hears the request of n, which vs have granted. */
  lemma TurnTo(rules: Rules, path: seq<Cluster>, s: Cluster, n: NodeId, w: NodeId, vs: set<NodeId>, term: nat,
               mine: Log, theirs: Log)
      returns (longer: seq<Cluster>)
    requires IsPath(rules, path) && Named(Last(path)) && Standing(s, n, w, vs, term, mine, theirs)
    requires n in Last(path).nodes && Last(path).nodes[n].currentTerm == term + 1
    requires w in Last(path).nodes && Last(path).nodes[w] == s.nodes[w] && Last(path).members == s.members
    requires forall f :: f in vs ==> VotedIn(s, Last(path), f, term + 1, n)
    requires Ask(s.nodes[n], w) in Last(path).net && n !in vs
    ensures GoesOn(rules, path, longer) && Turned(s, Last(longer), n, w)
    ensures Last(longer).nodes == Last(path).nodes[w := Last(longer).nodes[w]]
    ensures Standing(Last(longer), w, n, vs, term + 1, s.nodes[w].log, theirs)
  {
    longer := Hear(rules, path, Ask(s.nodes[n], w));
    StandingThen(s, Last(path), Last(longer), n, w, vs, term, mine, theirs);
  }

  lemma StandingThen(s: Cluster, mid: Cluster, t: Cluster, n: NodeId, w: NodeId, vs: set<NodeId>, term: nat,
                     mine: Log, theirs: Log)
    requires Standing(s, n, w, vs, term, mine, theirs) && n !in vs && n in s.members && t.members == s.members
    requires n in mid.nodes && mid.nodes[n].currentTerm == term + 1
    requires forall f :: f in vs ==> VotedIn(s, mid, f, term + 1, n)
    requires w in t.nodes && t.nodes == mid.nodes[w := t.nodes[w]]
    requires t.nodes[w].role == Follower && t.nodes[w].currentTerm == term + 1 && t.nodes[w].log == s.nodes[w].log
    ensures Standing(t, w, n, vs, term + 1, s.nodes[w].log, theirs)
  {
    forall f | f in vs ensures f in t.nodes && t.nodes[f].currentTerm <= term + 1 && t.nodes[f].log == theirs {
      assert VotedIn(s, mid, f, term + 1, n);
    }
  }

  /** n leads the next term, with nothing to write. */
  lemma LeadInTurn(rules: Rules, path: seq<Cluster>, n: NodeId, w: NodeId, vs: set<NodeId>, term: nat, entry: LogEntry,
                   theirs: Log)
      returns (longer: seq<Cluster>)
    requires IsPath(rules, path) && Named(Last(path))
    requires OthersOf(Last(path).members, n, vs) && |vs| == |Last(path).members| / 2 > 0
    requires Standing(Last(path), n, w, vs, term, [SENTINEL, entry], theirs) && Last(path).nodes[n].commitIndex == 0
    requires UpToDate(entry.index, entry.term, theirs) && Lacks(theirs, entry)
    ensures GoesOn(rules, path, longer) && Turned(Last(path), Last(longer), n, w)
    ensures Standing(Last(longer), w, n, vs, term + 1, Last(path).nodes[w].log, theirs)
    ensures Behind(Last(longer), n, vs, entry)
  {
    StandingVotes(Last(path), n, w, vs, term, [SENTINEL, entry], theirs);
    var mid := Elect(rules, path, n, vs);
    longer := TurnTo(rules, mid, Last(path), n, w, vs, term, [SENTINEL, entry], theirs);
    BehindThen(Last(path), Last(mid), Last(longer), n, w, vs, entry, theirs);
  }

  lemma BehindThen(s: Cluster, mid: Cluster, t: Cluster, n: NodeId, w: NodeId, vs: set<NodeId>, entry: LogEntry,
                   theirs: Log)
    requires Named(s) && OthersOf(s.members, n, vs) && Won(s, mid, n, vs) && mid.net <= t.net
    requires s.nodes[n].log == [SENTINEL, entry] && s.nodes[n].commitIndex == 0
    requires w in t.nodes && t.nodes == mid.nodes[w := t.nodes[w]] && w != n && w !in vs
    requires Lacks(theirs, entry) && forall f {:trigger s.nodes[f]} :: f in vs ==> s.nodes[f].log == theirs
    ensures Behind(t, n, vs, entry)
  {
    var x := t.nodes[n];
    forall f | f in vs
      ensures f in t.nodes && t.nodes[f].currentTerm == x.currentTerm && Lacks(t.nodes[f].log, entry)
      ensures Get(x.nextIndex, f) == 2 && AppendEntriesFor(x, f) in t.net
    {
      assert Get(mid.nodes[n].nextIndex, f) == 2;
      assert mid.nodes[f] == Voted(s.nodes[f], x.currentTerm, n);
    }
  }

  /** n leads the next term and commits its old entry. */
  lemma CommitInTurn(rules: Rules, path: seq<Cluster>, n: NodeId, w: NodeId, vs: set<NodeId>, term: nat,
                     entry: LogEntry, theirs: Log)
      returns (longer: seq<Cluster>)
    requires !rules.commitOwnTermOnly && IsPath(rules, path) && Named(Last(path))
    requires OthersOf(Last(path).members, n, vs) && |vs| == |Last(path).members| / 2 > 0
    requires Standing(Last(path), n, w, vs, term, [SENTINEL, entry], theirs) && Last(path).nodes[n].commitIndex == 0
    requires UpToDate(entry.index, entry.term, theirs) && Lacks(theirs, entry)
    ensures GoesOn(rules, path, longer) && Turned(Last(path), Last(longer), n, w)
    ensures Standing(Last(longer), w, n, vs, term + 1, Last(path).nodes[w].log, [SENTINEL, entry])
    ensures Last(longer).nodes[n].log == [SENTINEL, entry] && Last(longer).nodes[n].commitIndex == 1
  {
    var mid := LeadInTurn(rules, path, n, w, vs, term, entry, theirs);
    longer := CatchUp(rules, mid, n, vs, entry);
    StandingCaughtUp(Last(mid), Last(longer), n, w, vs, term + 1, entry, Last(path).nodes[w].log, theirs);
  }

  lemma StandingCaughtUp(s: Cluster, t: Cluster, n: NodeId, w: NodeId, vs: set<NodeId>, term: nat, entry: LogEntry,
                         mine: Log, theirs: Log)
    requires Standing(s, w, n, vs, term, mine, theirs) && CaughtUp(s, t, n, vs, entry) && w !in vs
    ensures Standing(t, w, n, vs, term, mine, [SENTINEL, entry]) && t.nodes[w] == s.nodes[w]
  {
    assert t.nodes[w] == s.nodes[w];
    forall f | f in vs ensures f in t.nodes && t.nodes[f].currentTerm <= term && t.nodes[f].log == [SENTINEL, entry] {
      assert f in t.nodes && t.nodes[f].log == [SENTINEL, entry];
    }
  }

  /** The first node has written in term 1 and the second in term 2, and vs hold neither entry. */
  lemma TwoTermsWritten(rules: Rules, members: seq<NodeId>, vs: set<NodeId>, command: Command)
      returns (run: seq<Cluster>)
    requires ValidMembers(members) && |members| >= 3 && |vs| == |members| / 2
    requires OthersOf(members, members[0], vs) && OthersOf(members, members[1], vs)
    ensures IsPath(rules, run) && run[0] == Init(members) && Last(run).members == members && Named(Last(run))
    ensures Standing(Last(run), members[0], members[1], vs, 2, [SENTINEL, LogEntry(1, 1, command)], [SENTINEL])
    ensures Last(run).nodes[members[1]].log == [SENTINEL, LogEntry(2, 1, command)]
    ensures Last(run).nodes[members[0]].commitIndex == Last(run).nodes[members[1]].commitIndex == 0
  {
    InitNamed(members);
    var start := [Init(members)];
    run := WriteInTurn(rules, start, members[0], members[1], vs, 0, command);
    run := WriteInTurn(rules, run, members[1], members[0], vs, 1, command);
  }

  /** Figure 8 of the Raft paper: if entries of any term may be committed, then in every cluster of
      more than two nodes two nodes can commit different entries at index 1. */
  lemma CommittingAnyTermDiverges(rules: Rules, members: seq<NodeId>, command: Command) returns (run: seq<Cluster>)
    requires !rules.commitOwnTermOnly && ValidMembers(members) && |members| >= 3
    ensures IsRun(rules, run) && run[0] == Init(members) && Diverged(Last(run), members[0], members[1], 1)
  {
    var a, c, first, second := members[0], members[1], LogEntry(1, 1, command), LogEntry(2, 1, command);
    VotersAre(members, 2, |members| / 2);
    var vs := Voters(members, 2, |members| / 2);
    run := TwoTermsWritten(rules, members, vs, command);
    run := CommitInTurn(rules, run, a, c, vs, 2, first, [SENTINEL]);
    run := CommitInTurn(rules, run, c, a, vs, 3, second, [SENTINEL, first]);
    PathIsRun(rules, run, members);
  }

  // ---------------------------------------------------------------- the rules that are safe

  /** Whatever both nodes have committed they have committed alike. */
  ghost predicate SameCommits(x: NodeState, y: NodeState) {
    Agree(x.log, y.log, Min(x.commitIndex, y.commitIndex) + 1)
  }

  /** So for any two nodes at any two times of the run. */
  ghost predicate CommittedAlike(run: seq<Cluster>) {
    forall i, j, u, v ::
      0 <= i < |run| && 0 <= j < |run| && u in run[i].nodes && v in run[j].nodes ==>
        SameCommits(run[i].nodes[u], run[j].nodes[v])
  }

  lemma SoundCommitsAlike(rules: Rules, run: seq<Cluster>)
    requires IsSoundRun(rules, run)
    ensures CommittedAlike(run)
  {
    forall i, j, u, v | 0 <= i < |run| && 0 <= j < |run| && u in run[i].nodes && v in run[j].nodes
      ensures SameCommits(run[i].nodes[u], run[j].nodes[v])
    {
      SoundCommits(rules, run, i, j, u, v);
    }
  }

  lemma SoundCommits(rules: Rules, run: seq<Cluster>, i: nat, j: nat, u: NodeId, v: NodeId)
    requires IsSoundRun(rules, run) && i < |run| && j < |run| && u in run[i].nodes && v in run[j].nodes
    ensures SameCommits(run[i].nodes[u], run[j].nodes[v])
  {
    var k := Min(run[i].nodes[u].commitIndex, run[j].nodes[v].commitIndex);
    if i <= j {
      CommittedPrefixes(rules, run, i, j, u, v, k);
    } else {
      CommittedPrefixes(rules, run, j, i, v, u, k);
    }
  }

  lemma DivergedNotAlike(run: seq<Cluster>, u: NodeId, v: NodeId, k: nat)
    requires |run| > 0 && Diverged(Last(run), u, v, k)
    ensures !CommittedAlike(run)
  {
    assert !SameCommits(run[|run| - 1].nodes[u], run[|run| - 1].nodes[v]);
  }

  lemma UnsoundDiverges(rules: Rules, members: seq<NodeId>) returns (run: seq<Cluster>)
    requires ValidMembers(members) && !Sound(rules, members)
    ensures IsRun(rules, run) && run[0].members == members && !CommittedAlike(run)
  {
    var one, two := Command(CommandPut, "", ""), Command(CommandDelete, "", "");
    if !rules.mergeFromFirstNew {
      run := AppendingAllDiverges(rules, members, one, two);
      DivergedNotAlike(run, members[0], members[1], 2);
    } else if !rules.commitOwnTermOnly && |members| > 2 {
      run := CommittingAnyTermDiverges(rules, members, one);
      DivergedNotAlike(run, members[0], members[1], 1);
    } else {
      run := CountingTwiceDiverges(rules, members, one, two);
      DivergedNotAlike(run, members[0], members[2], 1);
    }
  }

  /** The sound rules are exactly those under which no run commits different entries at one index:
      merging everything is safe in clusters of one node, committing any term in those of at most two,
      and counting votes with an integer in those of at most three. */
  lemma CommitsAlikeExactlyWhen(rules: Rules, members: seq<NodeId>)
    requires ValidMembers(members)
    ensures Sound(rules, members) <==>
      forall run: seq<Cluster> :: IsRun(rules, run) && run[0].members == members ==> CommittedAlike(run)
  {
    if Sound(rules, members) {
      forall run: seq<Cluster> | IsRun(rules, run) && run[0].members == members ensures CommittedAlike(run) {
        SoundCommitsAlike(rules, run);
      }
    } else {
      var run := UnsoundDiverges(rules, members);
      assert !CommittedAlike(run);
    }
  }

  /** The code itself commits alike in every run exactly if there is only one node. */
  lemma CodeCommitsAlikeExactlyWhen(members: seq<NodeId>)
    requires ValidMembers(members)
    ensures |members| == 1 <==>
      forall run: seq<Cluster> :: IsRun(AS_WRITTEN, run) && run[0].members == members ==> CommittedAlike(run)
  {
    CommitsAlikeExactlyWhen(AS_WRITTEN, members);
  }
}
