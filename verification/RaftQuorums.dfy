/** Counting: quorums intersect, and the source's counters count distinct nodes. */
module RaftQuorums {
  import opened RaftTypes
  import opened RaftSteps
  import opened RaftCluster

  lemma {:induction false} MembersSize(members: seq<NodeId>)
    requires forall i, j :: 0 <= i < j < |members| ==> members[i] != members[j]
    ensures |Members(members)| == |members|
  {
    if |members| > 0 {
      var init, last := members[..|members| - 1], members[|members| - 1];
      MembersSize(init);
      assert Members(members) == Members(init) + {last};
    }
  }

  lemma SubsetSize(a: set<NodeId>, b: set<NodeId>)
    requires a <= b
    ensures |a| <= |b|
  {
    assert b == a + (b - a);
  }

  /** Any two quorums of a cluster share a node. */
  lemma QuorumsMeet(members: seq<NodeId>, a: set<NodeId>, b: set<NodeId>) returns (f: NodeId)
    requires ValidMembers(members) && Quorum(members, a) && Quorum(members, b)
    ensures f in a && f in b
  {
    MembersSize(members);
    if a !! b {
      SubsetSize(a + b, Members(members));
      assert false;
    }
    f :| f in a && f in b;
  }

  /** So do a quorum and any half of the nodes. */
  lemma QuorumMeetsHalf(members: seq<NodeId>, a: set<NodeId>, half: set<NodeId>) returns (f: NodeId)
    requires ValidMembers(members) && Quorum(members, a) && half <= Members(members) && 2 * |half| >= |members|
    ensures f in a && f in half
  {
    MembersSize(members);
    if a !! half {
      SubsetSize(a + half, Members(members));
      assert false;
    }
    f :| f in a && f in half;
  }

  /** The nodes among ps that a leader counts for index i, itself included. */
  ghost function ReplicaSet(self: NodeId, ps: set<NodeId>, matchIndex: map<NodeId, nat>, i: nat): set<NodeId> {
    {self} + set p | p in ps && p != self && Get(matchIndex, p) >= i
  }

  lemma ReplicaSetGrows(self: NodeId, ps: set<NodeId>, p: NodeId, matchIndex: map<NodeId, nat>, i: nat)
    requires p !in ps
    ensures |ReplicaSet(self, ps + {p}, matchIndex, i)|
         == |ReplicaSet(self, ps, matchIndex, i)| + if p != self && Get(matchIndex, p) >= i then 1 else 0
  {
    var rest := ReplicaSet(self, ps, matchIndex, i);
    if p != self && Get(matchIndex, p) >= i {
      assert ReplicaSet(self, ps + {p}, matchIndex, i) == rest + {p};
    } else {
      assert ReplicaSet(self, ps + {p}, matchIndex, i) == rest;
    }
  }

  /** The source's replica counter is the number of distinct nodes that store the entry. */
  lemma {:induction false} ReplicasCounts(self: NodeId, peers: seq<NodeId>, matchIndex: map<NodeId, nat>, i: nat)
    requires forall j, k :: 0 <= j < k < |peers| ==> peers[j] != peers[k]
    ensures Replicas(self, peers, matchIndex, i) == |ReplicaSet(self, Members(peers), matchIndex, i)|
  {
    if |peers| == 0 {
      assert ReplicaSet(self, Members(peers), matchIndex, i) == {self};
    } else {
      var init, p := peers[..|peers| - 1], peers[|peers| - 1];
      ReplicasCounts(self, init, matchIndex, i);
      assert Members(peers) == Members(init) + {p};
      ReplicaSetGrows(self, Members(init), p, matchIndex, i);
    }
  }

  /** What Broadcast sends: one message to each other node, and nothing else. */
  lemma {:induction false} BroadcastReaches(self: NodeId, peers: seq<NodeId>, message: NodeId -> Message, msg: Message)
    ensures msg in Broadcast(self, peers, message) <==> exists to :: to in peers && to != self && msg == message(to)
  {
    if |peers| > 0 {
      var init, last := peers[..|peers| - 1], peers[|peers| - 1];
      BroadcastReaches(self, init, message, msg);
      assert peers == init + [last];
      if msg in Broadcast(self, peers, message) && msg !in Broadcast(self, init, message) {
        assert last in peers && last != self && msg == message(last);
      }
    }
  }

  lemma RequestReaches(x: NodeState, msg: Message) returns (to: NodeId)
    requires msg in RequestVotesTo(x, x.clusterNodes)
    ensures to in x.clusterNodes && to != x.id && msg == RequestVoteFor(x, to)
  {
    BroadcastReaches(x.id, x.clusterNodes, (to: NodeId) => RequestVoteFor(x, to), msg);
    to :| to in x.clusterNodes && to != x.id && msg == RequestVoteFor(x, to);
  }

  lemma {:induction false} ResetProgressValue(
    m: map<NodeId, nat>, self: NodeId, peers: seq<NodeId>, value: nat, p: NodeId)
    ensures Get(ResetProgress(m, self, peers, value), p) == if p in peers && p != self then value else Get(m, p)
  {
    if |peers| > 0 {
      var init, last := peers[..|peers| - 1], peers[|peers| - 1];
      ResetProgressValue(m, self, init, value, p);
      assert peers == init + [last];
    }
  }
}
