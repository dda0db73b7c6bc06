/** Facts about logs that are all grounded in the logs of past leaders. */
module RaftLogs {
  import opened RaftTypes
  import opened RaftSteps
  import opened RaftCluster

  ghost predicate LeaderLogsOk(elections: map<nat, Election>) {
    forall T {:trigger LogOk(elections, elections[T].log, T)} {:trigger TermsAscend(elections[T].log)} ::
      T in elections ==>
      T > 0 && LogOk(elections, elections[T].log, T) && TermsAscend(elections[T].log)
  }

  /** A grounded log inherits its order from the leaders that wrote it. */
  lemma GroundedAscends(elections: map<nat, Election>, log: Log)
    requires LeaderLogsOk(elections) && WellFormedLog(log) && Grounded(elections, log)
    ensures TermsAscend(log)
  {
    forall i, j | 0 <= i < j < |log| ensures log[i].term <= log[j].term {
      var l := elections[log[j].term].log;
      assert Agree(log, l, j + 1);
      assert TermsAscend(l);
    }
  }

  /** Log matching: equal terms at an index mean equal logs up to it. */
  lemma SameTermAgree(elections: map<nat, Election>, a: Log, b: Log, i: nat)
    requires Grounded(elections, a) && Grounded(elections, b)
    requires 0 < |a| && 0 < |b| && a[0] == b[0]
    requires i < |a| && i < |b| && a[i].term == b[i].term
    ensures Agree(a, b, i + 1)
  {
    if i > 0 {
      var l := elections[a[i].term].log;
      assert Agree(a, l, i + 1) && Agree(b, l, i + 1);
    }
  }

  /** An up-to-date candidate holds whatever its voter holds of an earlier leader's entries, or
      that entry is blocked. */
  lemma UpToDateHolds(s: Cluster, cand: Log, voter: Log, U: nat, T: nat, m: nat)
    requires LeaderLogsOk(s.elections) && Eligible(s, T, m) && s.elections[T].log[m].term == T
    requires LogOk(s.elections, cand, U) && U !in s.elections && WellFormedLog(voter) && Grounded(s.elections, voter)
    requires TermsAscend(voter)
    requires forall t :: T < t < U && t in s.elections ==> Complete(s, t)
    requires UpToDate(LastLogInfo(cand).0, LastLogInfo(cand).1, voter)
    requires Holds(s.elections, voter, T, m)
    ensures Holds(s.elections, cand, T, m) || Blocked(s, T, m)
  {
    var i, j := |cand| - 1, |voter| - 1;
    var t := cand[i].term;
    assert voter[m].term == T;
    assert voter[m].term <= voter[j].term;
    assert i > 0;
    var l := s.elections[t].log;
    assert Agree(cand, l, i + 1);
    if t == voter[j].term {
      assert Agree(voter, l, j + 1);
    } else {
      assert T < t && t != U;
      assert Complete(s, t);
      if !Blocked(s, T, m) {
        assert Agree(l, s.elections[T].log, m + 1);
        assert LogOk(s.elections, s.elections[T].log, T);
      }
    }
  }

  // ---------------------------------------------------------------- the repaired merge

  lemma {:induction false} FirstNewMeaning(log: Log, prev: nat, entries: seq<LogEntry>, i: nat)
    requires i <= |entries| && prev + 1 + i <= |log|
    ensures var r := FirstNew(log, prev, entries, i);
      && (forall j :: prev + 1 + i <= j < prev + 1 + r ==> log[j].term == entries[j - prev - 1].term)
      && (r < |entries| ==> prev + 1 + r == |log| || log[prev + 1 + r].term != entries[r].term)
    decreases |entries| - i
  {
    if !(i == |entries| || prev + 1 + i == |log| || log[prev + 1 + i].term != entries[i].term) {
      FirstNewMeaning(log, prev, entries, i + 1);
    }
  }

  /** The first new entry is the first place where the log and the leader's log part. */
  lemma FirstNewAgree(elections: map<nat, Election>, log: Log, leader: Log, prev: nat, prevTerm: nat,
                      entries: seq<LogEntry>)
    requires Grounded(elections, log) && Grounded(elections, leader)
    requires 0 < |log| && 0 < |leader| && log[0] == leader[0]
    requires Matches(log, prev, prevTerm) && SliceOf(leader, prev, prevTerm, entries)
    ensures prev < |log|
    ensures var d := prev + 1 + FirstNew(log, prev, entries, 0);
      && Agree(log, leader, d)
      && (d <= prev + |entries| ==> d == |log| || log[d] != leader[d])
  {
    var r := FirstNew(log, prev, entries, 0);
    var last := prev + r;
    assert log[last].term == leader[last].term by {
      FirstNewMeaning(log, prev, entries, 0);
      if r > 0 { assert entries[r - 1] == leader[last]; }
    }
    SameTermAgree(elections, log, leader, last);
    if r < |entries| {
      assert entries[r] == leader[last + 1];
      FirstNewMeaning(log, prev, entries, 0);
    }
  }

  /** Whatever two logs share ends where they part. */
  lemma AgreementEndsAt(log: Log, leader: Log, merged: Log, d: nat)
    requires Agree(merged, log, d) && Agree(log, leader, d)
    requires d == |log| || (d < |leader| && log[d] != leader[d])
    ensures forall k: nat :: Agree(log, leader, k) ==> Agree(merged, log, k)
  {
    forall k: nat | Agree(log, leader, k) ensures Agree(merged, log, k) {
      assert k <= d;
    }
  }

  /** Merging a slice of a leader's log into a log that matches it at prev: afterwards the two
      agree over the slice, everything they agreed on before is kept, and either nothing changed
      or the result is the leader's log up to the end of the slice. */
  lemma AppendNewMeaning(elections: map<nat, Election>, log: Log, leader: Log, prev: nat, prevTerm: nat,
                         entries: seq<LogEntry>)
    requires Grounded(elections, log) && Grounded(elections, leader)
    requires 0 < |log| && 0 < |leader| && log[0] == leader[0]
    requires Matches(log, prev, prevTerm) && SliceOf(leader, prev, prevTerm, entries)
    ensures prev < |log|
    ensures var merged := AppendNew(log, prev, entries);
      && Agree(merged, leader, prev + 1 + |entries|)
      && (forall k: nat :: Agree(log, leader, k) ==> Agree(merged, log, k))
      && (merged == log || merged == leader[..prev + 1 + |entries|])
  {
    FirstNewAgree(elections, log, leader, prev, prevTerm, entries);
    var r := FirstNew(log, prev, entries, 0);
    if r < |entries| {
      AppendNewIsPrefix(log, leader, prev, prevTerm, entries, r);
      PrefixAgrees(log, leader, prev + 1 + |entries|, prev + 1 + r);
      AgreementEndsAt(log, leader, AppendNew(log, prev, entries), prev + 1 + r);
    } else {
      assert forall k: nat :: Agree(log, leader, k) ==> Agree(log, log, k);
    }
  }

  lemma PrefixAgrees(log: Log, leader: Log, n: nat, d: nat)
    requires d <= n <= |leader| && Agree(log, leader, d)
    ensures Agree(leader[..n], leader, n) && Agree(leader[..n], log, d)
  {
  }

  lemma AppendNewIsPrefix(log: Log, leader: Log, prev: nat, prevTerm: nat, entries: seq<LogEntry>, r: nat)
    requires SliceOf(leader, prev, prevTerm, entries) && prev + 1 + r <= |log| && r < |entries|
    requires Agree(log, leader, prev + 1 + r)
    ensures log[..prev + 1 + r] + entries[r..] == leader[..prev + 1 + |entries|]
  {
    assert log[..prev + 1 + r] == leader[..prev + 1 + r];
    assert entries[r..] == leader[prev + 1 + r..prev + 1 + |entries|];
  }

  /** A message that brings nothing beyond what the log shares with the leader changes nothing:
      an older message never shortens the log. */
  lemma KnownEntriesKept(elections: map<nat, Election>, log: Log, leader: Log, prev: nat, prevTerm: nat,
                         entries: seq<LogEntry>)
    requires Grounded(elections, log) && Grounded(elections, leader)
    requires 0 < |log| && 0 < |leader| && log[0] == leader[0]
    requires SliceOf(leader, prev, prevTerm, entries)
    requires Agree(log, leader, prev + 1 + |entries|)
    ensures AppendNew(log, prev, entries) == log
  {
    FirstNewAgree(elections, log, leader, prev, prevTerm, entries);
  }

  /** Delivering the same message again changes nothing. */
  lemma RedeliveryHarmless(elections: map<nat, Election>, log: Log, leader: Log, prev: nat, prevTerm: nat,
                           entries: seq<LogEntry>)
    requires Grounded(elections, log) && Grounded(elections, leader)
    requires 0 < |log| && 0 < |leader| && log[0] == leader[0]
    requires Matches(log, prev, prevTerm) && SliceOf(leader, prev, prevTerm, entries)
    ensures prev < |log|
    ensures var merged := AppendNew(log, prev, entries);
      |merged| > prev && AppendNew(merged, prev, entries) == merged
  {
    AppendNewMeaning(elections, log, leader, prev, prevTerm, entries);
    var merged := AppendNew(log, prev, entries);
    if merged != log {
      forall i | 0 < i < |merged|
        ensures merged[i].term in elections && Agree(merged, elections[merged[i].term].log, i + 1)
      {
        assert Agree(leader, elections[leader[i].term].log, i + 1);
      }
    }
    KnownEntriesKept(elections, merged, leader, prev, prevTerm, entries);
  }
}
