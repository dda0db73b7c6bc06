/** Range queries: the keys in order, found by sorting a slice in place. */
module EngineRange {
  import opened Lists
  import opened Strings
  import opened EngineSteps

  // ---------------------------------------------------------------- ordered lists of keys

  predicate Ascending(s: seq<Key>) {
    forall i, j :: 0 <= i < j < |s| ==> Less(s[i], s[j])
  }

  lemma AtMostTransitive(a: Key, b: Key, c: Key)
    requires AtMost(a, b) && AtMost(b, c)
    ensures AtMost(a, c)
  {
    LessTotal(a, b);
    LessTotal(b, c);
    if Less(c, a) {
      if Less(a, b) { LessTransitive(c, a, b); }
      if Less(b, c) { LessTransitive(b, c, a); }
    }
  }

  lemma {:induction false} LeastExists(keys: set<Key>) returns (least: Key)
    requires keys != {}
    ensures least in keys && forall k :: k in keys ==> AtMost(least, k)
  {
    var first :| first in keys;
    LessIrreflexive(first);
    if keys == {first} {
      least := first;
    } else {
      var rest := keys - {first};
      var other := LeastExists(rest);
      least := if Less(first, other) then first else other;
      forall k | k in keys ensures AtMost(least, k) {
        LessIrreflexive(k);
        LessTotal(first, other);
        if k != first {
          assert k in rest;
          if least == first {
            LessAsymmetric(first, other);
            AtMostTransitive(first, other, k);
          }
        }
      }
    }
  }

  /** The keys in order. */
  ghost function InOrder(keys: set<Key>): (s: seq<Key>)
    decreases |keys|
  {
    if keys == {} then []
    else
      assert exists k :: k in keys && forall x :: x in keys ==> AtMost(k, x) by { var l := LeastExists(keys); }
      var least :| least in keys && forall k :: k in keys ==> AtMost(least, k);
      [least] + InOrder(keys - {least})
  }

  lemma LeastFirst(least: Key, rest: seq<Key>)
    requires Ascending(rest) && least !in Elements(rest) && forall k :: k in Elements(rest) ==> AtMost(least, k)
    ensures Ascending([least] + rest) && Elements([least] + rest) == {least} + Elements(rest)
  {
    var s := [least] + rest;
    forall i, j | 0 <= i < j < |s| ensures Less(s[i], s[j]) {
      if i == 0 {
        assert s[j] == rest[j - 1] && rest[j - 1] in Elements(rest);
        LessTotal(least, s[j]);
      }
    }
  }

  lemma {:induction false} InOrderMeans(keys: set<Key>)
    ensures Ascending(InOrder(keys)) && Elements(InOrder(keys)) == keys && |InOrder(keys)| == |keys|
    decreases |keys|
  {
    if keys != {} {
      var s := InOrder(keys);
      var least, rest := s[0], s[1..];
      assert rest == InOrder(keys - {least});
      InOrderMeans(keys - {least});
      LeastFirst(least, rest);
      assert s == [least] + rest;
    }
  }

  lemma NoKeys(s: seq<Key>)
    ensures Elements(s) == {} <==> s == []
  {
    if |s| > 0 { assert s[0] in Elements(s); }
  }

  /** An ascending list is the only one with its keys. */
  lemma {:induction false} OnlyOneOrder(s: seq<Key>, t: seq<Key>)
    requires Ascending(s) && Ascending(t) && Elements(s) == Elements(t)
    ensures s == t
    decreases |s|
  {
    NoKeys(s);
    NoKeys(t);
    if |s| > 0 {
      SameFirst(s, t);
      RestKeys(s);
      RestKeys(t);
      OnlyOneOrder(s[1..], t[1..]);
      assert s == [s[0]] + s[1..] && t == [t[0]] + t[1..];
    }
  }

  lemma SameFirst(s: seq<Key>, t: seq<Key>)
    requires Ascending(s) && Ascending(t) && Elements(s) == Elements(t) && |s| > 0 && |t| > 0
    ensures s[0] == t[0]
  {
    assert s[0] in Elements(t) && t[0] in Elements(s);
    var i :| 0 <= i < |t| && t[i] == s[0];
    var j :| 0 <= j < |s| && s[j] == t[0];
    if i > 0 && j > 0 { LessAsymmetric(s[0], s[j]); }
  }

  lemma RestKeys(s: seq<Key>)
    requires Ascending(s) && |s| > 0
    ensures Elements(s[1..]) == Elements(s) - {s[0]} && Ascending(s[1..])
  {
    LessIrreflexive(s[0]);
    assert s == [s[0]] + s[1..];
    forall k | k in s[1..] ensures k != s[0] {
      var i :| 0 <= i < |s[1..]| && s[1..][i] == k;
      assert Less(s[0], s[i + 1]);
    }
  }

  // ---------------------------------------------------------------- what a range query means

  predicate Within(k: Key, key: Key, rangeEnd: Key) {
    if rangeEnd == "" then k == key else AtMost(key, k) && Less(k, rangeEnd)
  }

  ghost function Matches(data: Data, key: Key, rangeEnd: Key, now: int): set<Key> {
    set k | k in data && !data[k].Expired(now) && Within(k, key, rangeEnd)
  }

  function Limited(n: nat, limit: int): (m: nat)
    ensures m <= n
  {
    if limit > 0 && n > limit then limit else n
  }

  function Items(data: Data, keys: seq<Key>): seq<(Key, KeyValue)>
    requires forall k :: k in keys ==> k in data
  {
    seq(|keys|, i requires 0 <= i < |keys| => assert keys[i] in keys; (keys[i], data[keys[i]]))
  }

  ghost function RangeKeys(data: Data, key: Key, rangeEnd: Key, limit: int, now: int): (s: seq<Key>)
    ensures forall k :: k in s ==> k in data
  {
    var all := InOrder(Matches(data, key, rangeEnd, now));
    InOrderMeans(Matches(data, key, rangeEnd, now));
    var first := all[..Limited(|all|, limit)];
    assert forall k :: k in first ==> k in Elements(all);
    first
  }

  /** A limited query returns the least matching keys, in order: each match is among them or comes
      after every one of them. */
  lemma LimitKeepsLeast(data: Data, key: Key, rangeEnd: Key, limit: int, now: int)
    ensures var first := RangeKeys(data, key, rangeEnd, limit, now);
      var matches := Matches(data, key, rangeEnd, now);
      && Ascending(first) && Elements(first) <= matches
      && |first| == (if 0 < limit < |matches| then limit else |matches|)
      && forall k, x :: k in matches && k !in first && x in first ==> Less(x, k)
  {
    var matches := Matches(data, key, rangeEnd, now);
    InOrderMeans(matches);
    var all := InOrder(matches);
    var first := RangeKeys(data, key, rangeEnd, limit, now);
    forall k | k in Elements(first) ensures k in matches { assert k in Elements(all); }
    forall k, x | k in matches && k !in first && x in first ensures Less(x, k) {
      assert k in Elements(all);
      var i :| 0 <= i < |all| && all[i] == k;
      var j :| 0 <= j < |first| && first[j] == x;
      forall m | 0 <= m < |first| ensures all[m] != k { assert first[m] in first; }
      assert all[j] == x;
    }
  }

  /** The key is in memory, readable at the time, and is the one asked for or lies between the ends. */
  predicate Asked(data: Data, k: Key, key: Key, rangeEnd: Key, now: int) {
    && k in data && (data[k].ttl == 0 || now <= data[k].expires)
    && (if rangeEnd == "" then k == key else !Less(k, key) && Less(k, rangeEnd))
  }

  /** A query lists, in ascending order of keys, keys that are asked for, each with its own entry; without a
      limit it lists them all. */
  lemma RangeListsExactly(data: Data, key: Key, rangeEnd: Key, limit: int, now: int)
    ensures var items := Items(data, RangeKeys(data, key, rangeEnd, limit, now));
      && (forall i :: 0 <= i < |items| ==>
            Asked(data, items[i].0, key, rangeEnd, now) && items[i].1 == data[items[i].0])
      && (forall i, j :: 0 <= i < j < |items| ==> Less(items[i].0, items[j].0))
      && (limit <= 0 ==> forall k :: Asked(data, k, key, rangeEnd, now) ==> (k, data[k]) in items)
  {
    LimitKeepsLeast(data, key, rangeEnd, limit, now);
    var matches, keys := Matches(data, key, rangeEnd, now), RangeKeys(data, key, rangeEnd, limit, now);
    var items := Items(data, keys);
    forall i | 0 <= i < |items| ensures Asked(data, items[i].0, key, rangeEnd, now) {
      assert keys[i] in Elements(keys);
      assert keys[i] in matches;
    }
    if limit <= 0 {
      InOrderMeans(matches);
      forall k | Asked(data, k, key, rangeEnd, now) ensures (k, data[k]) in items {
        assert k in Elements(InOrder(matches));
        var i :| 0 <= i < |keys| && keys[i] == k;
        assert items[i] == (k, data[k]);
      }
    }
  }

  lemma Unlimited(data: Data, key: Key, rangeEnd: Key, now: int)
    ensures RangeKeys(data, key, rangeEnd, 0, now) == InOrder(Matches(data, key, rangeEnd, now))
  {
  }

  lemma OrderJoins(a: set<Key>, b: set<Key>, middle: Key)
    requires forall k :: k in a ==> Less(k, middle)
    requires forall k :: k in b ==> AtMost(middle, k)
    ensures InOrder(a + b) == InOrder(a) + InOrder(b)
  {
    InOrderMeans(a);
    InOrderMeans(b);
    InOrderMeans(a + b);
    JoinAscends(InOrder(a), InOrder(b), middle);
    assert Elements(InOrder(a) + InOrder(b)) == Elements(InOrder(a)) + Elements(InOrder(b));
    OnlyOneOrder(InOrder(a + b), InOrder(a) + InOrder(b));
  }

  lemma MatchesSplit(data: Data, from: Key, middle: Key, to: Key, now: int)
    requires middle != "" && to != "" && AtMost(from, middle) && AtMost(middle, to)
    ensures Matches(data, from, to, now) == Matches(data, from, middle, now) + Matches(data, middle, to, now)
  {
    forall k ensures Within(k, from, to) <==> Within(k, from, middle) || Within(k, middle, to) {
      WithinSplits(k, from, middle, to);
    }
  }

  /** Splitting a range at a key between its ends splits its result, in order. */
  lemma SplitsAt(data: Data, from: Key, middle: Key, to: Key, now: int)
    requires middle != "" && to != "" && AtMost(from, middle) && AtMost(middle, to)
    ensures RangeKeys(data, from, to, 0, now)
         == RangeKeys(data, from, middle, 0, now) + RangeKeys(data, middle, to, 0, now)
  {
    Unlimited(data, from, to, now);
    Unlimited(data, from, middle, now);
    Unlimited(data, middle, to, now);
    MatchesSplit(data, from, middle, to, now);
    OrderJoins(Matches(data, from, middle, now), Matches(data, middle, to, now), middle);
  }

  lemma WithinSplits(k: Key, from: Key, middle: Key, to: Key)
    requires middle != "" && to != "" && AtMost(from, middle) && AtMost(middle, to)
    ensures Within(k, from, to) <==> Within(k, from, middle) || Within(k, middle, to)
  {
    if Less(k, middle) && !Less(k, to) { AtMostTransitive(middle, to, k); }
    if AtMost(middle, k) { AtMostTransitive(from, middle, k); }
  }

  lemma JoinAscends(s: seq<Key>, t: seq<Key>, middle: Key)
    requires Ascending(s) && Ascending(t)
    requires forall k :: k in Elements(s) ==> Less(k, middle)
    requires forall k :: k in Elements(t) ==> AtMost(middle, k)
    ensures Ascending(s + t)
  {
    var all := s + t;
    forall i, j | 0 <= i < j < |all| ensures Less(all[i], all[j]) {
      if i < |s| <= j {
        assert s[i] in Elements(s) && t[j - |s|] in Elements(t);
        LessTotal(all[i], all[j]);
        if Less(all[j], all[i]) { LessTransitive(all[j], all[i], middle); }
      }
    }
  }

  // ---------------------------------------------------------------- the sort

  predicate SortedUpTo(s: seq<Key>, i: nat)
    requires i <= |s|
  {
    forall p, q :: 0 <= p < i && p < q < |s| ==> AtMost(s[p], s[q])
  }

  predicate LeastSoFar(s: seq<Key>, i: nat, j: nat)
    requires i < |s| && j <= |s|
  {
    forall q :: i < q < j ==> AtMost(s[i], s[q])
  }

  function Swap(s: seq<Key>, i: nat, j: nat): seq<Key>
    requires i < |s| && j < |s|
  {
    s[i := s[j]][j := s[i]]
  }

  lemma SwapKeeps(s: seq<Key>, i: nat, j: nat)
    requires i < j < |s| && SortedUpTo(s, i) && LeastSoFar(s, i, j) && Less(s[j], s[i])
    ensures SortedUpTo(Swap(s, i, j), i) && LeastSoFar(Swap(s, i, j), i, j + 1)
    ensures multiset(Swap(s, i, j)) == multiset(s)
  {
    LessAsymmetric(s[j], s[i]);
    forall q | i < q < j ensures AtMost(s[j], s[q]) {
      AtMostTransitive(s[j], s[i], s[q]);
    }
  }

  /** Each place is exchanged with every later one that holds a smaller key. */
  method ExchangeSort(keys: array<Key>)
    modifies keys
    ensures SortedUpTo(keys[..], keys.Length) && multiset(keys[..]) == multiset(old(keys[..]))
  {
    var i := 0;
    while i < keys.Length - 1
      invariant 0 <= i <= keys.Length && (keys.Length > 0 ==> i < keys.Length)
      invariant SortedUpTo(keys[..], i)
      invariant multiset(keys[..]) == multiset(old(keys[..]))
    {
      var j := i + 1;
      while j < keys.Length
        invariant i < j <= keys.Length
        invariant SortedUpTo(keys[..], i) && LeastSoFar(keys[..], i, j)
        invariant multiset(keys[..]) == multiset(old(keys[..]))
      {
        if Less(keys[j], keys[i]) {
          SwapKeeps(keys[..], i, j);
          ghost var swapped := Swap(keys[..], i, j);
          keys[i], keys[j] := keys[j], keys[i];
          assert keys[..] == swapped;
        }
        j := j + 1;
      }
      i := i + 1;
    }
  }

  // ---------------------------------------------------------------- the query

  /** A sorted list without duplicates ascends. */
  lemma SortedAscends(s: seq<Key>, t: seq<Key>)
    requires SortedUpTo(s, |s|) && multiset(s) == multiset(t)
    requires NoDuplicates(t)
    ensures Ascending(s) && Elements(s) == Elements(t)
  {
    forall k ensures k in s <==> k in t { assert k in s <==> k in multiset(s); }
    forall i, j | 0 <= i < j < |s| ensures Less(s[i], s[j]) {
      LessTotal(s[i], s[j]);
      if s[i] == s[j] { TwiceCounted(s, i, j); OnceCounted(t, s[i]); }
    }
  }

  lemma TwiceCounted(s: seq<Key>, i: nat, j: nat)
    requires i < j < |s| && s[i] == s[j]
    ensures multiset(s)[s[i]] >= 2
  {
    assert s == s[..j] + [s[j]] + s[j + 1..];
    assert s[i] in s[..j];
    assert multiset(s[..j])[s[i]] >= 1;
  }

  lemma {:induction false} OnceCounted(t: seq<Key>, k: Key)
    requires NoDuplicates(t)
    ensures multiset(t)[k] <= 1
  {
    if |t| > 0 {
      OnceCounted(t[1..], k);
      assert t == [t[0]] + t[1..];
      if k == t[0] {
        assert k !in t[1..];
        assert multiset(t[1..])[k] == 0;
      }
    }
  }

  method Collect(data: Data, key: Key, rangeEnd: Key, now: int) returns (keys: seq<Key>)
    requires rangeEnd != ""
    ensures Elements(keys) == Matches(data, key, rangeEnd, now)
    ensures NoDuplicates(keys)
  {
    keys := [];
    var left := data.Keys;
    while left != {}
      invariant left <= data.Keys
      invariant Elements(keys) == Matches(data, key, rangeEnd, now) - left
      invariant NoDuplicates(keys)
      decreases |left|
    {
      var k :| k in left;
      left := left - {k};
      if !(data[k].ttl != 0 && now > data[k].expires) && !Less(k, key) && Less(k, rangeEnd) {
        assert k !in Elements(keys);
        assert Elements(keys + [k]) == Elements(keys) + {k};
        keys := keys + [k];
      }
    }
    assert Elements(keys) == Matches(data, key, rangeEnd, now);
  }

  method CollectSorted(data: Data, key: Key, rangeEnd: Key, now: int) returns (keys: array<Key>)
    requires rangeEnd != ""
    ensures fresh(keys) && keys[..] == InOrder(Matches(data, key, rangeEnd, now))
  {
    var found := Collect(data, key, rangeEnd, now);
    keys := new Key[|found|](i requires 0 <= i < |found| => found[i]);
    assert keys[..] == found;
    ExchangeSort(keys);
    SortedAscends(keys[..], found);
    InOrderMeans(Matches(data, key, rangeEnd, now));
    OnlyOneOrder(keys[..], InOrder(Matches(data, key, rangeEnd, now)));
  }

  method CopyFirst(data: Data, keys: array<Key>, maxItems: nat) returns (result: seq<(Key, KeyValue)>)
    requires maxItems <= keys.Length && forall k :: k in keys[..] ==> k in data
    ensures forall k :: k in keys[..maxItems] ==> k in data
    ensures result == Items(data, keys[..maxItems])
  {
    result := [];
    var i := 0;
    while i < maxItems
      invariant 0 <= i <= maxItems
      invariant forall k :: k in keys[..i] ==> k in data
      invariant result == Items(data, keys[..i])
    {
      var k := keys[i];
      assert k in keys[..] && keys[..i + 1] == keys[..i] + [k];
      if k in data { result := result + [(k, data[k])]; }
      i := i + 1;
    }
  }

  /** The first `limit` live keys of the range in order with their entries, and how many there are
      without the limit. */
  method Query(data: Data, key: Key, rangeEnd: Key, limit: int, now: int)
    returns (result: seq<(Key, KeyValue)>, count: nat)
    ensures result == Items(data, RangeKeys(data, key, rangeEnd, limit, now))
    ensures count == |Matches(data, key, rangeEnd, now)|
  {
    InOrderMeans(Matches(data, key, rangeEnd, now));
    if rangeEnd == "" {
      result, count := QueryOne(data, key, limit, now);
    } else {
      var keys := CollectSorted(data, key, rangeEnd, now);
      assert forall k :: k in keys[..] ==> k in Elements(keys[..]);
      count := keys.Length;
      var maxItems := keys.Length;
      if limit > 0 && keys.Length > limit { maxItems := limit; }
      result := CopyFirst(data, keys, maxItems);
    }
  }

  method QueryOne(data: Data, key: Key, limit: int, now: int) returns (result: seq<(Key, KeyValue)>, count: nat)
    ensures result == Items(data, RangeKeys(data, key, "", limit, now))
    ensures count == |Matches(data, key, "", now)|
  {
    ghost var matches := Matches(data, key, "", now);
    InOrderMeans(matches);
    if key in data && !(data[key].ttl != 0 && now > data[key].expires) {
      assert matches == {key};
      OnlyOneOrder([key], InOrder(matches));
      return [(key, data[key])], 1;
    } else {
      assert matches == {};
      return [], 0;
    }
  }
}
