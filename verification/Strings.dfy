/** The order of byte strings, which sorts both the keys of a range and the names in a directory. */
module Strings {

  predicate Less(a: string, b: string) {
    if |b| == 0 then false
    else if |a| == 0 then true
    else a[0] < b[0] || (a[0] == b[0] && Less(a[1..], b[1..]))
  }

  predicate AtMost(a: string, b: string) {
    !Less(b, a)
  }

  lemma {:induction false} LessIrreflexive(a: string)
    ensures !Less(a, a)
  {
    if |a| > 0 { LessIrreflexive(a[1..]); }
  }

  lemma {:induction false} LessTransitive(a: string, b: string, c: string)
    requires Less(a, b) && Less(b, c)
    ensures Less(a, c)
  {
    if |a| > 0 && a[0] == b[0] == c[0] { LessTransitive(a[1..], b[1..], c[1..]); }
  }

  lemma {:induction false} LessTotal(a: string, b: string)
    ensures Less(a, b) || a == b || Less(b, a)
  {
    if |a| > 0 && |b| > 0 && a[0] == b[0] {
      LessTotal(a[1..], b[1..]);
      assert a == [a[0]] + a[1..] && b == [b[0]] + b[1..];
    }
  }

  lemma LessAsymmetric(a: string, b: string)
    requires Less(a, b)
    ensures !Less(b, a)
  {
    if Less(b, a) {
      LessTransitive(a, b, a);
      LessIrreflexive(a);
    }
  }

  /** Between strings whose first parts are equally long, the first parts decide before the rest. */
  lemma {:induction false} LessOfParts(a: string, b: string, u: string, v: string)
    requires |a| == |b|
    ensures Less(a + u, b + v) <==> Less(a, b) || (a == b && Less(u, v))
  {
    if |a| == 0 {
      assert a + u == u && b + v == v;
    } else {
      LessOfParts(a[1..], b[1..], u, v);
      assert (a + u)[1..] == a[1..] + u && (b + v)[1..] == b[1..] + v;
      assert a == [a[0]] + a[1..] && b == [b[0]] + b[1..];
    }
  }

  /** The strings share their first n characters, and there a ends or has the smaller character. */
  ghost predicate PartsAt(a: string, b: string, n: nat) {
    n <= |a| && n < |b| && a[..n] == b[..n] && (n == |a| || a[n] < b[n])
  }

  /** The order is the dictionary's: a proper prefix comes first, and otherwise the first character in which
      the strings differ decides. */
  lemma {:induction false} LessExactlyWhen(a: string, b: string)
    ensures Less(a, b) <==> exists n: nat :: PartsAt(a, b, n)
  {
    if |a| == 0 || |b| == 0 || a[0] != b[0] {
      if Less(a, b) { assert PartsAt(a, b, 0); }
      forall n: nat | PartsAt(a, b, n) ensures n == 0 {
        if n > 0 { SharedFirst(a, b, n); }
      }
    } else {
      LessExactlyWhen(a[1..], b[1..]);
      if n: nat :| PartsAt(a[1..], b[1..], n) { PartsOneOn(a, b, n); }
      if n: nat :| PartsAt(a, b, n) { PartsOneBack(a, b, n); }
    }
  }

  lemma SharedFirst(a: string, b: string, n: nat)
    requires PartsAt(a, b, n) && n > 0
    ensures |a| > 0 && |b| > 0 && a[0] == b[0]
  {
    assert a[..n][0] == b[..n][0];
  }

  lemma PartsOneOn(a: string, b: string, n: nat)
    requires |a| > 0 && |b| > 0 && a[0] == b[0] && PartsAt(a[1..], b[1..], n)
    ensures PartsAt(a, b, n + 1)
  {
    assert a[..n + 1] == [a[0]] + a[1..][..n] && b[..n + 1] == [b[0]] + b[1..][..n];
  }

  lemma PartsOneBack(a: string, b: string, n: nat)
    requires |a| > 0 && |b| > 0 && a[0] == b[0] && PartsAt(a, b, n)
    ensures n > 0 && PartsAt(a[1..], b[1..], n - 1)
  {
    assert a[1..][..n - 1] == a[..n][1..] && b[1..][..n - 1] == b[..n][1..];
  }
}
