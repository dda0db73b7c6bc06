/** The names of log segments: both numbers printed in decimal with at least sixteen digits. */
module SegmentNames {
  import opened Strings

  const PREFIX := "wal-"

  const PADDED: nat := 16

  datatype Option<T> = None | Some(value: T)

  function Power10(width: nat): (p: nat)
    ensures p >= 1
  {
    if width == 0 then 1 else 10 * Power10(width - 1)
  }

  function Digit(d: nat): char
    requires d < 10
  {
    "0123456789"[d]
  }

  predicate IsDigit(c: char) { '0' <= c <= '9' }

  function DigitCount(n: nat): nat {
    if n < 10 then 1 else 1 + DigitCount(n / 10)
  }

  /** The last `width` digits of n. */
  function Digits(n: nat, width: nat): (s: string)
    ensures |s| == width
    decreases width
  {
    if width == 0 then "" else Digits(n / 10, width - 1) + [Digit(n % 10)]
  }

  /** A number with at least so many digits. */
  function Padded(n: nat, least: nat): string {
    Digits(n, if DigitCount(n) < least then least else DigitCount(n))
  }

  function Join(prefix: string, index: string, dash: string, term: string): string {
    prefix + index + dash + term
  }

  /** What the format wal-%016d-%016d prints. */
  function Name(index: nat, term: nat): string {
    Join(PREFIX, Padded(index, PADDED), "-", Padded(term, PADDED))
  }

  /** What the verb %d reads: a run of digits, and what follows it. */
  function ScanNumber(s: string, read: nat): (nat, string)
    decreases |s|
  {
    if |s| == 0 || !IsDigit(s[0]) then (read, s)
    else ScanNumber(s[1..], 10 * read + (s[0] - '0') as nat)
  }

  /** What the format %d-%d reads. */
  function ScanNumbers(s: string): Option<(nat, nat)> {
    if |s| == 0 || !IsDigit(s[0]) then None
    else
      var (index, more) := ScanNumber(s, 0);
      if |more| < 2 || more[0] != '-' || !IsDigit(more[1]) then None
      else Some((index, ScanNumber(more[1..], 0).0))
  }

  function ParseName(name: string): Option<(nat, nat)> {
    if PREFIX <= name then ScanNumbers(name[|PREFIX|..]) else None
  }

  // ---------------------------------------------------------------- names are read back

  lemma {:induction false} DigitCountIsEnough(n: nat, width: nat)
    requires width >= DigitCount(n)
    ensures n < Power10(width)
    decreases width
  {
    if n >= 10 { DigitCountIsEnough(n / 10, width - 1); }
    if n < 10 { assert Power10(width) == 10 * Power10(width - 1); }
  }

  lemma {:induction false} DigitCountIsNeeded(n: nat, width: nat)
    requires n < Power10(width) && width >= 1
    ensures DigitCount(n) <= width
    decreases width
  {
    if n >= 10 {
      assert Power10(width) == 10 * Power10(width - 1);
      assert n / 10 < Power10(width - 1);
      DigitCountIsNeeded(n / 10, width - 1);
    }
  }

  /** Digits come one after another, whichever end they are taken from. */
  lemma {:induction false} DigitsAreDigits(n: nat, width: nat)
    ensures forall i :: 0 <= i < width ==> IsDigit(Digits(n, width)[i])
    decreases width
  {
    if width > 0 { DigitsAreDigits(n / 10, width - 1); }
  }

  lemma {:induction false} ScanSplits(s: string, d: char, rest: string, read: nat)
    requires IsDigit(d) && (forall i :: 0 <= i < |s| ==> IsDigit(s[i]))
    ensures ScanNumber(s + [d] + rest, read) == ScanNumber(rest, 10 * ScanNumber(s, read).0 + (d - '0') as nat)
    ensures ScanNumber(s, read).1 == ""
    decreases |s|
  {
    if |s| == 0 {
      assert (s + [d] + rest)[1..] == rest;
    } else {
      ScanSplits(s[1..], d, rest, 10 * read + (s[0] - '0') as nat);
      assert (s + [d] + rest)[1..] == s[1..] + [d] + rest;
    }
  }

  lemma {:induction false} ScanDigits(n: nat, width: nat, rest: string)
    requires n < Power10(width) && (|rest| > 0 ==> !IsDigit(rest[0]))
    ensures ScanNumber(Digits(n, width) + rest, 0) == (n, rest)
    decreases width
  {
    if width == 0 {
      assert Digits(n, 0) + rest == rest;
    } else {
      var front := Digits(n / 10, width - 1);
      ScanDigits(n / 10, width - 1, "");
      assert front + "" == front;
      DigitsAreDigits(n / 10, width - 1);
      ScanSplits(front, Digit(n % 10), rest, 0);
    }
  }

  lemma ScanPadded(n: nat, least: nat, rest: string)
    requires least >= 1 && (|rest| > 0 ==> !IsDigit(rest[0]))
    ensures ScanNumber(Padded(n, least) + rest, 0) == (n, rest)
    ensures |Padded(n, least)| >= 1 && IsDigit(Padded(n, least)[0])
  {
    var width := |Padded(n, least)|;
    DigitCountIsEnough(n, width);
    ScanDigits(n, width, rest);
    DigitsAreDigits(n, width);
  }

  lemma ScanBoth(index: nat, term: nat, least: nat, p: string, q: string)
    requires least >= 1 && p == Padded(index, least) && q == Padded(term, least)
    ensures ScanNumbers(p + ("-" + q)) == Some((index, term))
  {
    var s, more := p + ("-" + q), "-" + q;
    ScanPadded(index, least, more);
    ScanPadded(term, least, "");
    assert q + "" == q;
    assert s[0] == p[0];
    assert more[1] == q[0] && more[1..] == q;
  }

  lemma JoinSplits(prefix: string, index: string, dash: string, term: string)
    ensures Join(prefix, index, dash, term) == prefix + (index + (dash + term))
    ensures Join(prefix, index, dash, term)[|prefix|..] == index + (dash + term)
  {
    assert Join(prefix, index, dash, term) == prefix + (index + (dash + term));
  }

  /** A segment's name gives back the numbers it was made from. */
  lemma NameReadsBack(index: nat, term: nat)
    ensures ParseName(Name(index, term)) == Some((index, term))
  {
    JoinSplits(PREFIX, Padded(index, PADDED), "-", Padded(term, PADDED));
    ScanBoth(index, term, PADDED, Padded(index, PADDED), Padded(term, PADDED));
  }

  lemma DivideTwice(n: nat, p: nat)
    requires p > 0
    ensures n / 10 / p == n / (10 * p)
  {
    var q, s, r := n / 10 / p, n / 10 % p, n % 10;
    assert n == 10 * (p * q + s) + r == (10 * p) * q + (10 * s + r);
    assert 0 <= 10 * s + r < 10 * p;
    QuotientIs(n, 10 * p, q, 10 * s + r);
  }

  lemma QuotientIs(n: nat, d: nat, q: nat, r: nat)
    requires d > 0 && n == d * q + r && r < d
    ensures n / d == q
  {
    var e := n / d - q;
    assert d * e == r - n % d;
    MultipleWithin(d, e);
  }

  lemma MultipleWithin(d: int, e: int)
    requires -d < d * e < d
    ensures e == 0
  {
  }

  lemma {:induction false} DigitAt(n: nat, width: nat, k: nat)
    requires k < width
    ensures Digits(n, width)[k] == Digit(n / Power10(width - 1 - k) % 10)
    decreases width
  {
    if k < width - 1 {
      DigitAt(n / 10, width - 1, k);
      DivideTwice(n, Power10(width - 2 - k));
    }
  }

  /** The character is the digit of n that has so many digits behind it. */
  predicate PrintsDigit(c: char, n: nat, behind: nat) {
    IsDigit(c) && (c - '0') as nat == n / Power10(behind) % 10
  }

  predicate Prints(s: string, n: nat, width: nat) {
    && |s| == width
    && forall k {:trigger s[k]} :: 0 <= k < width ==> PrintsDigit(s[k], n, width - 1 - k)
  }

  lemma PaddedPrints(n: nat, least: nat)
    requires 1 <= least && n < Power10(least)
    ensures Prints(Padded(n, least), n, least)
  {
    DigitCountIsNeeded(n, least);
    DigitsAreDigits(n, least);
    forall k | 0 <= k < least ensures PrintsDigit(Padded(n, least)[k], n, least - 1 - k) {
      DigitAt(n, least, k);
    }
  }

  /** What a name looks like: the sixteen decimal digits of the index, then those of the term. */
  lemma NameLooks(index: nat, term: nat)
    requires Printable(index) && Printable(term)
    ensures var name := Name(index, term);
      && |name| == 37 && name[..4] == "wal-" && Prints(name[4..20], index, 16)
      && name[20] == '-' && Prints(name[21..], term, 16)
  {
    PrintableMeans(index);
    PrintableMeans(term);
    PaddedPrints(index, PADDED);
    PaddedPrints(term, PADDED);
    JoinParts(Padded(index, PADDED), Padded(term, PADDED));
  }

  lemma JoinParts(a: string, b: string)
    requires |a| == |b| == 16
    ensures var name := Join(PREFIX, a, "-", b);
      |name| == 37 && name[..4] == "wal-" && name[4..20] == a && name[20] == '-' && name[21..] == b
  {
  }

  predicate AllDigits(s: string) {
    |s| > 0 && forall i :: 0 <= i < |s| ==> IsDigit(s[i])
  }

  /** The name is the prefix, a number, a dash, another number, and then whatever it likes. */
  ghost predicate NamesNumbers(name: string, a: string, b: string, rest: string) {
    AllDigits(a) && AllDigits(b) && name == PREFIX + (a + ("-" + (b + rest)))
  }

  lemma {:induction false} ScanStops(s: string, read: nat) returns (a: string)
    ensures s == a + ScanNumber(s, read).1 && (forall i :: 0 <= i < |a| ==> IsDigit(a[i]))
    ensures |s| > 0 && IsDigit(s[0]) ==> |a| > 0
    decreases |s|
  {
    if |s| == 0 || !IsDigit(s[0]) {
      a := "";
    } else {
      var more := ScanStops(s[1..], 10 * read + (s[0] - '0') as nat);
      a := [s[0]] + more;
    }
  }

  lemma {:induction false} ScanPast(a: string, rest: string, read: nat)
    requires (forall i :: 0 <= i < |a| ==> IsDigit(a[i])) && (|rest| > 0 ==> !IsDigit(rest[0]))
    ensures ScanNumber(a + rest, read).1 == rest
    decreases |a|
  {
    if |a| == 0 {
      assert a + rest == rest;
    } else {
      assert (a + rest)[1..] == a[1..] + rest;
      ScanPast(a[1..], rest, 10 * read + (a[0] - '0') as nat);
    }
  }

  /** A file is taken for a segment exactly when its name starts like one; what follows does not matter. */
  lemma ParsesExactlyWhen(name: string)
    ensures ParseName(name).Some? <==> exists a, b, rest :: NamesNumbers(name, a, b, rest)
  {
    if ParseName(name).Some? {
      var s := name[|PREFIX|..];
      var more := ScanNumber(s, 0).1;
      var a := ScanStops(s, 0);
      assert more == "-" + ([more[1]] + more[2..]);
      assert name == PREFIX + s;
      assert NamesNumbers(name, a, [more[1]], more[2..]);
    }
    if a, b, rest :| NamesNumbers(name, a, b, rest) {
      var tail := "-" + (b + rest);
      assert name[|PREFIX|..] == a + tail;
      ScanPast(a, tail, 0);
      assert (a + tail)[0] == a[0] && tail[1] == b[0];
    }
  }

  // ---------------------------------------------------------------- names sort as their numbers

  predicate Before(i: nat, t: nat, j: nat, u: nat) { i < j || (i == j && t < u) }

  lemma {:induction false} DigitsOrdered(a: nat, b: nat, width: nat)
    requires a < Power10(width) && b < Power10(width)
    ensures Less(Digits(a, width), Digits(b, width)) <==> a < b
    ensures Digits(a, width) == Digits(b, width) <==> a == b
    decreases width
  {
    if width > 0 {
      var p, q, c, d := Digits(a / 10, width - 1), Digits(b / 10, width - 1), Digit(a % 10), Digit(b % 10);
      DigitsOrdered(a / 10, b / 10, width - 1);
      LessOfParts(p, q, [c], [d]);
      assert c < d <==> a % 10 < b % 10;
      assert (p + [c])[..width - 1] == p && (q + [d])[..width - 1] == q;
    }
  }

  lemma PaddedOrdered(a: nat, b: nat, least: nat)
    requires least >= 1 && a < Power10(least) && b < Power10(least)
    ensures Less(Padded(a, least), Padded(b, least)) <==> a < b
    ensures Padded(a, least) == Padded(b, least) <==> a == b
    ensures |Padded(a, least)| == |Padded(b, least)|
  {
    DigitCountIsNeeded(a, least);
    DigitCountIsNeeded(b, least);
    DigitsOrdered(a, b, least);
  }

  lemma JoinOrdered(prefix: string, a: string, b: string, dash: string, u: string, v: string)
    requires |a| == |b|
    ensures Less(Join(prefix, a, dash, u), Join(prefix, b, dash, v)) <==> Less(a, b) || (a == b && Less(u, v))
  {
    JoinSplits(prefix, a, dash, u);
    JoinSplits(prefix, b, dash, v);
    LessIrreflexive(dash);
    LessIrreflexive(prefix);
    LessOfParts(prefix, prefix, a + (dash + u), b + (dash + v));
    LessOfParts(a, b, dash + u, dash + v);
    LessOfParts(dash, dash, u, v);
  }

  lemma JoinedNumbersOrdered(i: nat, t: nat, j: nat, u: nat, least: nat, prefix: string, dash: string)
    requires least >= 1
    requires i < Power10(least) && t < Power10(least) && j < Power10(least) && u < Power10(least)
    ensures Less(Join(prefix, Padded(i, least), dash, Padded(t, least)),
                 Join(prefix, Padded(j, least), dash, Padded(u, least)))
       <==> Before(i, t, j, u)
  {
    PaddedOrdered(i, j, least);
    PaddedOrdered(t, u, least);
    JoinOrdered(prefix, Padded(i, least), Padded(j, least), dash, Padded(t, least), Padded(u, least));
  }

  /** A number that prints in sixteen digits. */
  predicate Printable(n: nat) {
    n < 1_0000_0000_0000_0000
  }

  lemma PrintableMeans(n: nat)
    ensures Printable(n) <==> n < Power10(PADDED)
    ensures Power10(PADDED) == 1_0000_0000_0000_0000
  {
    assert Power10(2) == 100 && Power10(4) == 1_0000 && Power10(6) == 100_0000 && Power10(8) == 1_0000_0000;
    assert Power10(10) == 100_0000_0000 && Power10(12) == 1_0000_0000_0000 && Power10(14) == 100_0000_0000_0000;
  }

  /** Below ten to the sixteenth, the directory lists segments by index, then by term. */
  lemma NamesOrdered(i: nat, t: nat, j: nat, u: nat)
    requires Printable(i) && Printable(t) && Printable(j) && Printable(u)
    ensures Less(Name(i, t), Name(j, u)) <==> Before(i, t, j, u)
  {
    PrintableMeans(i);
    PrintableMeans(t);
    PrintableMeans(j);
    PrintableMeans(u);
    JoinedNumbersOrdered(i, t, j, u, PADDED, PREFIX, "-");
  }

  lemma {:induction false} PowerDigits(width: nat)
    ensures DigitCount(Power10(width)) == width + 1
    ensures width >= 1 ==> DigitCount(Power10(width) - 1) == width
    ensures Digits(Power10(width), width + 1)[0] == '1'
    ensures width >= 1 ==> Digits(Power10(width) - 1, width)[0] == '9'
    decreases width
  {
    if width > 0 {
      PowerDigits(width - 1);
      assert Power10(width) / 10 == Power10(width - 1);
      assert (Power10(width) - 1) / 10 == Power10(width - 1) - 1;
      assert Digits(Power10(width), width + 1) == Digits(Power10(width - 1), width) + [Digit(0)];
    }
  }

  lemma OneMoreDigitMisplaced(t: nat, u: nat, least: nat, prefix: string, dash: string)
    requires least >= 1
    ensures Less(Join(prefix, Padded(Power10(least), least), dash, Padded(u, least)),
                 Join(prefix, Padded(Power10(least) - 1, least), dash, Padded(t, least)))
  {
    PowerDigits(least);
    var a, b := Padded(Power10(least), least), Padded(Power10(least) - 1, least);
    JoinSplits(prefix, a, dash, Padded(u, least));
    JoinSplits(prefix, b, dash, Padded(t, least));
    LessIrreflexive(prefix);
    LessOfParts(prefix, prefix, a + (dash + Padded(u, least)), b + (dash + Padded(t, least)));
  }

  /** A seventeenth digit breaks the order: the first index that needs one is listed before its
      predecessor. */
  lemma SeventeenDigitsMisplaced(t: nat, u: nat)
    ensures Less(Name(1_0000_0000_0000_0000, u), Name(9999_9999_9999_9999, t))
  {
    PrintableMeans(0);
    OneMoreDigitMisplaced(t, u, PADDED, PREFIX, "-");
  }
}
